/** Whole runs of the program (src/core.c driving src/sc.c): events, histories, and the
    invariant of every reachable state. */
module CoreRuns {

  import opened Bytes
  import opened Programs
  import opened Protocol
  import Fsm
  import opened Languages

  // ---- Events and histories ----

  /** One reply that was eaten completely, with the program that ate it. */
  datatype Exchange = Exchange(prog: Program, reply: bytes)

  /** The state of a run: the protocol variables, where the driver loop stands (`asking`:
      past the inner loop, about to fetch a line; `awake`: `selectfd` has just
      reported data), the histories of bytes and lines, and counters for the current round. */
  datatype World = World(
    sc: Sc, asking: bool, awake: bool,
    sent: bytes,            // bytes written to the switch
    typed: bytes,           // those of them that came from the user
    recvd: bytes,           // bytes read from the switch
    shown: bytes,           // text given to the user
    lines: seq<bytes>,      // lines accepted from the user
    done: seq<Exchange>,    // replies eaten completely
    part: bytes,            // bytes eaten of the reply in progress
    calls: nat, got: nat, wrote: nat)  // sc_operate calls, bytes read, bytes typed this round

  datatype Event =
    | Op(rd: Read)          // one sc_operate call; `rd` is what its read returns
    | Show                  // leaving the inner loop: reply and prompt go to the user
    | Line(l: bytes)        // a line from the user goes to sc_write

  const BEGIN := World(INITIAL, false, false, [], [], [], [], [], [], [], 0, 0, 0)

  datatype Outcome = At(w: World) | Abort(why: Why, sent: bytes) | Impossible

  /** The events the driver and its environment allow.  A read returns at least one byte or
      nothing, and the read after a `selectfd` that reported data is not empty. */
  predicate Enabled(w: World, e: Event) {
    match e
    case Op(rd) =>
      && !w.asking && w.sc.mode != Ready
      && (rd.Data? ==> rd.d != [])
      && (w.awake ==> rd != Again)
    case Show => !w.asking && w.sc.mode == Ready
    case Line(l) => w.asking && UserLine(l)
  }

  function Got(w: World, rd: Read): bytes {
    if w.sc.mode == Busy && rd.Data? then rd.d else []
  }

  /** The histories after a call that returned. */
  function Record(w: World, rd: Read, r: Protocol.Op): World
    requires r.Returned?
  {
    w.(sc := r.s,
       awake := !r.ret,
       sent := w.sent + r.sent,
       typed := if w.sc.mode == Writing then w.typed + r.sent else w.typed,
       recvd := w.recvd + Got(w, rd),
       done := if r.ended then w.done + [Exchange(w.sc.cur, w.part)] else w.done,
       part := if r.ended then [] else w.part + r.eaten,
       calls := w.calls + 1,
       got := w.got + |Got(w, rd)|,
       wrote := if w.sc.mode == Writing then w.wrote + |r.sent| else w.wrote)
  }

  function Step(w: World, e: Event): (o: Outcome)
    requires w.sc.Valid()
    ensures o.At? ==> o.w.sc.Valid()
  {
    if !Enabled(w, e) then Impossible
    else match e
      case Op(rd) => (
        match Operate(w.sc, rd)
        case Panicked(why, sent) => Abort(why, sent)
        case Returned(s, ret, sent, eaten, ended) =>
          At(Record(w, rd, Returned(s, ret, sent, eaten, ended))))
      case Show => At(w.(asking := true, shown := w.shown + Shown(w.sc)))
      case Line(l) => (
        match Write(w.sc, l)
        case Panicked(why, sent) => Abort(why, sent)
        case Returned(s, _, _, _, _) =>
          At(w.(sc := s, asking := false, lines := w.lines + [l], calls := 0, got := 0, wrote := 0)))
  }

  // ---- The invariant, clause by clause ----

  /** The mode says which buffers are empty and whether a program is in progress. */
  predicate ModeInv(w: World) {
    var s := w.sc;
    && s.Valid()
    && (s.mode != Busy ==> s.readbuf == [] && w.part == [] && !w.awake)
    && (s.mode == Ready ==> s.writebuf == [])
    && (s.mode == Writing ==> s.writebuf != [])
    && (s.mode != Ready ==> s.outbuf == [])
    && (s.mode == Busy ==> s.Mach().st != Fin(s.cur) && s.Mach().st != Err(s.cur))
    && (w.asking ==> s.mode == Ready)
  }

  /** The read buffer is empty or an incomplete escape sequence: nothing could be eaten now. */
  predicate Stuck(s: Sc) {
    s.readbuf == [] || Fsm.MkTok(s.readbuf) == Fsm.Need
  }

  predicate WouldEnd(s: Sc)
    requires s.Valid()
  {
    Fsm.Probe(TableOf(s.cur), s.Mach())
  }

  /** The no-data latch is only set while waiting for data after a rejected probe, and set
      whenever data is waited for with nothing buffered. */
  predicate LatchInv(w: World) {
    && w.sc.Valid()
    && (w.sc.nodata ==> w.sc.mode == Busy && w.sc.readbuf == [] && !WouldEnd(w.sc) && w.awake)
    && (w.sc.mode == Busy && w.awake && w.sc.readbuf == [] ==> w.sc.nodata)
  }

  /** The program in progress is where the bytes eaten so far lead. */
  predicate TrackInv(w: World) {
    w.sc.Valid() &&
    (w.sc.mode == Busy ==> Stuck(w.sc) && Reads(w.sc.cur, w.part, w.sc.Mach()))
  }

  function Replies(done: seq<Exchange>): bytes {
    if done == [] then [] else Replies(done[..|done| - 1]) + done[|done| - 1].reply
  }

  /** The handshake bytes the login chat has been answered with when it is in a state. */
  function Handshake(st: nat): bytes {
    (if st >= 4 then ANYKEY else []) + (if st >= 5 then REPORT else [])
  }

  /** Nothing is lost: what was read is what was eaten and what is buffered, and what was
      written is the handshake and the lines but for the bytes still queued. */
  predicate ConserveInv(w: World) {
    && w.recvd == Replies(w.done) + w.part + w.sc.readbuf
    && w.sent == Handshake(w.sc.init.st) + w.typed
    && w.typed + w.sc.writebuf == Flatten(w.lines)
    && !w.sc.init.anykey && !w.sc.init.report
  }

  /** The program that eats reply `i`: the login chat, then one reply per typed byte. */
  function ProgramFor(typed: bytes, i: nat): Program
    requires i <= |typed|
  {
    if i == 0 then Init else if typed[i - 1] == NL then Cmdout else Inchar
  }

  /** Lockstep: one complete reply between two typed bytes, in the language of the program
      that the first of them selects. */
  predicate LockstepInv(w: World) {
    && |w.done| == (if w.sc.mode == Busy then |w.typed| else |w.typed| + 1)
    && w.sc.cur == ProgramFor(w.typed, |w.typed|)
    && (forall i :: 0 <= i < |w.done| ==>
          && w.done[i].prog == ProgramFor(w.typed, i)
          && AcceptsReply(w.done[i].prog, w.done[i].reply))
    && (w.done != [] ==> w.sc.init.st == Fin(Init))
    && (w.lines == [] ==> w.sc.cur == Init)
  }

  /** What one complete reply gives the user. */
  function Display(x: Exchange): bytes
    requires AcceptsReply(x.prog, x.reply)
  {
    var m := FinishedReply(x.prog, x.reply);
    match x.prog
    case Init => CStr(m.ps1)
    case Cmdout => CStr(m.out) + CStr(m.ps1)
    case Inchar => []
  }

  /** What of it is kept as output and what as prompt. */
  function Output(x: Exchange): bytes
    requires AcceptsReply(x.prog, x.reply)
  {
    if x.prog == Cmdout then CStr(FinishedReply(x.prog, x.reply).out) else []
  }

  function Prompt(x: Exchange): bytes
    requires AcceptsReply(x.prog, x.reply)
  {
    if x.prog == Inchar then [] else CStr(FinishedReply(x.prog, x.reply).ps1)
  }

  /** The transcript of a sequence of complete replies. */
  function Transcript(done: seq<Exchange>): bytes {
    if done == [] then []
    else
      var x := done[|done| - 1];
      Transcript(done[..|done| - 1]) + if AcceptsReply(x.prog, x.reply) then Display(x) else []
  }

  /** What is ready for the user but not shown yet. */
  function Pending(w: World): bytes {
    if w.sc.mode == Ready && !w.asking then Shown(w.sc) else []
  }

  /** The user has been shown exactly what the complete replies say. */
  predicate ShownInv(w: World) {
    && w.shown + Pending(w) == Transcript(w.done)
    && (w.sc.writebuf != [] ==> UserLine(w.sc.writebuf))
    && (w.sc.mode == Ready ==> w.sc.cur != Inchar)
    && (w.sc.mode == Busy ==>
        if w.sc.cur == Inchar then w.sc.writebuf != [] else w.sc.writebuf == [])
  }

  /** The budget of `sc_operate` calls in a round. */
  predicate CountInv(w: World) {
    && w.calls <= 2 * w.wrote + 2 * w.got + (if w.lines == [] then 1 else 0)
                  + (if w.awake then 1 else 0) - (if w.sc.mode == Busy then 1 else 0)
    && w.wrote + |w.sc.writebuf| == (if w.lines == [] then 0 else |w.lines[|w.lines| - 1]|)
  }

  predicate Inv(w: World) {
    ModeInv(w) && LatchInv(w) && TrackInv(w) && ConserveInv(w) && LockstepInv(w) && ShownInv(w) && CountInv(w)
  }

  // ---- A call that feeds ----

  lemma ReadsMore(p: Program, part: bytes, a: Fsm.Mach, head: bytes, b: Fsm.Mach)
    requires Reads(p, part, a) && a.st != Err(p)
    requires Fsm.Valid(TableOf(p), a)
    requires Fsm.Feed(TableOf(p), a, head).Fed? && Fsm.Feed(TableOf(p), a, head).n == |head|
    requires Fsm.Same(Fsm.Feed(TableOf(p), a, head).m, b)
    ensures Reads(p, part + head, b)
  {
    hide TableOf, Fsm.Feed, After, Fsm.Lex;
    var t := TableOf(p);
    ReadsIsFed(p, part, a);
    var x := Fsm.Feed(t, START, part).m;
    Fsm.FeedSame(t, a, x, head);
    Fsm.FeedAppend(t, START, part, head);
    assert part[|part|..] + head == head;
    FedReads(p, part + head, b);
  }

  /** Feeding continues what was eaten before, and leaves a residue that is stuck. */
  lemma FeedTracks(p: Program, part: bytes, a: Fsm.Mach, buf: bytes, b: Fsm.Mach)
    requires Reads(p, part, a) && a.st != Fin(p) && a.st != Err(p)
    requires Fsm.Valid(TableOf(p), a) && Fsm.Feed(TableOf(p), a, buf).Fed?
    requires Fsm.Same(b, Fsm.Feed(TableOf(p), a, buf).m)
    ensures var n := Fsm.Feed(TableOf(p), a, buf).n;
            && n <= |buf|
            && Reads(p, part + buf[..n], b)
            && (b.st == Err(p) || n == |buf| || Fsm.MkTok(buf[n..]) == Fsm.Need)
            && b.st != Fin(p)
            && (n == 0 ==> Fsm.Feed(TableOf(p), a, buf).m == a)
  {
    hide TableOf, Fsm.Feed, Reads, Fsm.Fold, Fsm.Lex, Fsm.MkTok;
    var t := TableOf(p);
    TablesClosed(p);
    var r := Fsm.Feed(t, a, buf);
    Fsm.FeedBounds(t, a, buf);
    Fsm.FeedConsumed(t, a, buf);
    ReadsMore(p, part, a, buf[..r.n], b);
    Fsm.FeedResidue(t, a, buf);
    Fsm.FeedRefinesFold(t, a, buf);
    FinNeedsEnd(p, a, Fsm.Lex(buf[..r.n]).units);
  }

  /** Nothing is eaten from a stuck buffer. */
  lemma StuckFeeds(t: Fsm.Table, m: Fsm.Mach, buf: bytes)
    requires Fsm.Valid(t, m) && (buf == [] || Fsm.MkTok(buf) == Fsm.Need)
    ensures Fsm.Feed(t, m, buf) == Fsm.Fed(m, 0)
  {
    hide Fsm.MkTok;
  }

  lemma HandshakeIsPrefix(st: nat)
    ensures Handshake(st) + [] == Handshake(st) <= ANYKEY + REPORT
  {
  }

  /** The login answers the latches of a machine ask for. */
  function Latched(m: Fsm.Mach): bytes {
    (if m.anykey then ANYKEY else []) + (if m.report then REPORT else [])
  }

  /** The login answers sent after a feed are those the states passed call for; after a feed
      that ends in the error state they are still neither repeated nor out of order. */
  lemma FeedAnswers(p: Program, a: Fsm.Mach, buf: bytes)
    requires a.st < States(p) && !a.anykey && !a.report
    ensures Fsm.Valid(TableOf(p), a)
    ensures var r := Fsm.Feed(TableOf(p), a, buf);
            p == Init && r.Fed? ==>
              if r.m.st != Err(p) then Handshake(r.m.st) == Handshake(a.st) + Latched(r.m)
              else Handshake(a.st) + Latched(r.m) <= ANYKEY + REPORT
  {
    hide TableOf, Fsm.Feed, Fsm.Lex, Fsm.Fold, Handshake, Latched, LatchesAt, Fires;
    TablesClosed(p);
    var r := Fsm.Feed(TableOf(p), a, buf);
    if r.Fed? {
      Fsm.FeedRefinesFold(TableOf(p), a, buf);
      var us := Fsm.Lex(buf[..r.n]).units;
      LatchesFireOnce(p, a, us);
      Monotone(p, a, us);
      LatchedIsPassed(p, a, r.m, Fires(p, a, us, Fsm.AnyKey), Fires(p, a, us, Fsm.Report));
    }
  }

  lemma LatchedIsPassed(p: Program, a: Fsm.Mach, r: Fsm.Mach, ak: nat, rp: nat)
    requires p == Init && !a.anykey && !a.report ==> a.st <= r.st < States(p) && LatchesAt(p, a, r, ak, rp)
    ensures p == Init && !a.anykey && !a.report ==>
              if r.st != Err(p) then Handshake(r.st) == Handshake(a.st) + Latched(r)
              else Handshake(a.st) + Latched(r) <= ANYKEY + REPORT
  {
  }

  /** The facts about the protocol state after a call of `oper_busy` that fed bytes. */
  lemma OperFeedFacts(s: Sc, part: bytes, d: bytes)
    requires s.Valid() && s.mode == Busy && s.Mach().st != Fin(s.cur) && s.Mach().st != Err(s.cur)
    requires Reads(s.cur, part, s.Mach()) && Stuck(s)
    requires !s.init.anykey && !s.init.report
    ensures var r := OperFeed(s, s.readbuf + d);
            && (r.Panicked? ==>
                  && (r.why == BadEscape || r.why == FsmError)
                  && if s.cur == Init then Handshake(s.init.st) + r.sent <= ANYKEY + REPORT else r.sent == [])
            && (r.Returned? ==>
                  && r.s.Valid() && r.s == s.With(r.s.Mach()).(nodata := false, readbuf := r.s.readbuf)
                  && r.s.Mach().st != Fin(s.cur) && r.s.Mach().st != Err(s.cur)
                  && Stuck(r.s) && Reads(s.cur, part + r.eaten, r.s.Mach())
                  && r.eaten + r.s.readbuf == s.readbuf + d
                  && Handshake(r.s.init.st) == Handshake(s.init.st) + r.sent
                  && !r.s.init.anykey && !r.s.init.report
                  && !r.ended && (s.cur != Init ==> r.sent == [])
                  && (d == [] ==> !r.ret) && (!r.ret ==> r.eaten == []))
  {
    hide TableOf, Fsm.Feed, Fsm.MkTok, Reads, Handshake, OperFeed;
    TablesClosed(s.cur);
    var t, buf := TableOf(s.cur), s.readbuf + d;
    if d == [] {
      assert buf == s.readbuf;
      StuckFeeds(t, s.Mach(), buf);
    }
    OperFeedByFeed(s, buf);
    var f, r := Fsm.Feed(t, s.Mach(), buf), OperFeed(s, buf);
    HandshakeIsPrefix(s.init.st);
    FeedAnswers(Init, s.init, buf);
    if r.Returned? {
      FeedTracks(s.cur, part, s.Mach(), buf, r.s.Mach());
      assert buf[..f.n] + buf[f.n..] == buf;
      assert f.n == 0 ==> buf[..f.n] == [] && buf[f.n..] == buf;
    }
  }

  /** A feeding call, in terms of what the engine does. */
  lemma OperFeedByFeed(s: Sc, buf: bytes)
    requires s.Valid() && s.Mach().st != Err(s.cur) && !s.init.anykey && !s.init.report
    ensures var r, f := OperFeed(s, buf), Fsm.Feed(TableOf(s.cur), s.Mach(), buf);
            && (r.Panicked? ==>
                  if f.Fed? then
                    && f.m.st == Err(s.cur)
                    && r == Panicked(FsmError, if s.cur == Init then Latched(f.m) else [])
                  else r == Panicked(BadEscape, []))
            && (r.Returned? ==>
                  && f.Fed? && f.n <= |buf| && f.m.st != Err(s.cur)
                  && r.s == s.With(r.s.Mach()).(nodata := false, readbuf := buf[f.n..])
                  && Fsm.Same(r.s.Mach(), f.m)
                  && !r.s.init.anykey && !r.s.init.report && !r.ended
                  && r.eaten == buf[..f.n] && r.ret == (f.n > 0)
                  && r.sent == (if s.cur == Init then Latched(f.m) else []))
  {
    hide TableOf, Fsm.Feed;
    Fsm.FeedBounds(TableOf(s.cur), s.Mach(), buf);
    assert buf[0..] == buf && buf[..0] == [];
  }

  // ---- Every event keeps the invariant ----

  /** The panics that are left: the switch hung up, or what came cannot be used by the current
      program. */
  predicate Legitimate(why: Why) {
    why == ReadEof || why == BadEscape || why == FsmError
  }

  predicate Keeps(o: Outcome) {
    match o
    case At(w) => Inv(w)
    case Abort(why, _) => Legitimate(why)
    case Impossible => true
  }

  lemma FeedKeeps(w: World, rd: Read)
    requires Inv(w) && w.sc.mode == Busy && Enabled(w, Op(rd))
    requires rd != Closed && w.sc.readbuf + Got(w, rd) != []
    ensures Keeps(Step(w, Op(rd)))
  {
    hide Reads, Handshake, Stuck, Replies, Transcript, Flatten, OperFeed, OperEnd, WouldEnd, AcceptsReply, UserLine,
         ConserveInv;
    var s, d := w.sc, Got(w, rd);
    Quiet(w);
    OperFeedFacts(s, w.part, d);
    assert s.readbuf + [] == s.readbuf;
    var r := OperFeed(s, s.readbuf + d);
    assert Operate(s, rd) == r;
    if r.Returned? {
      var v := Record(w, rd, r);
      FeedConserves(w, v, d, r.eaten, r.sent);
      assert ModeInv(v);
      assert LatchInv(v);
      assert TrackInv(v);
      assert LockstepInv(v);
      assert ShownInv(v);
      assert CountInv(v);
    }
  }

  lemma Quiet(w: World)
    requires Inv(w)
    ensures !w.sc.init.anykey && !w.sc.init.report
  {
  }

  lemma FeedConserves(w: World, v: World, d: bytes, eaten: bytes, sent: bytes)
    requires ConserveInv(w)
    requires v.recvd == w.recvd + d && v.done == w.done && v.part == w.part + eaten
    requires eaten + v.sc.readbuf == w.sc.readbuf + d
    requires v.sent == w.sent + sent && v.typed == w.typed && (sent != [] ==> w.typed == [])
    requires Handshake(v.sc.init.st) == Handshake(w.sc.init.st) + sent
    requires v.sc.writebuf == w.sc.writebuf && v.lines == w.lines
    requires !v.sc.init.anykey && !v.sc.init.report
    ensures ConserveInv(v)
  {
    hide Replies, Handshake, Flatten;
    assert v.recvd == Replies(w.done) + w.part + (w.sc.readbuf + d);
    assert v.recvd == Replies(v.done) + v.part + v.sc.readbuf;
  }

  /** Committing the end of data. */
  lemma OperEndFacts(s: Sc, part: bytes)
    requires s.Valid() && s.mode == Busy && s.outbuf == [] && Reads(s.cur, part, s.Mach())
    requires !s.init.anykey && !s.init.report
    ensures var r := OperEnd(s);
            if WouldEnd(s) then
              && r.Returned? && r.ret && r.ended && r.sent == [] && r.eaten == []
              && r.s.Valid() && r.s.nodata == s.nodata && r.s.cur == s.cur
              && r.s.readbuf == s.readbuf && r.s.writebuf == s.writebuf
              && r.s.mode == (if s.writebuf != [] then Writing else Ready)
              && (r.s.mode == Writing ==> r.s.outbuf == [])
              && AcceptsReply(s.cur, part)
              && (r.s.mode == Ready ==>
                    var x := Exchange(s.cur, part);
                    r.s.outbuf == Output(x) && r.s.ps1buf == Prompt(x) && Shown(r.s) == Display(x))
              && (if s.cur == Init then r.s.init.st == Fin(Init) else r.s.init == s.init)
              && Handshake(r.s.init.st) == Handshake(s.init.st)
              && !r.s.init.anykey && !r.s.init.report
            else if s.nodata then r == Panicked(NoData, [])
            else
              && r == Returned(s.(nodata := true), false, [], [], false)
              && r.s.Valid() && !WouldEnd(r.s) && (Stuck(s) ==> Stuck(r.s))
  {
    hide TableOf, Reads, Handshake, AcceptsReply, FinishedReply;
    TablesClosed(s.cur);
    ReadsAccepted(s.cur, part, s.Mach());
    if WouldEnd(s) {
      CommitQuiet(s.cur, s.Mach());
      ShownIsDisplay(s, part);
    }
  }

  lemma CommitQuiet(p: Program, m: Fsm.Mach)
    requires m.st < States(p)
    ensures Fsm.Valid(TableOf(p), m)
    ensures Fsm.Probe(TableOf(p), m) ==>
              var c := Fsm.Commit(TableOf(p), m);
              && c.st == Fin(p) && c.anykey == m.anykey && c.report == m.report
              && (p == Init ==> Handshake(c.st) == Handshake(m.st))
  {
    EndByRow(p, m);
  }

  lemma CStrTwice(s: bytes)
    ensures CStr(CStr(s)) == CStr(s)
  {
    CStrIdentity(CStr(s));
  }

  /** What is handed over at READY is what the reply displays. */
  lemma ShownIsDisplay(s: Sc, part: bytes)
    requires s.Valid() && s.mode == Busy && s.outbuf == [] && Reads(s.cur, part, s.Mach())
    requires WouldEnd(s)
    ensures var r := OperEnd(s);
            r.Returned? && r.s.mode == Ready ==>
              && AcceptsReply(s.cur, part)
              && var x := Exchange(s.cur, part);
              r.s.outbuf == Output(x) && r.s.ps1buf == Prompt(x) && Shown(r.s) == Display(x)
  {
    hide TableOf, Reads, AcceptsReply, FinishedReply, CStr;
    TablesClosed(s.cur);
    ReadsAccepted(s.cur, part, s.Mach());
    var c := Fsm.Commit(TableOf(s.cur), s.Mach());
    CStrTwice(c.out);
    CStrTwice(c.ps1);
    CStrTwice([]);
    CStrEmpty();
  }

  lemma CStrEmpty()
    ensures CStr([]) == []
  {
  }

  lemma EndKeeps(w: World)
    requires Inv(w) && w.sc.mode == Busy && w.sc.readbuf == [] && Enabled(w, Op(Again))
    ensures Keeps(Step(w, Op(Again)))
  {
    hide Reads, Handshake, Stuck, Replies, Transcript, Flatten, OperFeed, OperEnd, WouldEnd, Display, AcceptsReply,
         Shown, Output, Prompt;
    var s := w.sc;
    OperEndFacts(s, w.part);
    var r := OperEnd(s);
    assert Operate(s, Again) == r;
    var v := Record(w, Again, r);
    assert w.part + [] == w.part && w.recvd + [] == w.recvd && w.sent + [] == w.sent;
    assert ModeInv(v);
    assert LatchInv(v);
    assert TrackInv(v);
    EndConserves(w, v);
    assert LockstepInv(v);
    if r.ended {
      TranscriptSnoc(w.done, Exchange(s.cur, w.part));
      EchoIsSilent(w.part);
    }
    assert ShownInv(v);
    assert CountInv(v);
  }

  lemma TranscriptSnoc(done: seq<Exchange>, x: Exchange)
    requires AcceptsReply(x.prog, x.reply)
    ensures Transcript(done + [x]) == Transcript(done) + Display(x)
  {
    assert (done + [x])[..|done|] == done;
  }

  lemma EchoIsSilent(reply: bytes)
    ensures AcceptsReply(Inchar, reply) ==> Display(Exchange(Inchar, reply)) == []
  {
  }

  lemma EndConserves(w: World, v: World)
    requires ConserveInv(w) && w.sc.readbuf == [] && v.sc.readbuf == []
    requires v.recvd == w.recvd + [] && v.lines == w.lines && v.sc.writebuf == w.sc.writebuf
    requires || (v.done == w.done + [Exchange(w.sc.cur, w.part)] && v.part == [])
             || (v.done == w.done && v.part == w.part)
    requires v.sent == w.sent + [] && v.typed == w.typed
    requires Handshake(v.sc.init.st) == Handshake(w.sc.init.st)
    requires !v.sc.init.anykey && !v.sc.init.report
    ensures ConserveInv(v)
  {
    hide Handshake, Flatten;
    assert v.done != w.done ==> v.done[..|v.done| - 1] == w.done;
  }

  /** A program that was just reset has read nothing and waits for data. */
  lemma StartReads(p: Program)
    ensures Reads(p, [], START)
    ensures Fsm.Valid(TableOf(p), START) && Fsm.Feed(TableOf(p), START, []) == Fsm.Fed(START, 0)
  {
    TablesClosed(p);
  }

  lemma UserLineTail(l: bytes)
    requires UserLine(l)
    ensures l[0] == NL <==> l[1..] == []
    ensures l[1..] != [] ==> UserLine(l[1..])
  {
    if l[1..] != [] {
      assert l[0] in l[..|l| - 1];
      assert l[1..][..|l| - 2] == l[..|l| - 1][1..];
    }
  }

  /** The bookkeeping of one byte that goes from the write buffer to the switch. */
  lemma WriteMoves(w: World, v: World, c: byte)
    requires ConserveInv(w) && LockstepInv(w) && w.sc.mode == Writing && v.sc.mode == Busy
    requires w.part == [] && v.part == [] && w.sc.readbuf == v.sc.readbuf
    requires w.sc.writebuf == [c] + v.sc.writebuf
    requires v.typed == w.typed + [c] && v.sent == w.sent + [c] && v.recvd == w.recvd && v.lines == w.lines
    requires v.done == w.done && v.sc.init == w.sc.init && w.lines != []
    requires v.sc.cur == if c == NL then Cmdout else Inchar
    ensures ConserveInv(v) && LockstepInv(v)
  {
    hide Handshake, Replies, Flatten, AcceptsReply;
    assert v.typed + v.sc.writebuf == w.typed + w.sc.writebuf;
    assert forall i :: 0 <= i <= |w.typed| ==> ProgramFor(v.typed, i) == ProgramFor(w.typed, i);
  }

  /** The protocol state after a byte was written. */
  function Restarted(s: Sc): Sc
    requires s.writebuf != []
  {
    var c := s.writebuf[0];
    s.(writebuf := s.writebuf[1..], cur := if c == NL then Cmdout else Inchar).With(START).(mode := Busy)
  }

  lemma WriteStarts(w: World, v: World)
    requires ModeInv(w) && LatchInv(w) && w.sc.mode == Writing && v.sc == Restarted(w.sc)
    requires v.part == [] && !v.awake && v.asking == w.asking
    ensures ModeInv(v) && LatchInv(v) && TrackInv(v)
  {
    hide Reads, Fsm.Feed, TableOf, Fsm.Valid, Fsm.Probe;
    StartReads(v.sc.cur);
  }

  lemma WriteShows(w: World, v: World)
    requires ModeInv(w) && ShownInv(w) && w.sc.mode == Writing && v.sc == Restarted(w.sc)
    requires v.shown == w.shown && v.done == w.done
    ensures ShownInv(v)
  {
    hide Transcript, Shown, UserLine;
    UserLineTail(w.sc.writebuf);
  }

  lemma WriteCounts(w: World, v: World)
    requires CountInv(w) && ModeInv(w) && w.sc.mode == Writing && v.sc == Restarted(w.sc)
    requires v.calls == w.calls + 1 && v.wrote == w.wrote + 1 && v.got == w.got && !v.awake && v.lines == w.lines
    ensures CountInv(v) && w.lines != []
  {
  }

  lemma WriteKeeps(w: World, rd: Read)
    requires Inv(w) && w.sc.mode == Writing && Enabled(w, Op(rd))
    ensures Keeps(Step(w, Op(rd)))
  {
    hide ModeInv, LatchInv, TrackInv, ConserveInv, LockstepInv, ShownInv, CountInv;
    WriteStep(w, rd);
    var v := Step(w, Op(rd)).w;
    WriteStarts(w, v);
    WriteShows(w, v);
    WriteCounts(w, v);
    WriteMoves(w, v, w.sc.writebuf[0]);
  }

  lemma WriteStep(w: World, rd: Read)
    requires ModeInv(w) && w.sc.mode == Writing && Enabled(w, Op(rd))
    ensures w.sc.Valid() && w.sc.writebuf != [] && Step(w, Op(rd)).At?
    ensures var c, v := w.sc.writebuf[0], Step(w, Op(rd)).w;
            && v.sc == Restarted(w.sc) && v.part == [] == w.part && !v.awake && v.asking == w.asking
            && w.sc.writebuf == [c] + v.sc.writebuf && w.sc.readbuf == v.sc.readbuf
            && v.sc.cur == (if c == NL then Cmdout else Inchar) && v.sc.init == w.sc.init && v.sc.mode == Busy
            && v.typed == w.typed + [c] && v.sent == w.sent + [c] && v.recvd == w.recvd
            && v.lines == w.lines && v.shown == w.shown && v.done == w.done
            && v.calls == w.calls + 1 && v.wrote == w.wrote + 1 && v.got == w.got
  {
    assert w.part + [] == [] && w.recvd + [] == w.recvd;
  }

  lemma ShowKeeps(w: World)
    requires Inv(w) && Enabled(w, Show)
    ensures Keeps(Step(w, Show))
  {
    hide Reads, Handshake, Stuck, Replies, Transcript, Flatten, WouldEnd, AcceptsReply, UserLine, Shown;
    assert Step(w, Show).w.shown + [] == w.shown + Shown(w.sc);
  }

  lemma LineKeeps(w: World, l: bytes)
    requires Inv(w) && Enabled(w, Line(l))
    ensures Keeps(Step(w, Line(l)))
  {
    hide Reads, Handshake, Stuck, Replies, Transcript, Flatten, WouldEnd, AcceptsReply, Shown;
    FlattenSnoc(w.lines, l);
    assert w.typed + [] == w.typed;
    var v := Step(w, Line(l)).w;
    assert v.lines[|v.lines| - 1] == l;
    assert ConserveInv(v);
    assert LockstepInv(v);
    assert ShownInv(v);
  }

  /** Every event keeps the invariant, and the only panics are legitimate ones. */
  lemma StepKeeps(w: World, e: Event)
    requires Inv(w)
    ensures Keeps(Step(w, e))
  {
    hide Inv, Step, Keeps;
    if Enabled(w, e) {
      match e
      case Show => ShowKeeps(w);
      case Line(l) => LineKeeps(w, l);
      case Op(rd) =>
        if w.sc.mode == Writing {
          WriteKeeps(w, rd);
        } else if rd == Closed {
          HangUp(w);
        } else if w.sc.readbuf + Got(w, rd) != [] {
          FeedKeeps(w, rd);
        } else {
          EndKeeps(w);
        }
    } else {
      NotEnabled(w, e);
    }
  }

  lemma HangUp(w: World)
    requires Inv(w) && w.sc.mode == Busy && Enabled(w, Op(Closed))
    ensures Keeps(Step(w, Op(Closed)))
  {
  }

  lemma NotEnabled(w: World, e: Event)
    requires Inv(w) && !Enabled(w, e)
    ensures Keeps(Step(w, e))
  {
  }

  lemma BeginInv()
    ensures Inv(BEGIN)
  {
    StartReads(Init);
    EndByRow(Init, START);
  }

  // ---- Runs ----

  /** A run: the states it goes through and the events between them. */
  datatype Trace = Trace(worlds: seq<World>, events: seq<Event>)

  predicate IsRun(tr: Trace) {
    && |tr.worlds| == |tr.events| + 1 && tr.worlds[0] == BEGIN
    && (forall i :: 0 <= i < |tr.worlds| ==> tr.worlds[i].sc.Valid())
    && (forall i :: 0 <= i < |tr.events| ==> Step(tr.worlds[i], tr.events[i]) == At(tr.worlds[i + 1]))
  }

  /** Where a run has got to. */
  function Last(tr: Trace): World {
    if tr.worlds == [] then BEGIN else tr.worlds[|tr.worlds| - 1]
  }

  const NO_EVENTS := Trace([BEGIN], [])

  /** A run that another one starts with. */
  predicate Continues(tr: Trace, next: Trace) {
    tr.worlds <= next.worlds && tr.events <= next.events
  }

  /** The run goes on with an event that does not abort it. */
  function Extend(tr: Trace, e: Event): (r: Trace)
    requires IsRun(tr) && Step(Last(tr), e).At?
    ensures IsRun(r) && At(Last(r)) == Step(Last(tr), e)
  {
    ExtendIsRun(tr, e);
    Trace(tr.worlds + [Step(Last(tr), e).w], tr.events + [e])
  }

  lemma ExtendIsRun(tr: Trace, e: Event)
    requires IsRun(tr) && Step(Last(tr), e).At?
    ensures IsRun(Trace(tr.worlds + [Step(Last(tr), e).w], tr.events + [e]))
  {
    hide Step;
  }

  lemma {:induction false} InvAt(tr: Trace, i: nat)
    requires IsRun(tr) && i < |tr.worlds|
    ensures Inv(tr.worlds[i])
  {
    hide Inv, Step;
    if i == 0 {
      BeginInv();
    } else {
      InvAt(tr, i - 1);
      InvNext(tr.worlds[i - 1], tr.events[i - 1], tr.worlds[i]);
    }
  }

  lemma InvNext(w: World, e: Event, v: World)
    requires w.sc.Valid() && Inv(w) && Step(w, e) == At(v)
    ensures Inv(v)
  {
    hide Inv, Step;
    StepKeeps(w, e);
  }

  /** The protocol invariant holds in every state of every run, and a run can only be
      aborted because the switch hung up or a token came that its program has no use for: the panics "meh", "why isn't
      the outbuf empty here", "line from user didn't end in newline", "cannot operate while
      ready", "attempt to write outside READY state" and "write buffer not empty" are
      unreachable. */
  lemma RunKeeps(tr: Trace)
    requires IsRun(tr)
    ensures Inv(Last(tr))
    ensures forall e :: Step(Last(tr), e).Abort? ==> Legitimate(Step(Last(tr), e).why)
  {
    hide Inv, Step;
    InvAt(tr, |tr.worlds| - 1);
    forall e | Step(Last(tr), e).Abort? ensures Legitimate(Step(Last(tr), e).why) {
      StepKeeps(Last(tr), e);
    }
  }
}
