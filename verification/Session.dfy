/** What whole runs achieve: the login handshake, the call budget, and session transparency. */
module Session {

  import opened Bytes
  import opened Programs
  import opened Protocol
  import Fsm
  import opened Languages
  import opened Prefixes
  import opened CoreRuns

  // ---- Corollaries of the run invariant ----

  /** The protocol invariant in every state of every run. */
  lemma ProtocolInvariant(tr: Trace)
    requires IsRun(tr)
    ensures var w := Last(tr);
            var s := w.sc;
            && s.Valid()
            && (s.mode != Busy ==> s.readbuf == [])
            && (s.mode == Ready ==> s.writebuf == [] && s.cur != Inchar)
            && (s.mode == Writing ==> s.writebuf != [])
            && (s.mode != Ready ==> s.outbuf == [])
            && (s.mode == Busy ==> s.Mach().st != Fin(s.cur) && s.Mach().st != Err(s.cur))
            && (s.nodata <==> s.mode == Busy && s.readbuf == [] && w.awake)
            && (s.nodata ==> !WouldEnd(s))
  {
    RunKeeps(tr);
  }

  /** Lockstep and conservation in every state of every run: what was sent and what is queued
      are the login answers and the accepted lines; what was received was eaten or is
      buffered; and what was eaten falls into one complete reply for the login and one
      between any two typed bytes, each in the language that the typed byte selects. */
  lemma LockstepAndConservation(tr: Trace)
    requires IsRun(tr)
    ensures var w := Last(tr);
            && (w.done != [] ==>
                  w.sent + w.sc.writebuf ==
                  [120] + [27, 91, 57, 57, 57, 57, 59, 49, 51, 48, 82] + Flatten(w.lines))  // x ESC[9999;130R
            && w.recvd == Replies(w.done) + w.part + w.sc.readbuf
            && w.typed + w.sc.writebuf == Flatten(w.lines)
            && |w.done| == (if w.sc.mode == Busy then |w.typed| else |w.typed| + 1)
            && (forall i :: 0 <= i < |w.done| ==>
                  && w.done[i].prog == (if i == 0 then Init else if w.typed[i - 1] == 10 then Cmdout else Inchar)
                  && AcceptsReply(w.done[i].prog, w.done[i].reply))
  {
    hide AcceptsReply, ModeInv, LatchInv, TrackInv, ShownInv, CountInv, Replies, Flatten, IsRun;
    RunKeeps(tr);
    SentIsHandshakeAndLines(Last(tr));
  }

  lemma SentIsHandshakeAndLines(w: World)
    requires ConserveInv(w) && LockstepInv(w)
    ensures w.done != [] ==> w.sent + w.sc.writebuf == ANYKEY + REPORT + Flatten(w.lines)
  {
    hide AcceptsReply, Replies, Flatten;
    assert w.sent + w.sc.writebuf == Handshake(w.sc.init.st) + (w.typed + w.sc.writebuf);
  }

  /** Fragmentation independence of the protocol: however the bytes of a reply were cut up and
      whatever empty reads came between, the current program and the read buffer are those of
      one feed of all bytes received since the last reply to a program just reset, and the
      next bytes are fatal exactly when that one feed finds them so. */
  lemma ReplyIsOneFeed(tr: Trace, d: bytes)
    requires IsRun(tr) && Last(tr).sc.mode == Busy
    ensures var w := Last(tr);
            var s, t := w.sc, TableOf(w.sc.cur);
            && Fsm.Valid(t, START)
            && var now, next := Fsm.Feed(t, START, w.part + s.readbuf), Fsm.Feed(t, START, w.part + s.readbuf + d);
            && now.Fed? && Fsm.Same(now.m, s.Mach()) && now.n == |w.part|
            && (PanicsWith(OperFeed(s, s.readbuf + d), BadEscape) <==> next.Panicked?)
            && (PanicsWith(OperFeed(s, s.readbuf + d), FsmError) <==> next.Fed? && next.m.st == Err(s.cur))
  {
    hide IsRun, ConserveInv, LockstepInv, ShownInv, CountInv, LatchInv;
    RunKeeps(tr);
    OneFeed(Last(tr).sc, Last(tr).part, d);
  }

  lemma OneFeed(s: Sc, part: bytes, d: bytes)
    requires s.Valid() && Reads(s.cur, part, s.Mach()) && Stuck(s) && s.Mach().st != Err(s.cur)
    ensures var t := TableOf(s.cur);
            && Fsm.Valid(t, START)
            && var now, next := Fsm.Feed(t, START, part + s.readbuf), Fsm.Feed(t, START, part + s.readbuf + d);
            && now.Fed? && Fsm.Same(now.m, s.Mach()) && now.n == |part|
            && (PanicsWith(OperFeed(s, s.readbuf + d), BadEscape) <==> next.Panicked?)
            && (PanicsWith(OperFeed(s, s.readbuf + d), FsmError) <==> next.Fed? && next.m.st == Err(s.cur))
  {
    hide TableOf, Fsm.Feed, Fsm.MkTok, OperFeed, Reads, PanicsWith;
    FedSoFar(s.cur, part, s.Mach(), s.readbuf);
    NextFeed(s, part, s.readbuf + d);
    Associative(part, s.readbuf, d);
  }

  /** The next feeding call is fatal exactly when the feed of the whole reply is. */
  lemma NextFeed(s: Sc, part: bytes, buf: bytes)
    requires s.Valid() && Reads(s.cur, part, s.Mach()) && s.Mach().st != Err(s.cur)
    ensures Fsm.Valid(TableOf(s.cur), START)
    ensures var next := Fsm.Feed(TableOf(s.cur), START, part + buf);
            && (PanicsWith(OperFeed(s, buf), BadEscape) <==> next.Panicked?)
            && (PanicsWith(OperFeed(s, buf), FsmError) <==> next.Fed? && next.m.st == Err(s.cur))
  {
    hide TableOf, Fsm.Feed, OperFeed, Reads, PanicsWith;
    FeedAfter(s.cur, part, s.Mach(), buf);
    WhenFatal(s, buf);
  }

  lemma FedSoFar(p: Program, part: bytes, m: Fsm.Mach, buf: bytes)
    requires Reads(p, part, m) && m.st != Err(p) && (buf == [] || Fsm.MkTok(buf) == Fsm.Need)
    ensures Fsm.Valid(TableOf(p), START)
    ensures var now := Fsm.Feed(TableOf(p), START, part + buf);
            now.Fed? && Fsm.Same(now.m, m) && now.n == |part|
  {
    hide TableOf, Fsm.Feed, Fsm.MkTok, Reads;
    FeedAfter(p, part, m, buf);
    StuckFeeds(TableOf(p), m, buf);
  }

  /** The two panics of a feeding call. */
  lemma WhenFatal(s: Sc, buf: bytes)
    requires s.Valid() && s.Mach().st != Err(s.cur)
    ensures var f := Fsm.Feed(TableOf(s.cur), s.Mach(), buf);
            && (PanicsWith(OperFeed(s, buf), BadEscape) <==> f.Panicked?)
            && (PanicsWith(OperFeed(s, buf), FsmError) <==> f.Fed? && f.m.st == Err(s.cur))
  {
    hide TableOf, Fsm.Feed;
    Fsm.FeedBounds(TableOf(s.cur), s.Mach(), buf);
  }

  /** One feed from the start of a reply, in terms of the program that has eaten part of it. */
  lemma FeedAfter(p: Program, part: bytes, m: Fsm.Mach, buf: bytes)
    requires Reads(p, part, m) && m.st != Err(p)
    ensures Fsm.Valid(TableOf(p), START) && Fsm.Valid(TableOf(p), m)
    ensures var all, rest := Fsm.Feed(TableOf(p), START, part + buf), Fsm.Feed(TableOf(p), m, buf);
            && (all.Panicked? <==> rest.Panicked?)
            && (all.Fed? ==> all.n == |part| + rest.n && Fsm.Same(all.m, rest.m))
  {
    hide TableOf, Fsm.Feed, After, Fsm.Lex;
    var t := TableOf(p);
    ReadsIsFed(p, part, m);
    var x := Fsm.Feed(t, START, part).m;
    Fsm.FeedAppend(t, START, part, buf);
    assert part[|part|..] + buf == buf;
    Fsm.FeedSame(t, x, m, buf);
  }

  /** When a call of `oper_busy` panics, exactly: when the switch hung up, and when the bytes
      received since the last reply ended hold a complete token that rules out every reply
      of the current program. */
  lemma AbortExactly(tr: Trace, rd: Read)
    requires IsRun(tr) && Last(tr).sc.mode == Busy && Enabled(Last(tr), Op(rd))
    ensures var w, o := Last(tr), Step(Last(tr), Op(rd));
            && (o.At? <==> rd != Closed && Viable(w.sc.cur, w.part + w.sc.readbuf + Got(w, rd)))
            && !o.Impossible?
            && (o.Abort? ==> if rd == Closed then o.why == ReadEof else o.why == BadEscape || o.why == FsmError)
  {
    hide Inv, Step, Viable, IsRun;
    RunKeeps(tr);
    AbortReason(Last(tr), rd);
    if rd != Closed {
      var w := Last(tr);
      if w.sc.readbuf + Got(w, rd) == [] {
        EndReturns(w, rd);
      } else {
        FeedFatal(w, rd);
      }
    }
  }

  lemma AbortReason(w: World, rd: Read)
    requires Inv(w) && w.sc.mode == Busy && Enabled(w, Op(rd))
    ensures var o := Step(w, Op(rd));
            && !o.Impossible? && (rd == Closed ==> o.Abort?)
            && (o.Abort? ==> if rd == Closed then o.why == ReadEof else o.why == BadEscape || o.why == FsmError)
  {
    hide TrackInv, LatchInv, ConserveInv, LockstepInv, ShownInv, CountInv, OperFeed, OperEnd;
    StepKeeps(w, Op(rd));
    OnlyClosedIsEof(w, rd);
  }

  lemma OnlyClosedIsEof(w: World, rd: Read)
    requires w.sc.Valid() && w.sc.mode == Busy
    ensures Step(w, Op(rd)).Abort? && Step(w, Op(rd)).why == ReadEof ==> rd == Closed
  {
  }

  lemma EndReturns(w: World, rd: Read)
    requires Inv(w) && w.sc.mode == Busy && Enabled(w, Op(rd)) && rd != Closed && w.sc.readbuf + Got(w, rd) == []
    ensures Step(w, Op(rd)).At? && Viable(w.sc.cur, w.part + w.sc.readbuf + Got(w, rd))
  {
    hide Inv, Step, Viable;
    assert rd == Again;
    EndKeeps(w);
    EmptyReadReturns(w);
    PartViable(w);
    assert w.part + w.sc.readbuf + Got(w, rd) == w.part;
  }

  lemma EmptyReadReturns(w: World)
    requires Inv(w) && w.sc.mode == Busy && w.sc.readbuf == [] && Enabled(w, Op(Again))
    ensures Step(w, Op(Again)).At?
  {
    hide Reads, Stuck, WouldEnd, Replies, Transcript, Flatten, OperEnd, AcceptsReply, ConserveInv, LockstepInv,
         CountInv;
    Quiet(w);
    OperEndFacts(w.sc, w.part);
    assert Operate(w.sc, Again) == OperEnd(w.sc);
  }

  lemma PartViable(w: World)
    requires Inv(w) && w.sc.mode == Busy
    ensures Viable(w.sc.cur, w.part)
  {
    hide After, Fsm.Lex, LatchInv, ConserveInv, LockstepInv, ShownInv, CountInv, Viable;
    ViableByState(w.sc.cur, w.part);
  }

  lemma FeedFatal(w: World, rd: Read)
    requires Inv(w) && w.sc.mode == Busy && Enabled(w, Op(rd)) && rd != Closed && w.sc.readbuf + Got(w, rd) != []
    ensures Step(w, Op(rd)).At? <==> Viable(w.sc.cur, w.part + w.sc.readbuf + Got(w, rd))
  {
    hide Reads, Stuck, Replies, Transcript, Flatten, OperFeed, OperEnd, AcceptsReply, ConserveInv, LockstepInv,
         CountInv,
         LatchInv, ShownInv, Viable, TableOf, Fsm.Feed;
    var s, d := w.sc, Got(w, rd);
    assert s.readbuf + [] == s.readbuf;
    assert Operate(s, rd) == OperFeed(s, s.readbuf + d);
    OperFeedByFeed(s, s.readbuf + d) by {
      Quiet(w);
    }
    NextFeed(s, w.part, s.readbuf + d);
    FeedsViable(s.cur, w.part + (s.readbuf + d));
    Associative(w.part, s.readbuf, d);
  }

  /** Login handshake: while the login chat is in progress the bytes sent are a prefix of the
      two answers, even if the next call panics after answering; from the first READY on they
      are both answers followed by what the user typed, and READY is only reached on
      (R+ E+)^4. */
  lemma HandshakeOnce(tr: Trace, rd: Read)
    requires IsRun(tr)
    ensures var w, o := Last(tr), Step(Last(tr), Op(rd));
            o.Abort? ==>
              if w.sc.cur == Init then w.sent + o.sent <= [120] + [27, 91, 57, 57, 57, 57, 59, 49, 51, 48, 82]
              else o.sent == []
    ensures var w := Last(tr);
            && (w.sc.cur == Init ==>
                  w.typed == [] && w.sent <= [120] + [27, 91, 57, 57, 57, 57, 59, 49, 51, 48, 82])
            && (w.done != [] ==>
                  && w.sent == [120] + [27, 91, 57, 57, 57, 57, 59, 49, 51, 48, 82] + w.typed
                  && w.done[0].prog == Init
                  && AcceptsReply(Init, w.done[0].reply)
                  && LoginChat(Runs(Fsm.Lex(w.done[0].reply).units), FinishedReply(Init, w.done[0].reply).ps1))
            && (w.sc.mode != Busy ==> w.done != [])
  {
    hide AcceptsReply, LoginChat, Runs, FinishedReply, Fsm.Lex, Reads, Stuck, WouldEnd, Replies, Transcript, Flatten,
         Step;
    RunKeeps(tr);
    var w := Last(tr);
    SentByPanic(w, rd);
    assert LockstepInv(w) && ConserveInv(w);
    if w.done != [] {
      LoginReply(w.done[0].reply);
    }
  }

  /** What a call that panics has sent by then. */
  lemma SentByPanic(w: World, rd: Read)
    requires Inv(w)
    ensures var o := Step(w, Op(rd));
            o.Abort? ==> if w.sc.cur == Init then w.sent + o.sent <= ANYKEY + REPORT else o.sent == []
  {
    hide Reads, Stuck, WouldEnd, Replies, Transcript, Flatten, OperEnd, OperFeed, Handshake, LockstepInv, ShownInv,
         CountInv, AcceptsReply;
    if Step(w, Op(rd)).Abort? {
      Quiet(w);
      NothingTyped(w);
      HandshakeIsPrefix(w.sc.init.st);
      OperFeedFacts(w.sc, w.part, Got(w, rd));
      assert w.sc.readbuf + [] == w.sc.readbuf;
      OperEndFacts(w.sc, w.part);
    }
  }

  lemma NothingTyped(w: World)
    requires ConserveInv(w) && LockstepInv(w) && CountInv(w)
    ensures w.sc.cur == Init ==> w.sent == Handshake(w.sc.init.st)
  {
    hide Handshake, Replies, Flatten, AcceptsReply;
    assert Handshake(w.sc.init.st) + [] == Handshake(w.sc.init.st);
  }

  lemma LoginReply(reply: bytes)
    requires AcceptsReply(Init, reply)
    ensures LoginChat(Runs(Fsm.Lex(reply).units), FinishedReply(Init, reply).ps1)
  {
    InitLanguage(Fsm.Lex(reply).units);
  }

  /** The panics that no run reaches, and what exactly each of them would take. */
  lemma DefensivePanics(s: Sc, rd: Read, line: bytes)
    requires s.Valid()
    ensures PanicsWith(Operate(s, rd), OperateReady) <==> s.mode == Ready
    ensures PanicsWith(Operate(s, rd), NothingToWrite) <==> s.mode == Writing && s.writebuf == []
    ensures PanicsWith(Operate(s, rd), NotEmptied) <==>
            && s.mode == Busy && s.readbuf == [] && (rd == Again || rd == Data([]))
            && WouldEnd(s) && s.writebuf == [] && s.outbuf != []
    ensures PanicsWith(Write(s, line), WriteNotReady) <==> s.mode != Ready
    ensures PanicsWith(Write(s, line), WriteNotEmpty) <==> s.mode == Ready && s.writebuf != []
  {
    hide TableOf, Fsm.Feed, Fsm.Probe, Fsm.Commit, Fsm.Valid;
    TablesClosed(s.cur);
    if rd.Data? && s.readbuf + rd.d == [] {
      assert s.readbuf == [] && rd.d == [];
    }
  }

  // ---- What is handed over at READY ----

  /** The output and the prompt that wait for the user are those of the last reply. */
  predicate Held(w: World) {
    w.sc.mode == Ready ==>
      && w.done != []
      && var x := w.done[|w.done| - 1];
         AcceptsReply(x.prog, x.reply) && w.sc.outbuf == Output(x) && w.sc.ps1buf == Prompt(x)
  }

  lemma StepHeld(w: World, e: Event, v: World)
    requires Inv(w) && Held(w) && Step(w, e) == At(v)
    ensures Held(v)
  {
    hide AcceptsReply, Output, Prompt, Reads, Stuck, WouldEnd, Replies, Transcript, Flatten, OperFeed, OperEnd,
         Shown, Display,
         Handshake, UserLine;
    if e.Op? && w.sc.mode == Busy {
      var s, d := w.sc, Got(w, e.rd);
      assert s.readbuf + [] == s.readbuf;
      Quiet(w);
      if s.readbuf + d != [] {
        OperFeedFacts(s, w.part, d);
      } else {
        OperEndFacts(s, w.part);
      }
    }
  }

  lemma {:induction false} HeldAt(tr: Trace, i: nat)
    requires IsRun(tr) && i < |tr.worlds|
    ensures Held(tr.worlds[i])
  {
    hide Inv, Step;
    if i > 0 {
      HeldAt(tr, i - 1);
      InvAt(tr, i - 1);
      StepHeld(tr.worlds[i - 1], tr.events[i - 1], tr.worlds[i]);
    }
  }

  /** At READY the reply pointer and the prompt pointer denote, each by itself, the output and
      the prompt of the last complete reply: after the login no output and the fourth block;
      after a command with one block no output and that block; after one with two blocks the
      first and the second. */
  lemma HandedOver(tr: Trace)
    requires IsRun(tr) && Last(tr).sc.mode == Ready
    ensures Last(tr).done != []
    ensures var w := Last(tr);
            var rs := ReplyRuns(w.done[|w.done| - 1].reply);
            if w.sc.cur == Init then
              exists prompt :: LoginChat(rs, prompt) && w.sc.outbuf == [] && w.sc.ps1buf == CStr(prompt)
            else
              && w.sc.cur == Cmdout
              && ((exists p :: OneBlock(rs, p) && w.sc.outbuf == [] && w.sc.ps1buf == CStr(p)) ||
                  (exists o, p :: TwoBlocks(rs, o, p) && w.sc.outbuf == CStr(o) && w.sc.ps1buf == CStr(p)))
  {
    hide AcceptsReply, Runs, LoginChat, OneBlock, TwoBlocks, IsRun, Output, Prompt, ReplyRuns;
    ReadyProgram(tr);
    var w := Last(tr);
    LastHeld(tr);
    var x := w.done[|w.done| - 1];
    if x.prog == Init {
      InitBlocks(x);
    } else {
      CmdoutBlocksOf(x);
    }
  }

  /** The runs a reply falls into. */
  function ReplyRuns(reply: bytes): seq<Languages.Run> {
    if Fsm.Lex(reply).Lexed? then Runs(Fsm.Lex(reply).units) else []
  }

  lemma LastHeld(tr: Trace)
    requires IsRun(tr)
    ensures Held(Last(tr))
  {
    hide Held, Step;
    HeldAt(tr, |tr.worlds| - 1);
  }

  lemma ReadyProgram(tr: Trace)
    requires IsRun(tr) && Last(tr).sc.mode == Ready
    ensures var w := Last(tr);
            w.done != [] && w.done[|w.done| - 1].prog == w.sc.cur && w.sc.cur != Inchar
  {
    hide AcceptsReply, Reads, Replies, Transcript, Flatten, Handshake, IsRun;
    RunKeeps(tr);
  }

  lemma InitBlocks(x: Exchange)
    requires x.prog == Init && AcceptsReply(Init, x.reply)
    ensures exists prompt :: LoginChat(ReplyRuns(x.reply), prompt) && Output(x) == [] && Prompt(x) == CStr(prompt)
  {
    hide Runs, LoginChat, Accepts, Finished, CStr, Fsm.Lex;
    InitLanguage(Fsm.Lex(x.reply).units);
    var prompt := FinishedReply(Init, x.reply).ps1;
    assert LoginChat(ReplyRuns(x.reply), prompt) && Prompt(x) == CStr(prompt);
  }

  lemma CmdoutBlocksOf(x: Exchange)
    requires x.prog == Cmdout && AcceptsReply(Cmdout, x.reply)
    ensures var rs := ReplyRuns(x.reply);
            || (exists p :: OneBlock(rs, p) && Output(x) == [] && Prompt(x) == CStr(p))
            || (exists o, p :: TwoBlocks(rs, o, p) && Output(x) == CStr(o) && Prompt(x) == CStr(p))
  {
    CStrEmpty();
    hide Runs, OneBlock, TwoBlocks, Accepts, Finished, CStr, Fsm.Lex;
    var us := Fsm.Lex(x.reply).units;
    CmdoutLanguage(us);
    CmdoutExtraction(us);
    if p :| OneBlock(Runs(us), p) {
      assert Output(x) == CStr([]) && Prompt(x) == CStr(p);
    } else {
      var o, p :| TwoBlocks(Runs(us), o, p);
      assert Output(x) == CStr(o) && Prompt(x) == CStr(p);
    }
  }

  /** A round trip that reaches READY after a line of n bytes and B received bytes takes at
      most 2n + 2B calls of `sc_operate`; the login takes at most 1 + 2B. */
  lemma RoundTripBound(tr: Trace)
    requires IsRun(tr) && Last(tr).sc.mode == Ready
    ensures var w := Last(tr);
            w.calls <= 2 * w.got + if w.lines == [] then 1 else 2 * |w.lines[|w.lines| - 1]|
  {
    RunKeeps(tr);
  }

  /** The abort "meh" is exactly what an empty read does to a set no-data latch, so it takes a
      read that is empty although `selectfd` reported data. */
  lemma MehNeedsFalseWakeup(tr: Trace)
    requires IsRun(tr) && Last(tr).sc.mode == Busy
    ensures var w := Last(tr);
            && (Operate(w.sc, Again) == Panicked(NoData, []) <==> w.sc.nodata)
            && (w.sc.nodata ==> w.awake)
  {
    hide Reads, Stuck, WouldEnd, Replies, Transcript, Flatten, OperEnd, OperFeed, ConserveInv, LockstepInv, ShownInv;
    RunKeeps(tr);
    var w := Last(tr);
    Quiet(w);
    if w.sc.readbuf == [] {
      OperEndFacts(w.sc, w.part);
    } else {
      OperFeedFacts(w.sc, w.part, []);
      assert w.sc.readbuf + [] == w.sc.readbuf;
    }
  }

  // ---- Sessions with a switch that answers in the three languages ----

  /** One reply for the login and one for every byte of the lines, each in the language of
      the program that will eat it. */
  predicate WellPlanned(lines: seq<bytes>, plan: seq<bytes>) {
    var all := Flatten(lines);
    && |plan| == |all| + 1
    && (forall l :: l in lines ==> UserLine(l))
    && (forall i :: 0 <= i < |plan| ==> AcceptsReply(ProgramFor(all, i), plan[i]))
  }

  /** The user types the given lines.  The switch does not hang up and sends, in pieces of any
      size and with any pauses, the replies due so far. */
  predicate Sends(w: World, e: Event, lines: seq<bytes>, plan: seq<bytes>) {
    match e
    case Show => true
    case Line(l) => |w.lines| < |lines| && l == lines[|w.lines|]
    case Op(rd) =>
      w.sc.mode == Busy ==>
        && rd != Closed
        && (rd.Data? ==> |w.typed| < |plan| && w.recvd + rd.d <= Flatten(plan[..|w.typed| + 1]))
  }

  /** Besides, a read finds nothing with all data eaten at a point where end of data would be
      accepted only when the reply is complete. */
  predicate Cooperative(w: World, e: Event, lines: seq<bytes>, plan: seq<bytes>)
    requires w.sc.Valid()
  {
    && Sends(w, e, lines, plan)
    && (w.sc.mode == Busy && e == Op(Again) && w.sc.readbuf == [] && WouldEnd(w.sc) ==>
          |w.done| < |plan| && w.part == plan[|w.done|])
  }

  /** The run has eaten exactly the planned replies, one after the other. */
  predicate InStep(w: World, lines: seq<bytes>, plan: seq<bytes>) {
    && |w.lines| <= |lines| && w.lines == lines[..|w.lines|]
    && |w.done| <= |plan|
    && (forall i :: 0 <= i < |w.done| ==> w.done[i].reply == plan[i])
    && (w.sc.mode == Busy ==> |w.done| < |plan| && w.part + w.sc.readbuf <= plan[|w.done|])
  }

  predicate LegalRun(tr: Trace, lines: seq<bytes>, plan: seq<bytes>) {
    IsRun(tr) && forall i :: 0 <= i < |tr.events| ==> Cooperative(tr.worlds[i], tr.events[i], lines, plan)
  }

  lemma {:induction false} FlattenPrefix(lines: seq<bytes>, k: nat)
    requires k <= |lines|
    ensures Flatten(lines[..k]) <= Flatten(lines)
  {
    FlattenAppend(lines[..k], lines[k..]);
    assert lines[..k] + lines[k..] == lines;
  }

  lemma {:induction false} RepliesArePlan(done: seq<Exchange>, plan: seq<bytes>)
    requires |done| <= |plan| && forall i :: 0 <= i < |done| ==> done[i].reply == plan[i]
    ensures Replies(done) == Flatten(plan[..|done|])
  {
    if done != [] {
      var k := |done| - 1;
      RepliesArePlan(done[..k], plan);
      assert plan[..|done|][..k] == plan[..k];
    }
  }

  /** The bytes typed select the programs the plan was made for. */
  lemma TypedFollowsLines(w: World, lines: seq<bytes>, plan: seq<bytes>)
    requires ConserveInv(w) && WellPlanned(lines, plan) && InStep(w, lines, plan)
    ensures w.typed + w.sc.writebuf <= Flatten(lines)
    ensures |w.typed| < |plan|
    ensures forall i :: 0 <= i <= |w.typed| ==>
              ProgramFor(w.typed, i) == ProgramFor(Flatten(lines), i) && AcceptsReply(ProgramFor(w.typed, i), plan[i])
  {
    hide AcceptsReply, Flatten;
    FlattenPrefix(lines, |w.lines|);
    var all := Flatten(lines);
    assert w.typed <= all;
    forall i | 0 <= i <= |w.typed| ensures ProgramFor(w.typed, i) == ProgramFor(all, i) {
      assert i > 0 ==> w.typed[i - 1] == all[i - 1];
    }
  }

  /** The program in progress is the one the plan was made for. */
  lemma BusyProgram(w: World, lines: seq<bytes>, plan: seq<bytes>)
    requires Inv(w) && WellPlanned(lines, plan) && InStep(w, lines, plan) && w.sc.mode == Busy
    ensures |w.done| == |w.typed| < |plan| == |Flatten(lines)| + 1
    ensures w.sc.cur == ProgramFor(Flatten(lines), |w.done|)
    ensures AcceptsReply(w.sc.cur, plan[|w.done|])
  {
    hide AcceptsReply, Reads, WouldEnd, Transcript, Flatten, Replies, UserLine, Handshake, WellPlanned, TrackInv,
         LatchInv,
         ShownInv, CountInv;
    PlanLength(lines, plan);
    TypedFollowsLines(w, lines, plan);
  }

  lemma ReceivedInStep(w: World, lines: seq<bytes>, plan: seq<bytes>)
    requires Inv(w) && InStep(w, lines, plan)
    ensures w.recvd == Flatten(plan[..|w.done|]) + (w.part + w.sc.readbuf)
  {
    hide AcceptsReply, Flatten, Replies, Handshake, TrackInv, LatchInv, ShownInv, CountInv, LockstepInv;
    RepliesArePlan(w.done, plan);
    Associative(Replies(w.done), w.part, w.sc.readbuf);
  }

  /** No prefix of a reply in the language is fatal or leads to the error state. */
  lemma PrefixFeeds(p: Program, part: bytes, a: Fsm.Mach, buf: bytes, reply: bytes)
    requires Reads(p, part, a) && a.st != Err(p) && AcceptsReply(p, reply) && part + buf <= reply
    ensures Fsm.Valid(TableOf(p), a)
    ensures var r := Fsm.Feed(TableOf(p), a, buf);
            r.Fed? && r.m.st != Err(p) && (part + buf == reply ==> r.n == |buf|)
  {
    hide TableOf, Fsm.Feed, AcceptsReply, Reads, After, Fsm.Lex;
    var t := TableOf(p);
    TablesClosed(p);
    AcceptedReads(p, reply);
    FeedAfter(p, part, a, buf);
    var rest := reply[|part + buf|..];
    assert part + buf + rest == reply;
    Fsm.FeedAppend(t, START, part + buf, rest);
    var q := Fsm.Feed(t, START, part + buf);
    if q.Fed? {
      ErrorStays(t, q.m, (part + buf)[q.n..] + rest);
    }
  }

  lemma ErrorStays(t: Fsm.Table, m: Fsm.Mach, data: bytes)
    requires Fsm.Valid(t, m)
    ensures m.st == t.errst ==> Fsm.Feed(t, m, data) == Fsm.Fed(m, 0)
  {
  }

  /** Received data continues the reply in progress. */
  lemma DataInStep(w: World, d: bytes, lines: seq<bytes>, plan: seq<bytes>)
    requires Inv(w) && w.sc.mode == Busy && WellPlanned(lines, plan) && InStep(w, lines, plan)
    requires |w.typed| < |plan| && w.recvd + d <= Flatten(plan[..|w.typed| + 1])
    ensures |w.done| < |plan| && w.part + (w.sc.readbuf + d) <= plan[|w.done|]
  {
    hide AcceptsReply, Reads, Stuck, WouldEnd, Flatten, Replies, LatchInv, TrackInv, ShownInv, CountInv, WellPlanned;
    var k := |w.done|;
    RepliesArePlan(w.done, plan);
    assert plan[..k + 1] == plan[..k] + [plan[k]];
    FlattenSnoc(plan[..k], plan[k]);
    assert Flatten(plan[..k]) + (w.part + (w.sc.readbuf + d)) <= Flatten(plan[..k]) + plan[k];
    PrefixCancel(Flatten(plan[..k]), w.part + (w.sc.readbuf + d), plan[k]);
  }

  lemma PrefixCancel(a: bytes, b: bytes, c: bytes)
    requires a + b <= a + c
    ensures b <= c
  {
    assert b == (a + b)[|a|..];
    assert (a + c)[|a|..] == c;
    assert (a + c)[..|a + b|] == a + b;
    assert forall i :: 0 <= i < |b| ==> b[i] == (a + b)[|a| + i] == (a + c)[|a| + i] == c[i];
  }

  /** Bytes of a reply in the language are neither fatal nor an error; a whole reply is
      eaten whole. */
  lemma FeedReturns(s: Sc, part: bytes, d: bytes, reply: bytes)
    requires s.Valid() && s.mode == Busy && s.Mach().st != Fin(s.cur) && s.Mach().st != Err(s.cur)
    requires Reads(s.cur, part, s.Mach()) && Stuck(s) && !s.init.anykey && !s.init.report
    requires AcceptsReply(s.cur, reply) && part + (s.readbuf + d) <= reply && s.readbuf + d != []
    ensures var r := OperFeed(s, s.readbuf + d);
            && r.Returned? && r.s.mode == Busy && !r.ended
            && part + r.eaten + r.s.readbuf == part + (s.readbuf + d)
            && (part + (s.readbuf + d) == reply ==> r.ret && r.s.readbuf == [])
  {
    hide AcceptsReply, Reads, Stuck, Fsm.Feed, TableOf, Handshake;
    TablesClosed(s.cur);
    PrefixFeeds(s.cur, part, s.Mach(), s.readbuf + d, reply);
    OperFeedFacts(s, part, d);
    var r := OperFeed(s, s.readbuf + d);
    assert part + r.eaten + r.s.readbuf == part + (r.eaten + r.s.readbuf);
  }

  lemma FeedInStep(w: World, rd: Read, lines: seq<bytes>, plan: seq<bytes>)
    requires Inv(w) && w.sc.mode == Busy && WellPlanned(lines, plan) && InStep(w, lines, plan)
    requires Enabled(w, Op(rd)) && Cooperative(w, Op(rd), lines, plan)
    requires w.sc.readbuf + Got(w, rd) != []
    ensures Step(w, Op(rd)).At? && InStep(Step(w, Op(rd)).w, lines, plan)
    ensures var v := Step(w, Op(rd)).w;
            && v.done == w.done && v.lines == w.lines && v.shown == w.shown
            && (w.part + (w.sc.readbuf + Got(w, rd)) == plan[|w.done|] ==>
                  v.sc.readbuf == [] && v.part == plan[|w.done|] && v.sc.mode == Busy && !v.awake)
  {
    hide AcceptsReply, Reads, Stuck, WouldEnd, Flatten, Replies, WellPlanned, OperFeed, UserLine, Transcript;
    var s, d := w.sc, Got(w, rd);
    if rd.Data? {
      DataInStep(w, d, lines, plan);
    } else {
      assert s.readbuf + d == s.readbuf;
    }
    TypedFollowsLines(w, lines, plan);
    FeedReturns(s, w.part, d, plan[|w.done|]);
    assert Operate(s, rd) == OperFeed(s, s.readbuf + d);
  }

  /** An empty read with nothing buffered keeps the run in step exactly when it does not come
      strictly inside a reply at a point where end of data would be accepted. */
  lemma EndInStep(w: World, lines: seq<bytes>, plan: seq<bytes>)
    requires Inv(w) && w.sc.mode == Busy && w.sc.readbuf == [] && InStep(w, lines, plan)
    requires Enabled(w, Op(Again))
    ensures Step(w, Op(Again)).At?
    ensures WouldEnd(w.sc) <==> Step(w, Op(Again)).w.sc.mode != Busy
    ensures InStep(Step(w, Op(Again)).w, lines, plan) <==> (WouldEnd(w.sc) ==> w.part == plan[|w.done|])
  {
    hide AcceptsReply, Reads, Stuck, WouldEnd, Flatten, Replies, OperEnd, Shown, Display, Handshake;
    Quiet(w);
    OperEndFacts(w.sc, w.part);
    var r := OperEnd(w.sc);
    assert Operate(w.sc, Again) == r;
    var v := Step(w, Op(Again)).w;
    assert v == Record(w, Again, r);
    if r.ended {
      assert v.done[|w.done|].reply == w.part;
    }
  }

  lemma UserInStep(w: World, e: Event, lines: seq<bytes>, plan: seq<bytes>)
    requires Inv(w) && InStep(w, lines, plan) && !e.Op?
    requires Enabled(w, e) && Cooperative(w, e, lines, plan)
    ensures Step(w, e).At? && InStep(Step(w, e).w, lines, plan)
  {
    hide Inv, InStep, WouldEnd;
    UserStep(w, e);
    var v := Step(w, e).w;
    if e.Line? {
      OneLineMore(w, v, e.l, lines, plan);
    } else {
      SameInStep(w, v, lines, plan);
    }
  }

  lemma UserStep(w: World, e: Event)
    requires Inv(w) && !e.Op? && Enabled(w, e)
    ensures w.sc.Valid() && Step(w, e).At?
    ensures var v := Step(w, e).w;
            && v.done == w.done && v.sc.mode != Busy && w.sc.mode != Busy
            && v.lines == if e.Line? then w.lines + [e.l] else w.lines
  {
    hide Shown, UserLine, TrackInv, LatchInv, ConserveInv, LockstepInv, ShownInv, CountInv;
  }

  lemma SameInStep(w: World, v: World, lines: seq<bytes>, plan: seq<bytes>)
    requires InStep(w, lines, plan) && v.done == w.done && v.lines == w.lines && v.sc.mode != Busy
    ensures InStep(v, lines, plan)
  {
  }

  lemma OneLineMore(w: World, v: World, l: bytes, lines: seq<bytes>, plan: seq<bytes>)
    requires InStep(w, lines, plan) && v.done == w.done && v.sc.mode != Busy
    requires |w.lines| < |lines| && l == lines[|w.lines|] && v.lines == w.lines + [l]
    ensures InStep(v, lines, plan)
  {
    assert lines[..|w.lines| + 1] == lines[..|w.lines|] + [l];
  }

  /** Every cooperative event keeps the run in step with the plan, and none aborts it. */
  lemma StepInStep(w: World, e: Event, lines: seq<bytes>, plan: seq<bytes>)
    requires Inv(w) && WellPlanned(lines, plan) && InStep(w, lines, plan)
    requires Enabled(w, e) && Cooperative(w, e, lines, plan)
    ensures Step(w, e).At? && InStep(Step(w, e).w, lines, plan)
  {
    hide Inv, WellPlanned, InStep, WouldEnd, Step;
    match e
    case Show => UserInStep(w, e, lines, plan);
    case Line(_) => UserInStep(w, e, lines, plan);
    case Op(rd) =>
      if w.sc.mode == Writing {
        WriteInStep(w, rd, lines, plan);
      } else if w.sc.readbuf + Got(w, rd) != [] {
        FeedInStep(w, rd, lines, plan);
      } else {
        EndInStep(w, lines, plan);
      }
  }

  lemma WriteInStep(w: World, rd: Read, lines: seq<bytes>, plan: seq<bytes>)
    requires Inv(w) && w.sc.mode == Writing && WellPlanned(lines, plan) && InStep(w, lines, plan)
    requires Enabled(w, Op(rd))
    ensures Step(w, Op(rd)).At? && InStep(Step(w, Op(rd)).w, lines, plan)
  {
    hide AcceptsReply, Reads, Stuck, WouldEnd, Flatten, Replies, WellPlanned, UserLine, Transcript, Handshake, OperFeed,
         OperEnd, TrackInv, LatchInv, ShownInv, CountInv;
    TypedFollowsLines(w, lines, plan);
    PlanLength(lines, plan);
    var v := Record(w, rd, OperWriting(w.sc));
    assert v.part + v.sc.readbuf == [];
  }

  lemma PlanLength(lines: seq<bytes>, plan: seq<bytes>)
    requires WellPlanned(lines, plan)
    ensures |plan| == |Flatten(lines)| + 1
  {
  }

  lemma BeginInStep(lines: seq<bytes>, plan: seq<bytes>)
    requires WellPlanned(lines, plan)
    ensures InStep(BEGIN, lines, plan)
  {
    hide AcceptsReply, Flatten;
    var none: bytes := [];
    assert none + none <= plan[0];
  }

  lemma {:induction false} InStepAt(tr: Trace, i: nat, lines: seq<bytes>, plan: seq<bytes>)
    requires WellPlanned(lines, plan) && LegalRun(tr, lines, plan) && i < |tr.worlds|
    ensures InStep(tr.worlds[i], lines, plan)
  {
    hide Inv, InStep, Cooperative, Step, WellPlanned;
    if i == 0 {
      BeginInStep(lines, plan);
    } else {
      InStepAt(tr, i - 1, lines, plan);
      InvAt(tr, i - 1);
      assert Step(tr.worlds[i - 1], tr.events[i - 1]) == At(tr.worlds[i]);
      EnabledStep(tr.worlds[i - 1], tr.events[i - 1]);
      StepInStep(tr.worlds[i - 1], tr.events[i - 1], lines, plan);
    }
  }

  lemma EnabledStep(w: World, e: Event)
    requires w.sc.Valid() && Step(w, e).At?
    ensures Enabled(w, e)
  {
  }

  /** A legal run stays in step. */
  lemma LegalInStep(tr: Trace, lines: seq<bytes>, plan: seq<bytes>)
    requires WellPlanned(lines, plan) && LegalRun(tr, lines, plan)
    ensures IsRun(tr) && Inv(Last(tr)) && InStep(Last(tr), lines, plan)
  {
    hide Inv, InStep, Cooperative, Step, WellPlanned;
    RunKeeps(tr);
    InStepAt(tr, |tr.worlds| - 1, lines, plan);
  }

  // ---- The transcript of a session ----

  /** The reply to the newline that ends line `k`, counted from 1. */
  function NewlineReply(lines: seq<bytes>, plan: seq<bytes>, k: nat): bytes
    requires 0 < k <= |lines| && WellPlanned(lines, plan)
  {
    FlattenPrefix(lines, k);
    plan[|Flatten(lines[..k])|]
  }

  function DisplayOf(p: Program, reply: bytes): bytes {
    if AcceptsReply(p, reply) then Display(Exchange(p, reply)) else []
  }

  /** The login prompt, and what the reply to each of the first `k` newlines displays. */
  function Expected(lines: seq<bytes>, plan: seq<bytes>, k: nat): bytes
    requires k <= |lines| && WellPlanned(lines, plan)
  {
    if k == 0 then DisplayOf(Init, plan[0])
    else Expected(lines, plan, k - 1) + DisplayOf(Cmdout, NewlineReply(lines, plan, k))
  }

  lemma {:induction false} EchoesAreSilent(done: seq<Exchange>, n: nat)
    requires n <= |done| && forall i :: n <= i < |done| ==> done[i].prog == Inchar
    ensures Transcript(done) == Transcript(done[..n])
  {
    if n == |done| {
      assert done[..n] == done;
    } else {
      var k := |done| - 1;
      EchoesAreSilent(done[..k], n);
      assert done[..k][..n] == done[..n];
      EchoIsSilent(done[k].reply);
    }
  }

  /** The programs that eat the replies to one line: echoes, then one command reply. */
  lemma ProgramsOfLine(lines: seq<bytes>, k: nat)
    requires 0 < k <= |lines| && forall l :: l in lines ==> UserLine(l)
    ensures var all, from, to := Flatten(lines), |Flatten(lines[..k - 1])|, |Flatten(lines[..k])|;
            && from < to <= |all|
            && (forall i :: from < i < to ==> ProgramFor(all, i) == Inchar)
            && ProgramFor(all, to) == Cmdout
  {
    hide Flatten;
    var all, front, l := Flatten(lines), Flatten(lines[..k - 1]), lines[k - 1];
    FlattenPrefix(lines, k);
    FlattenSnoc(lines[..k - 1], l);
    assert lines[..k - 1] + [l] == lines[..k];
    assert front + l <= all;
    assert l in lines && UserLine(l);
    forall i | |front| < i < |front + l| ensures ProgramFor(all, i) == Inchar {
      assert all[i - 1] == (front + l)[i - 1] == l[i - 1 - |front|];
      assert l[i - 1 - |front|] in l[..|l| - 1];
    }
    assert all[|front + l| - 1] == (front + l)[|front + l| - 1];
  }

  /** Where the replies to line `k` stand: after those to the lines before come echoes, and the
      reply to the newline is last. */
  lemma RepliesToLine(done: seq<Exchange>, lines: seq<bytes>, plan: seq<bytes>, k: nat)
    requires 0 < k <= |lines| && WellPlanned(lines, plan)
    requires |done| == |Flatten(lines[..k])| + 1 <= |plan|
    requires forall i :: 0 <= i < |done| ==> done[i] == Exchange(ProgramFor(Flatten(lines), i), plan[i])
    ensures var last, n := |done| - 1, |Flatten(lines[..k - 1])| + 1;
            && n <= last && done[..last][..n] == done[..n]
            && (forall i :: n <= i < last ==> done[..last][i].prog == Inchar)
            && done[last] == Exchange(Cmdout, NewlineReply(lines, plan, k))
  {
    hide AcceptsReply, Flatten;
    ProgramsOfLine(lines, k);
  }

  lemma {:induction false} TranscriptIsExpected(done: seq<Exchange>, lines: seq<bytes>, plan: seq<bytes>, k: nat)
    requires k <= |lines| && WellPlanned(lines, plan)
    requires |done| == |Flatten(lines[..k])| + 1 <= |plan|
    requires forall i :: 0 <= i < |done| ==> done[i] == Exchange(ProgramFor(Flatten(lines), i), plan[i])
    ensures Transcript(done) == Expected(lines, plan, k)
  {
    hide AcceptsReply, Display, ProgramFor, Transcript, Flatten, WellPlanned, NewlineReply, DisplayOf;
    if k == 0 {
      NoLines(lines);
      FirstTranscript(done, plan, lines);
    } else {
      var last, n := |done| - 1, |Flatten(lines[..k - 1])| + 1;
      RepliesToLine(done, lines, plan, k);
      TranscriptIsExpected(done[..n], lines, plan, k - 1);
      EchoesAreSilent(done[..last], n);
      TranscriptLast(done);
    }
  }

  lemma NoLines(lines: seq<bytes>)
    ensures Flatten(lines[..0]) == []
  {
  }

  lemma TranscriptLast(done: seq<Exchange>)
    requires done != []
    ensures var x := done[|done| - 1];
            Transcript(done) == Transcript(done[..|done| - 1]) + DisplayOf(x.prog, x.reply)
  {
  }

  lemma FirstTranscript(done: seq<Exchange>, plan: seq<bytes>, lines: seq<bytes>)
    requires |done| == 1 && WellPlanned(lines, plan)
    requires done[0] == Exchange(ProgramFor(Flatten(lines), 0), plan[0])
    ensures Transcript(done) == DisplayOf(Init, plan[0])
  {
    assert Transcript(done[..0]) == [];
  }

  // ---- C strings: when the display is the reply with its escape sequences deleted ----

  /** A command reply is displayed with its escape sequences deleted and nothing else
      missing exactly when its text holds no NUL. */
  lemma DisplayExact(reply: bytes)
    requires AcceptsReply(Cmdout, reply)
    ensures Display(Exchange(Cmdout, reply)) == Stripped(reply) <==> NUL !in Stripped(reply)
  {
    var m := FinishedReply(Cmdout, reply);
    CmdoutExtraction(Fsm.Lex(reply).units);
    CStrIdentity(m.out);
    CStrIdentity(m.ps1);
    if Display(Exchange(Cmdout, reply)) == Stripped(reply) {
      assert |CStr(m.out)| == |m.out| && |CStr(m.ps1)| == |m.ps1|;
      assert CStr(m.out) == m.out && CStr(m.ps1) == m.ps1;
    }
  }

  /** The same of the login prompt, the fourth text block of the login chat. */
  lemma PromptExact(reply: bytes)
    requires AcceptsReply(Init, reply)
    ensures var prompt := FinishedReply(Init, reply).ps1;
            && LoginChat(Runs(Fsm.Lex(reply).units), prompt)
            && (Display(Exchange(Init, reply)) == prompt <==> NUL !in prompt)
  {
    LoginReply(reply);
    CStrIdentity(FinishedReply(Init, reply).ps1);
  }

  /** The login prompt followed, per command, by the newline reply with its escape
      sequences deleted. */
  function SessionText(lines: seq<bytes>, plan: seq<bytes>, k: nat): bytes
    requires k <= |lines| && WellPlanned(lines, plan)
  {
    if k == 0 then FinishedReply(Init, plan[0]).ps1
    else
      var reply := NewlineReply(lines, plan, k);
      SessionText(lines, plan, k - 1) + if Fsm.Lex(reply).Lexed? then Stripped(reply) else []
  }

  lemma NewlineReplyAccepted(lines: seq<bytes>, plan: seq<bytes>, k: nat)
    requires 0 < k <= |lines| && WellPlanned(lines, plan)
    ensures AcceptsReply(Cmdout, NewlineReply(lines, plan, k))
  {
    ProgramsOfLine(lines, k);
  }

  lemma {:induction false} ExpectedIsText(lines: seq<bytes>, plan: seq<bytes>, k: nat)
    requires k <= |lines| && WellPlanned(lines, plan) && NUL !in SessionText(lines, plan, k)
    ensures Expected(lines, plan, k) == SessionText(lines, plan, k)
  {
    hide AcceptsReply, Stripped, Display, FinishedReply, WellPlanned, NewlineReply;
    if k == 0 {
      LoginAccepted(lines, plan);
      PromptExact(plan[0]);
    } else {
      NewlineReplyAccepted(lines, plan, k);
      CommandText(NewlineReply(lines, plan, k));
      ExpectedIsText(lines, plan, k - 1);
    }
  }

  lemma {:induction false} ExpectedHasNoNul(lines: seq<bytes>, plan: seq<bytes>, k: nat)
    requires k <= |lines| && WellPlanned(lines, plan)
    ensures NUL !in Expected(lines, plan, k)
  {
    hide AcceptsReply, DisplayOf, WellPlanned, NewlineReply;
    if k == 0 {
      LoginAccepted(lines, plan);
      DisplayHasNoNul(Init, plan[0]);
    } else {
      ExpectedHasNoNul(lines, plan, k - 1);
      DisplayHasNoNul(Cmdout, NewlineReply(lines, plan, k));
    }
  }

  lemma DisplayHasNoNul(p: Program, reply: bytes)
    ensures NUL !in DisplayOf(p, reply)
  {
    hide AcceptsReply, FinishedReply;
  }

  /** What is displayed is the text of the replies exactly when that holds no NUL. */
  lemma ExpectedExact(lines: seq<bytes>, plan: seq<bytes>, k: nat)
    requires k <= |lines| && WellPlanned(lines, plan)
    ensures Expected(lines, plan, k) == SessionText(lines, plan, k) <==> NUL !in SessionText(lines, plan, k)
  {
    hide AcceptsReply, WellPlanned, Expected, SessionText;
    ExpectedHasNoNul(lines, plan, k);
    if NUL !in SessionText(lines, plan, k) {
      ExpectedIsText(lines, plan, k);
    }
  }

  lemma LoginAccepted(lines: seq<bytes>, plan: seq<bytes>)
    requires WellPlanned(lines, plan)
    ensures |plan| > 0 && AcceptsReply(Init, plan[0])
  {
    assert ProgramFor(Flatten(lines), 0) == Init;
  }

  lemma CommandText(reply: bytes)
    requires AcceptsReply(Cmdout, reply)
    ensures Fsm.Lex(reply).Lexed?
    ensures NUL !in Stripped(reply) ==> DisplayOf(Cmdout, reply) == Stripped(reply)
  {
    DisplayExact(reply);
  }

  /** In a state that is in step, what is done is what the plan says. */
  lemma AskingTranscript(w: World, lines: seq<bytes>, plan: seq<bytes>)
    requires WellPlanned(lines, plan) && InStep(w, lines, plan) && w.asking
    requires ModeInv(w) && ConserveInv(w) && LockstepInv(w)
    ensures Transcript(w.done) == Expected(lines, plan, |w.lines|)
  {
    hide AcceptsReply, Replies, Transcript, Flatten, WellPlanned, Expected, Handshake;
    TypedFollowsLines(w, lines, plan);
    assert w.typed + [] == w.typed;
    assert forall i :: 0 <= i < |w.done| ==> w.done[i] == Exchange(ProgramFor(Flatten(lines), i), plan[i]);
    TranscriptIsExpected(w.done, lines, plan, |w.lines|);
  }

  /** Session transparency.  For any user lines, any replies in the three languages, any
      fragmentation and any schedule of empty reads that a cooperative environment allows,
      nothing the environment does aborts the session, and whenever the next line is awaited
      the user has been shown the login prompt and, per command, what the reply to its
      newline displays; this is the replies with their escape sequences deleted exactly when
      that text holds no NUL. */
  lemma SessionTransparency(tr: Trace, lines: seq<bytes>, plan: seq<bytes>)
    requires WellPlanned(lines, plan) && LegalRun(tr, lines, plan)
    ensures forall e :: Enabled(Last(tr), e) && Cooperative(Last(tr), e, lines, plan) ==> Step(Last(tr), e).At?
    ensures var w := Last(tr);
            w.asking ==>
              && |w.lines| <= |lines|
              && w.shown == Expected(lines, plan, |w.lines|)
              && (w.shown == SessionText(lines, plan, |w.lines|) <==> NUL !in SessionText(lines, plan, |w.lines|))
  {
    hide AcceptsReply, Transcript, WellPlanned, Expected, SessionText, LatchInv, TrackInv, ConserveInv, LockstepInv,
         CountInv, ModeInv, Step, Enabled, Cooperative;
    LegalInStep(tr, lines, plan);
    var w := Last(tr);
    forall e | Enabled(w, e) && Cooperative(w, e, lines, plan) ensures Step(w, e).At? {
      StepInStep(w, e, lines, plan);
    }
    if w.asking {
      AskingTranscript(w, lines, plan);
      assert w.shown + [] == w.shown;
      ExpectedExact(lines, plan, |w.lines|);
    }
  }

  // ---- Such sessions exist and can always be completed ----

  lemma ExtendLegal(tr: Trace, e: Event, lines: seq<bytes>, plan: seq<bytes>)
    requires LegalRun(tr, lines, plan) && Cooperative(Last(tr), e, lines, plan) && Step(Last(tr), e).At?
    ensures LegalRun(Extend(tr, e), lines, plan) && Continues(tr, Extend(tr, e))
  {
    hide Cooperative, Step;
  }

  /** What is left of a reply in one piece, then an empty read: the reply is complete. */
  lemma FinishReply(tr: Trace, lines: seq<bytes>, plan: seq<bytes>) returns (next: Trace)
    requires WellPlanned(lines, plan) && LegalRun(tr, lines, plan) && Last(tr).sc.mode == Busy
    ensures LegalRun(next, lines, plan) && Continues(tr, next)
    ensures var w, v := Last(tr), Last(next);
            v.sc.mode != Busy && |v.done| == |w.done| + 1 && v.lines == w.lines
  {
    hide Inv, InStep, Cooperative, Enabled, Step, WellPlanned, LegalRun, IsRun;
    LegalInStep(tr, lines, plan);
    var w := Last(tr);
    BusyInStep(w, lines, plan);
    var k, q := |w.done|, w.part + w.sc.readbuf;
    if q == plan[k] {
      WholeEaten(w, lines, plan);
      next := EndReply(tr, lines, plan);
    } else {
      var rd := Data(plan[k][|q|..]);
      RestOfReply(w, lines, plan);
      ExtendLegal(tr, Op(rd), lines, plan);
      next := EndReply(Extend(tr, Op(rd)), lines, plan);
    }
  }

  lemma BusyInStep(w: World, lines: seq<bytes>, plan: seq<bytes>)
    requires InStep(w, lines, plan) && w.sc.mode == Busy
    ensures |w.done| < |plan| && w.part + w.sc.readbuf <= plan[|w.done|]
  {
  }

  /** When all of a reply has arrived it has been eaten, and nobody waits for data. */
  lemma WholeEaten(w: World, lines: seq<bytes>, plan: seq<bytes>)
    requires Inv(w) && WellPlanned(lines, plan) && InStep(w, lines, plan) && w.sc.mode == Busy
    requires w.part + w.sc.readbuf == plan[|w.done|]
    ensures w.sc.readbuf == [] && w.part == plan[|w.done|] && !w.awake
  {
    hide AcceptsReply, Reads, WouldEnd, Transcript, Flatten, Replies, UserLine, Handshake, WellPlanned, Fsm.Feed,
         TableOf;
    TypedFollowsLines(w, lines, plan);
    PrefixFeeds(w.sc.cur, w.part, w.sc.Mach(), w.sc.readbuf, plan[|w.done|]);
    StuckFeeds(TableOf(w.sc.cur), w.sc.Mach(), w.sc.readbuf);
    assert w.sc.readbuf == [] && w.part + [] == w.part;
    EndReached(w, lines, plan);
  }

  /** A read that brings all that is missing of a reply. */
  lemma RestOfReply(w: World, lines: seq<bytes>, plan: seq<bytes>)
    requires Inv(w) && WellPlanned(lines, plan) && InStep(w, lines, plan) && w.sc.mode == Busy
    requires w.part + w.sc.readbuf != plan[|w.done|]
    ensures var rd := Data(plan[|w.done|][|w.part + w.sc.readbuf|..]);
            && Enabled(w, Op(rd)) && Cooperative(w, Op(rd), lines, plan) && Step(w, Op(rd)).At?
            && var v := Step(w, Op(rd)).w;
            && v.done == w.done && v.lines == w.lines && v.sc.mode == Busy
            && v.part == plan[|w.done|] && v.sc.readbuf == [] && !v.awake
  {
    hide AcceptsReply, Reads, Stuck, WouldEnd, Transcript, Flatten, Replies, UserLine, Handshake, WellPlanned, Step,
         TrackInv, ShownInv, CountInv;
    var k, q := |w.done|, w.part + w.sc.readbuf;
    var rest := plan[k][|q|..];
    assert q + rest == plan[k];
    Associative(w.part, w.sc.readbuf, rest);
    RestDue(w, rest, lines, plan);
    TypedFollowsLines(w, lines, plan);
    FeedInStep(w, Data(rest), lines, plan);
  }

  lemma RestDue(w: World, rest: bytes, lines: seq<bytes>, plan: seq<bytes>)
    requires ConserveInv(w) && LockstepInv(w) && InStep(w, lines, plan) && w.sc.mode == Busy
    requires w.part + w.sc.readbuf + rest <= plan[|w.done|]
    ensures |w.typed| < |plan| && w.recvd + rest <= Flatten(plan[..|w.typed| + 1])
  {
    hide AcceptsReply, Flatten, Replies, Handshake;
    var k := |w.done|;
    RepliesArePlan(w.done, plan);
    assert plan[..k + 1] == plan[..k] + [plan[k]];
    FlattenSnoc(plan[..k], plan[k]);
    Associative(Flatten(plan[..k]), w.part, w.sc.readbuf);
    Associative(Flatten(plan[..k]), w.part + w.sc.readbuf, rest);
  }

  /** The empty read after a whole reply. */
  lemma EndReply(tr: Trace, lines: seq<bytes>, plan: seq<bytes>) returns (next: Trace)
    requires WellPlanned(lines, plan) && LegalRun(tr, lines, plan)
    requires var w := Last(tr);
             && w.sc.mode == Busy && |w.done| < |plan| && w.part == plan[|w.done|] && w.sc.readbuf == [] && !w.awake
    ensures LegalRun(next, lines, plan) && Continues(tr, next)
    ensures var w, v := Last(tr), Last(next);
            v.sc.mode != Busy && |v.done| == |w.done| + 1 && v.lines == w.lines
  {
    hide Inv, InStep, Step, WellPlanned, LegalRun, IsRun, WouldEnd;
    LegalInStep(tr, lines, plan);
    var w := Last(tr);
    EndReached(w, lines, plan);
    EndCooperates(w, lines, plan);
    EndInStep(w, lines, plan);
    EndCounts(w);
    ExtendLegal(tr, Op(Again), lines, plan);
    next := Extend(tr, Op(Again));
  }

  lemma EndCooperates(w: World, lines: seq<bytes>, plan: seq<bytes>)
    requires Inv(w) && WellPlanned(lines, plan) && InStep(w, lines, plan) && w.sc.mode == Busy
    requires w.part == plan[|w.done|] && !w.awake
    ensures Enabled(w, Op(Again)) && Cooperative(w, Op(Again), lines, plan)
  {
    hide AcceptsReply, Reads, Stuck, Transcript, Flatten, Replies, UserLine, Handshake, WellPlanned;
    TypedFollowsLines(w, lines, plan);
  }

  lemma NotEmptyReply(p: Program, reply: bytes)
    requires AcceptsReply(p, reply)
    ensures reply != []
  {
    if reply == [] {
      EndByRow(p, START);
    }
  }

  lemma EndReached(w: World, lines: seq<bytes>, plan: seq<bytes>)
    requires Inv(w) && WellPlanned(lines, plan) && InStep(w, lines, plan)
    requires w.sc.mode == Busy && w.part == plan[|w.done|]
    ensures WouldEnd(w.sc)
  {
    hide AcceptsReply, Reads, Flatten, WellPlanned;
    TypedFollowsLines(w, lines, plan);
    ReadsAccepted(w.sc.cur, w.part, w.sc.Mach());
  }

  lemma EndCounts(w: World)
    requires Inv(w) && w.sc.mode == Busy && w.sc.readbuf == [] && Enabled(w, Op(Again)) && WouldEnd(w.sc)
    ensures Step(w, Op(Again)).At?
    ensures var v := Step(w, Op(Again)).w; |v.done| == |w.done| + 1 && v.lines == w.lines
  {
    hide Reads, Stuck, WouldEnd, OperEnd, AcceptsReply, Display, Shown, Handshake, Transcript, Flatten, Replies;
    Quiet(w);
    OperEndFacts(w.sc, w.part);
    assert Operate(w.sc, Again) == OperEnd(w.sc);
  }

  lemma AcceptedSoFar(w: World)
    requires TrackInv(w) && w.sc.mode == Busy
    ensures WouldEnd(w.sc) <==> AcceptsReply(w.sc.cur, w.part)
  {
    hide AcceptsReply, Reads;
    ReadsAccepted(w.sc.cur, w.part, w.sc.Mach());
  }

  function PhaseRank(w: World): nat {
    if w.sc.mode == Writing || (w.sc.mode == Ready && !w.asking) then 1 else 0
  }

  /** The event that takes a run on when no reply is being eaten. */
  lemma NextEvent(w: World, lines: seq<bytes>, plan: seq<bytes>) returns (e: Event)
    requires Inv(w) && WellPlanned(lines, plan) && InStep(w, lines, plan)
    requires w.sc.mode != Busy && !(w.asking && |w.lines| == |lines|)
    ensures Enabled(w, e) && Cooperative(w, e, lines, plan) && Step(w, e).At?
    ensures var v := Step(w, e).w;
            && v.done == w.done
            && (v.sc.mode == Busy ==> v.part == [] && v.sc.readbuf == [] && !v.awake)
            && (|v.lines| == |w.lines| + 1 || (v.lines == w.lines && PhaseRank(v) < PhaseRank(w)))
  {
    hide AcceptsReply, Flatten, Replies, Handshake, Shown, UserLine, OperBusy, LatchInv, TrackInv, ConserveInv,
         LockstepInv,
         ShownInv, CountInv;
    e := if w.asking then Line(lines[|w.lines|]) else if w.sc.mode == Ready then Show else Op(Again);
    if w.asking {
      assert lines[|w.lines|] in lines;
    }
  }

  /** Every legal run, wherever it has got to, can be continued until all lines are accepted
      and answered: the theorem above is about sessions that exist. */
  lemma SessionCompletes(tr: Trace, lines: seq<bytes>, plan: seq<bytes>) returns (full: Trace)
    requires WellPlanned(lines, plan) && LegalRun(tr, lines, plan)
    ensures LegalRun(full, lines, plan) && Continues(tr, full)
    ensures Last(full).asking && Last(full).lines == lines
    decreases |plan| - |Last(tr).done|, |lines| - |Last(tr).lines|, PhaseRank(Last(tr))
  {
    hide WellPlanned, Inv, LegalRun, IsRun, Enabled, Cooperative, Step;
    LegalInStep(tr, lines, plan);
    var w := Last(tr);
    if w.sc.mode == Busy {
      var next := FinishReply(tr, lines, plan);
      LegalInStep(next, lines, plan);
      full := SessionCompletes(next, lines, plan);
    } else if w.asking && |w.lines| == |lines| {
      full := tr;
      assert lines[..|lines|] == lines;
    } else {
      var e := NextEvent(w, lines, plan);
      ExtendLegal(tr, e, lines, plan);
      LegalInStep(Extend(tr, e), lines, plan);
      full := SessionCompletes(Extend(tr, e), lines, plan);
    }
  }
}
