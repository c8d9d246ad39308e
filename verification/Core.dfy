/** The driver (src/core.c) on the real objects: every run of it is a run of the protocol
    model driven by the script of its pipe, so what is proved about those holds of it. */
module Core {

  import opened Bytes
  import opened Protocol
  import opened Languages
  import opened Prefixes
  import opened CoreRuns
  import opened Session
  import opened Driven
  import opened Pipe
  import opened Switch
  import opened Ui
  import AnsiSeq

  const BUFSZ := 512

  // ---- One call of `sc_operate` ----

  /** The run `dr` of the model is where the objects are: same protocol state, same bytes
      written, and the pipe holds what is left of the script. */
  ghost predicate Follows(dr: Drive, sw: Switch.Conn, wire: Wire, script: seq<Read>)
    requires sw.Valid()
    reads sw, sw.Repr, wire
  {
    && IsDriven(dr, script)
    && dr.Here().sc == sw.Abs() && dr.Here().sent == wire.sent && dr.Next() == wire.script
  }

  /** What is buffered and still to come is the rest of what the switch sends. */
  lemma RestInBounds(dr: Drive, script: seq<Read>)
    requires IsDriven(dr, script) && AnsiSeq.StreamInBounds(Stream(script))
    ensures AnsiSeq.StreamInBounds(dr.Here().sc.readbuf + Stream(dr.Next()))
  {
    hide AnsiSeq.StreamInBounds, Replies, Inv, Stream, Step, Moves, Due, Flatten, Handshake;
    var w, all := dr.Here(), Stream(script);
    AccountsHere(dr, script);
    RunKeeps(dr.tr);
    Conserves(w);
    var k := |Replies(w.done) + w.part|;
    assert all[k..] == w.sc.readbuf + Stream(dr.Next());
    AnsiSeq.StreamInBoundsTail(all, k);
  }

  lemma Conserves(w: World)
    requires Inv(w)
    ensures ConserveInv(w)
  {
  }

  /** How much an operation can still do before it must wait for the switch. */
  function Rank(s: Protocol.Sc): nat {
    2 * |s.writebuf| + if s.mode == Busy then 1 else 0
  }

  /** A call that does not wait makes progress. */
  lemma CallProgress(w: World, rd: Read, before: seq<Read>, after: seq<Read>)
    requires Inv(w) && Enabled(w, Op(rd)) && Step(w, Op(rd)).At?
    requires if w.sc.mode == Busy then ReadFrom(before, after, rd) else after == before
    ensures var v := Step(w, Op(rd)).w;
            && Left(after) <= Left(before)
            && (!v.awake ==> Left(after) < Left(before) || Rank(v.sc) < Rank(w.sc))
            && (v.awake && after != [] ==> Left(after) < Left(before))
  {
    hide Reads, Stuck, WouldEnd, Handshake, Replies, Transcript, Flatten, UserLine, OperFeed, OperEnd, Stream,
         Left, Shown,
         Display, ReadFrom;
    if w.sc.mode == Busy {
      ReadFacts(before, after, rd);
      HangUpStops(w, rd);
      EmptyStays(before, after, rd);
      Quiet(w);
      if w.sc.readbuf != [] {
        OperFeedFacts(w.sc, w.part, []);
        assert w.sc.readbuf + [] == w.sc.readbuf;
      } else {
        OperEndFacts(w.sc, w.part);
      }
    }
  }

  lemma HangUpStops(w: World, rd: Read)
    requires w.sc.Valid() && w.sc.mode == Busy && Step(w, Op(rd)).At?
    ensures rd != Closed
  {
  }

  lemma EmptyStays(before: seq<Read>, after: seq<Read>, rd: Read)
    requires ReadFrom(before, after, rd)
    ensures before == [] ==> after == [] && rd == Again
  {
  }

  /** Where a call that returned `ret` has left the run, and the progress it made. */
  predicate Called(dr: Drive, next: Drive, s: Protocol.Sc, ret: bool, sent: bytes, after: seq<Read>) {
    var w, v, before := dr.Here(), next.Here(), dr.Next();
    && v.sc == s && v.sent == sent && v.awake == !ret
    && v.shown == w.shown && v.lines == w.lines && !v.asking
    && next.Next() == Due(v, after)
    && Left(after) <= Left(before)
    && (ret ==> Left(after) < Left(before) || Rank(s) < Rank(w.sc))
    && (!ret && after != [] ==> Left(after) < Left(before))
  }

  /** The run ends with a call of `sc_operate` that panics: it reads what is due, and what it
      has written by then is all that has been written. */
  ghost predicate Dies(dr: Drive, after: seq<Read>, sent: bytes, why: Why) {
    && dr.Here().sc.Valid() && dr.Here().sc.mode == Busy
    && exists rd ::
         && ReadFrom(dr.Next(), after, rd)
         && Step(dr.Here(), Op(rd)).Abort?
         && why == Step(dr.Here(), Op(rd)).why && sent == dr.Here().sent + Step(dr.Here(), Op(rd)).sent
  }

  /** What one call of `sc_operate` does to the run. */
  lemma OperateFollows(dr: Drive, script: seq<Read>, rd: Read, after: seq<Read>)
    requires IsDriven(dr, script)
    requires var w := dr.Here();
             && !w.asking && w.sc.mode != Ready
             && (if w.sc.mode == Busy then ReadFrom(dr.Next(), after, rd) else rd == Again && after == dr.Next())
             && (w.awake ==> dr.Next() != [])
    ensures IsRun(dr.tr) && dr.Here().sc.Valid()
    ensures var r := Operate(dr.Here().sc, rd);
            if r.Panicked? then Dies(dr, after, dr.Here().sent + r.sent, r.why)
            else
              && Step(dr.Here(), Op(rd)).At?
              && var next := Go(dr, Op(rd), after);
              IsDriven(next, script) && GoesOn(dr, next) && Called(dr, next, r.s, r.ret, dr.Here().sent + r.sent, after)
  {
    hide Protocol.Operate, Inv, Stream, Left, Rank, ReadFrom, SkipAgain;
    RunKeeps(dr.tr);
    var w := dr.Here();
    NotAwake(w);
    ReadsEnabled(w, dr.Next(), after, rd);
    if Protocol.Operate(w.sc, rd).Returned? {
      CallProgress(w, rd, dr.Next(), after);
      GoIsDriven(dr, script, Op(rd), after);
    } else {
      OnlyBusyDies(w, rd);
    }
  }

  lemma ReadsEnabled(w: World, due: seq<Read>, after: seq<Read>, rd: Read)
    requires !w.asking && w.sc.mode != Ready
    requires if w.sc.mode == Busy then ReadFrom(due, after, rd) else rd == Again && !w.awake
    requires w.awake ==> due != [] && !due[0].Again?
    ensures Enabled(w, Op(rd))
  {
    hide ReadFrom, Stream, Left;
    if w.sc.mode == Busy {
      ReadFacts(due, after, rd);
    }
  }

  lemma OnlyBusyDies(w: World, rd: Read)
    requires Inv(w) && Step(w, Op(rd)).Abort?
    ensures w.sc.mode == Busy
  {
  }

  lemma NotAwake(w: World)
    requires Inv(w)
    ensures w.sc.Valid() && (w.sc.mode != Busy ==> !w.awake)
  {
  }

  /** One call of `sc_operate` on the objects. */
  method CallOperate(sw: Switch.Conn, wire: Wire, ghost dr: Drive, ghost script: seq<Read>)
    returns (r: Ret, ghost next: Drive)
    requires sw.Valid() && wire.Valid() && wire !in sw.Repr
    requires Follows(dr, sw, wire, script) && AnsiSeq.StreamInBounds(Stream(script))
    requires !dr.Here().asking && sw.Abs().mode != Ready
    requires dr.Here().awake ==> wire.script != []
    modifies sw.Repr, wire
    ensures sw.Valid() && wire.Valid() && fresh(sw.Repr - old(sw.Repr))
    ensures r.Panic? ==> next == dr && Dies(dr, wire.script, wire.sent, r.why)
    ensures r.Ret? ==>
              IsDriven(next, script) && GoesOn(dr, next) && Called(dr, next, sw.Abs(), r.b, wire.sent, wire.script)
  {
    hide Switch.Conn.Valid, Switch.Conn.Abs, Protocol.Operate, AnsiSeq.StreamInBounds, Stream, Left, Rank, Wire.Valid,
         ReadFrom, Called, Dies, IsDriven, GoesOn, Due, Step;
    RestInBounds(dr, script);
    ghost var rd;
    r, rd := sw.Operate(wire);
    OperateFollows(dr, script, rd, wire.script);
    next := if r.Ret? then Go(dr, Event.Op(rd), wire.script) else dr;
  }

  // ---- The inner loop ----

  /** How the inner loop ends: at the prompt, waiting for a switch that says nothing more, or in
      a panic. */
  datatype Inner = Prompting | Hanging | Dead(why: Why)

  /** The inner loop of `core_run`. */
  method RunInner(sw: Switch.Conn, wire: Wire, ghost dr: Drive, ghost script: seq<Read>)
    returns (end: Inner, ghost next: Drive)
    requires sw.Valid() && wire.Valid() && wire !in sw.Repr
    requires Follows(dr, sw, wire, script) && AnsiSeq.StreamInBounds(Stream(script))
    requires !dr.Here().asking && !dr.Here().awake
    modifies sw.Repr, wire
    ensures sw.Valid() && wire.Valid() && fresh(sw.Repr - old(sw.Repr))
    ensures IsDriven(next, script) && GoesOn(dr, next)
    ensures next.Here().shown == dr.Here().shown && next.Here().lines == dr.Here().lines && !next.Here().asking
    ensures if end.Dead? then Dies(next, wire.script, wire.sent, end.why) else Follows(next, sw, wire, script)
    ensures end.Prompting? ==> sw.mode == Ready
    ensures end.Hanging? ==> wire.script == [] && next.Here().awake
  {
    hide Switch.Conn.Valid, Switch.Conn.Abs, AnsiSeq.StreamInBounds, Stream, Left, Rank, Wire.Valid, Dies, IsDriven,
         SkipAgain;
    next := dr;
    while sw.mode != Ready
      invariant sw.Valid() && wire.Valid() && wire !in sw.Repr && fresh(sw.Repr - old(sw.Repr))
      invariant Follows(next, sw, wire, script) && GoesOn(dr, next)
      invariant next.Here().awake ==> wire.script != []
      invariant next.Here().shown == dr.Here().shown && next.Here().lines == dr.Here().lines && !next.Here().asking
      decreases Left(wire.script), Rank(sw.Abs())
    {
      var r;
      r, next := CallOperate(sw, wire, next, script);
      if r.Panic? {
        return Dead(r.why), next;
      }
      if !r.b {
        SkipFacts(wire.script);
        var ready := wire.Select();
        if !ready {
          return Hanging, next;
        }
      }
    }
    return Prompting, next;
  }

  // ---- The user ----

  /** Reply and prompt go to the user. */
  method ShowReply(sw: Switch.Conn, wire: Wire, tty: Tty, ghost dr: Drive, ghost script: seq<Read>)
    returns (ghost next: Drive)
    requires sw.Valid() && tty.Valid() && tty !in sw.Repr
    requires Follows(dr, sw, wire, script) && tty.shown == dr.Here().shown
    requires !dr.Here().asking && sw.mode == Ready
    modifies tty`shown
    ensures sw.Valid() && tty.Valid()
    ensures Follows(next, sw, wire, script) && GoesOn(dr, next) && tty.shown == next.Here().shown
    ensures next.Here().asking && next.Here().lines == dr.Here().lines
  {
    hide Switch.Conn.Valid, Switch.Conn.Abs, CStr, IsDriven;
    var has, reply, ps1 := sw.Replies();
    ShowFollows(dr, script);
    if has {
      tty.PutData(reply);
    }
    tty.PutData(ps1);
    next := Go(dr, Show, wire.script);
  }

  lemma ShowFollows(dr: Drive, script: seq<Read>)
    requires IsDriven(dr, script) && !dr.Here().asking && dr.Here().sc.mode == Ready
    ensures IsRun(dr.tr) && Step(dr.Here(), Show).At?
    ensures var w, next := dr.Here(), Go(dr, Show, dr.Next());
            && IsDriven(next, script) && GoesOn(dr, next) && next.Next() == dr.Next()
            && next.Here() == w.(asking := true, shown := w.shown + Shown(w.sc))
            && w.shown + Shown(w.sc) == w.shown + CStr(w.sc.outbuf) + CStr(w.sc.ps1buf)
            && (w.sc.outbuf == [] ==> w.shown + CStr(w.sc.outbuf) == w.shown)
  {
    hide Inv, CStr, ReadFrom, SkipAgain;
    RunKeeps(dr.tr);
    NotAwake(dr.Here());
    CStrEmpty();
    var w := dr.Here();
    Associative(w.shown, CStr(w.sc.outbuf), CStr(w.sc.ps1buf));
    GoIsDriven(dr, script, Show, dr.Next());
  }

  /** How fetching a line ends. */
  datatype Fetched = Accepted | UserSilent | UserGone

  /** What has been read of the user's input, and the lines taken from it. */
  ghost predicate Fed(ui: LineBuffer, tty: Tty, lines: seq<bytes>, keys: seq<Key>)
    requires ui.Valid()
    reads ui.Repr, tty
  {
    ui.delivered == lines && KeysRead(keys, ui.typed, tty.keys)
  }

  /** Fetch one line and queue it for the switch. */
  method AcceptLine(sw: Switch.Conn, wire: Wire, ui: LineBuffer, tty: Tty, buf: array<byte>,
                    ghost dr: Drive, ghost script: seq<Read>, ghost keys: seq<Key>)
    returns (r: Fetched, ghost next: Drive)
    requires sw.Valid() && ui.Valid() && tty.Valid()
    requires sw.Repr !! ui.Repr && tty !in sw.Repr + ui.Repr && buf !in sw.Repr + ui.Repr && wire !in sw.Repr + ui.Repr
    requires buf.Length == 512 && Tame(KeyStream(keys))
    requires Follows(dr, sw, wire, script) && tty.shown == dr.Here().shown && dr.Here().asking
    requires Fed(ui, tty, dr.Here().lines, keys)
    modifies sw.Repr, ui.Repr, tty`keys, buf
    ensures sw.Valid() && ui.Valid() && tty.Valid() && fresh(sw.Repr - old(sw.Repr))
    ensures Follows(next, sw, wire, script) && GoesOn(dr, next) && tty.shown == next.Here().shown
    ensures Fed(ui, tty, next.Here().lines, keys)
    ensures r.Accepted? ==>
              && !next.Here().asking && !next.Here().awake
              && ui.cnt + |KeyStream(tty.keys)| < old(ui.cnt) + |KeyStream(old(tty.keys))|
    ensures !r.Accepted? ==>
              && next.Here().asking && next.Here().lines == Split(KeyStream(keys)).lines
              && tty.keys == KeyEnd(keys)
    ensures r.UserSilent? ==> KeyEnd(keys) == []
    ensures r.UserGone? ==> KeyEnd(keys) != []
  {
    hide Switch.Conn.Valid, Switch.Conn.Abs, IsDriven, UserLine, Tame, KeyStream, Flatten, CStr, KeyEnd, Split,
         LineBuffer.Valid, LineBuffer.Buffered, Tty.Valid, Protocol.Write, Go, Step;
    next := dr;
    var h := ui.HasLine(tty, true);
    ghost var before, lines := ui.Buffered(), ui.delivered;
    ghost var stream := KeyStream(tty.keys);
    TypedSplits(ui);
    if !h.Yes? {
      AtEnd(tty.keys);
      NothingWaits(lines, before, KeyStream(keys));
      return if h.Waits? then UserSilent else UserGone, next;
    }
    var n := ui.GetLine(buf);
    assert n > 0;  // uc_getdata never comes back empty-handed here
    FitsBuffer(lines, before, n, stream, KeyStream(keys));
    LineFollows(dr, script, before[..n]);
    var w := sw.Write(buf[..n]);
    assert w.Ret?;
    next := Go(dr, Line(before[..n]), wire.script);
    return Accepted, next;
  }

  lemma TypedSplits(ui: LineBuffer)
    requires ui.Valid()
    ensures ui.typed == Flatten(ui.delivered) + ui.Buffered() && |ui.Buffered()| == ui.cnt
    ensures forall l :: l in ui.delivered ==> UserLine(l)
  {
  }

  lemma AtEnd(keys: seq<Key>)
    requires keys == [] || keys[0].EndOfInput?
    ensures KeyStream(keys) == [] && KeyEnd(keys) == keys
  {
  }

  /** When everything has been typed and no line is buffered, all lines have been taken. */
  lemma NothingWaits(lines: seq<bytes>, buffered: bytes, typed: bytes)
    requires Tame(typed) && Flatten(lines) + buffered + [] == typed && NL !in CStr(buffered)
    requires forall l :: l in lines ==> UserLine(l)
    ensures lines == Split(typed).lines
  {
    hide Flatten, Split, UserLine;
    var n := |Flatten(lines)|;
    assert Flatten(lines) + buffered == typed;
    forall i | 0 <= i < |buffered| ensures buffered[i] in typed {
      assert buffered[i] == typed[n + i];
    }
    CStrIdentity(buffered);
    SplitIs(lines, buffered);
  }

  /** A line of tame input fits the buffer of the driver. */
  lemma FitsBuffer(lines: seq<bytes>, buffered: bytes, n: nat, stream: bytes, keys: bytes)
    requires Tame(keys) && Flatten(lines) + buffered + stream == keys
    requires n <= |buffered| && UserLine(buffered[..n])
    ensures n < 512
  {
    hide Tame, UserLine, Flatten;
    assert Flatten(lines) + buffered[..n] + (buffered[n..] + stream) == keys by {
      assert buffered == buffered[..n] + buffered[n..];
    }
    LineFits(Flatten(lines), buffered[..n], buffered[n..] + stream);
  }

  /** A line is never refused at the prompt. */
  lemma LineFollows(dr: Drive, script: seq<Read>, l: bytes)
    requires IsDriven(dr, script) && dr.Here().asking && UserLine(l)
    ensures IsRun(dr.tr) && Step(dr.Here(), Line(l)).At?
    ensures var w, r, next := dr.Here(), Protocol.Write(dr.Here().sc, l), Go(dr, Line(l), dr.Next());
            && r.Returned? && IsDriven(next, script) && GoesOn(dr, next) && next.Next() == dr.Next()
            && next.Here().sc == r.s && next.Here().sent == w.sent && next.Here().shown == w.shown
            && next.Here().lines == w.lines + [l] && !next.Here().asking && !next.Here().awake
  {
    hide SkipAgain, ReadFrom, UserLine;
    RunKeeps(dr.tr);
    NotAwake(dr.Here());
    GoIsDriven(dr, script, Line(l), dr.Next());
  }

  // ---- The outer loop ----

  /** How a run of the driver ends: it would wait for ever for the switch or the user, the
      user's input ended, or it panicked. */
  datatype End = SilentSwitch | SilentUser | InputEnded | Aborted(why: Why)

  /** The lines taken are the first lines of the input, and what has not been read is the end
      of it. */
  ghost predicate Taken(lines: seq<bytes>, keys: seq<Key>, left: seq<Key>) {
    && lines <= Split(KeyStream(keys)).lines
    && exists d :: KeysRead(keys, d, left) && Flatten(lines) <= d
  }

  lemma LinesAreTaken(ui: LineBuffer, tty: Tty, lines: seq<bytes>, keys: seq<Key>)
    requires ui.Valid() && Fed(ui, tty, lines, keys)
    ensures Taken(lines, keys, tty.keys)
  {
    hide Flatten, KeyStream, KeyEnd, Split, LineBuffer.Valid, UserLine;
    TypedSplits(ui);
    var typed := Flatten(lines) + ui.Buffered();
    assert Flatten(lines) <= typed;
    Associative(Flatten(lines), ui.Buffered(), KeyStream(tty.keys));
    SplitIs(lines, []);
    assert Flatten(lines) + [] == Flatten(lines);
    SplitMore(Flatten(lines), ui.Buffered() + KeyStream(tty.keys));
  }

  /** The objects are well formed and share no memory. */
  ghost predicate Apart(sw: Switch.Conn, ui: LineBuffer, wire: Wire, tty: Tty, buf: array<byte>)
    reads sw, sw.Repr, ui, ui.Repr, wire, tty
  {
    && sw.Valid() && ui.Valid() && wire.Valid() && tty.Valid() && buf.Length == 512
    && sw.Repr !! ui.Repr !! {wire as object, tty, buf}
  }

  /** The top of the endless loop of `core_run`. */
  ghost predicate AtTop(dr: Drive, sw: Switch.Conn, ui: LineBuffer, wire: Wire, tty: Tty,
                        script: seq<Read>, keys: seq<Key>)
    requires sw.Valid() && ui.Valid()
    reads sw, sw.Repr, ui.Repr, wire, tty
  {
    && Follows(dr, sw, wire, script) && tty.shown == dr.Here().shown
    && Fed(ui, tty, dr.Here().lines, keys)
    && !dr.Here().asking && !dr.Here().awake
  }

  /** What the world has seen of the run `dr` when the driver has come to an end, given what the
      pipe was going to deliver and the user was going to type, what is left of both, and what
      was written and shown. */
  ghost predicate Seen(end: End, dr: Drive, script: seq<Read>, keys: seq<Key>,
                       after: seq<Read>, left: seq<Key>, sent: bytes, shown: bytes)
  {
    && IsDriven(dr, script) && shown == dr.Here().shown && Taken(dr.Here().lines, keys, left)
    && (if end.Aborted? then Dies(dr, after, sent, end.why) else sent == dr.Here().sent && after == dr.Next())
    && (end.SilentSwitch? ==> after == [] && dr.Here().awake && Closed !in script)
    && (end.SilentUser? || end.InputEnded? ==>
          && dr.Here().asking && dr.Here().lines == Split(KeyStream(keys)).lines
          && left == KeyEnd(keys) && (end.InputEnded? <==> KeyEnd(keys) != []))
  }

  /** Whether the loop goes on. */
  datatype Turn = GoOn | Over(end: End)

  /** One turn of that loop. */
  method Round(sw: Switch.Conn, ui: LineBuffer, wire: Wire, tty: Tty, buf: array<byte>,
               ghost dr: Drive, ghost script: seq<Read>, ghost keys: seq<Key>)
    returns (turn: Turn, ghost next: Drive)
    requires Apart(sw, ui, wire, tty, buf) && AtTop(dr, sw, ui, wire, tty, script, keys)
    requires AnsiSeq.StreamInBounds(Stream(script)) && Tame(KeyStream(keys))
    modifies sw.Repr, ui.Repr, wire, tty, buf
    ensures Apart(sw, ui, wire, tty, buf) && fresh(sw.Repr - old(sw.Repr)) && GoesOn(dr, next)
    ensures turn.GoOn? ==>
              && AtTop(next, sw, ui, wire, tty, script, keys)
              && ui.cnt + |KeyStream(tty.keys)| < old(ui.cnt) + |KeyStream(old(tty.keys))|
    ensures turn.Over? ==>
              Seen(turn.end, next, script, keys, wire.script, tty.keys, wire.sent, tty.shown)
  {
    hide Switch.Conn.Valid, Switch.Conn.Abs, AnsiSeq.StreamInBounds, Stream, IsDriven, Tame, KeyStream, Flatten,
         LineBuffer.Valid, Wire.Valid, Tty.Valid, KeyEnd, Split, Taken, Dies, Due, Step, Replies;
    var inner;
    inner, next := RunInner(sw, wire, dr, script);
    LinesAreTaken(ui, tty, next.Here().lines, keys);
    if inner.Dead? {
      return Over(Aborted(inner.why)), next;
    }
    if inner.Hanging? {
      HangUpIsNext(next, script);
      return Over(SilentSwitch), next;
    }
    next := ShowReply(sw, wire, tty, next, script);
    var fetched;
    fetched, next := AcceptLine(sw, wire, ui, tty, buf, next, script, keys);
    LinesAreTaken(ui, tty, next.Here().lines, keys);
    match fetched
    case Accepted => return GoOn, next;
    case UserSilent => return Over(SilentUser), next;
    case UserGone => return Over(InputEnded), next;
  }

  // ---- The theorem about the driver ----

  /** The user types the lines, and the switch answers as planned. */
  predicate Agreed(script: seq<Read>, keys: seq<Key>, lines: seq<bytes>, plan: seq<bytes>) {
    WellPlanned(lines, plan) && KeyStream(keys) == Flatten(lines) && Paced(script, Flatten(lines), plan, 0, [])
  }

  /** What comes of it: no panic; at every prompt the text of the session so far; and, unless the
      switch falls silent, every line sent and answered. */
  predicate Served(end: End, dr: Drive, script: seq<Read>, sent: bytes, shown: bytes,
                   lines: seq<bytes>, plan: seq<bytes>)
    requires WellPlanned(lines, plan)
  {
    var w := dr.Here();
    && !end.Aborted? && LegalRun(dr.tr, lines, plan)
    && (w.asking ==> |w.lines| <= |lines| && shown == Expected(lines, plan, |w.lines|))
    && (Flatten(plan) <= Stream(script) ==> !end.SilentSwitch?)
    && (!end.SilentSwitch? ==>
          && w.lines == lines && sent == ANYKEY + REPORT + Flatten(lines)
          && shown == Expected(lines, plan, |lines|)
          && (shown == SessionText(lines, plan, |lines|) <==> NUL !in SessionText(lines, plan, |lines|)))
  }

  lemma ServedAsPlanned(end: End, dr: Drive, script: seq<Read>, keys: seq<Key>, after: seq<Read>, left: seq<Key>,
                        sent: bytes, shown: bytes, lines: seq<bytes>, plan: seq<bytes>)
    requires Agreed(script, keys, lines, plan)
    requires Seen(end, dr, script, keys, after, left, sent, shown)
    ensures Served(end, dr, script, sent, shown, lines, plan)
  {
    hide IsDriven, WellPlanned, Paced, IsRun, Cooperative, Expected, SessionText, Stream, Flatten, Step, ReadFrom, Due,
         KeyStream, KeyEnd, Split;
    var w := dr.Here();
    PlannedLines(w.lines, lines, plan);
    DrivenSession(dr, script, lines, plan);
    if end.SilentSwitch? && Flatten(plan) <= Stream(script) {
      NoSilence(dr, script, lines, plan);
    }
    if end.SilentUser? || end.InputEnded? {
      SentAtPrompt(dr.tr);
      ExpectedExact(lines, plan, |lines|);
    }
  }

  lemma SentAtPrompt(tr: Trace)
    requires IsRun(tr) && Last(tr).asking
    ensures Last(tr).sent == ANYKEY + REPORT + Flatten(Last(tr).lines)
  {
    hide Flatten, IsRun;
    PromptIsReady(tr);
    LockstepAndConservation(tr);
    assert Last(tr).sent + [] == Last(tr).sent;
  }

  lemma PromptIsReady(tr: Trace)
    requires IsRun(tr) && Last(tr).asking
    ensures Last(tr).sc.mode == Ready && Last(tr).sc.writebuf == []
  {
    RunKeeps(tr);
  }

  /** Cutting what is typed into lines gives back the planned lines. */
  lemma PlannedLines(taken: seq<bytes>, lines: seq<bytes>, plan: seq<bytes>)
    requires WellPlanned(lines, plan)
    ensures Split(Flatten(lines)).lines == lines
    ensures taken <= lines ==> Flatten(taken) <= Flatten(lines)
  {
    hide Flatten, Split, UserLine;
    SplitIs(lines, []);
    assert Flatten(lines) + [] == Flatten(lines);
    if taken <= lines {
      FlattenPrefix(lines, |taken|);
      assert lines[..|taken|] == taken;
    }
  }

  /** The read that the driver dies of is the hang-up, or makes the bytes since the last reply
      ended hold a complete token that rules out every reply of the current program. */
  ghost predicate Justified(dr: Drive, after: seq<Read>, why: Why) {
    var w := dr.Here();
    exists rd ::
      && ReadFrom(dr.Next(), after, rd)
      && if rd == Closed then why == ReadEof
         else (why == BadEscape || why == FsmError) && !Viable(w.sc.cur, w.part + w.sc.readbuf + Got(w, rd))
  }

  lemma DeathIsJustified(dr: Drive, script: seq<Read>, after: seq<Read>, sent: bytes, why: Why)
    requires IsDriven(dr, script) && Dies(dr, after, sent, why)
    ensures Legitimate(why) && Justified(dr, after, why)
  {
    hide Step, ReadFrom, IsRun, Moves, Viable, Enabled;
    var w := dr.Here();
    var rd :| && ReadFrom(dr.Next(), after, rd)
              && Step(w, Op(rd)).Abort?
              && why == Step(w, Op(rd)).why && sent == w.sent + Step(w, Op(rd)).sent;
    AbortEnabled(w, Op(rd));
    AbortExactly(dr.tr, rd);
  }

  lemma StartFollows(script: seq<Read>)
    ensures var dr := Drive(NO_EVENTS, [script]); IsDriven(dr, script) && dr.Here() == BEGIN && dr.Next() == script
  {
  }

  /** `core_run`, for any script of the pipe and any input of the terminal, however it ends: the
      bytes written and read, the text shown and the lines taken are those of a run of the
      protocol model that the script drives, up to a panic and in it, and it can only panic
      because the switch hung up or sent what begins no reply of the current program.  If the
      switch answers the lines the user types as planned, it does not panic and the user is
      served. */
  method CoreRun(wire: Wire, tty: Tty) returns (end: End, ghost dr: Drive)
    requires wire.Valid() && tty.Valid() && wire.sent == [] && tty.shown == []
    requires AnsiSeq.StreamInBounds(Stream(wire.script)) && Tame(KeyStream(tty.keys))
    modifies wire, tty
    ensures Seen(end, dr, old(wire.script), old(tty.keys), wire.script, tty.keys, wire.sent, tty.shown)
    ensures end.Aborted? ==> Legitimate(end.why) && Justified(dr, wire.script, end.why)
    ensures forall lines, plan :: Agreed(old(wire.script), old(tty.keys), lines, plan) ==>
              Served(end, dr, old(wire.script), wire.sent, tty.shown, lines, plan)
  {
    hide Switch.Conn.Valid, Switch.Conn.Abs, AnsiSeq.StreamInBounds, Stream, IsDriven, Tame, KeyStream,
         LineBuffer.Valid, Wire.Valid, Tty.Valid, Seen, Agreed, Served;
    ghost var script, keys := wire.script, tty.keys;
    var buf := new byte[BUFSZ];
    var ui := new LineBuffer();
    var sw := ScInit();
    dr := Drive(NO_EVENTS, [script]);
    StartFollows(script);
    assert [] + KeyStream(keys) == KeyStream(keys);
    while true
      invariant Apart(sw, ui, wire, tty, buf) && fresh(sw.Repr) && fresh(ui.Repr) && fresh(buf)
      invariant AtTop(dr, sw, ui, wire, tty, script, keys)
      decreases ui.cnt + |KeyStream(tty.keys)|
    {
      var turn;
      turn, dr := Round(sw, ui, wire, tty, buf, dr, script, keys);
      if turn.Over? {
        SeenTells(turn.end, dr, script, keys, wire.script, tty.keys, wire.sent, tty.shown);
        return turn.end, dr;
      }
    }
  }

  lemma SeenTells(end: End, dr: Drive, script: seq<Read>, keys: seq<Key>, after: seq<Read>, left: seq<Key>,
                  sent: bytes, shown: bytes)
    requires Seen(end, dr, script, keys, after, left, sent, shown)
    ensures end.Aborted? ==> Legitimate(end.why) && Justified(dr, after, end.why)
    ensures forall lines, plan :: Agreed(script, keys, lines, plan) ==>
              Served(end, dr, script, sent, shown, lines, plan)
  {
    hide IsDriven, WellPlanned, Paced, Served, Dies, Flatten;
    if end.Aborted? {
      DeathIsJustified(dr, script, after, sent, end.why);
    }
    forall lines, plan | Agreed(script, keys, lines, plan)
      ensures Served(end, dr, script, sent, shown, lines, plan)
    {
      ServedAsPlanned(end, dr, script, keys, after, left, sent, shown, lines, plan);
    }
  }
}
