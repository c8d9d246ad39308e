/** Runs that a pipe drives: what the reads of a run return comes, in order, from one script. */
module Driven {

  import opened Bytes
  import opened Protocol
  import opened Pipe
  import opened Languages
  import opened CoreRuns
  import opened Session

  // ---- Runs and scripts ----

  /** A run, and what is left of the script in each of its states. */
  datatype Drive = Drive(tr: Trace, scripts: seq<seq<Read>>)
  {
    function Here(): World { Last(tr) }

    /** What the next read finds. */
    function Next(): seq<Read> {
      Due(Here(), if scripts == [] then [] else scripts[|scripts| - 1])
    }
  }

  /** The script at the next read: `selectfd` has let the empty reads pass if it was called. */
  function Due(w: World, script: seq<Read>): seq<Read> {
    if w.awake then SkipAgain(script) else script
  }

  /** What an event does to the script: only a call that reads changes it. */
  predicate Moves(w: World, e: Event, before: seq<Read>, after: seq<Read>) {
    if e.Op? && w.sc.mode == Busy then ReadFrom(Due(w, before), after, e.rd) else after == before
  }

  predicate IsDriven(dr: Drive, script: seq<Read>) {
    && IsRun(dr.tr)
    && |dr.scripts| == |dr.tr.worlds| && dr.scripts[0] == script
    && forall i :: 0 <= i < |dr.tr.events| ==>
         Moves(dr.tr.worlds[i], dr.tr.events[i], dr.scripts[i], dr.scripts[i + 1])
  }

  /** The run has gone on from an earlier one. */
  predicate GoesOn(dr: Drive, next: Drive) {
    Continues(dr.tr, next.tr) && dr.scripts <= next.scripts
  }

  function Go(dr: Drive, e: Event, after: seq<Read>): (next: Drive)
    requires IsRun(dr.tr) && Step(dr.Here(), e).At?
  {
    Drive(Extend(dr.tr, e), dr.scripts + [after])
  }

  lemma GoIsDriven(dr: Drive, script: seq<Read>, e: Event, after: seq<Read>)
    requires IsDriven(dr, script) && Step(dr.Here(), e).At?
    requires Moves(dr.Here(), e, dr.scripts[|dr.scripts| - 1], after)
    ensures var next := Go(dr, e, after);
            && IsDriven(next, script) && GoesOn(dr, next)
            && At(next.Here()) == Step(dr.Here(), e) && next.Next() == Due(next.Here(), after)
  {
    hide Step, ReadFrom, SkipAgain;
    var next := Go(dr, e, after);
    ExtendIsRun(dr.tr, e);
    forall i | 0 <= i < |next.tr.events|
      ensures Moves(next.tr.worlds[i], next.tr.events[i], next.scripts[i], next.scripts[i + 1])
    {
      if i < |dr.tr.events| {
        assert Moves(dr.tr.worlds[i], dr.tr.events[i], dr.scripts[i], dr.scripts[i + 1]);
      }
    }
  }

  lemma DueFacts(w: World, script: seq<Read>)
    ensures Stream(Due(w, script)) == Stream(script) && Left(Due(w, script)) <= Left(script)
  {
    SkipFacts(script);
  }

  lemma MoveAccounts(w: World, e: Event, before: seq<Read>, after: seq<Read>)
    requires w.sc.Valid() && Moves(w, e, before, after) && Step(w, e).At?
    ensures Step(w, e).w.recvd + Stream(after) == w.recvd + Stream(before)
  {
    hide Protocol.Operate, Protocol.Write, Stream, Left, ReadFrom, SkipAgain, Shown, UserLine;
    DueFacts(w, before);
    if e.Op? {
      if w.sc.mode == Busy {
        ReadFacts(Due(w, before), after, e.rd);
      }
      Associative(w.recvd, Got(w, e.rd), Stream(after));
    }
  }

  /** What was received and what is left of the script are the whole script. */
  lemma {:induction false} Accounts(dr: Drive, script: seq<Read>, i: nat)
    requires IsDriven(dr, script) && i < |dr.scripts|
    ensures dr.tr.worlds[i].recvd + Stream(dr.scripts[i]) == Stream(script)
  {
    hide Stream, Step, Moves;
    if i == 0 {
      assert [] + Stream(script) == Stream(script);
    } else {
      Accounts(dr, script, i - 1);
      assert Step(dr.tr.worlds[i - 1], dr.tr.events[i - 1]) == At(dr.tr.worlds[i]);
      MoveAccounts(dr.tr.worlds[i - 1], dr.tr.events[i - 1], dr.scripts[i - 1], dr.scripts[i]);
    }
  }

  lemma AccountsHere(dr: Drive, script: seq<Read>)
    requires IsDriven(dr, script)
    ensures dr.Here().recvd + Stream(dr.Next()) == Stream(script)
  {
    hide Step, Moves, Stream, Due;
    Accounts(dr, script, |dr.scripts| - 1);
    DueFacts(dr.Here(), dr.scripts[|dr.scripts| - 1]);
  }

  lemma MoveKeepsHangUp(w: World, e: Event, before: seq<Read>, after: seq<Read>)
    requires Moves(w, e, before, after)
    ensures Closed in after <==> Closed in before
  {
    hide SkipAgain, ReadFrom;
    if e.Op? && w.sc.mode == Busy {
      SkipsPauses(before);
      ReadKeepsHangUp(Due(w, before), after, e.rd);
    }
  }

  /** A hang-up stays in the script until it is read, which ends the run. */
  lemma {:induction false} HangUpStays(dr: Drive, script: seq<Read>, i: nat)
    requires IsDriven(dr, script) && i < |dr.scripts|
    ensures Closed in dr.scripts[i] <==> Closed in script
  {
    hide Step, Moves;
    if i > 0 {
      HangUpStays(dr, script, i - 1);
      MoveKeepsHangUp(dr.tr.worlds[i - 1], dr.tr.events[i - 1], dr.scripts[i - 1], dr.scripts[i]);
    }
  }

  lemma HangUpIsNext(dr: Drive, script: seq<Read>)
    requires IsDriven(dr, script)
    ensures Closed in dr.Next() <==> Closed in script
  {
    hide Step, Moves, SkipAgain;
    var n := |dr.scripts| - 1;
    HangUpStays(dr, script, n);
    SkipsPauses(dr.scripts[n]);
  }

  lemma LinesOnlyGrow(w: World, e: Event)
    requires w.sc.Valid() && Step(w, e).At?
    ensures Step(w, e).w.lines == if e.Line? then w.lines + [e.l] else w.lines
  {
    hide Protocol.Operate, Protocol.Write, Shown, UserLine;
  }

  lemma {:induction false} LinesGrow(tr: Trace, i: nat)
    requires IsRun(tr) && i < |tr.worlds|
    ensures tr.worlds[i].lines <= Last(tr).lines
    decreases |tr.worlds| - i
  {
    hide Step;
    if i + 1 < |tr.worlds| {
      LinesGrow(tr, i + 1);
      LinesOnlyGrow(tr.worlds[i], tr.events[i]);
    }
  }

  // ---- Scripts of a switch that answers as planned ----

  /** The script of a switch that still has to send reply `k`, of which `q` has been sent, and
      those after it: in pieces of any size, with pauses anywhere except that end of data
      would be accepted inside a reply, and with a pause after each. */
  predicate Paced(script: seq<Read>, all: bytes, plan: seq<bytes>, k: nat, q: bytes)
    requires |plan| == |all| + 1
    decreases |script|
  {
    k >= |plan| ||
    if script == [] then q == plan[k] || !AcceptsReply(ProgramFor(all, k), q)
    else
      match script[0]
      case Closed => false
      case Data(d) => q + d <= plan[k] && Paced(script[1..], all, plan, k, q + d)
      case Again =>
        if q == plan[k] then Paced(script[1..], all, plan, k + 1, [])
        else !AcceptsReply(ProgramFor(all, k), q) && Paced(script[1..], all, plan, k, q)
  }

  /** The rest of the script in a state is the rest of the plan. */
  predicate OnPace(w: World, script: seq<Read>, lines: seq<bytes>, plan: seq<bytes>)
    requires WellPlanned(lines, plan)
  {
    Paced(script, Flatten(lines), plan, |w.done|, w.part + w.sc.readbuf)
  }

  lemma {:induction false} SkipPaced(script: seq<Read>, all: bytes, plan: seq<bytes>, k: nat, q: bytes)
    requires |plan| == |all| + 1 && Paced(script, all, plan, k, q) && (k < |plan| ==> q != plan[k])
    ensures Paced(SkipAgain(script), all, plan, k, q)
    decreases |script|
  {
    hide AcceptsReply;
    if script != [] && script[0].Again? && k < |plan| {
      SkipPaced(script[1..], all, plan, k, q);
    }
  }

  lemma ReadPaced(before: seq<Read>, after: seq<Read>, rd: Read, all: bytes, plan: seq<bytes>, k: nat, q: bytes)
    requires |plan| == |all| + 1 && k < |plan| && Paced(before, all, plan, k, q) && ReadFrom(before, after, rd)
    ensures rd != Closed
    ensures rd.Data? ==> q + rd.d <= plan[k] && Paced(after, all, plan, k, q + rd.d)
    ensures rd == Again ==>
              && (q == plan[k] || !AcceptsReply(ProgramFor(all, k), q))
              && (q != plan[k] ==> Paced(after, all, plan, k, q))
              && (q == plan[k] && before != [] ==> Paced(after, all, plan, k + 1, []))
  {
    hide AcceptsReply;
    if rd.Data? {
      var d := before[0].d;
      assert d == rd.d + d[|rd.d|..];
      Associative(q, rd.d, d[|rd.d|..]);
      assert [] + before[1..] == before[1..];
      if rd.d != d {
        assert after[1..] == before[1..];
      }
    }
  }

  lemma EndPaced(lines: seq<bytes>, plan: seq<bytes>, k: nat)
    requires WellPlanned(lines, plan)
    ensures Paced([], Flatten(lines), plan, k, [])
  {
    hide AcceptsReply, Flatten;
    if k < |plan| && AcceptsReply(ProgramFor(Flatten(lines), k), []) {
      NotEmptyReply(ProgramFor(Flatten(lines), k), []);
    }
  }

  /** Whoever waits for data waits inside a reply, so the empty reads that pass meanwhile
      are not the end of one. */
  lemma DueOnPace(w: World, script: seq<Read>, lines: seq<bytes>, plan: seq<bytes>)
    requires Inv(w) && WellPlanned(lines, plan) && InStep(w, lines, plan) && OnPace(w, script, lines, plan)
    ensures OnPace(w, Due(w, script), lines, plan)
  {
    hide AcceptsReply, Flatten, TrackInv, ConserveInv, LockstepInv, ShownInv, CountInv, WellPlanned, Paced;
    PlanLength(lines, plan);
    if w.awake {
      if |w.done| < |plan| && w.part + w.sc.readbuf == plan[|w.done|] {
        WholeEaten(w, lines, plan);
      }
      SkipPaced(script, Flatten(lines), plan, |w.done|, w.part + w.sc.readbuf);
    }
  }

  /** What such a script lets a call read is cooperative. */
  lemma PacedCooperates(w: World, rd: Read, before: seq<Read>, after: seq<Read>, lines: seq<bytes>, plan: seq<bytes>)
    requires Inv(w) && WellPlanned(lines, plan) && InStep(w, lines, plan) && w.sc.mode == Busy
    requires OnPace(w, before, lines, plan) && ReadFrom(before, after, rd)
    ensures Cooperative(w, Op(rd), lines, plan)
  {
    hide AcceptsReply, Flatten, LatchInv, ShownInv, CountInv, WellPlanned, Paced, ReadFrom, Reads, Stuck, WouldEnd,
         Replies, Handshake;
    var k, q := |w.done|, w.part + w.sc.readbuf;
    BusyProgram(w, lines, plan);
    ReadPaced(before, after, rd, Flatten(lines), plan, k, q);
    if rd.Data? {
      RestDue(w, rd.d, lines, plan);
    } else if w.sc.readbuf == [] && WouldEnd(w.sc) {
      AcceptedSoFar(w);
      assert w.part + [] == w.part;
    }
  }

  /** What an event that returns does to the bytes of the reply in progress. */
  lemma NextPart(w: World, e: Event, v: World)
    requires Inv(w) && Enabled(w, e) && Step(w, e) == At(v)
    ensures w.sc.mode == Busy && e == Op(Again) && w.sc.readbuf == [] && WouldEnd(w.sc) ==>
              |v.done| == |w.done| + 1 && v.part + v.sc.readbuf == []
    ensures !(w.sc.mode == Busy && e == Op(Again) && w.sc.readbuf == [] && WouldEnd(w.sc)) ==>
              && v.done == w.done
              && v.part + v.sc.readbuf == w.part + w.sc.readbuf + (if e.Op? then Got(w, e.rd) else [])
  {
    hide Step;
    match e
    case Op(rd) =>
      if w.sc.mode == Writing {
        PartAfterWrite(w, rd, v);
      } else if w.sc.readbuf + Got(w, rd) != [] {
        PartAfterFeed(w, rd, v);
      } else {
        PartAfterEnd(w, rd, v);
      }
    case Show => PartAfterUser(w, e, v);
    case Line(_) => PartAfterUser(w, e, v);
  }

  lemma PartAfterUser(w: World, e: Event, v: World)
    requires Inv(w) && !e.Op? && Enabled(w, e) && Step(w, e) == At(v)
    ensures v.done == w.done && v.part + v.sc.readbuf == w.part + w.sc.readbuf + []
  {
    hide Inv, Shown, UserLine;
    assert w.part + w.sc.readbuf + [] == w.part + w.sc.readbuf;
  }

  lemma PartAfterWrite(w: World, rd: Read, v: World)
    requires ModeInv(w) && w.sc.mode == Writing && Enabled(w, Op(rd)) && Step(w, Op(rd)) == At(v)
    ensures v.done == w.done && v.part + v.sc.readbuf == w.part + w.sc.readbuf + Got(w, rd)
  {
    assert v.part + v.sc.readbuf == [] == w.part + w.sc.readbuf + Got(w, rd);
  }

  lemma PartAfterFeed(w: World, rd: Read, v: World)
    requires Inv(w) && w.sc.mode == Busy && w.sc.readbuf + Got(w, rd) != [] && Step(w, Op(rd)) == At(v)
    ensures v.done == w.done && v.part + v.sc.readbuf == w.part + w.sc.readbuf + Got(w, rd)
  {
    hide Reads, Handshake, Stuck, OperFeed, OperEnd, WouldEnd, ConserveInv, LockstepInv, ShownInv, CountInv;
    var s, d := w.sc, Got(w, rd);
    Quiet(w);
    OperFeedFacts(s, w.part, d);
    assert s.readbuf + [] == s.readbuf;
    var r := OperFeed(s, s.readbuf + d);
    assert Operate(s, rd) == r;
    Associative(w.part, r.eaten, r.s.readbuf);
    Associative(w.part, s.readbuf, d);
  }

  lemma PartAfterEnd(w: World, rd: Read, v: World)
    requires Inv(w) && w.sc.mode == Busy && w.sc.readbuf + Got(w, rd) == []
    requires Enabled(w, Op(rd)) && Step(w, Op(rd)) == At(v)
    ensures rd == Again
    ensures WouldEnd(w.sc) ==> |v.done| == |w.done| + 1 && v.part + v.sc.readbuf == []
    ensures !WouldEnd(w.sc) ==> v.done == w.done && v.part + v.sc.readbuf == w.part + w.sc.readbuf + Got(w, rd)
  {
    hide Reads, Handshake, Stuck, OperFeed, OperEnd, WouldEnd, ConserveInv, LockstepInv, ShownInv, CountInv,
         AcceptsReply,
         Shown, Display;
    Quiet(w);
    OperEndFacts(w.sc, w.part);
    assert Operate(w.sc, Again) == OperEnd(w.sc);
    assert w.part + [] + [] == w.part + [];
  }

  /** An event keeps the rest of the script the rest of the plan. */
  lemma PaceKept(w: World, e: Event, v: World, before: seq<Read>, after: seq<Read>,
                 lines: seq<bytes>, plan: seq<bytes>)
    requires Inv(w) && WellPlanned(lines, plan) && InStep(w, lines, plan) && OnPace(w, before, lines, plan)
    requires Enabled(w, e) && Step(w, e) == At(v) && Moves(w, e, before, after)
    ensures OnPace(v, after, lines, plan)
  {
    hide AcceptsReply, Flatten, Inv, WellPlanned, InStep, Paced, ReadFrom, WouldEnd, Step, Due;
    NextPart(w, e, v);
    PlanLength(lines, plan);
    var k, q := |w.done|, w.part + w.sc.readbuf;
    assert q + [] == q;
    if e.Op? && w.sc.mode == Busy {
      var due := Due(w, before);
      DueOnPace(w, before, lines, plan);
      BusyProgram(w, lines, plan);
      ReadPaced(due, after, e.rd, Flatten(lines), plan, k, q);
      if e.rd == Again {
        PacedCooperates(w, e.rd, due, after, lines, plan);
        PausePaced(w, due, after, v, lines, plan);
      }
    }
  }

  lemma PausePaced(w: World, due: seq<Read>, after: seq<Read>, v: World, lines: seq<bytes>, plan: seq<bytes>)
    requires Inv(w) && WellPlanned(lines, plan) && InStep(w, lines, plan) && w.sc.mode == Busy
    requires OnPace(w, due, lines, plan) && ReadFrom(due, after, Again)
    requires Cooperative(w, Op(Again), lines, plan)
    requires w.sc.readbuf == [] && WouldEnd(w.sc) ==> |v.done| == |w.done| + 1 && v.part + v.sc.readbuf == []
    requires !(w.sc.readbuf == [] && WouldEnd(w.sc)) ==>
               v.done == w.done && v.part + v.sc.readbuf == w.part + w.sc.readbuf
    ensures OnPace(v, after, lines, plan)
  {
    hide AcceptsReply, Flatten, TrackInv, ConserveInv, LockstepInv, LatchInv, ShownInv, CountInv, WellPlanned,
         Paced, WouldEnd,
         Reads;
    var k, q := |w.done|, w.part + w.sc.readbuf;
    BusyProgram(w, lines, plan);
    ReadPaced(due, after, Again, Flatten(lines), plan, k, q);
    if w.sc.readbuf == [] && WouldEnd(w.sc) {
      assert w.part + [] == w.part;
      EndPaced(lines, plan, k + 1);
    } else if q == plan[k] {
      WholeEaten(w, lines, plan);
      EndReached(w, lines, plan);
    }
  }

  // ---- Lines that are typed one after the other ----

  lemma LinePrefix(lines: seq<bytes>, m: nat)
    requires m < |lines|
    ensures Flatten(lines[..m]) + lines[m] <= Flatten(lines)
  {
    hide Flatten;
    FlattenPrefix(lines, m + 1);
    FlattenSnoc(lines[..m], lines[m]);
    assert lines[..m] + [lines[m]] == lines[..m + 1];
  }

  /** A line stands where the first newline after its start is. */
  lemma LineEnds(front: bytes, l: bytes, all: bytes)
    requires UserLine(l) && front + l <= all
    ensures all[|front|..|front| + |l|] == l
    ensures all[|front| + |l| - 1] == NL
    ensures forall i :: |front| <= i < |front| + |l| - 1 ==> all[i] != NL
  {
    assert forall i :: 0 <= i < |l| ==> l[i] == (front + l)[|front| + i] == all[|front| + i];
    forall i | |front| <= i < |front| + |l| - 1 ensures all[i] != NL {
      assert l[i - |front|] in l[..|l| - 1];
    }
  }

  /** A line that continues the lines taken so far is the next one of the plan. */
  lemma NextLine(lines: seq<bytes>, m: nat, l: bytes)
    requires forall x :: x in lines ==> UserLine(x)
    requires m <= |lines| && UserLine(l) && Flatten(lines[..m]) + l <= Flatten(lines)
    ensures m < |lines| && l == lines[m]
  {
    hide Flatten;
    assert l != [];
    assert lines[..|lines|] == lines;
    if m < |lines| {
      LinePrefix(lines, m);
      assert UserLine(lines[m]);
      hide UserLine;
      SameLine(Flatten(lines[..m]), l, lines[m], Flatten(lines));
    }
  }

  lemma SameLine(front: bytes, a: bytes, b: bytes, all: bytes)
    requires UserLine(a) && UserLine(b) && front + a <= all && front + b <= all
    ensures a == b
  {
    LineEnds(front, a, all);
    LineEnds(front, b, all);
  }

  // ---- Sessions on a planned script ----

  /** A run driven by such a script, for a user who types the lines, is legal up to any
      of its states. */
  lemma {:induction false} DrivenAt(dr: Drive, script: seq<Read>, lines: seq<bytes>, plan: seq<bytes>, i: nat)
    requires IsDriven(dr, script) && i < |dr.tr.worlds|
    requires WellPlanned(lines, plan) && Paced(script, Flatten(lines), plan, 0, [])
    requires Flatten(dr.Here().lines) <= Flatten(lines)
    ensures InStep(dr.tr.worlds[i], lines, plan) && OnPace(dr.tr.worlds[i], dr.scripts[i], lines, plan)
    ensures forall j :: 0 <= j < i ==> Cooperative(dr.tr.worlds[j], dr.tr.events[j], lines, plan)
  {
    hide Inv, InStep, WellPlanned, Step, Cooperative, Paced, Flatten, Moves;
    if i == 0 {
      BeginPaced(script, lines, plan);
    } else {
      DrivenAt(dr, script, lines, plan, i - 1);
      InvAt(dr.tr, i - 1);
      LinesGrow(dr.tr, i);
      DrivenStep(dr.tr.worlds[i - 1], dr.tr.events[i - 1], dr.tr.worlds[i], dr.scripts[i - 1], dr.scripts[i],
                 dr.Here().lines, lines, plan);
    }
  }

  lemma BeginPaced(script: seq<Read>, lines: seq<bytes>, plan: seq<bytes>)
    requires WellPlanned(lines, plan) && Paced(script, Flatten(lines), plan, 0, [])
    ensures InStep(BEGIN, lines, plan) && OnPace(BEGIN, script, lines, plan)
  {
    hide AcceptsReply, Flatten, Paced, WellPlanned, InStep;
    BeginInStep(lines, plan);
    var none: bytes := [];
    assert none + none == none;
  }

  lemma DrivenStep(w: World, e: Event, v: World, before: seq<Read>, after: seq<Read>, taken: seq<bytes>,
                   lines: seq<bytes>, plan: seq<bytes>)
    requires w.sc.Valid() && Inv(w) && WellPlanned(lines, plan)
    requires InStep(w, lines, plan) && OnPace(w, before, lines, plan)
    requires Step(w, e) == At(v) && Moves(w, e, before, after)
    requires v.lines <= taken && Flatten(taken) <= Flatten(lines)
    ensures Cooperative(w, e, lines, plan) && InStep(v, lines, plan) && OnPace(v, after, lines, plan)
  {
    hide Inv, InStep, Step, OnPace, Flatten, Enabled, WellPlanned, ReadFrom;
    EnabledStep(w, e);
    match e {
      case Show =>
      case Line(l) => LineCooperates(w, l, v, taken, lines, plan);
      case Op(rd) =>
        if w.sc.mode == Busy {
          DueOnPace(w, before, lines, plan);
          PacedCooperates(w, rd, Due(w, before), after, lines, plan);
        }
    }
    StepInStep(w, e, lines, plan);
    PaceKept(w, e, v, before, after, lines, plan);
  }

  lemma LineCooperates(w: World, l: bytes, v: World, taken: seq<bytes>, lines: seq<bytes>, plan: seq<bytes>)
    requires w.sc.Valid() && WellPlanned(lines, plan) && InStep(w, lines, plan)
    requires Enabled(w, Line(l)) && Step(w, Line(l)) == At(v) && v.lines <= taken && Flatten(taken) <= Flatten(lines)
    ensures Cooperative(w, Line(l), lines, plan)
  {
    hide AcceptsReply, Flatten, Step, UserLine;
    LinesOnlyGrow(w, Line(l));
    FlattenSnoc(w.lines, l);
    assert taken[..|v.lines|] == v.lines;
    FlattenPrefix(taken, |v.lines|);
    NextLine(lines, |w.lines|, l);
  }

  /** On a script that answers as planned, for a user who types the lines: the run is legal, no
      read can abort it, and at every prompt the text shown is the expected one. */
  lemma DrivenSession(dr: Drive, script: seq<Read>, lines: seq<bytes>, plan: seq<bytes>)
    requires IsDriven(dr, script)
    requires WellPlanned(lines, plan) && Paced(script, Flatten(lines), plan, 0, [])
    requires Flatten(dr.Here().lines) <= Flatten(lines)
    ensures LegalRun(dr.tr, lines, plan)
    ensures forall rd, after :: dr.Here().sc.mode == Busy && ReadFrom(dr.Next(), after, rd) ==>
              !Step(dr.Here(), Op(rd)).Abort?
    ensures var w := dr.Here();
            w.asking ==>
              && |w.lines| <= |lines| && w.lines == lines[..|w.lines|]
              && w.shown == Expected(lines, plan, |w.lines|)
  {
    hide Inv, WellPlanned, Step, Cooperative, Paced, Flatten, Moves, ReadFrom, Expected, Due;
    var n, w := |dr.tr.worlds| - 1, dr.Here();
    DrivenAt(dr, script, lines, plan, n);
    SessionTransparency(dr.tr, lines, plan);
    InvAt(dr.tr, n);
    DueOnPace(w, dr.scripts[n], lines, plan);
    forall rd, after | w.sc.mode == Busy && ReadFrom(dr.Next(), after, rd)
      ensures !Step(w, Op(rd)).Abort?
    {
      PacedCooperates(w, rd, dr.Next(), after, lines, plan);
      if Step(w, Op(rd)).Abort? {
        AbortEnabled(w, Op(rd));
      }
    }
  }

  lemma AbortEnabled(w: World, e: Event)
    requires w.sc.Valid() && Step(w, e).Abort?
    ensures Enabled(w, e)
  {
  }

  /** If the script holds the whole plan, nobody waits for ever for the switch. */
  lemma NoSilence(dr: Drive, script: seq<Read>, lines: seq<bytes>, plan: seq<bytes>)
    requires IsDriven(dr, script)
    requires WellPlanned(lines, plan) && LegalRun(dr.tr, lines, plan) && Flatten(plan) <= Stream(script)
    requires dr.Next() == []
    ensures !dr.Here().awake
  {
    hide Inv, WellPlanned, LegalRun, IsRun, Flatten, Stream, Due, Moves;
    AccountsHere(dr, script);
    LegalInStep(dr.tr, lines, plan);
    var w := dr.Here();
    assert Stream([]) == [] && w.recvd + [] == w.recvd by {
      NothingLeft();
    }
    if w.awake {
      AwakeBusy(w);
      ReceivedInStep(w, lines, plan);
      BusyInStep(w, lines, plan);
      LastReply(plan, |w.done|, w.part + w.sc.readbuf, lines);
      WholeEaten(w, lines, plan);
    }
  }

  lemma NothingLeft()
    ensures Stream([]) == []
  {
  }

  lemma AwakeBusy(w: World)
    requires Inv(w) && w.awake
    ensures w.sc.mode == Busy
  {
  }

  /** All of the plan has come only if all of its last reply has. */
  lemma LastReply(plan: seq<bytes>, k: nat, q: bytes, lines: seq<bytes>)
    requires WellPlanned(lines, plan) && k < |plan| && q <= plan[k]
    requires Flatten(plan) <= Flatten(plan[..k]) + q
    ensures q == plan[k]
  {
    hide Flatten, AcceptsReply;
    FlattenPrefix(plan, k + 1);
    FlattenSnoc(plan[..k], plan[k]);
    assert plan[..k] + [plan[k]] == plan[..k + 1];
  }

  // ---- Such scripts exist ----

  /** Each reply in one piece, followed by a pause. */
  function OnePiece(plan: seq<bytes>, k: nat): (script: seq<Read>)
    requires k <= |plan|
    decreases |plan| - k
  {
    if k == |plan| then [] else [Data(plan[k]), Again] + OnePiece(plan, k + 1)
  }

  lemma {:induction false} OnePiecePaced(lines: seq<bytes>, plan: seq<bytes>, k: nat)
    requires WellPlanned(lines, plan) && k <= |plan|
    ensures Paced(OnePiece(plan, k), Flatten(lines), plan, k, [])
    ensures Flatten(plan[..k]) + Stream(OnePiece(plan, k)) == Flatten(plan)
    decreases |plan| - k
  {
    hide AcceptsReply, Flatten;
    if k == |plan| {
      assert plan[..k] == plan && Flatten(plan) + [] == Flatten(plan);
    } else {
      OnePiecePaced(lines, plan, k + 1);
      var script, rest := OnePiece(plan, k), OnePiece(plan, k + 1);
      assert script[1..] == [Again] + rest && script[1..][1..] == rest;
      assert [] + plan[k] == plan[k] && [] + Stream(rest) == Stream(rest);
      FlattenSnoc(plan[..k], plan[k]);
      assert plan[..k] + [plan[k]] == plan[..k + 1];
      Associative(Flatten(plan[..k]), plan[k], Stream(rest));
    }
  }
}
