/** What a pause of the switch inside a reply can do: the plans that any pause leaves alone, and
    how the others go wrong. */
module Pauses {

  import opened Bytes
  import opened Programs
  import opened Protocol
  import Fsm
  import opened Languages
  import opened Prefixes
  import opened CoreRuns
  import opened Session

  // ---- Plans that any pause leaves alone ----

  /** A run of a switch that sends the plan with pauses wherever it likes. */
  predicate SentRun(tr: Trace, lines: seq<bytes>, plan: seq<bytes>) {
    IsRun(tr) && forall i :: 0 <= i < |tr.events| ==> Sends(tr.worlds[i], tr.events[i], lines, plan)
  }

  /** No reply begins with another reply that its program would accept. */
  predicate PauseProof(lines: seq<bytes>, plan: seq<bytes>)
    requires WellPlanned(lines, plan)
  {
    forall i, n :: 0 <= i < |plan| && 0 <= n < |plan[i]| ==> !AcceptsReply(ProgramFor(Flatten(lines), i), plan[i][..n])
  }

  /** If no proper prefix of the reply in progress is itself a reply, what the switch sends is
      cooperative, however it pauses. */
  lemma NoPauseMatters(w: World, e: Event, lines: seq<bytes>, plan: seq<bytes>)
    requires Inv(w) && WellPlanned(lines, plan) && InStep(w, lines, plan) && Sends(w, e, lines, plan)
    requires w.sc.mode == Busy ==>
               forall n :: 0 <= n < |plan[|w.done|]| ==> !AcceptsReply(w.sc.cur, plan[|w.done|][..n])
    ensures Cooperative(w, e, lines, plan)
  {
    hide AcceptsReply, Reads, Stuck, Transcript, Flatten, Replies, UserLine, Handshake, WellPlanned, WouldEnd, Sends;
    if w.sc.mode == Busy && w.sc.readbuf == [] && WouldEnd(w.sc) {
      AcceptedSoFar(w);
      assert w.part + [] == w.part == plan[|w.done|][..|w.part|];
    }
  }

  lemma {:induction false} PauseProofAt(tr: Trace, lines: seq<bytes>, plan: seq<bytes>, i: nat)
    requires WellPlanned(lines, plan) && PauseProof(lines, plan) && SentRun(tr, lines, plan) && i < |tr.worlds|
    ensures InStep(tr.worlds[i], lines, plan)
    ensures forall j :: 0 <= j < i ==> Cooperative(tr.worlds[j], tr.events[j], lines, plan)
  {
    hide Inv, InStep, WellPlanned, PauseProof, Sends, Cooperative, Step;
    if i == 0 {
      BeginInStep(lines, plan);
    } else {
      PauseProofAt(tr, lines, plan, i - 1);
      InvAt(tr, i - 1);
      var w, e := tr.worlds[i - 1], tr.events[i - 1];
      assert Step(w, e) == At(tr.worlds[i]);
      EnabledStep(w, e);
      PauseProofBusy(w, lines, plan);
      NoPauseMatters(w, e, lines, plan);
      StepInStep(w, e, lines, plan);
    }
  }

  lemma PauseProofBusy(w: World, lines: seq<bytes>, plan: seq<bytes>)
    requires Inv(w) && WellPlanned(lines, plan) && PauseProof(lines, plan) && InStep(w, lines, plan)
    ensures w.sc.mode == Busy ==>
              && |w.done| < |plan|
              && forall n :: 0 <= n < |plan[|w.done|]| ==> !AcceptsReply(w.sc.cur, plan[|w.done|][..n])
  {
    hide Inv, AcceptsReply, InStep, WellPlanned, Flatten;
    if w.sc.mode == Busy {
      BusyProgram(w, lines, plan);
    }
  }

  /** A pause-proof plan needs no cooperation: every run of it is legal. */
  lemma PauseProofRuns(tr: Trace, lines: seq<bytes>, plan: seq<bytes>)
    requires WellPlanned(lines, plan) && PauseProof(lines, plan) && SentRun(tr, lines, plan)
    ensures LegalRun(tr, lines, plan)
  {
    hide WellPlanned, PauseProof, Cooperative, Sends, Step;
    PauseProofAt(tr, lines, plan, |tr.worlds| - 1);
  }

  // ---- Plans that a pause can break ----

  /** The plan in which one reply ends early. */
  function Hastened(plan: seq<bytes>, i: nat, n: nat): seq<bytes>
    requires i < |plan| && n <= |plan[i]|
  {
    plan[i := plan[i][..n]]
  }

  lemma HastenedPlanned(lines: seq<bytes>, plan: seq<bytes>, i: nat, n: nat)
    requires WellPlanned(lines, plan) && i < |plan| && n <= |plan[i]|
    requires AcceptsReply(ProgramFor(Flatten(lines), i), plan[i][..n])
    ensures WellPlanned(lines, Hastened(plan, i, n))
  {
    hide AcceptsReply, Flatten, ProgramFor;
  }

  /** The bytes of the first `m` replies, of which only the last may have ended early. */
  lemma HastenedPrefix(plan: seq<bytes>, i: nat, n: nat, m: nat)
    requires i < |plan| && n <= |plan[i]| && m <= i + 1
    ensures Flatten(Hastened(plan, i, n)[..m]) <= Flatten(plan[..m])
    ensures m == i + 1 ==> Flatten(Hastened(plan, i, n)[..m]) == Flatten(plan[..i]) + plan[i][..n]
    ensures m == i + 1 ==> Flatten(plan[..m]) == Flatten(plan[..i]) + plan[i]
  {
    hide Flatten;
    var pl := Hastened(plan, i, n);
    if m <= i {
      assert pl[..m] == plan[..m];
    } else {
      assert pl[..m] == plan[..i] + [plan[i][..n]] && plan[..m] == plan[..i] + [plan[i]];
      FlattenSnoc(plan[..i], plan[i][..n]);
      FlattenSnoc(plan[..i], plan[i]);
    }
  }

  /** Until that reply has ended, the switch sends as it should. */
  lemma HastenedSends(w: World, e: Event, lines: seq<bytes>, plan: seq<bytes>, i: nat, n: nat)
    requires i < |plan| && n <= |plan[i]| && Inv(w)
    requires Sends(w, e, lines, Hastened(plan, i, n)) && |w.typed| <= i
    ensures Sends(w, e, lines, plan)
  {
    hide Inv, Flatten, Hastened;
    HastenedPrefix(plan, i, n, |w.typed| + 1);
  }

  /** A run up to one of its states. */
  function Upto(tr: Trace, j: nat): (r: Trace)
    requires IsRun(tr) && j < |tr.worlds|
    ensures IsRun(r) && Last(r) == tr.worlds[j]
  {
    Trace(tr.worlds[..j + 1], tr.events[..j])
  }

  lemma DoneByOne(w: World, e: Event)
    requires w.sc.Valid() && Step(w, e).At?
    ensures var v := Step(w, e).w;
            && |w.done| <= |v.done| <= |w.done| + 1
            && (|v.done| > |w.done| ==> v.sc.mode != Busy)
  {
    hide TableOf, Fsm.Feed, Fsm.Probe, Fsm.Commit, Shown, UserLine, Protocol.Write;
  }

  /** The first state with `m` complete replies. */
  lemma {:induction false} FirstDone(tr: Trace, m: nat, last: nat) returns (j: nat)
    requires IsRun(tr) && last < |tr.worlds| && 0 < m <= |tr.worlds[last].done|
    ensures j <= last && |tr.worlds[j].done| == m && tr.worlds[j].sc.mode != Busy
    ensures forall k :: 0 <= k < j ==> |tr.worlds[k].done| < m
    decreases last
  {
    hide Step;
    if last > 0 {
      assert Step(tr.worlds[last - 1], tr.events[last - 1]) == At(tr.worlds[last]);
      DoneByOne(tr.worlds[last - 1], tr.events[last - 1]);
    }
    if last > 0 && m <= |tr.worlds[last - 1].done| {
      j := FirstDone(tr, m, last - 1);
    } else {
      j := last;
      FewerBefore(tr, last, m);
    }
  }

  lemma {:induction false} FewerBefore(tr: Trace, last: nat, m: nat)
    requires IsRun(tr) && last < |tr.worlds| && (last > 0 ==> |tr.worlds[last - 1].done| < m)
    ensures forall k :: 0 <= k < last ==> |tr.worlds[k].done| < m
  {
    hide Step;
    if last > 1 {
      assert Step(tr.worlds[last - 2], tr.events[last - 2]) == At(tr.worlds[last - 1]);
      DoneByOne(tr.worlds[last - 2], tr.events[last - 2]);
      FewerBefore(tr, last - 1, m);
    }
  }

  /** At the last prompt there is a reply for the login and for every byte. */
  lemma AllDone(tr: Trace, lines: seq<bytes>, plan: seq<bytes>)
    requires WellPlanned(lines, plan) && LegalRun(tr, lines, plan) && Last(tr).asking && Last(tr).lines == lines
    ensures |Last(tr).done| == |plan| && |Last(tr).typed| == |plan| - 1
  {
    hide AcceptsReply, Flatten, WellPlanned, IsRun, Cooperative, Replies, Transcript, Reads, Handshake;
    LegalInStep(tr, lines, plan);
    PlanLength(lines, plan);
    assert Last(tr).typed + [] == Last(tr).typed;
  }

  /** Whenever a reply begins with a reply, the switch can pause there and the program takes the
      one for the other. */
  lemma PauseBreaks(lines: seq<bytes>, plan: seq<bytes>, i: nat, n: nat) returns (tr: Trace)
    requires WellPlanned(lines, plan) && i < |plan| && n < |plan[i]|
    requires AcceptsReply(ProgramFor(Flatten(lines), i), plan[i][..n])
    ensures SentRun(tr, lines, plan) && LegalRun(tr, lines, Hastened(plan, i, n))
    ensures var w := Last(tr);
            && |w.done| == i + 1 && w.done[i].reply == plan[i][..n] && w.sc.mode != Busy
            && !InStep(w, lines, plan)
  {
    hide AcceptsReply, WellPlanned, Inv, LegalRun, Sends, Step, Flatten, ProgramFor;
    var pl := Hastened(plan, i, n);
    HastenedPlanned(lines, plan, i, n);
    EmptyLegal(lines, pl);
    var full := SessionCompletes(NO_EVENTS, lines, pl);
    AllDone(full, lines, pl);
    assert IsRun(full) by {
      LegalInStep(full, lines, pl);
    }
    var j := FirstDone(full, i + 1, |full.worlds| - 1);
    tr := Upto(full, j);
    forall k | 0 <= k < j ensures |full.worlds[k].typed| <= i {
      InvAt(full, k);
      TypedNotMore(full.worlds[k]);
    }
    LegalUpto(full, lines, pl, j);
    SentUpto(full, lines, plan, i, n, j);
    InStepAt(full, j, lines, pl);
    assert Last(tr).done[i].reply == pl[i] != plan[i];
  }

  lemma TypedNotMore(w: World)
    requires Inv(w)
    ensures |w.typed| <= |w.done|
  {
  }

  lemma LegalUpto(full: Trace, lines: seq<bytes>, plan: seq<bytes>, j: nat)
    requires LegalRun(full, lines, plan) && j < |full.worlds|
    ensures LegalRun(Upto(full, j), lines, plan)
  {
    hide Cooperative, Step;
  }

  lemma EmptyLegal(lines: seq<bytes>, plan: seq<bytes>)
    ensures LegalRun(NO_EVENTS, lines, plan)
  {
  }

  lemma SentUpto(full: Trace, lines: seq<bytes>, plan: seq<bytes>, i: nat, n: nat, j: nat)
    requires i < |plan| && n <= |plan[i]| && LegalRun(full, lines, Hastened(plan, i, n)) && j < |full.worlds|
    requires forall k :: 0 <= k < j ==> |full.worlds[k].typed| <= i
    ensures SentRun(Upto(full, j), lines, plan)
  {
    hide Inv, Sends, Step, Hastened;
    forall k | 0 <= k < j ensures Sends(full.worlds[k], full.events[k], lines, plan) {
      InvAt(full, k);
      assert Cooperative(full.worlds[k], full.events[k], lines, Hastened(plan, i, n));
      HastenedSends(full.worlds[k], full.events[k], lines, plan, i, n);
    }
  }

  /** The schedule of the switch does not matter exactly for the pause-proof plans. */
  lemma PauseProofExactly(lines: seq<bytes>, plan: seq<bytes>)
    requires WellPlanned(lines, plan)
    ensures PauseProof(lines, plan) <==> forall tr :: SentRun(tr, lines, plan) ==> InStep(Last(tr), lines, plan)
    ensures PauseProof(lines, plan) <==> forall tr :: SentRun(tr, lines, plan) ==> LegalRun(tr, lines, plan)
  {
    hide WellPlanned, SentRun, LegalRun, InStep, AcceptsReply, Flatten, ProgramFor;
    forall tr | SentRun(tr, lines, plan)
      ensures LegalRun(tr, lines, plan) ==> InStep(Last(tr), lines, plan)
      ensures PauseProof(lines, plan) ==> LegalRun(tr, lines, plan)
    {
      if PauseProof(lines, plan) {
        PauseProofRuns(tr, lines, plan);
      }
      if LegalRun(tr, lines, plan) {
        LegalInStep(tr, lines, plan);
      }
    }
    if !PauseProof(lines, plan) {
      PlanLength(lines, plan);
      var i, n :| 0 <= i < |plan| && 0 <= n < |plan[i]| &&
                  AcceptsReply(ProgramFor(Flatten(lines), i), plan[i][..n]);
      var tr := PauseBreaks(lines, plan, i, n);
      assert SentRun(tr, lines, plan) && !InStep(Last(tr), lines, plan);
    }
  }

  // ---- A panic ----

  lemma ExtendSent(tr: Trace, e: Event, lines: seq<bytes>, plan: seq<bytes>)
    requires SentRun(tr, lines, plan) && Sends(Last(tr), e, lines, plan) && Step(Last(tr), e).At?
    ensures SentRun(Extend(tr, e), lines, plan)
  {
    hide Sends, Step;
  }

  /** From the end of a reply to the next byte typed; what the switch is to send does not
      matter meanwhile. */
  lemma NextTyped(tr: Trace, lines: seq<bytes>, pl: seq<bytes>, plan: seq<bytes>) returns (next: Trace)
    requires WellPlanned(lines, pl) && LegalRun(tr, lines, pl) && SentRun(tr, lines, plan)
    requires Last(tr).sc.mode != Busy && |Last(tr).done| < |pl|
    ensures LegalRun(next, lines, pl) && SentRun(next, lines, plan)
    ensures var w, v := Last(tr), Last(next);
            v.done == w.done && v.sc.mode == Busy && v.part == [] && v.sc.readbuf == [] && !v.awake
    decreases |lines| - |Last(tr).lines|, PhaseRank(Last(tr))
  {
    hide WellPlanned, Inv, LegalRun, SentRun, IsRun, Enabled, Cooperative, Sends, Step;
    LegalInStep(tr, lines, pl);
    var w := Last(tr);
    if w.asking && |w.lines| == |lines| {
      assert lines[..|lines|] == lines;
      AllDone(tr, lines, pl);
      assert false;
    } else {
      var e := NextEvent(w, lines, pl);
      IdleSends(w, e, lines, pl, plan);
      ExtendLegal(tr, e, lines, pl);
      ExtendSent(tr, e, lines, plan);
      next := Extend(tr, e);
      LegalInStep(next, lines, pl);
      if Last(next).sc.mode != Busy {
        next := NextTyped(next, lines, pl, plan);
      }
    }
  }

  lemma IdleSends(w: World, e: Event, lines: seq<bytes>, pl: seq<bytes>, plan: seq<bytes>)
    requires Inv(w) && Cooperative(w, e, lines, pl) && w.sc.mode != Busy
    ensures Sends(w, e, lines, plan)
  {
  }

  /** When a pause has ended reply `i` early, the rest of it and the next reply go to the next
      program.  A read of some of these bytes aborts the session if they are not viable. */
  lemma EarlyAbort(lines: seq<bytes>, plan: seq<bytes>, i: nat, n: nat, d: bytes) returns (tr: Trace)
    requires WellPlanned(lines, plan) && i + 1 < |plan| && n < |plan[i]|
    requires AcceptsReply(ProgramFor(Flatten(lines), i), plan[i][..n])
    requires d != [] && d <= plan[i][n..] + plan[i + 1] && !Viable(ProgramFor(Flatten(lines), i + 1), d)
    ensures SentRun(tr, lines, plan)
    ensures var w, e := Last(tr), Op(Data(d));
            && |w.done| == i + 1 && w.done[i].reply == plan[i][..n]
            && Enabled(w, e) && Sends(w, e, lines, plan)
            && Step(w, e).Abort? && (Step(w, e).why == BadEscape || Step(w, e).why == FsmError)
  {
    hide WellPlanned, Inv, LegalRun, SentRun, InStep, Step, AcceptsReply, Viable, Flatten, Hastened, ProgramFor;
    var pl := Hastened(plan, i, n);
    HastenedPlanned(lines, plan, i, n);
    PlanLength(lines, plan);
    PlanLength(lines, pl);
    var early := PauseBreaks(lines, plan, i, n);
    tr := NextTyped(early, lines, pl, plan);
    var w := Last(tr);
    LegalInStep(tr, lines, pl);
    BusyProgram(w, lines, pl);
    ReceivedInStep(w, lines, pl);
    HastenedRest(plan, i, n, d);
    assert Flatten(pl[..i + 1]) + ([] + []) == Flatten(pl[..i + 1]);
    DataEnabled(w, d);
    AbortExactly(tr, Data(d));
    assert [] + [] + d == d;
  }

  lemma DataEnabled(w: World, d: bytes)
    requires Inv(w) && w.sc.mode == Busy && d != []
    ensures Enabled(w, Op(Data(d)))
  {
  }

  lemma HastenedRest(plan: seq<bytes>, i: nat, n: nat, d: bytes)
    requires i + 1 < |plan| && n <= |plan[i]| && d <= plan[i][n..] + plan[i + 1]
    ensures Flatten(Hastened(plan, i, n)[..i + 1]) + d <= Flatten(plan[..i + 2])
  {
    hide Flatten, Hastened;
    HastenedPrefix(plan, i, n, i + 1);
    var short, rest, front := plan[i][..n], plan[i][n..], Flatten(plan[..i]);
    assert plan[..i + 2] == plan[..i + 1] + [plan[i + 1]];
    FlattenSnoc(plan[..i + 1], plan[i + 1]);
    assert short + rest == plan[i];
    Associative(front, short, rest);
    Associative(front + short, rest, plan[i + 1]);
    PrefixCancelBack(front + short, d, rest + plan[i + 1]);
  }

  lemma PrefixCancelBack(a: bytes, b: bytes, c: bytes)
    requires b <= c
    ensures a + b <= a + c
  {
  }

  // ---- A wrong text ----

  /** The plan in which the reply to the newline of line `k` ends early, and nothing follows. */
  function Shortened(lines: seq<bytes>, plan: seq<bytes>, k: nat, short: bytes): seq<bytes>
    requires 0 < k <= |lines| && WellPlanned(lines, plan)
  {
    FlattenPrefix(lines, k);
    plan[..|Flatten(lines[..k])|] + [short]
  }

  lemma ShortenedPlanned(lines: seq<bytes>, plan: seq<bytes>, k: nat, short: bytes)
    requires 0 < k <= |lines| && WellPlanned(lines, plan) && AcceptsReply(Cmdout, short)
    ensures WellPlanned(lines[..k], Shortened(lines, plan, k, short))
  {
    hide AcceptsReply, Flatten;
    var all, some, less := Flatten(lines), Flatten(lines[..k]), Shortened(lines, plan, k, short);
    FlattenPrefix(lines, k);
    ProgramsOfLine(lines, k);
    forall i | 0 <= i < |less| ensures AcceptsReply(ProgramFor(some, i), less[i]) {
      assert i > 0 ==> some[i - 1] == all[i - 1];
    }
  }

  /** Two plans that agree on the first `m` lines are shown alike so far. */
  lemma {:induction false} ExpectedAgrees(lines: seq<bytes>, plan: seq<bytes>, ls: seq<bytes>, pl: seq<bytes>, m: nat)
    requires WellPlanned(lines, plan) && WellPlanned(ls, pl) && m <= |ls| && ls <= lines
    requires |Flatten(ls[..m])| < |plan|
    requires forall i :: 0 <= i <= |Flatten(ls[..m])| && i < |pl| ==> pl[i] == plan[i]
    ensures Expected(ls, pl, m) == Expected(lines, plan, m)
  {
    hide AcceptsReply, DisplayOf, WellPlanned, Flatten;
    PlanLength(ls, pl);
    assert lines[..m] == ls[..m];
    FlattenPrefix(ls, m);
    if m > 0 {
      assert ls[..m][..m - 1] == ls[..m - 1];
      FlattenPrefix(ls[..m], m - 1);
      ExpectedAgrees(lines, plan, ls, pl, m - 1);
    }
  }

  lemma ShortenedShown(lines: seq<bytes>, plan: seq<bytes>, k: nat, short: bytes)
    requires 0 < k <= |lines| && WellPlanned(lines, plan) && AcceptsReply(Cmdout, short)
    ensures WellPlanned(lines[..k], Shortened(lines, plan, k, short))
    ensures Expected(lines[..k], Shortened(lines, plan, k, short), k) ==
            Expected(lines, plan, k - 1) + DisplayOf(Cmdout, short)
  {
    hide AcceptsReply, DisplayOf, WellPlanned, Flatten;
    var ls, pl := lines[..k], Shortened(lines, plan, k, short);
    ShortenedPlanned(lines, plan, k, short);
    PlanLength(ls, pl);
    PlanLength(lines, plan);
    FlattenPrefix(lines, k);
    assert ls[..k] == ls && ls[..k - 1] == lines[..k - 1];
    NewlineLonger(ls, pl, k);
    ExpectedAgrees(lines, plan, ls, pl, k - 1);
  }

  lemma NewlineLonger(lines: seq<bytes>, plan: seq<bytes>, k: nat)
    requires 0 < k <= |lines| && WellPlanned(lines, plan)
    ensures |Flatten(lines[..k - 1])| < |Flatten(lines[..k])|
  {
    hide AcceptsReply, Flatten;
    ProgramsOfLine(lines, k);
  }

  lemma DifferentTails(a: bytes, b: bytes, c: bytes)
    requires a + b == a + c
    ensures b == c
  {
    assert b == (a + b)[|a|..];
    assert c == (a + c)[|a|..];
  }

  /** At the prompt after the last line, what was received is the plan. */
  lemma AllReceived(w: World, lines: seq<bytes>, plan: seq<bytes>)
    requires Inv(w) && WellPlanned(lines, plan) && InStep(w, lines, plan) && w.asking && w.lines == lines
    ensures w.recvd == Flatten(plan)
  {
    hide AcceptsReply, Flatten, Replies, Handshake, Transcript, Reads, WellPlanned;
    PlanLength(lines, plan);
    RepliesArePlan(w.done, plan);
    assert w.typed + [] == w.typed;
    assert plan[..|plan|] == plan;
    assert Replies(w.done) + [] + [] == Replies(w.done);
  }

  lemma ShortenedIsPrefix(lines: seq<bytes>, plan: seq<bytes>, k: nat, short: bytes)
    requires 0 < k <= |lines| && WellPlanned(lines, plan) && short <= NewlineReply(lines, plan, k)
    ensures Flatten(Shortened(lines, plan, k, short)) <= Flatten(plan)
  {
    hide AcceptsReply, Flatten, WellPlanned;
    FlattenPrefix(lines, k);
    var j := |Flatten(lines[..k])|;
    PlanLength(lines, plan);
    FlattenPrefix(plan, j + 1);
    assert plan[..j + 1] == plan[..j] + [plan[j]];
    FlattenSnoc(plan[..j], plan[j]);
    FlattenSnoc(plan[..j], short);
  }

  /** Transparency depends on the schedule.  Whenever the reply to a newline begins with
      another complete reply that is displayed differently, a pause of the switch after that
      one leads the program, on nothing but bytes of the plan, to a prompt with a wrong
      text.  It cannot be blamed: the run is also the legal run of the shortened plan. */
  lemma EarlyEnd(lines: seq<bytes>, plan: seq<bytes>, k: nat, short: bytes) returns (tr: Trace)
    requires WellPlanned(lines, plan) && 0 < k <= |lines|
    requires short <= NewlineReply(lines, plan, k) && AcceptsReply(Cmdout, short)
    requires DisplayOf(Cmdout, short) != DisplayOf(Cmdout, NewlineReply(lines, plan, k))
    ensures LegalRun(tr, lines[..k], Shortened(lines, plan, k, short))
    ensures var w := Last(tr);
            && IsRun(tr) && w.asking && w.lines == lines[..k] && w.recvd <= Flatten(plan)
            && w.shown == Expected(lines, plan, k - 1) + DisplayOf(Cmdout, short)
            && w.shown != Expected(lines, plan, k) && w.shown != SessionText(lines, plan, k)
  {
    hide AcceptsReply, DisplayOf, WellPlanned, Flatten, Inv, InStep, Cooperative, Step, SessionText, Shortened,
         NewlineReply;
    var ls, pl := lines[..k], Shortened(lines, plan, k, short);
    ShortenedShown(lines, plan, k, short);
    tr := SessionCompletes(NO_EVENTS, ls, pl);
    SessionTransparency(tr, ls, pl);
    LegalInStep(tr, ls, pl);
    AllReceived(Last(tr), ls, pl);
    ShortenedIsPrefix(lines, plan, k, short);
    ExpectedExact(lines, plan, k);
    if Last(tr).shown == Expected(lines, plan, k) {
      DifferentTails(Expected(lines, plan, k - 1), DisplayOf(Cmdout, short),
                     DisplayOf(Cmdout, NewlineReply(lines, plan, k)));
    }
    ExpectedHasNoNul(ls, pl, k);
  }
}
