/** The answers to the login chat: what they mean to a terminal, and after which text exactly each
    of them is sent. */
module Answers {

  import opened Bytes
  import opened Programs
  import opened Protocol
  import AnsiSeq
  import opened AnsiSeqText
  import opened Grammar
  import Fsm
  import opened Languages
  import opened Prefixes
  import opened CoreRuns
  import opened Session

  // ---- What they mean ----

  /** The key pressed is 'x'; the report is that of a cursor in row 9999 and column 130. */
  lemma AnswersMean()
    ensures ANYKEY == [120]
    ensures REPORT == PrintCsi(false, [Number(9999), Number(130)], 82)
    ensures AnsiSeq.Eat(AnsiSeq.FRESH, REPORT) ==
            AnsiSeq.Done(11, AnsiSeq.Parser(AnsiSeq.SFin, AnsiSeq.Sequence(91, 82, [], false, [9999, 130]), 0, false))
  {
    var ps := [Number(9999), Number(130)];
    ReportText();
    ReportValues();
    hide PrintCsi, Reported, AnsiSeq.Eat;
    CsiRoundTrip(AnsiSeq.FRESH, false, ps, 82);
  }

  lemma ReportText()
    ensures PrintCsi(false, [Number(9999), Number(130)], 82) == REPORT
  {
    hide PrintParams, Digits;
    PrintSnoc([], Number(9999));
    PrintSnoc([Number(9999)], Number(130));
    assert [] + [Number(9999)] == [Number(9999)];
    assert [Number(9999)] + [Number(130)] == [Number(9999), Number(130)];
    Numbers();
    assert [57, 57, 57, 57] + [59] + [49, 51, 48] == [57, 57, 57, 57, 59, 49, 51, 48];
  }

  lemma Numbers()
    ensures Digits(9999) == [57, 57, 57, 57] && Digits(130) == [49, 51, 48]
  {
    assert Digits(9) == [57] && Digits(99) == [57, 57] && Digits(999) == [57, 57, 57];
    assert Digits(1) == [49] && Digits(13) == [49, 51];
  }

  lemma ReportValues()
    ensures Reported([Number(9999), Number(130)]) == [9999, 130]
  {
    hide Values, PrintParams, PrintParam;
    PrintSnoc([], Number(9999));
    PrintSnoc([Number(9999)], Number(130));
    assert [] + [Number(9999)] == [Number(9999)];
    assert [Number(9999)] + [Number(130)] == [Number(9999), Number(130)];
  }

  // ---- When they are sent ----

  /** What has to be sent after a part of the login chat: the key when the second text is over,
      the report when the third begins. */
  function AnswersDue(chat: bytes): bytes {
    var n := |ReplyRuns(chat)|;
    (if n >= 4 then [120] else []) + (if n >= 5 then [27, 91, 57, 57, 57, 57, 59, 49, 51, 48, 82] else [])
  }

  lemma StateIsRuns(us: seq<Fsm.Unit>)
    ensures After(Init, us).st != Err(Init) ==> After(Init, us).st == |Runs(us)|
  {
    hide Runs, After;
    AfterByRuns(Init, us);
  }

  /** In every state of every run in which the login chat goes on, exactly the answers that the
      part eaten so far calls for have been sent. */
  lemma AnsweredInTime(tr: Trace)
    requires IsRun(tr) && Last(tr).sc.mode == Busy && Last(tr).sc.cur == Init
    ensures Last(tr).sent == AnswersDue(Last(tr).part)
  {
    hide Inv, IsRun, AnswersDue;
    RunKeeps(tr);
    DueSoFar(Last(tr));
  }

  lemma DueSoFar(w: World)
    requires Inv(w) && w.sc.mode == Busy && w.sc.cur == Init
    ensures w.sent == Handshake(w.sc.init.st) == AnswersDue(w.part)
  {
    hide Runs, After, Fsm.Lex, Replies, Flatten, Transcript, AcceptsReply;
    NothingTyped(w);
    StateIsRuns(Fsm.Lex(w.part).units);
  }

  /** The token of `q` that leads to the error state is `u`, and `head` is before it. */
  predicate FirstError(p: Program, q: bytes, head: bytes, u: Fsm.Unit) {
    && head + Fsm.UnitBytes(u) <= q
    && Fsm.Lex(head).Lexed? && Fsm.Lex(head).rest == []
    && After(p, Fsm.Lex(head).units).st != Err(p)
    && After(p, Fsm.Lex(head).units + [u]).st == Err(p)
  }

  lemma SomethingFed(t: Fsm.Table, m: Fsm.Mach, data: bytes)
    requires Fsm.Valid(t, m) && m.st != t.errst
    requires Fsm.Feed(t, m, data).Fed? && Fsm.Feed(t, m, data).m.st == t.errst
    ensures data != [] && Fsm.MkTok(data).Tok?
  {
    hide Fsm.MkTok, Fsm.Advance;
  }

  /** The feed that leads to the error state goes one token beyond what was good. */
  lemma {:induction false} FeedEntersError(t: Fsm.Table, m: Fsm.Mach, data: bytes)
    requires Fsm.Valid(t, m) && m.st != t.errst
    requires Fsm.Feed(t, m, data).Fed? && Fsm.Feed(t, m, data).m.st == t.errst
    ensures var n := Fsm.Feed(t, m, data).n;
            && n <= |data| && Fsm.Lex(data[..n]).Lexed? && Fsm.Lex(data[..n]).rest == []
            && var us := Fsm.Lex(data[..n]).units;
            us != [] && Fsm.Fold(t, m, us[..|us| - 1]).st != t.errst && Fsm.Fold(t, m, us) == Fsm.Feed(t, m, data).m
    decreases |data|
  {
    hide AnsiSeq.Eat, Fsm.MkTok, Fsm.Feed, Fsm.Lex, Fsm.Advance, Fsm.Fold, Fsm.Cell;
    Fsm.FeedRefinesFold(t, m, data);
    SomethingFed(t, m, data);
    if data != [] && Fsm.MkTok(data).Tok? {
      var tok, len := Fsm.MkTok(data).tok, Fsm.MkTok(data).len;
      var m1 := Fsm.Advance(t, m, tok, data[0]);
      Fsm.FeedToken(t, m, data);
      var n := Fsm.Feed(t, m, data).n;
      var head := data[..n];
      Fsm.FeedBounds(t, m1, data[len..]);
      Fsm.TokenInHead(data, n);
      Fsm.LexFirst(head);
      var us := Fsm.Lex(head).units;
      if m1.st == t.errst {
        Fsm.FeedAtError(t, m1, data[len..]);
        OneToken(t, m, head, us);
      } else {
        FeedEntersError(t, m1, data[len..]);
        Fsm.FoldCons(t, m, us[0], us[1..][..|us| - 2]);
        assert us[..|us| - 1] == [us[0]] + us[1..][..|us| - 2];
      }
    }
  }

  lemma OneToken(t: Fsm.Table, m: Fsm.Mach, head: bytes, us: seq<Fsm.Unit>)
    requires Fsm.Valid(t, m) && m.st != t.errst
    requires head != [] && Fsm.MkTok(head).Tok? && Fsm.MkTok(head).len == |head|
    requires Fsm.Lex(head).Lexed? && us == Fsm.Lex(head).units
    ensures |us| == 1 && Fsm.Fold(t, m, us[..0]) == m
  {
    hide Fsm.MkTok;
    Fsm.LexFirst(head);
    assert head[|head|..] == [];
  }

  lemma {:induction false} UnlexAppend(a: seq<Fsm.Unit>, b: seq<Fsm.Unit>)
    ensures Fsm.Unlex(a + b) == Fsm.Unlex(a) + Fsm.Unlex(b)
    decreases |a|
  {
    if a == [] {
      assert a + b == b && [] + Fsm.Unlex(b) == Fsm.Unlex(b);
    } else {
      hide Fsm.UnitBytes;
      UnlexAppend(a[1..], b);
      assert (a + b)[1..] == a[1..] + b;
      Associative(Fsm.UnitBytes(a[0]), Fsm.Unlex(a[1..]), Fsm.Unlex(b));
    }
  }

  lemma UnlexOne(u: Fsm.Unit)
    ensures Fsm.Unlex([u]) == Fsm.UnitBytes(u)
  {
    assert [u][1..] == [];
    assert Fsm.UnitBytes(u) + [] == Fsm.UnitBytes(u);
  }

  lemma SameByRow(p: Program, a: Fsm.Mach, b: Fsm.Mach, u: Fsm.Unit)
    requires a.st < States(p) && Fsm.Same(a, b)
    ensures Fsm.Same(ByRow(p, a, u), ByRow(p, b, u))
  {
  }

  /** A program that has read something goes on as it would have from the start. */
  lemma {:induction false} AfterFold(p: Program, us: seq<Fsm.Unit>, m: Fsm.Mach, more: seq<Fsm.Unit>)
    requires Fsm.Valid(TableOf(p), m) && Fsm.Same(After(p, us), m)
    ensures Fsm.Same(After(p, us + more), Fsm.Fold(TableOf(p), m, more))
    decreases |more|
  {
    hide TableOf, After, Fsm.StepUnit, Fsm.Fold, ByRow, Fsm.Same;
    if more == [] {
      assert us + more == us;
      FoldNone(TableOf(p), m);
    } else {
      var front, u := more[..|more| - 1], more[|more| - 1];
      AfterFold(p, us, m, front);
      Associative(us, front, [u]);
      assert front + [u] == more;
      AfterSnoc(p, us + front, u);
      TablesClosed(p);
      FoldLast(TableOf(p), m, more);
      StepByRow(p, Fsm.Fold(TableOf(p), m, front), u);
      SameByRow(p, After(p, us + front), Fsm.Fold(TableOf(p), m, front), u);
    }
  }

  lemma FoldNone(t: Fsm.Table, m: Fsm.Mach)
    requires Fsm.Valid(t, m)
    ensures Fsm.Fold(t, m, []) == m
  {
  }

  /** The token that leads to the error state asks for no answer. */
  lemma ErrorIsQuiet(m: Fsm.Mach, u: Fsm.Unit)
    requires m.st < States(Init)
    ensures ByRow(Init, m, u).st == Err(Init) ==> Latched(ByRow(Init, m, u)) == Latched(m)
  {
  }

  /** What a feed that enters the error state asks for. */
  lemma AnswersInError(a: Fsm.Mach, part: bytes, buf: bytes)
    requires Reads(Init, part, a) && a.st != Err(Init) && !a.anykey && !a.report
    requires Fsm.Valid(TableOf(Init), a)
    requires Fsm.Feed(TableOf(Init), a, buf).Fed? && Fsm.Feed(TableOf(Init), a, buf).m.st == Err(Init)
    ensures exists head, u ::
              && FirstError(Init, part + buf, head, u)
              && Handshake(a.st) + Latched(Fsm.Feed(TableOf(Init), a, buf).m) == AnswersDue(head)
  {
    hide TableOf, Fsm.Feed, Fsm.Lex, Fsm.Fold, After, Handshake, Latched, AnswersDue, Fsm.StepUnit, ByRow,
         LatchesAt, Fires;
    var t := TableOf(Init);
    TablesClosed(Init);
    FeedEntersError(t, a, buf);
    var n := Fsm.Feed(t, a, buf).n;
    var us := Fsm.Lex(buf[..n]).units;
    var front, u := us[..|us| - 1], us[|us| - 1];
    var m := Fsm.Fold(t, a, front);
    LatchesFireOnce(Init, a, front);
    Monotone(Init, a, front);
    LatchedIsPassed(Init, a, m, Fires(Init, a, front, Fsm.AnyKey), Fires(Init, a, front, Fsm.Report));
    FoldLast(t, a, us);
    StepByRow(Init, m, u);
    ErrorIsQuiet(m, u);
    var head := part + Fsm.Unlex(front);
    HeadBeforeError(part, buf, n, head);
    var ps := Fsm.Lex(part).units;
    AfterFold(Init, ps, a, front);
    AfterFold(Init, ps, a, us);
    Associative(ps, front, [u]);
    assert front + [u] == us;
    assert FirstError(Init, part + buf, head, u);
    DueByState(head, m.st);
  }

  lemma FoldLast(t: Fsm.Table, m: Fsm.Mach, us: seq<Fsm.Unit>)
    requires Fsm.Valid(t, m) && us != []
    ensures Fsm.Fold(t, m, us) == Fsm.StepUnit(t, Fsm.Fold(t, m, us[..|us| - 1]), us[|us| - 1])
  {
  }

  lemma DueByState(head: bytes, st: nat)
    requires Fsm.Lex(head).Lexed? && After(Init, Fsm.Lex(head).units).st == st != Err(Init)
    ensures Handshake(st) == AnswersDue(head)
  {
    hide Fsm.Lex, After, Runs;
    StateIsRuns(Fsm.Lex(head).units);
  }

  /** The tokens before the last one that was fed. */
  lemma HeadBeforeError(part: bytes, buf: bytes, n: nat, head: bytes)
    requires Fsm.Lex(part).Lexed? && Fsm.Lex(part).rest == []
    requires n <= |buf| && Fsm.Lex(buf[..n]).Lexed? && Fsm.Lex(buf[..n]).rest == [] && Fsm.Lex(buf[..n]).units != []
    requires var us := Fsm.Lex(buf[..n]).units; head == part + Fsm.Unlex(us[..|us| - 1])
    ensures var us := Fsm.Lex(buf[..n]).units;
            && Fsm.Lex(head) == Fsm.Lexed(Fsm.Lex(part).units + us[..|us| - 1], [])
            && head + Fsm.UnitBytes(us[|us| - 1]) <= part + buf
  {
    hide Fsm.Lex, Fsm.Unlex, Fsm.UnitBytes, Proper, Unfinished;
    var us := Fsm.Lex(buf[..n]).units;
    var front, u := us[..|us| - 1], us[|us| - 1];
    LexExactly(buf[..n], us, []);
    NothingUnfinished();
    ProperLexes(front, []);
    assert Fsm.Unlex(front) + [] == Fsm.Unlex(front) && Fsm.Unlex(us) + [] == Fsm.Unlex(us);
    LexAppend(part, Fsm.Unlex(front));
    assert front + [u] == us;
    UnlexAppend(front, [u]);
    UnlexOne(u);
    Associative(part, Fsm.Unlex(front), Fsm.UnitBytes(u));
    assert buf[..n] + buf[n..] == buf;
    Associative(part, buf[..n], buf[n..]);
  }

  lemma NothingUnfinished()
    ensures Unfinished([])
  {
  }

  /** A panic in the middle of the login chat: a hang-up and an undefined escape sequence leave no
      time for an answer; "fsm in error state" comes after exactly the answers that are due
      before the token that did not fit. */
  lemma AnsweredBeforePanic(tr: Trace, rd: Read)
    requires IsRun(tr) && Last(tr).sc.mode == Busy && Last(tr).sc.cur == Init
    ensures var w, o := Last(tr), Step(Last(tr), Op(rd));
            o.Abort? ==>
              if o.why == FsmError then
                exists head, u ::
                  && FirstError(Init, w.part + w.sc.readbuf + Got(w, rd), head, u)
                  && w.sent + o.sent == AnswersDue(head)
              else w.sent + o.sent == AnswersDue(w.part)
  {
    hide Inv, Step, AnswersDue, FirstError;
    RunKeeps(tr);
    var w, o := Last(tr), Step(Last(tr), Op(rd));
    DueSoFar(w);
    if o.Abort? {
      if o.why == FsmError {
        PanicFeeds(w, rd);
        Associative(w.part, w.sc.readbuf, Got(w, rd));
        AnswersInError(w.sc.init, w.part, w.sc.readbuf + Got(w, rd));
      } else {
        QuietPanic(w, rd);
        assert w.sent + [] == w.sent;
      }
    }
  }

  lemma PanicFeeds(w: World, rd: Read)
    requires Inv(w) && w.sc.mode == Busy && w.sc.cur == Init
    requires Step(w, Op(rd)).Abort? && Step(w, Op(rd)).why == FsmError
    ensures var s, buf := w.sc, w.sc.readbuf + Got(w, rd);
            && Reads(Init, w.part, s.init) && s.init.st != Err(Init) && !s.init.anykey && !s.init.report
            && Fsm.Valid(TableOf(Init), s.init)
            && var f := Fsm.Feed(TableOf(Init), s.init, buf);
            f.Fed? && f.m.st == Err(Init) && Step(w, Op(rd)).sent == Latched(f.m)
  {
    hide Reads, Stuck, Replies, Transcript, Flatten, OperFeed, OperEnd, AcceptsReply, TableOf, Fsm.Feed, Latched,
         LatchInv,
         LockstepInv, ShownInv, CountInv, Handshake;
    var s, buf := w.sc, w.sc.readbuf + Got(w, rd);
    assert s.readbuf + [] == s.readbuf;
    OperFeedByFeed(s, buf);
    TablesClosed(Init);
    OperEndNeverFails(s);
  }

  lemma OperEndNeverFails(s: Sc)
    requires s.Valid()
    ensures !PanicsWith(OperEnd(s), FsmError)
  {
  }

  lemma QuietPanic(w: World, rd: Read)
    requires Inv(w) && w.sc.mode == Busy && w.sc.cur == Init
    requires Step(w, Op(rd)).Abort? && Step(w, Op(rd)).why != FsmError
    ensures Step(w, Op(rd)).sent == []
  {
    hide TableOf, Fsm.Feed, Fsm.Probe, Fsm.Commit, TrackInv, LatchInv, ConserveInv, LockstepInv, ShownInv, CountInv;
  }
}
