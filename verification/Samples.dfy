/** Sample replies and sessions: a text that goes wrong, a session that panics, a reply with a
    NUL. */
module Samples {

  import opened Bytes
  import opened Programs
  import opened Protocol
  import Fsm
  import opened Languages
  import opened Prefixes
  import opened CoreRuns
  import opened Session
  import opened Pauses

  // ---- Replies of single characters and escape sequences ----

  /** Text of which every character is followed by an escape sequence. */
  function Pairs(text: bytes): bytes {
    if text == [] then [] else [text[0], ESC, 65] + Pairs(text[1..])
  }

  function PairUnits(text: bytes): seq<Fsm.Unit> {
    if text == [] then [] else [Fsm.Rest(text[0]), MARK] + PairUnits(text[1..])
  }

  function PairRuns(text: bytes): seq<Languages.Run> {
    if text == [] then [] else [Text([text[0]]), Eseqs(1)] + PairRuns(text[1..])
  }

  lemma {:induction false} PairsLex(text: bytes)
    requires ESC !in text
    ensures Fsm.Lex(Pairs(text)) == Fsm.Lexed(PairUnits(text), [])
    decreases |text|
  {
    hide Fsm.Lex;
    LexNothing();
    if text != [] {
      var rest := Pairs(text[1..]);
      PairsLex(text[1..]);
      LexEscape(rest);
      LexText(text[0], [ESC, 65] + rest);
      assert [text[0]] + ([ESC, 65] + rest) == Pairs(text);
      assert [Fsm.Rest(text[0])] + ([MARK] + PairUnits(text[1..])) == PairUnits(text);
    }
  }

  lemma AddPair(rs: seq<Languages.Run>, c: byte)
    requires rs == [] || rs[|rs| - 1].Eseqs?
    ensures AddToRuns(rs, Fsm.Rest(c)) == rs + [Text([c])]
    ensures AddToRuns(rs + [Text([c])], MARK) == rs + [Text([c])] + [Eseqs(1)]
  {
  }

  lemma RunsPair(us: seq<Fsm.Unit>, c: byte)
    requires Runs(us) == [] || Runs(us)[|Runs(us)| - 1].Eseqs?
    ensures Runs(us + [Fsm.Rest(c), MARK]) == Runs(us) + [Text([c]), Eseqs(1)]
  {
    hide Runs, AddToRuns;
    RunsSnoc(us, Fsm.Rest(c));
    RunsSnoc(us + [Fsm.Rest(c)], MARK);
    AddPair(Runs(us), c);
    assert us + [Fsm.Rest(c)] + [MARK] == us + [Fsm.Rest(c), MARK];
    assert Runs(us) + [Text([c])] + [Eseqs(1)] == Runs(us) + [Text([c]), Eseqs(1)];
  }

  lemma RunsSnoc(us: seq<Fsm.Unit>, u: Fsm.Unit)
    ensures Runs(us + [u]) == AddToRuns(Runs(us), u)
  {
    assert (us + [u])[..|us|] == us;
  }

  lemma {:induction false} PairsRuns(us: seq<Fsm.Unit>, text: bytes)
    requires Runs(us) == [] || Runs(us)[|Runs(us)| - 1].Eseqs?
    ensures Runs(us + PairUnits(text)) == Runs(us) + PairRuns(text)
    decreases |text|
  {
    hide Runs;
    if text == [] {
      assert us + [] == us && Runs(us) + [] == Runs(us);
    } else {
      var next := us + [Fsm.Rest(text[0]), MARK];
      RunsPair(us, text[0]);
      PairsRuns(next, text[1..]);
      Associative(us, [Fsm.Rest(text[0]), MARK], PairUnits(text[1..]));
      Associative(Runs(us), [Text([text[0]]), Eseqs(1)], PairRuns(text[1..]));
    }
  }

  /** Such text after one escape sequence is a reply of one or two blocks. */
  function Screen(text: bytes): bytes {
    [ESC, 65] + Pairs(text)
  }

  lemma ScreenRuns(text: bytes)
    requires ESC !in text
    ensures Fsm.Lex(Screen(text)) == Fsm.Lexed([MARK] + PairUnits(text), [])
    ensures Runs([MARK] + PairUnits(text)) == [Eseqs(1)] + PairRuns(text)
  {
    PairsLex(text);
    LexEscape(Pairs(text));
    assert Runs([MARK]) == [Eseqs(1)] by {
      RunsSnoc([], MARK);
      assert [] + [MARK] == [MARK];
    }
    PairsRuns([MARK], text);
  }

  lemma ShortScreen(c: byte)
    requires c != ESC
    ensures AcceptsReply(Cmdout, Screen([c])) && Stripped(Screen([c])) == [c]
  {
    hide Runs, Accepts, Fsm.Lex, Finished, Screen, Pairs, TextOf;
    ScreenRuns([c]);
    var us := [MARK] + PairUnits([c]);
    assert PairRuns([c]) == [Text([c]), Eseqs(1)];
    assert OneBlock(Runs(us), [c]);
    CmdoutLanguage(us);
    CmdoutExtraction(us);
  }

  lemma LongScreen(c: byte, d: byte)
    requires c != ESC && d != ESC
    ensures AcceptsReply(Cmdout, Screen([c, d])) && Stripped(Screen([c, d])) == [c, d]
  {
    hide Runs, Accepts, Fsm.Lex, Finished, Screen, Pairs, TextOf;
    ScreenRuns([c, d]);
    var us := [MARK] + PairUnits([c, d]);
    assert [c, d][1..] == [d];
    assert PairRuns([c, d]) == [Text([c]), Eseqs(1)] + PairRuns([d]) == [Text([c]), Eseqs(1), Text([d]), Eseqs(1)];
    assert TwoBlocks(Runs(us), [c], [d]);
    CmdoutLanguage(us);
    CmdoutExtraction(us);
  }

  /** There are replies whose text holds a NUL, and they are not shown as they are. */
  lemma NulReplyExists()
    ensures AcceptsReply(Cmdout, Screen([NUL]))
    ensures DisplayOf(Cmdout, Screen([NUL])) != Stripped(Screen([NUL]))
  {
    hide AcceptsReply, Screen, Stripped, Display;
    ShortScreen(NUL);
    DisplayExact(Screen([NUL]));
  }

  lemma ShownScreen(text: bytes)
    requires AcceptsReply(Cmdout, Screen(text)) && Stripped(Screen(text)) == text && NUL !in text
    ensures DisplayOf(Cmdout, Screen(text)) == text
  {
    hide AcceptsReply, Screen, Stripped, Display;
    DisplayExact(Screen(text));
  }

  lemma {:induction false} PairRunsAt(text: bytes)
    ensures |PairRuns(text)| == 2 * |text|
    ensures forall i :: 0 <= i < |text| ==>
              PairRuns(text)[2 * i] == Text([text[i]]) && PairRuns(text)[2 * i + 1] == Eseqs(1)
  {
    if text != [] {
      PairRunsAt(text[1..]);
      var rest := PairRuns(text[1..]);
      forall i | 0 <= i < |text|
        ensures PairRuns(text)[2 * i] == Text([text[i]]) && PairRuns(text)[2 * i + 1] == Eseqs(1)
      {
        if i > 0 {
          assert PairRuns(text)[2 * i] == rest[2 * (i - 1)];
          assert PairRuns(text)[2 * i + 1] == rest[2 * (i - 1) + 1];
        }
      }
    }
  }

  lemma PairsAlone(text: bytes)
    ensures Runs(PairUnits(text)) == PairRuns(text)
  {
    var none: seq<Fsm.Unit> := [];
    assert Runs(none) == [];
    hide Runs;
    PairsRuns(none, text);
    assert none + PairUnits(text) == PairUnits(text);
    assert [] + PairRuns(text) == PairRuns(text);
  }

  lemma FourBlocks(text: bytes)
    requires |text| == 4
    ensures LoginChat(PairRuns(text), [text[3]])
  {
    hide PairRuns;
    PairRunsAt(text);
    assert PairRuns(text)[2 * 0].Text? && PairRuns(text)[2 * 1].Text? && PairRuns(text)[2 * 2].Text?;
    assert PairRuns(text)[2 * 3] == Text([text[3]]);
  }

  lemma OnlyPrompt(rs: seq<Languages.Run>, a: bytes, b: bytes)
    requires LoginChat(rs, a)
    ensures LoginChat(rs, b) ==> a == b
  {
  }

  /** A login chat of four blocks. */
  lemma LoginExists(text: bytes)
    requires |text| == 4 && ESC !in text
    ensures AcceptsReply(Init, Pairs(text)) && FinishedReply(Init, Pairs(text)).ps1 == [text[3]]
  {
    hide Runs, Accepts, Fsm.Lex, Finished, Pairs, PairUnits, PairRuns, LoginChat;
    var us := PairUnits(text);
    PairsLex(text);
    PairsAlone(text);
    FourBlocks(text);
    InitLanguage(us);
    OnlyPrompt(Runs(us), [text[3]], Finished(Init, us).ps1);
  }

  lemma ScreensNest(c: byte, d: byte)
    ensures Screen([c]) <= Screen([c, d])
  {
    assert [c, d][1..] == [d] && [c][1..] == [];
    var none: bytes := [];
    assert Pairs(none) == [];
    assert Pairs([c]) == [c, ESC, 65] + Pairs(none);
    assert Pairs([c, d]) == [c, ESC, 65] + Pairs([d]);
  }

  /** So there is a session that goes wrong: prompt "a", an empty command, and a reply that
      is "o" with the prompt "p", of which only "o" is shown. */
  lemma EarlyEndExists() returns (tr: Trace, lines: seq<bytes>, plan: seq<bytes>)
    ensures WellPlanned(lines, plan) && |lines| == 1
    ensures var w := Last(tr);
            && IsRun(tr) && w.asking && w.lines == lines && w.recvd <= Flatten(plan)
            && SessionText(lines, plan, 1) == [97, 111, 112] && w.shown == [97, 111]
  {
    hide AcceptsReply, Screen, Stripped, DisplayOf, Pairs, FinishedReply, LegalRun, IsRun, WellPlanned, SessionText,
         Expected, NewlineReply;
    lines, plan := [[NL]], [Pairs([97, 97, 97, 97]), Screen([111, 112])];
    ExampleReplies();
    OneCommand(lines, plan);
    tr := EarlyEnd(lines, plan, 1, Screen([111]));
    assert lines[..1] == lines;
  }

  lemma ExampleReplies()
    ensures var login := Pairs([97, 97, 97, 97]);
            && AcceptsReply(Init, login)
            && FinishedReply(Init, login).ps1 == DisplayOf(Init, login) == [97]
    ensures var short, long := Screen([111]), Screen([111, 112]);
            && AcceptsReply(Cmdout, short) && AcceptsReply(Cmdout, long) && short <= long
            && Stripped(short) == DisplayOf(Cmdout, short) == [111]
            && Stripped(long) == DisplayOf(Cmdout, long) == [111, 112]
  {
    hide AcceptsReply, Screen, Stripped, Display, Pairs, FinishedReply;
    LoginExists([97, 97, 97, 97]);
    PromptExact(Pairs([97, 97, 97, 97]));
    LongScreen(111, 112);
    ShortScreen(111);
    ShownScreen([111]);
    ShownScreen([111, 112]);
    ScreensNest(111, 112);
  }

  lemma AcceptedLexes(p: Program, reply: bytes)
    requires AcceptsReply(p, reply)
    ensures Fsm.Lex(reply).Lexed?
  {
  }

  /** A session of one empty command. */
  lemma OneCommand(lines: seq<bytes>, plan: seq<bytes>)
    requires lines == [[NL]] && |plan| == 2 && AcceptsReply(Init, plan[0]) && AcceptsReply(Cmdout, plan[1])
    ensures WellPlanned(lines, plan) && NewlineReply(lines, plan, 1) == plan[1]
    ensures SessionText(lines, plan, 1) == FinishedReply(Init, plan[0]).ps1 + Stripped(plan[1])
    ensures Expected(lines, plan, 0) == DisplayOf(Init, plan[0])
  {
    hide AcceptsReply, Stripped, FinishedReply, Flatten, Display;
    OneLine(lines);
    assert lines[..1] == lines;
    AcceptedLexes(Cmdout, plan[1]);
    FirstText(lines, plan);
  }

  lemma OneLine(lines: seq<bytes>)
    requires lines == [[NL]]
    ensures Flatten(lines) == [NL] && UserLine(lines[0])
  {
    var l: bytes := [NL];
    FlattenSnoc([], l);
    assert [] + [l] == lines;
  }

  lemma FirstText(lines: seq<bytes>, plan: seq<bytes>)
    requires |lines| == 1 && WellPlanned(lines, plan) && Fsm.Lex(NewlineReply(lines, plan, 1)).Lexed?
    ensures |plan| > 0 && AcceptsReply(Init, plan[0])
    ensures SessionText(lines, plan, 1) == FinishedReply(Init, plan[0]).ps1 + Stripped(NewlineReply(lines, plan, 1))
  {
    LoginAccepted(lines, plan);
    hide AcceptsReply, Stripped, FinishedReply, NewlineReply, WellPlanned;
    assert SessionText(lines, plan, 0) == FinishedReply(Init, plan[0]).ps1;
  }

  // ---- A session that panics ----

  /** A reply of the echo program, and strings that begin none. */
  lemma EchoReply(c: byte)
    requires c != ESC
    ensures AcceptsReply(Inchar, Screen([c]))
    ensures !Viable(Inchar, [ESC, 65, ESC, 65])
  {
    hide Runs, Accepts, Fsm.Lex, After, Screen, Pairs, Viable;
    ScreenRuns([c]);
    assert PairRuns([c]) == [Text([c]), Eseqs(1)];
    assert Echo([Eseqs(1)] + [Text([c]), Eseqs(1)]);
    IncharLanguage([MARK] + PairUnits([c]));
    TwoEscapes();
  }

  lemma TwoEscapes()
    ensures !Viable(Inchar, [ESC, 65, ESC, 65])
  {
    hide Fsm.Lex, Viable;
    LexOne(MARK);
    LexAppend([ESC, 65], [ESC, 65]);
    assert [ESC, 65] + [ESC, 65] == [ESC, 65, ESC, 65];
    ViableByState(Inchar, [ESC, 65, ESC, 65]);
    assert After(Inchar, []) == START;
    AfterSnoc(Inchar, [], MARK);
    AfterSnoc(Inchar, [MARK], MARK);
    assert [] + [MARK] == [MARK];
  }

  /** A pause before the last escape sequence of a login chat that ends in two of them, and
      the session dies on the echo of the first character typed. */
  lemma EarlyAbortExists() returns (tr: Trace, lines: seq<bytes>, plan: seq<bytes>, d: bytes)
    ensures WellPlanned(lines, plan) && lines == [[97, NL]] && SentRun(tr, lines, plan)
    ensures var w, e := Last(tr), Op(Data(d));
            && Enabled(w, e) && Sends(w, e, lines, plan)
            && Step(w, e).Abort? && (Step(w, e).why == BadEscape || Step(w, e).why == FsmError)
  {
    hide AcceptsReply, WellPlanned, SentRun, Enabled, Sends, Step, Screen, Pairs, Viable;
    var login := Pairs([97, 97, 97, 97]);
    lines, plan, d := [[97, NL]], [login + [ESC, 65], Screen([97]), Screen([111])], [ESC, 65, ESC, 65];
    LoginExists([97, 97, 97, 97]);
    TrailingEscape(Init, login);
    EchoReply(97);
    ShortScreen(111);
    OneCharacter(lines, plan);
    assert plan[0][..|login|] == login && plan[0][|login|..] == [ESC, 65];
    ScreenBegins([97]);
    tr := EarlyAbort(lines, plan, 0, |login|, d);
  }

  lemma ScreenBegins(text: bytes)
    ensures [ESC, 65, ESC, 65] <= [ESC, 65] + Screen(text)
  {
    assert [ESC, 65] + Screen(text) == [ESC, 65, ESC, 65] + Pairs(text);
  }

  lemma OneCharacter(lines: seq<bytes>, plan: seq<bytes>)
    requires lines == [[97, NL]] && |plan| == 3
    requires AcceptsReply(Init, plan[0]) && AcceptsReply(Inchar, plan[1]) && AcceptsReply(Cmdout, plan[2])
    ensures WellPlanned(lines, plan) && Flatten(lines) == [97, NL]
    ensures ProgramFor(Flatten(lines), 0) == Init && ProgramFor(Flatten(lines), 1) == Inchar
  {
    hide AcceptsReply;
    var l: bytes := [97, NL];
    FlattenSnoc([], l);
    assert [] + [l] == lines;
  }
}
