/** What the three programs accept and what they extract, stated on the alternating runs
    of escape sequences and text that a reply consists of. */
module Languages {

  import opened Bytes
  import opened Fsm
  import opened Programs

  // ---- Runs ----

  /** A maximal block of `n` escape sequences, or of text. */
  datatype Run = Eseqs(n: nat) | Text(s: bytes)

  function AddToRuns(rs: seq<Run>, u: Unit): seq<Run> {
    var k := |rs| - 1;
    if rs != [] && u.Eseq? && rs[k].Eseqs? then rs[..k] + [Eseqs(rs[k].n + 1)]
    else if rs != [] && u.Rest? && rs[k].Text? then rs[..k] + [Text(rs[k].s + [u.c])]
    else rs + [if u.Eseq? then Eseqs(1) else Text([u.c])]
  }

  /** The runs a token stream falls into. */
  function Runs(us: seq<Unit>): seq<Run> {
    if us == [] then [] else AddToRuns(Runs(us[..|us| - 1]), us[|us| - 1])
  }

  /** Runs alternate in kind, and none is empty. */
  predicate Alternating(rs: seq<Run>) {
    && (forall i :: 0 <= i < |rs| ==> if rs[i].Eseqs? then rs[i].n > 0 else rs[i].s != [])
    && (forall i :: 0 < i < |rs| ==> rs[i].Eseqs? != rs[i - 1].Eseqs?)
  }

  /** The kinds of a token stream: `None` for an escape sequence, the character otherwise. */
  datatype Mark = E | R(c: byte)

  function Marks(us: seq<Unit>): seq<Mark> {
    seq(|us|, i requires 0 <= i < |us| => if us[i].Eseq? then E else R(us[i].c))
  }

  function RunMarks(r: Run): seq<Mark> {
    match r
    case Eseqs(n) => seq(n, _ => E)
    case Text(s) => seq(|s|, i requires 0 <= i < |s| => R(s[i]))
  }

  function Spell(rs: seq<Run>): seq<Mark> {
    if rs == [] then [] else Spell(rs[..|rs| - 1]) + RunMarks(rs[|rs| - 1])
  }

  lemma SpellAdd(rs: seq<Run>, u: Unit)
    ensures Spell(AddToRuns(rs, u)) == Spell(rs) + Marks([u])
  {
    var k := |rs| - 1;
    var next := AddToRuns(rs, u);
    if rs != [] && u.Eseq? && rs[k].Eseqs? {
      assert RunMarks(Eseqs(rs[k].n + 1)) == RunMarks(rs[k]) + [E];
      assert next[..k] == rs[..k];
    } else if rs != [] && u.Rest? && rs[k].Text? {
      assert RunMarks(Text(rs[k].s + [u.c])) == RunMarks(rs[k]) + [R(u.c)];
      assert next[..k] == rs[..k];
    } else {
      assert next[..|rs|] == rs;
    }
  }

  lemma AlternatingAdd(rs: seq<Run>, u: Unit)
    requires Alternating(rs)
    ensures Alternating(AddToRuns(rs, u))
  {
  }

  lemma MarksSnoc(us: seq<Unit>)
    requires us != []
    ensures Marks(us) == Marks(us[..|us| - 1]) + Marks([us[|us| - 1]])
  {
  }

  /** `Runs` is faithful: the runs alternate, none is empty, and they spell the stream. */
  lemma {:induction false} RunsFaithful(us: seq<Unit>)
    ensures Alternating(Runs(us))
    ensures Spell(Runs(us)) == Marks(us)
  {
    if us != [] {
      hide Alternating, AddToRuns, Spell, Marks;
      var k := |us| - 1;
      RunsFaithful(us[..k]);
      AlternatingAdd(Runs(us[..k]), us[k]);
      SpellAdd(Runs(us[..k]), us[k]);
      MarksSnoc(us);
    } else {
      assert Marks(us) == [];
    }
  }

  /** The text of a stream: what is left when its escape sequences are deleted. */
  function TextOf(us: seq<Unit>): bytes {
    if us == [] then []
    else TextOf(us[..|us| - 1]) + if us[|us| - 1].Rest? then [us[|us| - 1].c] else []
  }

  function RunText(r: Run): bytes {
    if r.Text? then r.s else []
  }

  function TextOfRuns(rs: seq<Run>): bytes {
    if rs == [] then [] else TextOfRuns(rs[..|rs| - 1]) + RunText(rs[|rs| - 1])
  }

  lemma TextAdd(rs: seq<Run>, u: Unit)
    ensures TextOfRuns(AddToRuns(rs, u)) == TextOfRuns(rs) + if u.Rest? then [u.c] else []
  {
    var next := AddToRuns(rs, u);
    if rs != [] && u.Eseq? == rs[|rs| - 1].Eseqs? {
      assert next[..|rs| - 1] == rs[..|rs| - 1];
    } else {
      assert next[..|rs|] == rs;
    }
  }

  lemma {:induction false} TextByRuns(us: seq<Unit>)
    ensures TextOf(us) == TextOfRuns(Runs(us))
  {
    hide AddToRuns, TextOfRuns;
    if us != [] {
      TextByRuns(us[..|us| - 1]);
      TextAdd(Runs(us[..|us| - 1]), us[|us| - 1]);
    } else {
      NoRunsNoText();
    }
  }

  lemma NoRunsNoText()
    ensures TextOfRuns([]) == []
  {
  }

  // ---- The state after a token stream, in terms of its runs ----

  /** One token, by the row of the table. */
  function ByRow(p: Program, m: Mach, u: Unit): (r: Mach)
    requires m.st < States(p)
    ensures r.st < States(p)
  {
    var tr := Column(RowOf(p, m.st), UnitTok(u));
    Fsm.Act(tr.action, UnitChar(u), m).(st := tr.state)
  }

  /** The program after a token stream, row by row. */
  function After(p: Program, us: seq<Unit>): (m: Mach)
    ensures m.st < States(p)
  {
    if us == [] then START else ByRow(p, After(p, us[..|us| - 1]), us[|us| - 1])
  }

  lemma StepByRow(p: Program, m: Mach, u: Unit)
    requires m.st < States(p)
    ensures Valid(TableOf(p), m) && StepUnit(TableOf(p), m, u) == ByRow(p, m, u)
    ensures m.st <= ByRow(p, m, u).st < States(p)
    ensures m.st >= Fin(p) ==> ByRow(p, m, u).st == Err(p)
  {
    TablesClosed(p);
    CellsAreRows(p, m.st, UnitTok(u));
  }

  /** The engine's fold over the flattened table goes through the rows. */
  lemma {:induction false} FoldIsAfter(p: Program, us: seq<Unit>)
    ensures Valid(TableOf(p), START) && Fold(TableOf(p), START, us) == After(p, us)
  {
    hide TableOf, ByRow, StepUnit;
    TablesClosed(p);
    if us != [] {
      FoldIsAfter(p, us[..|us| - 1]);
      StepByRow(p, After(p, us[..|us| - 1]), us[|us| - 1]);
    }
  }

  /** Text blocks stand at the odd places, escape sequences at the even ones, or the other
      way round. */
  predicate TextAt(rs: seq<Run>, odd: bool) {
    forall i :: 0 <= i < |rs| ==> rs[i].Text? == ((i % 2 == 1) == odd)
  }

  function Block(rs: seq<Run>, i: nat): bytes {
    if i < |rs| then RunText(rs[i]) else []
  }

  /** A reply to a command is in the state numbered by its runs until it has more than
      five; the first text block is its output and the second its prompt. */
  predicate CmdoutAt(rs: seq<Run>, m: Mach) {
    if TextAt(rs, true) && |rs| <= 5 then m.st == |rs| && m.out == Block(rs, 1) && m.ps1 == Block(rs, 3)
    else m.st == Err(Cmdout)
  }

  /** The login chat likewise, starting with text, up to eight runs, the prompt being the
      fourth text block. */
  predicate InitAt(rs: seq<Run>, m: Mach) {
    if TextAt(rs, false) && |rs| <= 8 then m.st == |rs| && m.ps1 == Block(rs, 6)
    else m.st == Err(Init)
  }

  predicate IncharAt(rs: seq<Run>, m: Mach) {
    if TextAt(rs, true) && |rs| <= 3 && (|rs| >= 1 ==> rs[0].n == 1) && (|rs| >= 2 ==> |rs[1].s| == 1)
    then m.st == |rs|
    else m.st == Err(Inchar)
  }

  lemma TextAtAdd(rs: seq<Run>, u: Unit, odd: bool)
    requires Alternating(rs)
    ensures var next := AddToRuns(rs, u);
            && (rs == [] ==> (TextAt(next, odd) <==> u.Rest? != odd))
            && (rs != [] ==> (TextAt(next, odd) <==> TextAt(rs, odd)))
            && |next| == (if rs != [] && u.Rest? == rs[|rs| - 1].Text? then |rs| else |rs| + 1)
            && (forall i: nat :: i < |rs| - 1 ==> next[i] == rs[i])
  {
    var next := AddToRuns(rs, u);
    if rs == [] {
      assert |next| == 1 && next[0].Text? == u.Rest?;
    } else {
      if TextAt(next, odd) {
        forall i | 0 <= i < |rs| ensures rs[i].Text? == ((i % 2 == 1) == odd) {
          assert next[i].Text? == rs[i].Text?;
        }
      }
    }
  }

  lemma CmdoutStep(rs: seq<Run>, m: Mach, u: Unit)
    requires Alternating(rs) && CmdoutAt(rs, m) && m.st < States(Cmdout)
    ensures CmdoutAt(AddToRuns(rs, u), ByRow(Cmdout, m, u))
  {
    TextAtAdd(rs, u, true);
  }

  lemma InitStep(rs: seq<Run>, m: Mach, u: Unit)
    requires Alternating(rs) && InitAt(rs, m) && m.st < States(Init)
    ensures InitAt(AddToRuns(rs, u), ByRow(Init, m, u))
  {
    TextAtAdd(rs, u, false);
  }

  lemma IncharStep(rs: seq<Run>, m: Mach, u: Unit)
    requires Alternating(rs) && IncharAt(rs, m) && m.st < States(Inchar)
    ensures IncharAt(AddToRuns(rs, u), ByRow(Inchar, m, u))
  {
    TextAtAdd(rs, u, true);
  }

  predicate At(p: Program, rs: seq<Run>, m: Mach) {
    match p
    case Init => InitAt(rs, m)
    case Inchar => IncharAt(rs, m)
    case Cmdout => CmdoutAt(rs, m)
  }

  lemma {:induction false} AfterByRuns(p: Program, us: seq<Unit>)
    ensures At(p, Runs(us), After(p, us))
  {
    hide Alternating, AddToRuns, ByRow, CmdoutAt, InitAt, IncharAt;
    if us != [] {
      var rs, m, u := Runs(us[..|us| - 1]), After(p, us[..|us| - 1]), us[|us| - 1];
      RunsFaithful(us[..|us| - 1]);
      AfterByRuns(p, us[..|us| - 1]);
      match p
      case Init => InitStep(rs, m, u);
      case Inchar => IncharStep(rs, m, u);
      case Cmdout => CmdoutStep(rs, m, u);
    } else {
      AtStart(p);
    }
  }

  lemma AtStart(p: Program)
    ensures At(p, [], START)
  {
  }

  // ---- Accepted languages ----

  /** End of data would be accepted after this stream. */
  predicate Accepts(p: Program, us: seq<Unit>) {
    RowOf(p, After(p, us).st).eof.state == Fin(p)
  }

  /** The program once end of data has been committed. */
  function Finished(p: Program, us: seq<Unit>): Mach {
    var m := After(p, us);
    var tr := RowOf(p, m.st).eof;
    Fsm.Act(tr.action, EOF, m).(st := tr.state)
  }

  /** Probe and commit of a program, by the row of its table. */
  lemma EndByRow(p: Program, m: Mach)
    requires m.st < States(p)
    ensures Valid(TableOf(p), m)
    ensures Probe(TableOf(p), m) <==> RowOf(p, m.st).eof.state == Fin(p)
    ensures var tr := RowOf(p, m.st).eof;
            m.st != Err(p) ==> Commit(TableOf(p), m) == Fsm.Act(tr.action, EOF, m).(st := tr.state)
  {
    TablesClosed(p);
    CellsAreRows(p, m.st, T_EOF);
  }

  predicate OneBlock(rs: seq<Run>, o: bytes) {
    |rs| == 3 && rs[0].Eseqs? && rs[1] == Text(o) && rs[2].Eseqs?
  }

  predicate TwoBlocks(rs: seq<Run>, o: bytes, q: bytes) {
    |rs| == 5 && rs[0].Eseqs? && rs[1] == Text(o) && rs[2].Eseqs? && rs[3] == Text(q) && rs[4].Eseqs?
  }

  lemma CmdoutShape(rs: seq<Run>, m: Mach)
    requires CmdoutAt(rs, m)
    ensures m.st == 3 <==> exists o :: OneBlock(rs, o)
    ensures m.st == 5 <==> exists o, q :: TwoBlocks(rs, o, q)
  {
    if m.st == 3 {
      assert OneBlock(rs, rs[1].s);
    }
    if m.st == 5 {
      assert TwoBlocks(rs, rs[1].s, rs[3].s);
    }
  }

  /** The command-reply language: end of data is accepted exactly after E+ R+ E+ and after
      E+ R+ E+ R+ E+. */
  lemma CmdoutLanguage(us: seq<Unit>)
    ensures Accepts(Cmdout, us) <==>
            (exists o :: OneBlock(Runs(us), o)) || (exists o, q :: TwoBlocks(Runs(us), o, q))
  {
    hide After, Runs, CmdoutAt, OneBlock, TwoBlocks;
    AfterByRuns(Cmdout, us);
    CmdoutShape(Runs(us), After(Cmdout, us));
  }

  lemma TextOfBlocks(rs: seq<Run>)
    ensures |rs| == 3 ==> TextOfRuns(rs) == RunText(rs[0]) + RunText(rs[1]) + RunText(rs[2])
    ensures |rs| == 5 ==>
            TextOfRuns(rs) == RunText(rs[0]) + RunText(rs[1]) + RunText(rs[2]) + RunText(rs[3]) + RunText(rs[4])
  {
    if |rs| == 3 {
      assert rs[..1][..0] == [] && TextOfRuns(rs[..1]) == RunText(rs[0]);
      assert rs[..2][..1] == rs[..1] && TextOfRuns(rs[..2]) == RunText(rs[0]) + RunText(rs[1]);
    }
    if |rs| == 5 {
      TextOfBlocks(rs[..3]);
      assert rs[..4][..3] == rs[..3] && TextOfRuns(rs[..4]) == TextOfRuns(rs[..3]) + RunText(rs[3]);
    }
  }

  lemma CmdoutBlocks(rs: seq<Run>, m: Mach)
    requires CmdoutAt(rs, m) && (m.st == 3 || m.st == 5)
    ensures forall o :: OneBlock(rs, o) ==> m.st == 3 && m.out == o
    ensures forall o, q :: TwoBlocks(rs, o, q) ==> m.st == 5 && m.out == o && m.ps1 == q
    ensures m.out + m.ps1 == TextOfRuns(rs)
    ensures m.st == 3 ==> m.ps1 == []
  {
    TextOfBlocks(rs);
    assert TextAt(rs, true);
  }

  /** Extraction: with one block there is no output and the block is the prompt; with two
      blocks they are output and prompt, in that order; in both cases output and
      prompt together are the reply with its escape sequences deleted. */
  lemma CmdoutExtraction(us: seq<Unit>)
    requires Accepts(Cmdout, us)
    ensures var m := Finished(Cmdout, us);
            && m.st == Fin(Cmdout)
            && (forall o :: OneBlock(Runs(us), o) ==> m.out == [] && m.ps1 == o)
            && (forall o, q :: TwoBlocks(Runs(us), o, q) ==> m.out == o && m.ps1 == q)
            && m.out + m.ps1 == TextOf(us)
  {
    hide After, Runs, CmdoutAt, OneBlock, TwoBlocks, TextOf, TextOfRuns;
    AfterByRuns(Cmdout, us);
    CmdoutBlocks(Runs(us), After(Cmdout, us));
    TextByRuns(us);
  }

  predicate LoginChat(rs: seq<Run>, prompt: bytes) {
    && |rs| == 8
    && rs[0].Text? && rs[1].Eseqs? && rs[2].Text? && rs[3].Eseqs?
    && rs[4].Text? && rs[5].Eseqs? && rs[6] == Text(prompt) && rs[7].Eseqs?
  }

  lemma InitShape(rs: seq<Run>, m: Mach)
    requires InitAt(rs, m)
    ensures m.st == 8 ==> LoginChat(rs, m.ps1)
    ensures forall prompt :: LoginChat(rs, prompt) ==> m.st == 8 && m.ps1 == prompt
  {
  }

  /** The login language: end of data is accepted exactly after (R+ E+)^4, and the prompt
      is the fourth text block. */
  lemma InitLanguage(us: seq<Unit>)
    ensures Accepts(Init, us) <==> exists prompt :: LoginChat(Runs(us), prompt)
    ensures Accepts(Init, us) ==>
            LoginChat(Runs(us), Finished(Init, us).ps1) && Finished(Init, us).st == Fin(Init)
  {
    hide After, Runs, InitAt, LoginChat;
    AfterByRuns(Init, us);
    InitShape(Runs(us), After(Init, us));
  }

  predicate Echo(rs: seq<Run>) {
    |rs| == 3 && rs[0] == Eseqs(1) && rs[1].Text? && |rs[1].s| == 1 && rs[2].Eseqs?
  }

  lemma IncharShape(rs: seq<Run>, m: Mach)
    requires IncharAt(rs, m)
    ensures m.st == 3 <==> Echo(rs)
  {
  }

  /** The echo language: one escape sequence, one character, one or more escape sequences. */
  lemma IncharLanguage(us: seq<Unit>)
    ensures Accepts(Inchar, us) <==> Echo(Runs(us))
  {
    hide After, Runs, IncharAt, Echo;
    AfterByRuns(Inchar, us);
    IncharShape(Runs(us), After(Inchar, us));
  }

  // ---- Monotone states and one-shot latches ----

  /** No cell leads to a smaller state, so each phase is one contiguous stretch and only a
      reset leaves the final or the error state. */
  lemma {:induction false} Monotone(p: Program, m: Mach, us: seq<Unit>)
    requires m.st < States(p)
    ensures Valid(TableOf(p), m)
    ensures m.st <= Fold(TableOf(p), m, us).st < States(p)
    ensures m.st >= Fin(p) && us != [] ==> Fold(TableOf(p), m, us).st == Err(p)
  {
    hide ByRow, StepUnit;
    TablesClosed(p);
    if us != [] {
      Monotone(p, m, us[..|us| - 1]);
      StepByRow(p, Fold(TableOf(p), m, us[..|us| - 1]), us[|us| - 1]);
    }
  }

  /** How often an action fires while a program folds a token stream. */
  function Fires(p: Program, m: Mach, us: seq<Unit>, a: Action): nat
    requires m.st < States(p)
  {
    if us == [] then 0
    else
      var k := |us| - 1;
      Monotone(p, m, us[..k]);
      var tr := Column(RowOf(p, Fold(TableOf(p), m, us[..k]).st), UnitTok(us[k]));
      Fires(p, m, us[..k], a) + if tr.action == a then 1 else 0
  }

  /** The latches of a program that went from `m` to `r`, firing `ak` and `rp` times. */
  predicate LatchesAt(p: Program, m: Mach, r: Mach, ak: nat, rp: nat) {
    && ak <= 1 && (ak == 1 ==> p == Init && m.st <= 3 && r.st >= 4)
    && rp <= 1 && (rp == 1 ==> p == Init && m.st <= 4 && r.st >= 5)
    && (r.anykey <==> m.anykey || ak == 1)
    && (r.report <==> m.report || rp == 1)
    && (rp == 1 && m.st <= 3 ==> ak == 1)
    && (p == Init && r.st != Err(p) ==>
        && (ak == 1 <==> m.st <= 3 && r.st >= 4)
        && (rp == 1 <==> m.st <= 4 && r.st >= 5))
  }

  lemma LatchStep(p: Program, m: Mach, r: Mach, ak: nat, rp: nat, u: Unit)
    requires m.st <= r.st < States(p) && LatchesAt(p, m, r, ak, rp)
    ensures var a := Column(RowOf(p, r.st), UnitTok(u)).action;
            LatchesAt(p, m, ByRow(p, r, u), ak + (if a == AnyKey then 1 else 0), rp + (if a == Report then 1 else 0))
  {
  }

  /** In any run of any program each latch fires at most once and the second only after the
      first; in a login chat without error it fires exactly when its threshold state is
      passed, and the latch tells so. */
  lemma {:induction false} LatchesFireOnce(p: Program, m: Mach, us: seq<Unit>)
    requires m.st < States(p)
    ensures Valid(TableOf(p), m)
    ensures LatchesAt(p, m, Fold(TableOf(p), m, us), Fires(p, m, us, AnyKey), Fires(p, m, us, Report))
  {
    hide ByRow, StepUnit, LatchesAt;
    TablesClosed(p);
    if us != [] {
      var front := us[..|us| - 1];
      LatchesFireOnce(p, m, front);
      Monotone(p, m, front);
      var r := Fold(TableOf(p), m, front);
      StepByRow(p, r, us[|us| - 1]);
      LatchStep(p, m, r, Fires(p, m, front, AnyKey), Fires(p, m, front, Report), us[|us| - 1]);
    } else {
      NoLatches(p, m);
    }
  }

  lemma NoLatches(p: Program, m: Mach)
    ensures LatchesAt(p, m, m, 0, 0)
  {
  }

  /** Only the end of data leads to the final state. */
  lemma {:induction false} FinNeedsEnd(p: Program, m: Mach, us: seq<Unit>)
    requires m.st < States(p) && m.st != Fin(p)
    ensures Valid(TableOf(p), m) && Fold(TableOf(p), m, us).st != Fin(p)
  {
    TablesClosed(p);
    if us != [] {
      FinNeedsEnd(p, m, us[..|us| - 1]);
      Monotone(p, m, us[..|us| - 1]);
      CellsAreRows(p, Fold(TableOf(p), m, us[..|us| - 1]).st, UnitTok(us[|us| - 1]));
    }
  }

  // ---- Replies as byte strings ----

  /** A complete reply in the language of a program. */
  predicate AcceptsReply(p: Program, reply: bytes) {
    Lex(reply).Lexed? && Lex(reply).rest == [] && Accepts(p, Lex(reply).units)
  }

  /** The program after eating a complete reply and the end of data. */
  function FinishedReply(p: Program, reply: bytes): Mach
    requires AcceptsReply(p, reply)
  {
    Finished(p, Lex(reply).units)
  }

  /** A reply with its escape sequences deleted. */
  function Stripped(reply: bytes): bytes
    requires Lex(reply).Lexed?
  {
    TextOf(Lex(reply).units)
  }

  /** The program is where eating exactly these bytes from the start leads. */
  predicate Reads(p: Program, data: bytes, m: Mach) {
    Lex(data).Lexed? && Lex(data).rest == [] && Same(After(p, Lex(data).units), m)
  }

  /** In terms of the engine: feeding the bytes to the program just reset eats them all. */
  lemma ReadsIsFed(p: Program, data: bytes, m: Mach)
    requires Reads(p, data, m) && m.st != Err(p)
    ensures Valid(TableOf(p), START) && Valid(TableOf(p), m)
    ensures Feed(TableOf(p), START, data) == Fed(After(p, Lex(data).units), |data|)
  {
    hide TableOf, Feed, Lex, After;
    TablesClosed(p);
    ErrorAbsorbs(p);
    FoldIsAfter(p, Lex(data).units);
    FoldIsFed(TableOf(p), START, data);
  }

  lemma FedReads(p: Program, data: bytes, m: Mach)
    requires Valid(TableOf(p), START) && Feed(TableOf(p), START, data).Fed?
    requires Feed(TableOf(p), START, data).n == |data| && Same(Feed(TableOf(p), START, data).m, m)
    ensures Reads(p, data, m)
  {
    hide TableOf, Feed, Lex, After;
    FeedRefinesFold(TableOf(p), START, data);
    assert data[..|data|] == data;
    FoldIsAfter(p, Lex(data).units);
  }

  /** A program that has eaten exactly `data` and would accept end of data has eaten a
      complete reply, and committing gives that reply's output and prompt. */
  lemma ReadsAccepted(p: Program, data: bytes, m: Mach)
    requires Reads(p, data, m)
    ensures Valid(TableOf(p), m)
    ensures Probe(TableOf(p), m) <==> AcceptsReply(p, data)
    ensures Probe(TableOf(p), m) ==>
              && Same(Commit(TableOf(p), m), FinishedReply(p, data))
              && Commit(TableOf(p), m).st == Fin(p)
  {
    hide TableOf, Feed, Lex, After, RowOf;
    EndByRow(p, m);
    ProbeExact(p, m);
    ErrorRow(p);
  }

  lemma ErrorRow(p: Program)
    ensures RowOf(p, Err(p)).eof.state == Err(p)
  {
  }

  /** Probe exactness: in every state of every program the probe says yes exactly when the
      commit leads to the final state, and no exactly when it would lead to the error state. */
  lemma ProbeExact(p: Program, m: Mach)
    requires m.st < States(p)
    ensures Valid(TableOf(p), m)
    ensures Probe(TableOf(p), m) <==> Commit(TableOf(p), m).st == Fin(p)
    ensures !Probe(TableOf(p), m) <==> Commit(TableOf(p), m).st == Err(p)
  {
    TablesClosed(p);
    EndByRow(p, m);
  }

  /** A complete reply is eaten whole. */
  lemma AcceptedReads(p: Program, reply: bytes)
    requires AcceptsReply(p, reply)
    ensures Valid(TableOf(p), START)
    ensures Feed(TableOf(p), START, reply).Fed? && Feed(TableOf(p), START, reply).n == |reply|
    ensures Feed(TableOf(p), START, reply).m == After(p, Lex(reply).units)
    ensures After(p, Lex(reply).units).st != Err(p)
  {
    TablesClosed(p);
    ErrorAbsorbs(p);
    FoldIsAfter(p, Lex(reply).units);
    EndByRow(p, After(p, Lex(reply).units));
    FoldIsFed(TableOf(p), START, reply);
  }
}
