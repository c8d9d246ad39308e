/** What every escape sequence means: the parts that the recogniser of src/back/ansiseq.c leaves
    in its static variables, read off the bytes. */
module Contents {

  import opened Bytes
  import opened AnsiSeq
  import opened Grammar
  import AnsiSeqText

  /** The text between two ';' each; '?' does not count. */
  function Fields(t: bytes): (fs: seq<bytes>)
    ensures fs != []
  {
    if t == [] then [[]]
    else
      var fs, c := Fields(t[..|t| - 1]), t[|t| - 1];
      var k := |fs| - 1;
      if c == 59 then fs + [[]] else if c == 63 then fs else fs[..k] + [fs[k] + [c]]
  }

  function Decimal(ds: bytes): int {
    if ds == [] then 0 else Decimal(ds[..|ds| - 1]) * 10 + ds[|ds| - 1] - 48
  }

  /** The value of a field; an empty one is INT_MIN. */
  function Argument(f: bytes): int {
    if f == [] then -0x8000_0000 else Decimal(f)
  }

  function Arguments(fs: seq<bytes>): seq<int> {
    seq(|fs|, i requires 0 <= i < |fs| => Argument(fs[i]))
  }

  /** The parameters of a control sequence; an empty one at the very end is none. */
  function Params(t: bytes): seq<int> {
    var fs := Fields(t);
    if fs[|fs| - 1] == [] then Arguments(fs[..|fs| - 1]) else Arguments(fs)
  }

  /** The string argument: at most 255 bytes, without NUL. */
  function StringOf(t: bytes): bytes {
    AnsiSeqText.Clip(AnsiSeqText.WithoutNul(t))
  }

  /** The parts of a complete sequence, given what stands behind its ESC. */
  function Meaning(b: bytes): Sequence
    requires Complete(b)
  {
    var k := |b| - 1;
    if k == 0 then Sequence(0, b[0], [], false, [])
    else if b[0] == 91 then Sequence(91, b[k], [], 63 in b[..k], Params(b[1..k]))
    else if b[0] == 93 then Sequence(93, 0, StringOf(b[1..k]), false, [])
    else Sequence(b[0], b[k], [], false, [])
  }

  /** The same of a sequence that is not complete. */
  predicate Holds(p: Parser, b: bytes) {
    && p.cur.cls == (if b == [] then 0 else b[0]) && p.cur.cmd == 0
    && (if b != [] && b[0] == 91 then
          var fs := Fields(b[1..]);
          && p.cur.strarg == [] && p.cur.ext == (63 in b)
          && p.cur.argv == Arguments(fs[..|fs| - 1])
          && p.parmv == Decimal(fs[|fs| - 1]) && p.gotparm == (fs[|fs| - 1] != [])
        else
          && p.cur.strarg == (if b != [] && b[0] == 93 then StringOf(b[1..]) else [])
          && p.cur.argv == [] && !p.cur.ext && p.parmv == 0 && !p.gotparm)
  }

  lemma FieldsSnoc(t: bytes, c: byte)
    ensures var fs := Fields(t);
            var k := |fs| - 1;
            Fields(t + [c]) ==
            if c == 59 then fs + [[]] else if c == 63 then fs else fs[..k] + [fs[k] + [c]]
  {
    assert (t + [c])[..|t|] == t;
  }

  lemma ArgumentsSnoc(fs: seq<bytes>)
    requires fs != []
    ensures Arguments(fs) == Arguments(fs[..|fs| - 1]) + [Argument(fs[|fs| - 1])]
  {
  }

  lemma DecimalSnoc(ds: bytes, c: byte)
    ensures Decimal(ds + [c]) == Decimal(ds) * 10 + c - 48
  {
    assert (ds + [c])[..|ds|] == ds;
  }

  /** One more byte of a control sequence. */
  lemma ControlByte(p: Parser, b: bytes, c: byte)
    requires Begun(b) && b != [] && b[0] == 91 && p.st == SCsi && Holds(p, b) && c != 27
    ensures Begun(b + [c]) ==> Holds(Step(p, c), b + [c])
    ensures Closing(c) ==>
              Step(p, c) == Parser(SFin, Sequence(91, c, [], 63 in b, Params(b[1..])), 0, false)
  {
    hide Fields, Arguments, Decimal;
    FitsSnoc(b, c);
    var fs := Fields(b[1..]);
    var k := |fs| - 1;
    assert (b + [c])[1..] == b[1..] + [c] && (63 in b + [c] <==> 63 in b || c == 63);
    FieldsSnoc(b[1..], c);
    ArgumentsSnoc(fs);
    DecimalSnoc(fs[k], c);
    NoDigits();
    assert (fs + [[]])[..k + 1] == fs;
    assert (fs[..k] + [fs[k] + [c]])[..k] == fs[..k];
  }

  lemma NoDigits()
    ensures Decimal([]) == 0
  {
  }

  /** One more byte of a string. */
  lemma StringByte(p: Parser, b: bytes, c: byte)
    requires Begun(b) && b != [] && b[0] == 93 && p.st == SSqc && Holds(p, b) && c != 27
    ensures Begun(b + [c]) ==> Holds(Step(p, c), b + [c])
    ensures StringEnd(c) ==> Step(p, c) == Parser(SFin, Sequence(93, 0, StringOf(b[1..]), false, []), 0, false)
  {
    hide AnsiSeqText.Clip, AnsiSeqText.WithoutNul;
    FitsSnoc(b, c);
    assert (b + [c])[1..] == b[1..] + [c];
    AnsiSeqText.ClipSnoc(b[1..], c);
  }

  lemma EscStep(p: Parser, c: byte)
    requires p.st == SEsc && !p.gotparm && p.parmv == 0
    ensures Closing(c) || Figure(c) ==> Step(p, c) == p.(st := SFin, cur := p.cur.(cmd := c))
    ensures c == 35 || c == 40 || c == 41 || c == 91 || c == 93 ==>
              Step(p, c) == p.(st := Stage([c]), cur := p.cur.(cls := c))
  {
  }

  /** The first byte behind an ESC. */
  lemma FirstByte(p: Parser, c: byte)
    requires p.st == SEsc && Holds(p, []) && c != 27
    ensures Begun([c]) ==> Holds(Step(p, c), [c])
    ensures Complete([c]) ==> Step(p, c) == Parser(SFin, Sequence(0, c, [], false, []), 0, false)
  {
    hide Fields, Decimal, Arguments, StringOf, Step, Begun, Complete, Stage;
    Nothing();
    EscStep(p, c);
    var none: bytes := [];
    assert [c][1..] == none;
    FitsSnoc(none, c);
    EmptyBegun(none, c);
    assert none + [c] == [c];
  }

  /** The byte behind one of `#()`. */
  lemma SecondByte(p: Parser, b: bytes, c: byte)
    requires b == [35] || b == [40] || b == [41]
    requires p.st == SPph && Holds(p, b) && c != 27
    ensures !Begun(b + [c])
    ensures Complete(b + [c]) ==> Step(p, c) == Parser(SFin, Sequence(b[0], c, [], false, []), 0, false)
  {
    hide Fields, Decimal, Arguments, StringOf;
    FitsSnoc(b, c);
  }

  lemma Nothing()
    ensures Fields([]) == [[]] && Arguments([]) == [] && Decimal([]) == 0 && StringOf([]) == []
  {
  }

  lemma ByteHolds(p: Parser, b: bytes, c: byte)
    requires Begun(b) && p.st == Stage(b) && Holds(p, b) && c != 27
    ensures Begun(b + [c]) ==> Holds(Step(p, c), b + [c])
    ensures Complete(b + [c]) ==> Step(p, c) == Parser(SFin, Meaning(b + [c]), 0, false)
  {
    hide Params, StringOf, Holds, Step;
    FitsSnoc(b, c);
    if b != [] && b[0] == 91 {
      ControlByte(p, b, c);
      assert (b + [c])[1..|b|] == b[1..] && (b + [c])[..|b|] == b;
    } else if b != [] && b[0] == 93 {
      StringByte(p, b, c);
      assert (b + [c])[1..|b|] == b[1..];
    } else if b == [] {
      FirstByte(p, c);
      assert b + [c] == [c];
    } else {
      SecondByte(p, b, c);
    }
  }

  lemma EscapeHolds(p: Parser)
    requires Live(p)
    ensures Holds(Step(p, 27), [])
  {
    EscapeResets(p, FRESH);
  }

  /** Every sequence that is recognised has been parsed into its parts, whatever was cut short
      before it. */
  lemma {:induction false} ContentsByForm(s: bytes)
    ensures Unfinished(s) && s != [] ==> Eat(FRESH, s).More? && Holds(Eat(FRESH, s).p, Tail(s))
    ensures Recognised(s) ==> Eat(FRESH, s) == Done(|s|, Parser(SFin, Meaning(Tail(s)), 0, false))
    decreases |s|
  {
    hide Eat, Step, Begun, Complete, Stage, Tail, Holds, Meaning, Unfinished, Recognised;
    if s == [] {
      NothingByForm();
    } else {
      var front, c := s[..|s| - 1], s[|s| - 1];
      assert front + [c] == s;
      ContentsByForm(front);
      EatByForm(front);
      FormSnoc(front, c);
      EatSnoc(front, c);
      if Unfinished(front) {
        var p := Eat(FRESH, front).p;
        OneMore(p, front, c);
        PartsSnoc(front, c);
        if c == 27 {
          EscapeHolds(p);
        } else if front != [] {
          TailBegun(front);
          ByteHolds(p, Tail(front), c);
        }
      }
    }
  }

  lemma TailBegun(s: bytes)
    requires Unfinished(s) && s != []
    ensures Begun(Tail(s))
  {
  }
}
