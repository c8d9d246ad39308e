/** What the recogniser extracts from the two kinds of sequence that carry an argument:
    printing a control sequence and parsing it again gives its parts back, and an
    operating system command yields its clipped payload. */
module AnsiSeqText {

  import opened Bytes
  import opened AnsiSeq
  import opened Grammar

  datatype Param = Empty | Number(n: nat)

  function Digits(n: nat): (d: bytes)
    ensures d != []
  {
    var low := [48 + n % 10];
    if n < 10 then low else Digits(n / 10) + low
  }

  function PrintParam(p: Param): bytes {
    match p
    case Empty => []
    case Number(n) => Digits(n)
  }

  /** Parameters joined by ';'. */
  function PrintParams(ps: seq<Param>): bytes {
    if ps == [] then []
    else if |ps| == 1 then PrintParam(ps[0])
    else PrintParams(ps[..|ps| - 1]) + [59] + PrintParam(ps[|ps| - 1])
  }

  function PrintCsi(ext: bool, ps: seq<Param>, cmd: byte): bytes {
    [27, 91] + (if ext then [63] else []) + PrintParams(ps) + [cmd]
  }

  function Value(p: Param): int {
    match p
    case Empty => -0x8000_0000
    case Number(n) => n
  }

  function Values(ps: seq<Param>): (vs: seq<int>)
    ensures |vs| == |ps|
  {
    if ps == [] then [] else Values(ps[..|ps| - 1]) + [Value(ps[|ps| - 1])]
  }

  /** The parameter list the parser reports: empties are INT_MIN, and an empty one at the
      very end is dropped. */
  function Reported(ps: seq<Param>): seq<int> {
    if ps != [] && ps[|ps| - 1].Empty? then Values(ps[..|ps| - 1]) else Values(ps)
  }

  /** The parser inside a control sequence that has stored `argv` and is reading `last`. */
  function InCsi(ext: bool, argv: seq<int>, last: Param): Parser {
    Parser(SCsi, Sequence(LBRACKET, 0, [], ext, argv), if last.Number? then last.n else 0, last.Number?)
  }

  lemma {:induction false} InBoundsAppend(p: Parser, a: bytes, b: bytes)
    requires Live(p)
    ensures Eat(p, a).More? ==> Live(Eat(p, a).p)
    ensures EatInBounds(p, a + b) <==>
            EatInBounds(p, a) && (Eat(p, a).More? ==> EatInBounds(Eat(p, a).p, b))
    decreases |a|
  {
    if a == [] {
      assert a + b == b;
    } else {
      assert (a + b)[1..] == a[1..] + b;
      var q := Step(p, a[0]);
      if Live(q) {
        InBoundsAppend(q, a[1..], b);
      }
    }
  }

  /** One more digit; it overflows exactly when the number exceeds INT_MAX. */
  lemma EatDigit(ext: bool, argv: seq<int>, n: nat)
    ensures var p, low := InCsi(ext, argv, if n < 10 then Empty else Number(n / 10)), [48 + n % 10];
            && Eat(p, low) == More(InCsi(ext, argv, Number(n)))
            && (EatInBounds(p, low) <==> n <= 0x7fff_ffff)
  {
    var p := InCsi(ext, argv, if n < 10 then Empty else Number(n / 10));
    var low: bytes := [48 + n % 10];
    assert low[1..] == [] && MkTok(low[0]) == TNdig;
    assert Step(p, low[0]) == InCsi(ext, argv, Number(n));
  }

  lemma DigitsSnoc(n: nat)
    ensures Digits(n) == if n < 10 then [48 + n % 10] else Digits(n / 10) + [48 + n % 10]
  {
  }

  /** Reading a decimal number back; it overflows exactly when it exceeds INT_MAX. */
  lemma {:induction false} EatDigits(ext: bool, argv: seq<int>, n: nat)
    ensures var p := InCsi(ext, argv, Empty);
            && Eat(p, Digits(n)) == More(InCsi(ext, argv, Number(n)))
            && (EatInBounds(p, Digits(n)) <==> n <= 0x7fff_ffff)
  {
    hide Eat, EatInBounds, Digits;
    var p := InCsi(ext, argv, Empty);
    EatDigit(ext, argv, n);
    DigitsSnoc(n);
    if n >= 10 {
      EatDigits(ext, argv, n / 10);
      EatAppend(p, Digits(n / 10), [48 + n % 10]);
      InBoundsAppend(p, Digits(n / 10), [48 + n % 10]);
    }
  }

  lemma EatParam(ext: bool, argv: seq<int>, a: Param)
    ensures var p := InCsi(ext, argv, Empty);
            && Eat(p, PrintParam(a)) == More(InCsi(ext, argv, a))
            && (EatInBounds(p, PrintParam(a)) <==> Value(a) <= 0x7fff_ffff)
  {
    if a.Number? {
      EatDigits(ext, argv, a.n);
    }
  }

  /** The parameters that fit: none above INT_MAX, and at most 8 stored. */
  predicate Fit(ps: seq<Param>) {
    && |Reported(ps)| <= 8
    && AllSmall(ps)
  }

  predicate AllSmall(ps: seq<Param>) {
    forall i :: 0 <= i < |ps| ==> Value(ps[i]) <= 0x7fff_ffff
  }

  /** A ';' stores the parameter read so far. */
  lemma EatSemicolon(ext: bool, argv: seq<int>, a: Param)
    ensures var p := InCsi(ext, argv, a);
            && Eat(p, [SEMI]) == More(InCsi(ext, argv + [Value(a)], Empty))
            && (EatInBounds(p, [SEMI]) <==> |argv| < MAX_PARAMS)
  {
    var semi: bytes := [SEMI];
    assert semi[1..] == [] && MkTok(semi[0]) == TSmcl;
    assert Step(InCsi(ext, argv, a), semi[0]) == InCsi(ext, argv + [Value(a)], Empty);
  }

  lemma {:induction false} EatParams(ext: bool, front: seq<Param>, last: Param)
    ensures Eat(InCsi(ext, [], Empty), PrintParams(front + [last])) == More(InCsi(ext, Values(front), last))
    ensures EatInBounds(InCsi(ext, [], Empty), PrintParams(front + [last])) <==>
            |front| <= MAX_PARAMS && AllSmall(front + [last])
    decreases |front|
  {
    hide Eat, EatInBounds, PrintParams, Values, AllSmall;
    PrintSnoc(front, last);
    AllSmallSnoc(front, last);
    if front == [] {
      EatParam(ext, [], last);
    } else {
      var f, a := front[..|front| - 1], front[|front| - 1];
      assert front == f + [a];
      EatParams(ext, f, a);
      PrintSnoc(f, a);
      EatNextParam(ext, PrintParams(front), Values(f), a, last);
    }
  }

  lemma PrintSnoc(front: seq<Param>, last: Param)
    ensures PrintParams(front + [last]) ==
            if front == [] then PrintParam(last) else PrintParams(front) + [SEMI] + PrintParam(last)
    ensures Values(front + [last]) == Values(front) + [Value(last)]
    ensures front == [] ==> Values(front) == [] && AllSmall(front)
  {
    assert (front + [last])[..|front|] == front;
  }

  /** Eating three texts in a row, none of which completes the sequence. */
  lemma EatThree(p: Parser, a: bytes, q: Parser, b: bytes, r: Parser, c: bytes, t: Parser)
    requires Live(p) && Live(q) && Live(r)
    requires Eat(p, a) == More(q) && Eat(q, b) == More(r) && Eat(r, c) == More(t)
    ensures Eat(p, a + b + c) == More(t)
    ensures EatInBounds(p, a + b + c) <==> EatInBounds(p, a) && EatInBounds(q, b) && EatInBounds(r, c)
  {
    hide Eat, EatInBounds;
    EatAppend(p, a, b);
    InBoundsAppend(p, a, b);
    EatAppend(p, a + b, c);
    InBoundsAppend(p, a + b, c);
  }

  lemma EatNextParam(ext: bool, text: bytes, argv: seq<int>, a: Param, last: Param)
    requires Eat(InCsi(ext, [], Empty), text) == More(InCsi(ext, argv, a))
    ensures var more := text + [SEMI] + PrintParam(last);
            && Eat(InCsi(ext, [], Empty), more) == More(InCsi(ext, argv + [Value(a)], last))
            && (EatInBounds(InCsi(ext, [], Empty), more) <==>
                EatInBounds(InCsi(ext, [], Empty), text) && |argv| < MAX_PARAMS && Value(last) <= 0x7fff_ffff)
  {
    hide Eat, EatInBounds;
    EatSemicolon(ext, argv, a);
    EatParam(ext, argv + [Value(a)], last);
    EatThree(InCsi(ext, [], Empty), text, InCsi(ext, argv, a), [SEMI],
             InCsi(ext, argv + [Value(a)], Empty), PrintParam(last), InCsi(ext, argv + [Value(a)], last));
  }

  lemma AllSmallSnoc(front: seq<Param>, last: Param)
    ensures AllSmall(front + [last]) <==> AllSmall(front) && Value(last) <= 0x7fff_ffff
  {
    var ps := front + [last];
    assert ps[|front|] == last;
    assert forall i :: 0 <= i < |front| ==> ps[i] == front[i];
  }

  /** The fixed opening of a control sequence. */
  lemma EatOpening(ext: bool)
    ensures var open := [ESC, LBRACKET] + if ext then [QUESTION] else [];
            Eat(FRESH, open) == More(InCsi(ext, [], Empty)) && EatInBounds(FRESH, open)
  {
    var two: bytes := [ESC, LBRACKET];
    var afterEsc := Parser(SEsc, PROTO, 0, false);
    assert two[1..] == [LBRACKET];
    assert Step(FRESH, ESC) == afterEsc;
    assert Step(afterEsc, LBRACKET) == InCsi(false, [], Empty);
    assert two[1..][1..] == [];
    assert Eat(afterEsc, two[1..]) == More(InCsi(false, [], Empty));
    assert Eat(FRESH, two) == More(InCsi(false, [], Empty));
    assert EatInBounds(afterEsc, two[1..]);
    assert EatInBounds(FRESH, two);
    if ext {
      var mark: bytes := [QUESTION];
      assert Step(InCsi(false, [], Empty), mark[0]) == InCsi(true, [], Empty);
      assert mark[1..] == [];
      EatAppend(FRESH, two, mark);
      InBoundsAppend(FRESH, two, mark);
    } else {
      assert two + [] == two;
    }
  }

  lemma EatClosing(ext: bool, argv: seq<int>, last: Param, cmd: byte)
    requires Closing(cmd)
    ensures var p := InCsi(ext, argv, last);
            var stored := if last.Empty? then argv else argv + [last.n];
            && Eat(p, [cmd]) == Done(1, Parser(SFin, Sequence(LBRACKET, cmd, [], ext, stored), 0, false))
            && (EatInBounds(p, [cmd]) <==> (last.Number? ==> |argv| < MAX_PARAMS))
  {
    assert [cmd][1..] == [];
  }

  lemma NoParams()
    ensures PrintParams([]) == [] && Values([]) == [] && AllSmall([])
  {
  }

  /** Print/parse round trip of control sequences (compare section 5.4.2 of ECMA-48): the
      whole text is eaten, class, command and private flag come back, and so does the
      parameter list up to the trailing empty; the text stays inside the fixed arrays
      exactly when its parameters fit. */
  lemma CsiRoundTrip(statics: Parser, ext: bool, ps: seq<Param>, cmd: byte)
    requires statics.st == SSta && Closing(cmd)
    ensures var text := PrintCsi(ext, ps, cmd);
            && Eat(statics, text) ==
               Done(|text|, Parser(SFin, Sequence(91, cmd, [], ext, Reported(ps)), 0, false))
            && (EatInBounds(FRESH, text) <==> Fit(ps))
  {
    hide Eat, EatInBounds, PrintParams, Values, AllSmall;
    NoParams();
    var text := PrintCsi(ext, ps, cmd);
    var open := [ESC, LBRACKET] + if ext then [QUESTION] else [];
    EatOpening(ext);
    var body := PrintParams(ps);
    var argv, last := [], Empty;
    if ps == [] {
      assert open + body == open;
    } else {
      var front := ps[..|ps| - 1];
      argv, last := Values(front), ps[|ps| - 1];
      assert ps == front + [last];
      EatParams(ext, front, last);
      PrintSnoc(front, last);
      EatAppend(FRESH, open, body);
      InBoundsAppend(FRESH, open, body);
    }
    assert Eat(FRESH, open + body) == More(InCsi(ext, argv, last));
    EatClosing(ext, argv, last, cmd);
    EatAppend(FRESH, open + body, [cmd]);
    InBoundsAppend(FRESH, open + body, [cmd]);
    assert open + body + [cmd] == text;
    SameFromStart(statics, FRESH, text);
  }

  /** The bytes other than NUL, in order. */
  function WithoutNul(s: bytes): (r: bytes)
    ensures NUL !in r && |r| <= |s|
  {
    if s == [] then []
    else WithoutNul(s[..|s| - 1]) + if s[|s| - 1] == NUL then [] else [s[|s| - 1]]
  }

  function Clip(s: bytes): bytes {
    if |s| < 256 then s else s[..255]
  }

  predicate IsPayload(s: bytes) {
    forall i :: 0 <= i < |s| ==> s[i] != 27 && !StringEnd(s[i])
  }

  function InOsc(arg: bytes): Parser {
    Parser(SSqc, Sequence(RBRACKET, 0, arg, false, []), 0, false)
  }

  lemma EatPayloadByte(arg: bytes, c: byte)
    requires IsPayload([c])
    ensures Eat(InOsc(arg), [c]) ==
            More(InOsc(if |arg| + 1 >= OSC_STR_SZ || c == NUL then arg else arg + [c]))
  {
    assert [c][0] == c && [c][1..] == [];
    assert Delta(SSqc, MkTok(c)) == (SSqc, AMkStr);
  }

  lemma {:induction false} EatPayload(payload: bytes)
    requires IsPayload(payload)
    ensures Eat(InOsc([]), payload) == More(InOsc(Clip(WithoutNul(payload))))
  {
    if payload != [] {
      hide Eat, Clip, WithoutNul;
      var front, c := payload[..|payload| - 1], payload[|payload| - 1];
      assert payload == front + [c];
      EatPayload(front);
      EatAppend(InOsc([]), front, [c]);
      EatPayloadByte(Clip(WithoutNul(front)), c);
      ClipSnoc(front, c);
    }
  }

  lemma ClipSnoc(front: bytes, c: byte)
    ensures var arg := Clip(WithoutNul(front));
            Clip(WithoutNul(front + [c])) == if |arg| + 1 >= OSC_STR_SZ || c == NUL then arg else arg + [c]
  {
    assert (front + [c])[..|front|] == front;
  }

  function PrintOsc(payload: bytes, terminator: byte): bytes {
    [27, 93] + payload + [terminator]
  }

  /** The fixed opening, and the terminator. */
  lemma OscEnds(arg: bytes, terminator: byte)
    requires StringEnd(terminator)
    ensures Eat(FRESH, [27, 93]) == More(InOsc([]))
    ensures Eat(InOsc(arg), [terminator]) == Done(1, InOsc(arg).(st := SFin))
  {
    var open: bytes := [ESC, RBRACKET];
    var afterEsc := Parser(SEsc, PROTO, 0, false);
    assert Step(FRESH, ESC) == afterEsc && open[1..] == [RBRACKET];
    assert Step(afterEsc, RBRACKET) == InOsc([]) && open[1..][1..] == [];
    assert Eat(afterEsc, open[1..]) == More(InOsc([]));
    assert [terminator][1..] == [];
  }

  /** An operating system command (section 8.3.89 of ECMA-48): every payload byte is
      eaten up to the terminator, and the string argument is the first 255 payload bytes
      that are not NUL. */
  lemma OscArgument(statics: Parser, payload: bytes, terminator: byte)
    requires statics.st == SSta && IsPayload(payload)
    requires StringEnd(terminator)
    ensures Eat(statics, PrintOsc(payload, terminator)) ==
            Done(|payload| + 3, InOsc(Clip(WithoutNul(payload))).(st := SFin))
  {
    hide Eat, Clip, WithoutNul;
    var open: bytes := [ESC, RBRACKET];
    OscEnds(Clip(WithoutNul(payload)), terminator);
    EatPayload(payload);
    EatAppend(FRESH, open, payload);
    EatAppend(FRESH, open + payload, [terminator]);
    SameFromStart(statics, FRESH, open + payload + [terminator]);
  }
}
