/**
 The escape-sequence recogniser (src/back/ansiseq.c): a table machine that eats one
 escape sequence from the front of its input, byte by byte.  A `Parser` value holds the
 local state `st` of one call together with the file's static variables, so the
 recogniser is a fold of `Step`, and what the statics held before a call is an input.
 */
module AnsiSeq {

  import opened Bytes

  datatype State = SSta | SEsc | SCsi | SSqc | SPph | SFin | SErr

  datatype Token =
    TEscp | TCchr | TNdig | TBell | TStrm | THash | TOprn | TCprn | TOsqb | TCsqb | TQmrk | TSmcl | TRest

  datatype Action = ANop | ABegin | AStor | AMkCtl | AMkPar | AMkStr | ASetCls | AExt

  const HASH: byte := 35
  const LPAREN: byte := 40
  const RPAREN: byte := 41
  const ZERO: byte := 48
  const NINE: byte := 57
  const SEMI: byte := 59
  const QUESTION: byte := 63
  const LBRACKET: byte := 91
  const RBRACKET: byte := 93

  const INT_MAX := 0x7fff_ffff
  const ABSENT := -0x8000_0000
  const MAX_PARAMS := 8
  const OSC_STR_SZ := 256

  /** Whether plain `char` is signed is the platform's choice; it decides whether the
      character constant '\234' can equal the byte 0x9c.  The value is left open, so
      every theorem holds for both choices. */
  const CHAR_IS_SIGNED: bool

  /** One parsed sequence.  `argv` holds the `argc` parameters stored so far, and
      `strarg` the C string in the fixed array. */
  datatype Sequence = Sequence(cls: byte, cmd: byte, strarg: bytes, ext: bool, argv: seq<int>)

  const PROTO := Sequence(0, 0, [], false, [])

  datatype Parser = Parser(st: State, cur: Sequence, parmv: int, gotparm: bool)

  const FRESH := Parser(SSta, PROTO, 0, false)

  predicate Live(p: Parser) {
    p.st != SFin && p.st != SErr
  }

  predicate IsDigit(c: byte) {
    ZERO <= c <= NINE
  }

  predicate IsCchr(c: byte) {
    || 65 <= c <= 90    // A-Z
    || 97 <= c <= 122   // a-z
    || 60 <= c <= 62    // < = >
  }

  predicate IsStrm(c: byte) {
    !CHAR_IS_SIGNED && c == 0x9c
  }

  function MkTok(c: byte): Token {
    if c == NUL then TRest
    else if IsDigit(c) then TNdig
    else if IsCchr(c) then TCchr
    else if c == ESC then TEscp
    else if c == BEL then TBell
    else if IsStrm(c) then TStrm
    else if c == HASH then THash
    else if c == LPAREN then TOprn
    else if c == RPAREN then TCprn
    else if c == LBRACKET then TOsqb
    else if c == RBRACKET then TCsqb
    else if c == QUESTION then TQmrk
    else if c == SEMI then TSmcl
    else TRest
  }

  /** The transition table; it has rows for the five live states only. */
  function Delta(st: State, tok: Token): (State, Action)
    requires st != SFin && st != SErr
  {
    if tok == TEscp then (SEsc, ABegin)
    else match st
      case SSta => (SErr, ANop)
      case SEsc => (
        match tok
        case TCchr => (SFin, AMkCtl)
        case TNdig => (SFin, AMkCtl)
        case THash => (SPph, ASetCls)
        case TOprn => (SPph, ASetCls)
        case TCprn => (SPph, ASetCls)
        case TOsqb => (SCsi, ASetCls)
        case TCsqb => (SSqc, ASetCls)
        case _ => (SErr, ANop))
      case SCsi => (
        match tok
        case TCchr => (SFin, AMkCtl)
        case TNdig => (SCsi, AMkPar)
        case TQmrk => (SCsi, AExt)
        case TSmcl => (SCsi, AStor)
        case _ => (SErr, ANop))
      case SSqc => (
        match tok
        case TBell => (SFin, ANop)
        case TStrm => (SFin, ANop)
        case _ => (SSqc, AMkStr))
      case SPph => (
        match tok
        case TCchr => (SFin, AMkCtl)
        case TNdig => (SFin, AMkCtl)
        case _ => (SErr, ANop))
  }

  /** `act_stor`: also called by `act_mkctl` with a character that is not ';'. */
  function ActStor(c: int, p: Parser): Parser {
    var stored :=
      if c == SEMI then p.cur.argv + [if p.gotparm then p.parmv else ABSENT]
      else if p.gotparm then p.cur.argv + [p.parmv]
      else p.cur.argv;
    p.(cur := p.cur.(argv := stored), parmv := 0, gotparm := false)
  }

  function ActMkCtl(c: byte, p: Parser): Parser {
    var q := if p.gotparm then ActStor(0, p) else p;
    q.(cur := q.cur.(cmd := c))
  }

  function ActMkStr(c: byte, p: Parser): Parser {
    if |p.cur.strarg| + 1 >= OSC_STR_SZ || c == NUL then p
    else p.(cur := p.cur.(strarg := p.cur.strarg + [c]))
  }

  function Act(a: Action, c: byte, p: Parser): Parser {
    match a
    case ANop => p
    case ABegin => Parser(p.st, PROTO, 0, false)
    case AStor => ActStor(c, p)
    case AMkCtl => ActMkCtl(c, p)
    case AMkPar => p.(parmv := p.parmv * 10 + (c - ZERO), gotparm := true)
    case AMkStr => ActMkStr(c, p)
    case ASetCls => p.(cur := p.cur.(cls := c))
    case AExt => p.(cur := p.cur.(ext := true))
  }

  function Step(p: Parser, c: byte): Parser
    requires Live(p)
  {
    var (st, a) := Delta(p.st, MkTok(c));
    Act(a, c, p).(st := st)
  }

  /** What eating a byte string from a live parser comes to: the input ran out, a whole
      sequence of `n` bytes was eaten, or byte `n` was fatal. */
  datatype Eaten = More(p: Parser) | Done(n: nat, p: Parser) | Fatal(n: nat)

  function Shift(k: nat, r: Eaten): Eaten {
    match r
    case More(_) => r
    case Done(n, p) => Done(k + n, p)
    case Fatal(n) => Fatal(k + n)
  }

  function Eat(p: Parser, data: bytes): Eaten
    requires Live(p)
    decreases |data|
  {
    if data == [] then More(p)
    else
      var q := Step(p, data[0]);
      if q.st == SErr then Fatal(1)
      else if q.st == SFin then Done(1, q)
      else Shift(1, Eat(q, data[1..]))
  }

  // ---- The recogniser can be suspended anywhere ----

  /** Eating `a + b` is eating `a` and, if that asks for more, resuming with `b`. */
  lemma {:induction false} EatAppend(p: Parser, a: bytes, b: bytes)
    requires Live(p)
    ensures Eat(p, a).More? ==> Live(Eat(p, a).p)
    ensures Eat(p, a + b) ==
            if Eat(p, a).More? then Shift(|a|, Eat(Eat(p, a).p, b)) else Eat(p, a)
    decreases |a|
  {
    if a == [] {
      assert a + b == b;
    } else {
      assert (a + b)[1..] == a[1..] + b;
      var q := Step(p, a[0]);
      if Live(q) {
        EatAppend(q, a[1..], b);
      }
    }
  }

  lemma {:induction false} EatBounds(p: Parser, data: bytes)
    requires Live(p)
    ensures Eat(p, data).Done? ==> 1 <= Eat(p, data).n <= |data| && Eat(p, data).p.st == SFin
    ensures Eat(p, data).Fatal? ==> 1 <= Eat(p, data).n <= |data|
    decreases |data|
  {
    if data != [] {
      var q := Step(p, data[0]);
      if Live(q) {
        EatBounds(q, data[1..]);
      }
    }
  }

  lemma TwoBytes(p: Parser, data: bytes)
    requires p.st == SSta
    ensures Eat(p, data).Done? ==> Eat(p, data).n >= 2
  {
    if data != [] && Live(Step(p, data[0])) {
      EatBounds(Step(p, data[0]), data[1..]);
    }
  }

  /** Stable prefix code.  A sequence recognised in `data` is recognised unchanged in every
      extension, every proper prefix of it asks for more, and it is at least two bytes
      long; a fatal byte is just as stable. */
  lemma StablePrefixCode(p: Parser, data: bytes, ext: bytes, j: nat)
    requires p.st == SSta
    ensures var r := Eat(p, data);
            && (!r.More? ==> Eat(p, data + ext) == r)
            && (r.Done? ==> 2 <= r.n <= |data|)
            && (r.Fatal? ==> 1 <= r.n <= |data|)
            && (!r.More? && j < r.n ==> Eat(p, data[..j]).More?)
            && (!r.More? && r.n <= j <= |data| ==> Eat(p, data[..j]) == r)
            && (r.More? && j <= |data| ==> Eat(p, data[..j]).More?)
  {
    TwoBytes(p, data);
    hide Eat;
    EatAppend(p, data, ext);
    EatBounds(p, data);
    if j <= |data| {
      EatAppend(p, data[..j], data[j..]);
      assert data[..j] + data[j..] == data;
      EatBounds(p, data[..j]);
      if Eat(p, data[..j]).More? {
        EatBounds(Eat(p, data[..j]).p, data[j..]);
      }
    }
  }

  /** No recognised sequence is a proper prefix of another one, so a byte string
      splits into sequences in at most one way. */
  lemma PrefixFree(a: bytes, ext: bytes)
    requires Eat(FRESH, a).Done? && Eat(FRESH, a).n == |a|
    requires Eat(FRESH, a + ext).Done? && Eat(FRESH, a + ext).n == |a + ext|
    ensures ext == []
  {
    EatAppend(FRESH, a, ext);
  }

  // ---- What the statics held before a call does not matter ----

  /** A byte that is not ESC is fatal at the start; an ESC discards all earlier state. */
  lemma EscapeResets(p: Parser, q: Parser)
    requires Live(p) && Live(q)
    ensures Step(p, ESC) == Step(q, ESC) == Parser(SEsc, PROTO, 0, false)
  {
  }

  lemma SameFromStart(p: Parser, q: Parser, data: bytes)
    requires p.st == SSta && q.st == SSta && data != []
    ensures Eat(p, data) == Eat(q, data)
  {
    EscapeResets(p, q);
  }

  /** History independence: what a call recognises depends only on the bytes it eats, not on
      the bytes behind them and not on what earlier calls left in the static variables. */
  lemma HistoryIndependent(p: Parser, q: Parser, data: bytes, behind: bytes)
    requires p.st == SSta && q.st == SSta && Eat(p, data).Done?
    ensures Eat(p, data).n <= |data|
    ensures Eat(q, data[..Eat(p, data).n] + behind) == Eat(p, data)
  {
    var n := Eat(p, data).n;
    StablePrefixCode(p, data, [], n);
    StablePrefixCode(p, data[..n], behind, n);
    SameFromStart(p, q, data[..n] + behind);
  }

  /** ESC restart: if an ESC stands at offset `j` of a recognised sequence, the result is
      that of recognising the suffix that starts there, with the skipped length added. */
  lemma EscapeRestarts(p: Parser, q: Parser, data: bytes, j: nat)
    requires p.st == SSta && q.st == SSta
    requires j < |data| && data[j] == ESC
    requires Eat(p, data).Done? && j < Eat(p, data).n
    ensures Eat(q, data[j..]) == Done(Eat(p, data).n - j, Eat(p, data).p)
  {
    StablePrefixCode(p, data, [], j);
    EatAppend(p, data[..j], data[j..]);
    assert data[..j] + data[j..] == data;
    var mid := Eat(p, data[..j]).p;
    EscapeResets(mid, q);
    assert Eat(mid, data[j..]) == Eat(q, data[j..]);
  }

  // ---- Array bounds the C code leaves unchecked ----

  /** One step neither stores a ninth parameter nor overflows the `int` it accumulates. */
  predicate StepInBounds(p: Parser, c: byte)
    requires Live(p)
  {
    match Delta(p.st, MkTok(c)).1
    case AStor => |p.cur.argv| < MAX_PARAMS
    case AMkCtl => p.gotparm ==> |p.cur.argv| < MAX_PARAMS
    case AMkPar => p.parmv * 10 + (c - ZERO) <= INT_MAX
    case _ => true
  }

  predicate EatInBounds(p: Parser, data: bytes)
    requires Live(p)
    decreases |data|
  {
    data == [] ||
    (StepInBounds(p, data[0]) &&
     (Live(Step(p, data[0])) ==> EatInBounds(Step(p, data[0]), data[1..])))
  }

  /** One turn of the eating loop at offset `i`. */
  lemma EatTurn(start: Parser, p: Parser, data: bytes, i: nat)
    requires Live(start) && Live(p) && i < |data|
    requires Eat(start, data) == Shift(i, Eat(p, data[i..])) && EatInBounds(p, data[i..])
    ensures StepInBounds(p, data[i])
    ensures var q := Step(p, data[i]);
            if q.st == SErr then Eat(start, data) == Fatal(i + 1)
            else if q.st == SFin then Eat(start, data) == Done(i + 1, q)
            else EatInBounds(q, data[i + 1..]) && Eat(start, data) == Shift(i + 1, Eat(q, data[i + 1..]))
  {
    hide StepInBounds, Step;
    assert data[i..][0] == data[i] && data[i..][1..] == data[i + 1..];
  }

  /** No escape sequence anywhere in the stream holds more than 8 parameters or a
      parameter above INT_MAX. */
  ghost predicate StreamInBounds(s: bytes) {
    forall i, j :: 0 <= i <= j <= |s| && i < |s| && s[i] == ESC ==> EatInBounds(FRESH, s[i..j])
  }

  lemma StreamInBoundsPart(s: bytes, a: nat, b: nat)
    requires StreamInBounds(s) && a <= b <= |s|
    ensures StreamInBounds(s[a..b])
  {
    forall i, j | 0 <= i <= j <= b - a && i < b - a && s[a..b][i] == ESC
      ensures EatInBounds(FRESH, s[a..b][i..j])
    {
      SliceSlice(s, a, b, i, j);
    }
  }

  lemma StreamInBoundsTail(s: bytes, a: nat)
    requires StreamInBounds(s) && a <= |s|
    ensures StreamInBounds(s[a..])
  {
    StreamInBoundsPart(s, a, |s|);
    assert s[a..|s|] == s[a..];
  }
}
