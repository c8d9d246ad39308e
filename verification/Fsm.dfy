/** The generic table machine (src/back/fsm.c) fed by the tokenizer that all programs
    share (src/back/hp/common_hp.c). */
module Fsm {

  import opened Bytes
  import AnsiSeq

  const T_ESEQ := 0
  const T_REST := 1
  const T_EOF := 2

  /** The character an action gets with the end-of-data token. */
  const EOF := -1

  /** The action functions of the three programs, by name. */
  datatype Action = Nop | Rec | RecPs | NoOut | AnyKey | Report

  datatype Trans = Trans(state: nat, action: Action)

  /** The constant part of a `struct fsm`; `delta` is flattened row by row. */
  datatype Table = Table(nsta: nat, ntok: nat, errst: nat, inist: nat, accst: seq<nat>, delta: seq<Trans>)

  /** What changes while a program runs: the current state and the static variables its
      actions write, namely the two recorded strings and the two latches. */
  datatype Mach = Mach(st: nat, out: bytes, ps1: bytes, anykey: bool, report: bool)

  predicate Closed(t: Table) {
    && t.ntok == 3
    && t.errst < t.nsta && t.inist < t.nsta
    && |t.delta| == t.nsta * t.ntok
    && forall i :: 0 <= i < |t.delta| ==> t.delta[i].state < t.nsta
  }

  predicate Valid(t: Table, m: Mach) {
    Closed(t) && m.st < t.nsta
  }

  function Ind(t: Table, sta: nat, tok: nat): nat {
    sta * t.ntok + tok
  }

  lemma MultipleApart(n: nat, d: int)
    ensures 1 <= d ==> n <= n * d
    ensures d <= -1 ==> n * d + n <= 0
  {
    if 1 <= d {
      assert n * d == n + n * (d - 1);
    } else if d <= -1 {
      assert n * d == n * (d + 1) - n;
    }
  }

  /** The flattened index stays inside the table and can be inverted. */
  lemma IndInverts(t: Table, sta: nat, tok: nat)
    requires tok < t.ntok
    ensures Ind(t, sta, tok) / t.ntok == sta
    ensures Ind(t, sta, tok) % t.ntok == tok
    ensures sta < t.nsta ==> Ind(t, sta, tok) < t.nsta * t.ntok
  {
    var n, i := t.ntok, Ind(t, sta, tok);
    MultipleApart(n, i / n - sta);
    assert n * (i / n - sta) == tok - i % n;
    if sta < t.nsta {
      assert (sta + 1) * n <= t.nsta * n;
    }
  }

  /** The cell of row `sta` and column `tok`. */
  function Cell(t: Table, sta: nat, tok: nat): (tr: Trans)
    requires Closed(t) && sta < t.nsta && tok < t.ntok
    ensures tr.state < t.nsta
  {
    IndInverts(t, sta, tok);
    t.delta[Ind(t, sta, tok)]
  }

  predicate IsAccepting(t: Table, st: nat) {
    st in t.accst
  }

  /** `c` is stored as a `char`. */
  function Act(a: Action, c: int, m: Mach): Mach {
    match a
    case Nop => m
    case Rec => m.(out := m.out + [c % 256])
    case RecPs => m.(ps1 := m.ps1 + [c % 256])
    case NoOut => m.(ps1 := m.out, out := [])
    case AnyKey => m.(anykey := true)
    case Report => m.(report := true)
  }

  function Advance(t: Table, m: Mach, tok: nat, c: int): (r: Mach)
    requires Valid(t, m) && tok < t.ntok
    ensures r.st == Cell(t, m.st, tok).state && Valid(t, r)
  {
    var tr := Cell(t, m.st, tok);
    Act(tr.action, c, m).(st := tr.state)
  }

  // ---- The tokenizer ----

  datatype Lexeme = Need | Tok(tok: nat, len: nat) | Panic

  function MkTok(data: bytes): (r: Lexeme)
    requires data != []
    ensures r.Tok? ==> r.tok < T_EOF && 1 <= r.len <= |data|
  {
    if data[0] == ESC then
      AnsiSeq.EatBounds(AnsiSeq.FRESH, data);
      match AnsiSeq.Eat(AnsiSeq.FRESH, data)
      case More(_) => Need
      case Done(n, _) => Tok(T_ESEQ, n)
      case Fatal(_) => Panic
    else Tok(T_REST, 1)
  }

  /** A token is decided by its own bytes: it is the same whatever follows. */
  lemma MkTokStable(a: bytes, b: bytes)
    requires a != []
    ensures MkTok(a) != Need ==> MkTok(a + b) == MkTok(a)
    ensures MkTok(a + b).Tok? && MkTok(a + b).len <= |a| ==> MkTok(a) == MkTok(a + b)
  {
    hide AnsiSeq.Eat;
    AnsiSeq.EatAppend(AnsiSeq.FRESH, a, b);
    var r := AnsiSeq.Eat(AnsiSeq.FRESH, a);
    if r.More? {
      AnsiSeq.EatBounds(r.p, b);
    }
  }

  // ---- Feeding ----

  datatype Fed = Fed(m: Mach, n: nat) | Panicked

  function Ahead(k: nat, r: Fed): Fed {
    if r.Fed? then Fed(r.m, k + r.n) else r
  }

  /** `fsm_feed` with data: token by token until the data or a token runs out, or the
      error state is entered.  `n` bytes were consumed. */
  function Feed(t: Table, m: Mach, data: bytes): (r: Fed)
    requires Valid(t, m)
    ensures r.Fed? ==> r.n <= |data| && Valid(t, r.m)
    decreases |data|
  {
    if m.st == t.errst || data == [] then Fed(m, 0)
    else
      match MkTok(data)
      case Need => Fed(m, 0)
      case Panic => Panicked
      case Tok(tok, len) => Ahead(len, Feed(t, Advance(t, m, tok, data[0]), data[len..]))
  }

  /** One turn of the feeding loop at offset `i`. */
  lemma FeedTurn(t: Table, start: Mach, m: Mach, data: bytes, i: nat)
    requires Valid(t, start) && Valid(t, m) && i < |data| && m.st != t.errst
    requires Feed(t, start, data) == Ahead(i, Feed(t, m, data[i..]))
    ensures match MkTok(data[i..])
            case Need => Feed(t, start, data) == Fed(m, i)
            case Panic => Feed(t, start, data) == Panicked
            case Tok(tok, len) =>
              && i + len <= |data|
              && Feed(t, start, data) == Ahead(i + len, Feed(t, Advance(t, m, tok, data[i]), data[i + len..]))
  {
    hide MkTok, Advance;
    var view := data[i..];
    if MkTok(view).Tok? {
      assert view[MkTok(view).len..] == data[i + MkTok(view).len..];
    }
  }

  lemma FeedAtError(t: Table, m: Mach, data: bytes)
    requires Valid(t, m)
    ensures m.st == t.errst ==> Feed(t, m, data) == Fed(m, 0)
    ensures Feed(t, m, data) == Ahead(0, Feed(t, m, data[0..]))
  {
    assert data[0..] == data;
  }

  lemma FeedStops(t: Table, start: Mach, m: Mach, data: bytes, i: nat)
    requires Valid(t, start) && Valid(t, m) && i <= |data|
    requires Feed(t, start, data) == Ahead(i, Feed(t, m, data[i..]))
    requires i == |data| || m.st == t.errst
    ensures Feed(t, start, data) == Fed(m, i)
  {
  }

  /** The end-of-data probe, `fsm_feed` with no data and length 0. */
  predicate Probe(t: Table, m: Mach)
    requires Valid(t, m)
  {
    m.st != t.errst && IsAccepting(t, Cell(t, m.st, T_EOF).state)
  }

  /** The end-of-data commit, `fsm_feed` with no data and length 1. */
  function Commit(t: Table, m: Mach): (r: Mach)
    requires Valid(t, m)
    ensures Valid(t, r)
  {
    if m.st == t.errst then m else Advance(t, m, T_EOF, EOF)
  }

  lemma {:induction false} FeedBounds(t: Table, m: Mach, data: bytes)
    requires Valid(t, m)
    ensures Feed(t, m, data).Fed? ==> Feed(t, m, data).n <= |data| && Valid(t, Feed(t, m, data).m)
    ensures Feed(t, m, data).Fed? && Feed(t, m, data).n == 0 ==> Feed(t, m, data).m == m
    decreases |data|
  {
    hide AnsiSeq.Eat;
    if m.st != t.errst && data != [] && MkTok(data).Tok? {
      FeedBounds(t, Advance(t, m, MkTok(data).tok, data[0]), data[MkTok(data).len..]);
    }
  }

  lemma FeedNothing(t: Table, m: Mach)
    requires Valid(t, m)
    ensures Feed(t, m, []) == Fed(m, 0)
  {
  }

  /** A feed that does not begin with a complete token. */
  lemma FeedNoToken(t: Table, m: Mach, data: bytes)
    requires Valid(t, m) && m.st != t.errst && data != []
    ensures MkTok(data) == Need ==> Feed(t, m, data) == Fed(m, 0)
    ensures MkTok(data) == Panic ==> Feed(t, m, data) == Panicked
  {
    hide MkTok, Advance;
  }

  /** A feed that begins with a complete token. */
  lemma FeedToken(t: Table, m: Mach, data: bytes)
    requires Valid(t, m) && m.st != t.errst && data != [] && MkTok(data).Tok?
    ensures var tok, len := MkTok(data).tok, MkTok(data).len;
            Feed(t, m, data) == Ahead(len, Feed(t, Advance(t, m, tok, data[0]), data[len..]))
  {
    hide MkTok, Advance;
  }

  /** Feeding `a + b` is feeding `a`, keeping its residue, and feeding the residue with `b`. */
  lemma {:induction false} FeedAppend(t: Table, m: Mach, a: bytes, b: bytes)
    requires Valid(t, m)
    ensures var r := Feed(t, m, a);
            && (r.Fed? ==> r.n <= |a| && Valid(t, r.m))
            && Feed(t, m, a + b) == if r.Fed? then Ahead(r.n, Feed(t, r.m, a[r.n..] + b)) else Panicked
    decreases |a|
  {
    hide MkTok, Feed, Advance;
    FeedAtError(t, m, a);
    FeedAtError(t, m, a + b);
    if m.st == t.errst {
      assert a[0..] == a;
    } else if a == [] {
      FeedNothing(t, m);
      assert a + b == b && a[0..] + b == b;
    } else {
      MkTokStable(a, b);
      FeedNoToken(t, m, a);
      FeedNoToken(t, m, a + b);
      assert a[0..] == a;
      if MkTok(a).Tok? {
        var tok, len := MkTok(a).tok, MkTok(a).len;
        FeedToken(t, m, a);
        FeedToken(t, m, a + b);
        assert (a + b)[len..] == a[len..] + b;
        var m1 := Advance(t, m, tok, a[0]);
        FeedAppend(t, m1, a[len..], b);
        var r := Feed(t, m1, a[len..]);
        if r.Fed? {
          assert a[len..][r.n..] == a[len + r.n..];
        }
      }
    }
  }

  /** The token at the front of a string, seen in a prefix that holds it. */
  lemma TokenInHead(data: bytes, n: nat)
    requires data != [] && MkTok(data).Tok? && MkTok(data).len <= n <= |data|
    ensures var len := MkTok(data).len;
            && MkTok(data[..n]) == MkTok(data) && data[..n][0] == data[0]
            && data[..n][len..] == data[len..][..n - len]
  {
    hide AnsiSeq.Eat, MkTok;
    assert data[..n] + data[n..] == data;
    MkTokStable(data[..n], data[n..]);
  }

  /** The consumed prefix alone leads to the same machine. */
  lemma {:induction false} FeedConsumed(t: Table, m: Mach, data: bytes)
    requires Valid(t, m) && Feed(t, m, data).Fed?
    ensures var r := Feed(t, m, data);
            r.n <= |data| && Feed(t, m, data[..r.n]) == r
    decreases |data|
  {
    FeedBounds(t, m, data);
    if m.st != t.errst && data != [] && MkTok(data).Tok? {
      hide AnsiSeq.Eat, MkTok, Feed, Advance;
      var tok, len := MkTok(data).tok, MkTok(data).len;
      var m1 := Advance(t, m, tok, data[0]);
      FeedToken(t, m, data);
      FeedConsumed(t, m1, data[len..]);
      FeedBounds(t, m1, data[len..]);
      var n := Feed(t, m, data).n;
      TokenInHead(data, n);
      FeedToken(t, m, data[..n]);
    } else {
      hide AnsiSeq.Eat, MkTok;
      assert Feed(t, m, data[..0]) == Fed(m, 0);
    }
  }

  /** What is left over cannot be consumed by feeding it again: it is empty, an
      incomplete escape sequence, or follows an entry into the error state. */
  lemma {:induction false} FeedResidue(t: Table, m: Mach, data: bytes)
    requires Valid(t, m)
    requires Feed(t, m, data).Fed?
    ensures var r := Feed(t, m, data);
            && r.n <= |data| && Valid(t, r.m)
            && (r.m.st == t.errst || r.n == |data| || MkTok(data[r.n..]) == Need)
            && Feed(t, r.m, data[r.n..]) == Fed(r.m, 0)
    decreases |data|
  {
    hide AnsiSeq.Eat, MkTok;
    if m.st != t.errst && data != [] && MkTok(data).Tok? {
      var len := MkTok(data).len;
      var m1 := Advance(t, m, MkTok(data).tok, data[0]);
      FeedResidue(t, m1, data[len..]);
      assert data[len..][Feed(t, m1, data[len..]).n..] == data[Feed(t, m, data).n..];
    } else {
      assert data[0..] == data;
    }
  }

  /** Equal but for the latches, which no transition reads. */
  predicate Same(a: Mach, b: Mach) {
    a.st == b.st && a.out == b.out && a.ps1 == b.ps1
  }

  /** Clearing the latches between two feeds changes nothing else. */
  lemma {:induction false} FeedSame(t: Table, a: Mach, b: Mach, data: bytes)
    requires Valid(t, a) && Valid(t, b) && Same(a, b)
    ensures var r, q := Feed(t, a, data), Feed(t, b, data);
            (r.Fed? && q.Fed? && r.n == q.n && Same(r.m, q.m)) || (r.Panicked? && q.Panicked?)
    decreases |data|
  {
    hide AnsiSeq.Eat, MkTok;
    if a.st != t.errst && data != [] && MkTok(data).Tok? {
      var tok, len := MkTok(data).tok, MkTok(data).len;
      FeedSame(t, Advance(t, a, tok, data[0]), Advance(t, b, tok, data[0]), data[len..]);
    }
  }

  // ---- Fragmentation ----

  /** The read loop: append a chunk to the buffer, feed the buffer, shift out what was
      consumed. */
  datatype Loop = Loop(m: Mach, buf: bytes) | LoopPanicked

  function LoopStep(t: Table, m: Mach, buf: bytes): (r: Loop)
    requires Valid(t, m)
    ensures r.Loop? ==> Valid(t, r.m)
  {
    match Feed(t, m, buf)
    case Panicked => LoopPanicked
    case Fed(m1, n) => Loop(m1, buf[n..])
  }

  function FeedLoop(t: Table, m: Mach, buf: bytes, chunks: seq<bytes>): Loop
    requires Valid(t, m)
    decreases |chunks|
  {
    if chunks == [] then Loop(m, buf)
    else
      match LoopStep(t, m, buf + chunks[0])
      case LoopPanicked => LoopPanicked
      case Loop(m1, rest) => FeedLoop(t, m1, rest, chunks[1..])
  }

  function Joined(chunks: seq<bytes>): bytes {
    if chunks == [] then [] else chunks[0] + Joined(chunks[1..])
  }

  /** Fragmentation independence of the engine, for any closed three-token table: for every way
      of cutting a byte stream into chunks, the loop ends in the machine, the recorded
      strings, the residue and the panic or error outcome of one feed of the whole stream. */
  lemma {:induction false} FragmentationIndependent(t: Table, m: Mach, buf: bytes, chunks: seq<bytes>)
    requires Valid(t, m)
    requires Feed(t, m, buf) == Fed(m, 0)
    ensures FeedLoop(t, m, buf, chunks) == LoopStep(t, m, buf + Joined(chunks))
    decreases |chunks|
  {
    hide AnsiSeq.Eat, MkTok, Feed;
    if chunks == [] {
      assert buf + [] == buf && buf[0..] == buf;
    } else {
      var a, rest := buf + chunks[0], Joined(chunks[1..]);
      assert buf + Joined(chunks) == a + rest;
      FeedAppend(t, m, a, rest);
      var r := Feed(t, m, a);
      if r.Fed? {
        FeedResidue(t, m, a);
        FragmentationIndependent(t, r.m, a[r.n..], chunks[1..]);
        FeedBounds(t, r.m, a[r.n..] + rest);
        var q := Feed(t, r.m, a[r.n..] + rest);
        if q.Fed? {
          assert (a + rest)[r.n + q.n..] == (a[r.n..] + rest)[q.n..];
        }
      }
    }
  }

  // ---- Refinement: feeding is folding the two-dimensional table over the tokens ----

  /** A token with the bytes it stands for. */
  datatype Unit = Eseq(body: bytes) | Rest(c: byte)

  function UnitTok(u: Unit): nat {
    if u.Eseq? then T_ESEQ else T_REST
  }

  function UnitBytes(u: Unit): bytes {
    if u.Eseq? then u.body else [u.c]
  }

  function UnitChar(u: Unit): int {
    if u.Eseq? then ESC else u.c
  }

  /** The tokens of a stream and the incomplete sequence left at its end. */
  datatype Lexed = Lexed(units: seq<Unit>, rest: bytes) | LexPanicked

  function Lex(data: bytes): Lexed
    decreases |data|
  {
    if data == [] then Lexed([], [])
    else
      match MkTok(data)
      case Need => Lexed([], data)
      case Panic => LexPanicked
      case Tok(tok, len) =>
        match Lex(data[len..])
        case LexPanicked => LexPanicked
        case Lexed(us, rest) =>
          Lexed([if tok == T_ESEQ then Eseq(data[..len]) else Rest(data[0])] + us, rest)
  }

  function Unlex(us: seq<Unit>): bytes {
    if us == [] then [] else UnitBytes(us[0]) + Unlex(us[1..])
  }

  function StepUnit(t: Table, m: Mach, u: Unit): (r: Mach)
    requires Valid(t, m)
    ensures Valid(t, r)
  {
    Advance(t, m, UnitTok(u), UnitChar(u))
  }

  /** Folding the table over tokens, with no early stop. */
  function Fold(t: Table, m: Mach, us: seq<Unit>): (r: Mach)
    requires Valid(t, m)
    ensures Valid(t, r)
  {
    if us == [] then m else StepUnit(t, Fold(t, m, us[..|us| - 1]), us[|us| - 1])
  }

  lemma {:induction false} FoldCons(t: Table, m: Mach, u: Unit, us: seq<Unit>)
    requires Valid(t, m)
    ensures Fold(t, m, [u] + us) == Fold(t, StepUnit(t, m, u), us)
    decreases |us|
  {
    var all := [u] + us;
    if us == [] {
      assert all[..|all| - 1] == [];
    } else {
      var k := |us| - 1;
      assert all[..|all| - 1] == [u] + us[..k];
      FoldCons(t, m, u, us[..k]);
    }
  }

  /** Splitting off the first token. */
  lemma LexFirst(data: bytes)
    requires data != [] && MkTok(data).Tok? && Lex(data).Lexed?
    ensures var len := MkTok(data).len;
            && Lex(data[len..]).Lexed?
            && Lex(data).rest == Lex(data[len..]).rest
            && Lex(data).units != []
            && Lex(data).units[1..] == Lex(data[len..]).units
            && UnitTok(Lex(data).units[0]) == MkTok(data).tok
            && UnitChar(Lex(data).units[0]) == data[0]
            && UnitBytes(Lex(data).units[0]) == data[..len]
  {
    hide AnsiSeq.Eat;
  }

  lemma UnlexCons(us: seq<Unit>)
    requires us != []
    ensures Unlex(us) == UnitBytes(us[0]) + Unlex(us[1..])
  {
  }

  lemma Glue(data: bytes, len: nat, mid: bytes, rest: bytes)
    requires len <= |data| && mid + rest == data[len..]
    ensures data[..len] + mid + rest == data
  {
    assert data == data[..len] + (mid + rest);
  }

  /** Lexing loses nothing. */
  lemma {:induction false} LexLossless(data: bytes)
    requires Lex(data).Lexed?
    ensures Unlex(Lex(data).units) + Lex(data).rest == data
    decreases |data|
  {
    if data != [] && MkTok(data).Tok? {
      hide MkTok, UnitBytes, Unlex, Lex;
      var len := MkTok(data).len;
      LexFirst(data);
      LexLossless(data[len..]);
      UnlexCons(Lex(data).units);
      Glue(data, len, Unlex(Lex(data[len..]).units), Lex(data[len..]).rest);
    } else {
      assert [] + data == data;
    }
  }

  /** `fsm_feed` refines the token fold: the consumed prefix splits exactly into tokens, and
      the machine it leaves is the fold of the two-dimensional table over them. */
  lemma {:induction false} FeedRefinesFold(t: Table, m: Mach, data: bytes)
    requires Valid(t, m)
    requires Feed(t, m, data).Fed?
    ensures var r := Feed(t, m, data);
            && r.n <= |data|
            && Lex(data[..r.n]).Lexed?
            && Lex(data[..r.n]).rest == []
            && r.m == Fold(t, m, Lex(data[..r.n]).units)
    decreases |data|
  {
    hide AnsiSeq.Eat, MkTok;
    if m.st != t.errst && data != [] && MkTok(data).Tok? {
      hide Feed, Lex, Fold, Advance;
      var tok, len := MkTok(data).tok, MkTok(data).len;
      var m1 := Advance(t, m, tok, data[0]);
      FeedToken(t, m, data);
      FeedRefinesFold(t, m1, data[len..]);
      var n := len + Feed(t, m1, data[len..]).n;
      var head := data[..n];
      TokenInHead(data, n);
      LexMore(head);
      LexFirst(head);
      var us := Lex(head).units;
      assert us == [us[0]] + us[1..];
      FoldCons(t, m, us[0], us[1..]);
    } else {
      assert data[..0] == [];
    }
  }

  lemma LexMore(data: bytes)
    requires data != [] && MkTok(data).Tok? && Lex(data[MkTok(data).len..]).Lexed?
    ensures Lex(data).Lexed?
  {
    hide MkTok;
  }

  /** The refinement in full: the consumed bytes are a sequence of tokens laid end to end, the
      machine is the fold of the table over them, and what is not consumed is empty, an
      incomplete escape sequence, or follows an entry into the error state. */
  lemma FeedIsTokenFold(t: Table, m: Mach, data: bytes)
    requires Valid(t, m) && Feed(t, m, data).Fed?
    ensures var r := Feed(t, m, data);
            && r.n <= |data| && Lex(data[..r.n]).Lexed?
            && var us := Lex(data[..r.n]).units;
            && data[..r.n] == Unlex(us)
            && r.m == Fold(t, m, us)
            && (r.n == |data| || r.m.st == t.errst || MkTok(data[r.n..]) == Need)
  {
    hide Feed, Fold, Lex, MkTok, Unlex;
    FeedRefinesFold(t, m, data);
    FeedResidue(t, m, data);
    var head := data[..Feed(t, m, data).n];
    LexLossless(head);
    assert Unlex(Lex(head).units) + [] == Unlex(Lex(head).units);
  }

  predicate Absorbing(t: Table)
    requires Closed(t)
  {
    forall tok :: 0 <= tok < t.ntok ==> Cell(t, t.errst, tok).state == t.errst
  }

  lemma {:induction false} FoldFromError(t: Table, m: Mach, us: seq<Unit>)
    requires Valid(t, m) && Absorbing(t) && m.st == t.errst
    ensures Fold(t, m, us).st == t.errst
  {
    if us != [] {
      FoldFromError(t, m, us[..|us| - 1]);
    }
  }

  /** Conversely, when the fold over all tokens of a stream stays out of the error state, the
      engine consumes every complete token and agrees with the fold. */
  lemma {:induction false} FoldIsFed(t: Table, m: Mach, data: bytes)
    requires Valid(t, m) && Absorbing(t)
    requires Lex(data).Lexed? && Fold(t, m, Lex(data).units).st != t.errst
    ensures |Lex(data).rest| <= |data|
    ensures Feed(t, m, data) == Fed(Fold(t, m, Lex(data).units), |data| - |Lex(data).rest|)
    decreases |data|
  {
    hide AnsiSeq.Eat, MkTok;
    if m.st == t.errst {
      FoldFromError(t, m, Lex(data).units);
    } else if data != [] && MkTok(data).Tok? {
      var tok, len := MkTok(data).tok, MkTok(data).len;
      LexFirst(data);
      var us := Lex(data).units;
      assert us == [us[0]] + us[1..];
      FoldCons(t, m, us[0], us[1..]);
      FoldIsFed(t, Advance(t, m, tok, data[0]), data[len..]);
    }
  }
}
