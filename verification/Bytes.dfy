/** Bytes, byte strings and the C-string view the program takes of its buffers. */
module Bytes {

  type byte = x: int | 0 <= x < 256

  type bytes = seq<byte>

  const NUL: byte := 0
  const BEL: byte := 7
  const NL: byte := 10
  const ESC: byte := 27

  /** The string a `char *` denotes: everything before the first NUL. */
  function CStr(s: bytes): (r: bytes)
    ensures r <= s
    ensures 0 !in r
    ensures |r| < |s| ==> s[|r|] == 0
  {
    if s == [] || s[0] == NUL then [] else [s[0]] + CStr(s[1..])
  }

  /** A byte string survives being passed as a `char *` exactly when it holds no NUL. */
  lemma CStrIdentity(s: bytes)
    ensures CStr(s) == s <==> NUL !in s
  {
    var r := CStr(s);
    if |r| < |s| {
      assert s[|r|] in s;
    }
  }

  /** A line of input: one newline, at the end. */
  predicate UserLine(l: bytes) {
    l != [] && l[|l| - 1] == NL && NL !in l[..|l| - 1]
  }

  /** The blocks of a history, in order. */
  function Flatten(blocks: seq<bytes>): bytes
  {
    if blocks == [] then [] else Flatten(blocks[..|blocks| - 1]) + blocks[|blocks| - 1]
  }

  lemma FlattenSnoc(blocks: seq<bytes>, b: bytes)
    ensures Flatten(blocks + [b]) == Flatten(blocks) + b
  {
    assert (blocks + [b])[..|blocks|] == blocks;
  }

  lemma Associative<T>(a: seq<T>, b: seq<T>, c: seq<T>)
    ensures (a + b) + c == a + (b + c)
  {
  }

  lemma {:induction false} FlattenAppend(a: seq<bytes>, b: seq<bytes>)
    ensures Flatten(a + b) == Flatten(a) + Flatten(b)
    decreases |b|
  {
    if b == [] {
      assert a + b == a;
    } else {
      hide Flatten;
      var front, last := b[..|b| - 1], b[|b| - 1];
      FlattenAppend(a, front);
      FlattenSnoc(front, last);
      FlattenSnoc(a + front, last);
      Associative(Flatten(a), Flatten(front), last);
      LastApart(a, b);
    }
  }

  lemma LastApart(a: seq<bytes>, b: seq<bytes>)
    requires b != []
    ensures b[..|b| - 1] + [b[|b| - 1]] == b
    ensures (a + b[..|b| - 1]) + [b[|b| - 1]] == a + b
  {
  }

  lemma SliceSlice(s: bytes, a: nat, b: nat, i: nat, j: nat)
    requires a <= b <= |s| && i <= j <= b - a
    ensures s[a..b][i..j] == s[a + i..a + j]
  {
    forall k | 0 <= k < j - i ensures s[a..b][i..j][k] == s[a + i..a + j][k] {
      assert s[a..b][i + k] == s[a + i + k];
    }
  }

  // ---- The lines of a text ----

  /** The whole lines of a text and what is left behind the last newline. */
  datatype Cut = Cut(lines: seq<bytes>, rest: bytes)

  function Split(s: bytes): Cut {
    if s == [] then Cut([], [])
    else
      var front, c := Split(s[..|s| - 1]), s[|s| - 1];
      if c == NL then Cut(front.lines + [front.rest + [NL]], []) else Cut(front.lines, front.rest + [c])
  }

  lemma SplitSnoc(s: bytes, c: byte)
    ensures var front := Split(s);
            Split(s + [c]) ==
            if c == NL then Cut(front.lines + [front.rest + [NL]], []) else Cut(front.lines, front.rest + [c])
  {
    assert (s + [c])[..|s|] == s;
  }

  /** The only way to cut a text into lines and a rest without a newline. */
  lemma {:induction false} SplitIs(lines: seq<bytes>, rest: bytes)
    requires (forall l :: l in lines ==> UserLine(l)) && NL !in rest
    ensures Split(Flatten(lines) + rest) == Cut(lines, rest)
    decreases |lines|, |rest|
  {
    hide Split, Flatten;
    if rest != [] {
      var k := |rest| - 1;
      SplitIs(lines, rest[..k]);
      SplitSnoc(Flatten(lines) + rest[..k], rest[k]);
      Associative(Flatten(lines), rest[..k], [rest[k]]);
      assert rest[..k] + [rest[k]] == rest;
    } else if lines != [] {
      var front, l := lines[..|lines| - 1], lines[|lines| - 1];
      assert l in lines;
      var body := l[..|l| - 1];
      assert l == body + [NL] && front + [l] == lines;
      SplitIs(front, body);
      SplitSnoc(Flatten(front) + body, NL);
      FlattenSnoc(front, l);
      Associative(Flatten(front), body, [NL]);
      assert Flatten(lines) + [] == Flatten(lines);
    } else {
      SplitNothing();
    }
  }

  lemma SplitNothing()
    ensures Split(Flatten([]) + []) == Cut([], [])
  {
  }

  /** More text leaves the lines before it alone. */
  lemma {:induction false} SplitMore(s: bytes, t: bytes)
    ensures Split(s).lines <= Split(s + t).lines
    decreases |t|
  {
    hide Split;
    if t == [] {
      assert s + t == s;
    } else {
      var k := |t| - 1;
      SplitMore(s, t[..k]);
      SplitSnoc(s + t[..k], t[k]);
      Associative(s, t[..k], [t[k]]);
      assert t[..k] + [t[k]] == t;
    }
  }
}
