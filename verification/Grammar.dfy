/** The escape sequences themselves, byte by byte (compare section 5 of ECMA-35 and section 5.4
    of ECMA-48), and that the recogniser of src/back/ansiseq.c takes exactly these. */
module Grammar {

  import opened Bytes
  import opened AnsiSeq

  // ---- The sequences ----

  /** A letter, '<', '=' or '>'. */
  predicate Closing(c: byte) {
    65 <= c <= 90 || 97 <= c <= 122 || 60 <= c <= 62
  }

  predicate Figure(c: byte) {
    48 <= c <= 57
  }

  /** BEL, and ST where it equals a plain `char`. */
  predicate StringEnd(c: byte) {
    c == 7 || (c == 156 && !CHAR_IS_SIGNED)
  }

  /** What can stand behind the last ESC of a sequence that is not complete: nothing; one of
      `#()`; '[' and digits, '?' and ';'; or ']' and a string without terminator. */
  predicate Begun(b: bytes) {
    || b == [] || b == [35] || b == [40] || b == [41]
    || (b[0] == 91 && forall i :: 1 <= i < |b| ==> Figure(b[i]) || b[i] == 63 || b[i] == 59)
    || (b[0] == 93 && forall i :: 1 <= i < |b| ==> !StringEnd(b[i]) && b[i] != 27)
  }

  /** What completes it. */
  predicate Complete(b: bytes) {
    && b != [] && Begun(b[..|b| - 1])
    && var front, c := b[..|b| - 1], b[|b| - 1];
       if front == [] || front[0] == 35 || front[0] == 40 || front[0] == 41 then Closing(c) || Figure(c)
       else if front[0] == 91 then Closing(c)
       else StringEnd(c)
  }

  /** Where the last ESC of a string stands, or -1. */
  function LastEsc(s: bytes): (k: int)
    ensures -1 <= k < |s|
    ensures k >= 0 ==> s[k] == 27
    ensures forall i :: k < i < |s| ==> s[i] != 27
  {
    if s == [] then -1
    else if s[|s| - 1] == 27 then |s| - 1
    else
      var k := LastEsc(s[..|s| - 1]);
      assert forall i :: k < i < |s| - 1 ==> s[i] == s[..|s| - 1][i];
      k
  }

  /** What stands before it and behind it. */
  function Before(s: bytes): bytes {
    if LastEsc(s) < 0 then [] else s[..LastEsc(s)]
  }

  function Tail(s: bytes): bytes {
    s[LastEsc(s) + 1..]
  }

  /** Nothing, or sequences cut short by an ESC, the last of them not complete. */
  predicate Unfinished(s: bytes)
    decreases |s|
  {
    s == [] || (LastEsc(s) >= 0 && Begun(Tail(s)) && Unfinished(Before(s)))
  }

  /** One escape sequence, behind any that an ESC has cut short. */
  predicate Recognised(s: bytes) {
    LastEsc(s) >= 0 && Complete(Tail(s)) && Unfinished(Before(s))
  }

  /** The last byte is the first that fits no sequence. */
  predicate Refused(s: bytes) {
    s != [] && Unfinished(s[..|s| - 1]) && !Unfinished(s) && !Recognised(s)
  }

  // ---- One more byte ----

  lemma LastEscSnoc(s: bytes, c: byte)
    ensures LastEsc(s + [c]) == if c == 27 then |s| else LastEsc(s)
  {
    assert (s + [c])[..|s|] == s;
  }

  lemma PartsSnoc(s: bytes, c: byte)
    ensures Before(s + [c]) == if c == 27 then s else Before(s)
    ensures Tail(s + [c]) == if c == 27 then [] else Tail(s) + [c]
  {
    hide LastEsc;
    LastEscSnoc(s, c);
  }

  /** The state in which a string cut short leaves the recogniser. */
  function Stage(b: bytes): State {
    if b == [] then SEsc else if b[0] == 91 then SCsi else if b[0] == 93 then SSqc else SPph
  }

  /** A byte other than ESC continues what has begun, completes it or does not fit. */
  lemma StepFits(p: Parser, b: bytes, c: byte)
    requires Begun(b) && p.st == Stage(b) && c != 27
    ensures Live(p) && c != ESC
    ensures Step(p, c).st == if Begun(b + [c]) then Stage(b + [c]) else if Complete(b + [c]) then SFin else SErr
  {
    FitsSnoc(b, c);
  }

  lemma FitsSnoc(b: bytes, c: byte)
    requires Begun(b) && c != 27
    ensures Complete(b + [c]) <==>
            if b == [] || b[0] == 35 || b[0] == 40 || b[0] == 41 then Closing(c) || Figure(c)
            else if b[0] == 91 then Closing(c) else StringEnd(c)
    ensures Begun(b + [c]) <==>
            if b == [] then c == 35 || c == 40 || c == 41 || c == 91 || c == 93
            else if b[0] == 91 then Figure(c) || c == 63 || c == 59
            else b[0] == 93 && !StringEnd(c)
  {
    assert (b + [c])[..|b|] == b;
    if b != [] && (b[0] == 91 || b[0] == 93) {
      assert (b + [c])[|b|] == c;
      assert forall i :: 1 <= i < |b| ==> (b + [c])[i] == b[i];
    } else if b != [] {
      assert |b + [c]| == 2;
    }
  }

  lemma EatByte(p: Parser, c: byte)
    requires Live(p)
    ensures var q := Step(p, c);
            Eat(p, [c]) == if q.st == SErr then Fatal(1) else if q.st == SFin then Done(1, q) else More(q)
  {
    assert [c][1..] == [];
  }

  // ---- The recogniser takes exactly these sequences ----

  /** What the recogniser makes of a string, by its form alone. */
  lemma {:induction false} EatByForm(s: bytes)
    ensures var r := Eat(FRESH, s);
            && (Unfinished(s) <==> r.More?)
            && (r.More? ==> r.p.st == if s == [] then SSta else Stage(Tail(s)))
            && (Recognised(s) <==> r.Done? && r.n == |s|)
    decreases |s|
  {
    hide Eat, Step, Begun, Complete, Stage, Tail, Unfinished, Recognised;
    if s == [] {
      NothingByForm();
    } else {
      var front, c := s[..|s| - 1], s[|s| - 1];
      assert front + [c] == s;
      EatByForm(front);
      FormSnoc(front, c);
      EatSnoc(front, c);
      if Unfinished(front) {
        OneMore(Eat(FRESH, front).p, front, c);
        PartsSnoc(front, c);
        StageOfNothing();
      }
    }
  }

  lemma NothingByForm()
    ensures Unfinished([]) && !Recognised([]) && Eat(FRESH, []) == More(FRESH)
  {
    var none: bytes := [];
    assert LastEsc(none) == -1;
  }

  lemma StageOfNothing()
    ensures Stage([]) == SEsc
  {
  }

  /** The result for one more byte. */
  lemma EatSnoc(s: bytes, c: byte)
    ensures var r := Eat(FRESH, s);
            && (r.More? ==>
                  && Live(r.p)
                  && var q := Step(r.p, c);
                  Eat(FRESH, s + [c]) ==
                  if q.st == SErr then Fatal(|s| + 1) else if q.st == SFin then Done(|s| + 1, q) else More(q))
            && (!r.More? ==> Eat(FRESH, s + [c]) == r)
            && (!r.More? ==> r.n <= |s|)
  {
    hide Eat, Step;
    EatAppend(FRESH, s, [c]);
    EatBounds(FRESH, s);
    if Eat(FRESH, s).More? {
      EatByte(Eat(FRESH, s).p, c);
    }
  }

  /** The form of a string, by that of the string without its last byte. */
  lemma FormSnoc(s: bytes, c: byte)
    ensures Unfinished(s + [c]) <==>
            Unfinished(s) && (c == 27 || (s != [] && Begun(Tail(s) + [c])))
    ensures Recognised(s + [c]) <==> Unfinished(s) && c != 27 && s != [] && Complete(Tail(s) + [c])
  {
    hide Begun, Complete;
    PartsSnoc(s, c);
    LastEscSnoc(s, c);
    EmptyBegun(Tail(s), c);
  }

  lemma EmptyBegun(b: bytes, c: byte)
    ensures Begun([]) && !Complete([])
    ensures Begun(b + [c]) || Complete(b + [c]) ==> Begun(b)
  {
    assert (b + [c])[..|b|] == b;
    if Begun(b + [c]) && b != [] {
      assert forall i :: 1 <= i < |b| ==> (b + [c])[i] == b[i];
      assert (b + [c])[0] == b[0];
    }
  }

  lemma OneMore(p: Parser, s: bytes, c: byte)
    requires Unfinished(s) && Live(p) && p.st == if s == [] then SSta else Stage(Tail(s))
    ensures var q := Step(p, c);
            && (q.st == SFin <==> c != 27 && s != [] && Complete(Tail(s) + [c]))
            && (Live(q) <==> c == 27 || (s != [] && Begun(Tail(s) + [c])))
            && (Live(q) ==> q.st == if c == 27 then SEsc else Stage(Tail(s) + [c]))
  {
    hide Begun, Complete, LastEsc, Eat;
    if c == 27 {
      EscapeResets(p, FRESH);
    } else if s != [] {
      StepFits(p, Tail(s), c);
      NotBoth(Tail(s), c);
    }
  }

  lemma NotBoth(b: bytes, c: byte)
    requires Begun(b) && c != 27
    ensures !(Begun(b + [c]) && Complete(b + [c]))
  {
    FitsSnoc(b, c);
  }

  /** The result is that of the prefix at which it was decided. */
  lemma DecidedAt(s: bytes, n: nat)
    requires n <= |s|
    ensures var r, q := Eat(FRESH, s), Eat(FRESH, s[..n]);
            && (r.Done? && r.n == n <==> q.Done? && q.n == n)
            && (r.Fatal? && r.n == n <==> q.Fatal? && q.n == n)
  {
    hide Eat;
    var a := s[..n];
    assert a + s[n..] == s;
    EatAppend(FRESH, a, s[n..]);
    EatBounds(FRESH, a);
    EatBounds(FRESH, s);
    if Eat(FRESH, a).More? {
      EatBounds(Eat(FRESH, a).p, s[n..]);
    }
  }

  /** A byte is fatal exactly when the string before it was good and with it fits nothing. */
  lemma FatalByForm(s: bytes)
    ensures var r := Eat(FRESH, s); r.Fatal? && r.n == |s| <==> Refused(s)
  {
    hide Eat, Unfinished, Recognised;
    EatByForm(s);
    EatBounds(FRESH, s);
    if s != [] {
      var front, c := s[..|s| - 1], s[|s| - 1];
      assert front + [c] == s;
      EatByForm(front);
      EatBounds(FRESH, front);
      EatAppend(FRESH, front, [c]);
      if Eat(FRESH, front).More? {
        EatBounds(Eat(FRESH, front).p, [c]);
      }
    }
  }

  /** The recogniser asks for more exactly inside such sequences, recognises exactly the complete
      ones, and gives up exactly at the first byte that fits none. */
  lemma RecognisedExactly(s: bytes, n: nat)
    requires n <= |s|
    ensures var r := Eat(FRESH, s);
            && (r.More? <==> Unfinished(s))
            && (r.Done? && r.n == n <==> Recognised(s[..n]))
            && (r.Fatal? && r.n == n <==> Refused(s[..n]))
  {
    hide Eat, Unfinished, Recognised, Refused;
    EatByForm(s);
    DecidedAt(s, n);
    EatByForm(s[..n]);
    FatalByForm(s[..n]);
  }
}
