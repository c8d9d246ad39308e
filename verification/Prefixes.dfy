/** Which byte strings begin a reply, and that the engine knows them: it runs into a panic or
    its error state at the first complete token that rules out every reply. */
module Prefixes {

  import opened Bytes
  import opened Programs
  import opened Languages
  import AnsiSeq
  import opened Grammar
  import Fsm

  // ---- The tokens, byte by byte ----

  /** A byte other than ESC is a token.  At an ESC there is one exactly when a whole sequence
      stands there, there will be one exactly when the data is the beginning of one, and
      otherwise the panic comes. */
  lemma TokenByForm(data: bytes, n: nat)
    requires data != [] && n <= |data|
    ensures data[0] != 27 ==> Fsm.MkTok(data) == Fsm.Tok(1, 1)
    ensures data[0] == 27 ==>
              && (Fsm.MkTok(data).Tok? ==> Fsm.MkTok(data).tok == 0)
              && (Fsm.MkTok(data) == Fsm.Tok(0, n) <==> Recognised(data[..n]))
              && (Fsm.MkTok(data) == Fsm.Need <==> Unfinished(data))
              && (Fsm.MkTok(data) == Fsm.Panic <==> exists k :: 0 <= k <= |data| && Refused(data[..k]))
  {
    hide AnsiSeq.Eat, Recognised, Unfinished, Refused;
    RecognisedExactly(data, n);
    AnsiSeq.EatBounds(AnsiSeq.FRESH, data);
    var r := AnsiSeq.Eat(AnsiSeq.FRESH, data);
    forall k | 0 <= k <= |data| ensures Refused(data[..k]) <==> r.Fatal? && r.n == k {
      RecognisedExactly(data, k);
    }
    if r.Fatal? {
      assert Refused(data[..r.n]);
    }
  }

  lemma {:induction false} StartsWithEsc(s: bytes)
    requires (Unfinished(s) && s != []) || Recognised(s)
    ensures s != [] && s[0] == 27
    decreases |s|
  {
    if Before(s) != [] {
      StartsWithEsc(Before(s));
    }
  }

  /** A unit that is what it says. */
  predicate Proper(u: Fsm.Unit) {
    match u
    case Eseq(body) => Recognised(body)
    case Rest(c) => c != 27
  }

  lemma FirstUnit(u: Fsm.Unit, rest: bytes)
    requires Proper(u)
    ensures var data := Fsm.UnitBytes(u) + rest;
            && data != []
            && Fsm.MkTok(data) == Fsm.Tok(if u.Eseq? then Fsm.T_ESEQ else Fsm.T_REST, |Fsm.UnitBytes(u)|)
            && data[|Fsm.UnitBytes(u)|..] == rest && data[..|Fsm.UnitBytes(u)|] == Fsm.UnitBytes(u)
  {
    hide Recognised, Fsm.MkTok;
    var data := Fsm.UnitBytes(u) + rest;
    if u.Eseq? {
      StartsWithEsc(u.body);
      assert data[..|u.body|] == u.body && data[0] == u.body[0];
      TokenByForm(data, |u.body|);
    } else {
      TokenByForm(data, 1);
    }
  }

  /** Any sequence in front of a string is its first token, and so is any other byte. */
  lemma LexUnit(u: Fsm.Unit, rest: bytes)
    requires Proper(u)
    ensures Fsm.Lex(Fsm.UnitBytes(u) + rest) == Lead(u, Fsm.Lex(rest))
  {
    hide Fsm.Lex, Recognised, Fsm.MkTok, Lead;
    FirstUnit(u, rest);
    LexLead(Fsm.UnitBytes(u) + rest);
  }

  /** Lexing is the inverse of writing tokens down: a string lexes to given tokens and a rest
      exactly when it consists of them, each of them is proper, and the rest is nothing or
      the beginning of a sequence. */
  lemma LexExactly(q: bytes, us: seq<Fsm.Unit>, rest: bytes)
    ensures Fsm.Lex(q) == Fsm.Lexed(us, rest) <==>
            q == Fsm.Unlex(us) + rest && (forall u :: u in us ==> Proper(u)) && Unfinished(rest)
  {
    hide Fsm.Lex, Recognised, Unfinished;
    if Fsm.Lex(q) == Fsm.Lexed(us, rest) {
      LexIsProper(q);
      Fsm.LexLossless(q);
    }
    if q == Fsm.Unlex(us) + rest && (forall u :: u in us ==> Proper(u)) && Unfinished(rest) {
      ProperLexes(us, rest);
    }
  }

  lemma {:induction false} LexIsProper(q: bytes)
    requires Fsm.Lex(q).Lexed?
    ensures forall u :: u in Fsm.Lex(q).units ==> Proper(u)
    ensures Unfinished(Fsm.Lex(q).rest)
    decreases |q|
  {
    hide Fsm.MkTok, Recognised;
    if q == [] {
    } else {
      TokenByForm(q, 0);
      if Fsm.MkTok(q).Tok? {
        hide Unfinished;
        var len := Fsm.MkTok(q).len;
        TokenByForm(q, len);
        Fsm.LexFirst(q);
        LexIsProper(q[len..]);
        TokenIsProper(q);
        var us := Fsm.Lex(q).units;
        forall u | u in us ensures Proper(u) {
          if u != us[0] {
            assert u in us[1..];
          }
        }
      }
    }
  }

  lemma TokenIsProper(q: bytes)
    requires q != [] && Fsm.MkTok(q).Tok? && Fsm.Lex(q).Lexed? && Fsm.Lex(q).units != []
    ensures Proper(Fsm.Lex(q).units[0])
  {
    hide Fsm.MkTok, Recognised, Fsm.Lex;
    Fsm.LexFirst(q);
    TokenByForm(q, Fsm.MkTok(q).len);
  }

  lemma {:induction false} ProperLexes(us: seq<Fsm.Unit>, rest: bytes)
    requires (forall u :: u in us ==> Proper(u)) && Unfinished(rest)
    ensures Fsm.Lex(Fsm.Unlex(us) + rest) == Fsm.Lexed(us, rest)
    decreases |us|
  {
    hide Fsm.Lex, Proper, Unfinished;
    if us == [] {
      assert Fsm.Unlex(us) + rest == rest;
      UnfinishedLexes(rest);
    } else {
      ProperLexes(us[1..], rest);
      LexUnit(us[0], Fsm.Unlex(us[1..]) + rest);
      Associative(Fsm.UnitBytes(us[0]), Fsm.Unlex(us[1..]), rest);
      assert [us[0]] + us[1..] == us;
    }
  }

  lemma UnfinishedLexes(rest: bytes)
    requires Unfinished(rest)
    ensures Fsm.Lex(rest) == Fsm.Lexed([], rest)
  {
    hide Fsm.MkTok, Unfinished;
    if rest != [] {
      StartsWithEsc(rest);
      TokenByForm(rest, 0);
    }
  }

  // ---- Tokens of a string ----

  /** A token in front of a lexed string. */
  function Lead(u: Fsm.Unit, l: Fsm.Lexed): Fsm.Lexed {
    if l.Lexed? then Fsm.Lexed([u] + l.units, l.rest) else l
  }

  lemma LexLead(data: bytes)
    requires data != [] && Fsm.MkTok(data).Tok?
    ensures var tok, len := Fsm.MkTok(data).tok, Fsm.MkTok(data).len;
            Fsm.Lex(data) ==
            Lead(if tok == Fsm.T_ESEQ then Fsm.Eseq(data[..len]) else Fsm.Rest(data[0]), Fsm.Lex(data[len..]))
  {
    hide Fsm.MkTok;
  }

  /** Tokens in front of a lexed string. */
  function Behind(us: seq<Fsm.Unit>, l: Fsm.Lexed): Fsm.Lexed {
    if l.Lexed? then Fsm.Lexed(us + l.units, l.rest) else l
  }

  lemma LeadAfter(u: Fsm.Unit, us: seq<Fsm.Unit>, l: Fsm.Lexed)
    ensures Lead(u, Behind(us, l)) == Behind([u] + us, l)
    ensures Behind([], l) == l
  {
    if l.Lexed? {
      Associative([u], us, l.units);
      assert [] + l.units == l.units;
    }
  }

  /** Lexing can be resumed after complete tokens. */
  lemma {:induction false} LexAppend(a: bytes, b: bytes)
    requires Fsm.Lex(a).Lexed? && Fsm.Lex(a).rest == []
    ensures Fsm.Lex(a + b) == Behind(Fsm.Lex(a).units, Fsm.Lex(b))
    decreases |a|
  {
    if a == [] {
      assert a + b == b;
      LeadAfter(MARK, [], Fsm.Lex(b));
    } else {
      LexBounds(a);
      hide Fsm.MkTok, Fsm.Lex, Lead, Behind;
      var len := Fsm.MkTok(a).len;
      Fsm.MkTokStable(a, b);
      assert (a + b)[len..] == a[len..] + b;
      assert (a + b)[..len] == a[..len];
      LexLead(a);
      LexLead(a + b);
      LexAppend(a[len..], b);
      LeadAfter(if Fsm.MkTok(a).tok == Fsm.T_ESEQ then Fsm.Eseq(a[..len]) else Fsm.Rest(a[0]),
                Fsm.Lex(a[len..]).units, Fsm.Lex(b));
    }
  }

  lemma LexBounds(a: bytes)
    requires a != [] && Fsm.Lex(a).Lexed? && Fsm.Lex(a).rest == []
    ensures Fsm.MkTok(a).Tok? && 0 < Fsm.MkTok(a).len <= |a|
    ensures Fsm.Lex(a[Fsm.MkTok(a).len..]).Lexed? && Fsm.Lex(a[Fsm.MkTok(a).len..]).rest == []
  {
    hide Fsm.MkTok;
  }

  /** The complete tokens of a string, as bytes. */
  function Whole(q: bytes): bytes
    requires Fsm.Lex(q).Lexed?
  {
    Fsm.Unlex(Fsm.Lex(q).units)
  }

  /** The complete tokens of a string lex alone to the same tokens. */
  lemma {:induction false} LexWhole(q: bytes)
    requires Fsm.Lex(q).Lexed?
    ensures q == Whole(q) + Fsm.Lex(q).rest
    ensures Fsm.Lex(Whole(q)) == Fsm.Lexed(Fsm.Lex(q).units, [])
    decreases |q|
  {
    hide Fsm.MkTok, Fsm.UnitBytes;
    Fsm.LexLossless(q);
    if q != [] && Fsm.MkTok(q).Tok? {
      var len := Fsm.MkTok(q).len;
      Fsm.LexFirst(q);
      LexWhole(q[len..]);
      var head := Whole(q);
      assert head == q[..len] + Whole(q[len..]);
      FirstToken(q, head, Fsm.Lex(q).rest);
      assert head[len..] == Whole(q[len..]) && head[..len] == q[..len];
    }
  }

  lemma FirstToken(q: bytes, head: bytes, rest: bytes)
    requires q == head + rest && head != [] && Fsm.MkTok(q).Tok? && Fsm.MkTok(q).len <= |head|
    ensures Fsm.MkTok(head) == Fsm.MkTok(q)
  {
    Fsm.MkTokStable(head, rest);
  }

  /** A feed that stays out of the error state has eaten all complete tokens. */
  lemma FeedIsLex(t: Fsm.Table, m: Fsm.Mach, data: bytes)
    requires Fsm.Valid(t, m)
    requires Fsm.Feed(t, m, data).Fed? && Fsm.Feed(t, m, data).m.st != t.errst
    ensures Fsm.Lex(data).Lexed?
    ensures Fsm.Feed(t, m, data).m == Fsm.Fold(t, m, Fsm.Lex(data).units)
  {
    hide Fsm.Feed, Fsm.Fold, Fsm.MkTok;
    var n := Fsm.Feed(t, m, data).n;
    Fsm.FeedRefinesFold(t, m, data);
    Fsm.FeedResidue(t, m, data);
    assert data[..n] + data[n..] == data;
    ResidueLexes(data[n..]);
    LexAppend(data[..n], data[n..]);
    assert Fsm.Lex(data[..n]).units + [] == Fsm.Lex(data[..n]).units;
  }

  lemma ResidueLexes(rest: bytes)
    requires rest == [] || Fsm.MkTok(rest) == Fsm.Need
    ensures Fsm.Lex(rest) == Fsm.Lexed([], rest)
  {
    hide Fsm.MkTok;
  }

  /** A string that consists of tokens on which the machine does well and, behind them, bytes
      that are no escape sequence and cannot become one. */
  predicate BadAt(t: Fsm.Table, m: Fsm.Mach, data: bytes, us: seq<Fsm.Unit>, bad: bytes)
    requires Fsm.Valid(t, m)
  {
    && data == Fsm.Unlex(us) + bad && (forall u :: u in us ==> Proper(u))
    && Fsm.Fold(t, m, us).st != t.errst
    && bad != [] && bad[0] == 27 && exists k :: 0 <= k <= |bad| && Refused(bad[..k])
  }

  /** `fsm_feed` panics exactly there. */
  lemma FeedPanicsExactly(t: Fsm.Table, m: Fsm.Mach, data: bytes)
    requires Fsm.Valid(t, m) && Fsm.Absorbing(t)
    ensures Fsm.Feed(t, m, data).Panicked? <==> exists us, bad :: BadAt(t, m, data, us, bad)
  {
    hide Fsm.Feed, BadAt;
    if Fsm.Feed(t, m, data).Panicked? {
      var us, bad := PanicIsBad(t, m, data);
    }
    if us, bad :| BadAt(t, m, data, us, bad) {
      BadPanics(t, m, data, us, bad);
    }
  }

  lemma {:induction false} PanicIsBad(t: Fsm.Table, m: Fsm.Mach, data: bytes) returns (us: seq<Fsm.Unit>, bad: bytes)
    requires Fsm.Valid(t, m) && Fsm.Feed(t, m, data).Panicked?
    ensures BadAt(t, m, data, us, bad)
    decreases |data|
  {
    hide AnsiSeq.Eat, Recognised, Refused, Unfinished, Fsm.MkTok, Fsm.Advance;
    TokenByForm(data, 0);
    if Fsm.MkTok(data) == Fsm.Panic {
      us, bad := [], data;
      assert [] + data == data;
    } else {
      var len := Fsm.MkTok(data).len;
      TokenByForm(data, len);
      var u := if data[0] == 27 then Fsm.Eseq(data[..len]) else Fsm.Rest(data[0]);
      var m1 := Fsm.Advance(t, m, Fsm.MkTok(data).tok, data[0]);
      var more;
      more, bad := PanicIsBad(t, m1, data[len..]);
      us := [u] + more;
      BadBehind(t, m, u, data[len..], more, bad);
      assert Fsm.UnitBytes(u) + data[len..] == data;
    }
  }

  lemma BadBehind(t: Fsm.Table, m: Fsm.Mach, u: Fsm.Unit, rest: bytes, us: seq<Fsm.Unit>, bad: bytes)
    requires Fsm.Valid(t, m) && Proper(u) && BadAt(t, Fsm.StepUnit(t, m, u), rest, us, bad)
    ensures BadAt(t, m, Fsm.UnitBytes(u) + rest, [u] + us, bad)
  {
    hide Refused, Fsm.StepUnit, Proper, Fsm.Fold;
    Fsm.FoldCons(t, m, u, us);
    assert ([u] + us)[1..] == us;
    Associative(Fsm.UnitBytes(u), Fsm.Unlex(us), bad);
  }

  lemma {:induction false} BadPanics(t: Fsm.Table, m: Fsm.Mach, data: bytes, us: seq<Fsm.Unit>, bad: bytes)
    requires Fsm.Valid(t, m) && Fsm.Absorbing(t) && BadAt(t, m, data, us, bad)
    ensures Fsm.Feed(t, m, data).Panicked?
    decreases |us|
  {
    hide Fsm.MkTok, Refused, Recognised, Unfinished, Fsm.Advance, Proper;
    if m.st == t.errst {
      Fsm.FoldFromError(t, m, us);
      assert false;
    } else if us == [] {
      assert data == bad;
      TokenByForm(data, 0);
    } else {
      var u, rest := us[0], Fsm.Unlex(us[1..]) + bad;
      Associative(Fsm.UnitBytes(u), Fsm.Unlex(us[1..]), bad);
      FirstUnit(u, rest);
      assert [u] + us[1..] == us;
      Fsm.FoldCons(t, m, u, us[1..]);
      FirstByteOf(u, rest);
      BadPanics(t, Fsm.StepUnit(t, m, u), rest, us[1..], bad);
      Fsm.FeedToken(t, m, data);
    }
  }

  lemma FirstByteOf(u: Fsm.Unit, rest: bytes)
    requires Proper(u)
    ensures var data := Fsm.UnitBytes(u) + rest; data != [] && data[0] == Fsm.UnitChar(u)
  {
    hide Recognised;
    if u.Eseq? {
      StartsWithEsc(u.body);
    }
  }

  // ---- Strings of two kinds of token ----

  const MARK := Fsm.Eseq([ESC, 65])

  lemma LexEscape(rest: bytes)
    requires Fsm.Lex(rest).Lexed?
    ensures Fsm.Lex([ESC, 65] + rest) == Fsm.Lexed([MARK] + Fsm.Lex(rest).units, Fsm.Lex(rest).rest)
  {
    var data := [ESC, 65] + rest;
    var afterEsc := AnsiSeq.Step(AnsiSeq.FRESH, ESC);
    assert data[1..][0] == 65 && AnsiSeq.Step(afterEsc, 65).st == AnsiSeq.SFin;
    assert AnsiSeq.Eat(AnsiSeq.FRESH, data) == AnsiSeq.Shift(1, AnsiSeq.Eat(afterEsc, data[1..]));
    assert data[2..] == rest && data[..2] == [ESC, 65];
  }

  lemma LexText(c: byte, rest: bytes)
    requires c != ESC && Fsm.Lex(rest).Lexed?
    ensures Fsm.Lex([c] + rest) == Fsm.Lexed([Fsm.Rest(c)] + Fsm.Lex(rest).units, Fsm.Lex(rest).rest)
  {
    assert ([c] + rest)[1..] == rest;
  }

  lemma LexNothing()
    ensures Fsm.Lex([]) == Fsm.Lexed([], [])
  {
  }

  lemma LexOne(u: Fsm.Unit)
    requires u == MARK || u == Fsm.Rest(97)
    ensures Fsm.Lex(Fsm.UnitBytes(u)) == Fsm.Lexed([u], [])
  {
    var none: bytes := [];
    LexNothing();
    LexEscape(none);
    LexText(97, none);
    assert [ESC, 65] + none == [ESC, 65] && [97] + none == [97];
  }

  // ---- Every string the programs have not refused begins a reply ----

  /** A token that takes a program closer to the end of a reply. */
  function Onward(p: Program, st: nat): Fsm.Unit {
    if (st % 2 == 0) == (p == Init) then Fsm.Rest(97) else MARK
  }

  lemma OnwardGoesOn(p: Program, m: Fsm.Mach)
    requires m.st < Fin(p) && RowOf(p, m.st).eof.state != Fin(p)
    ensures ByRow(p, m, Onward(p, m.st)).st == m.st + 1 < Fin(p)
  {
  }

  lemma AfterSnoc(p: Program, us: seq<Fsm.Unit>, u: Fsm.Unit)
    ensures After(p, us + [u]) == ByRow(p, After(p, us), u)
  {
    assert (us + [u])[..|us|] == us;
  }

  /** The shortest way on to a complete reply. */
  lemma {:induction false} ReplyFrom(p: Program, part: bytes) returns (reply: bytes)
    requires Fsm.Lex(part).Lexed? && Fsm.Lex(part).rest == [] && After(p, Fsm.Lex(part).units).st < Fin(p)
    ensures AcceptsReply(p, reply) && part <= reply
    decreases Fin(p) - After(p, Fsm.Lex(part).units).st
  {
    hide Fsm.Lex, After, ByRow;
    var us := Fsm.Lex(part).units;
    var m := After(p, us);
    if RowOf(p, m.st).eof.state == Fin(p) {
      reply := part;
    } else {
      var u := Onward(p, m.st);
      LexOne(u);
      LexAppend(part, Fsm.UnitBytes(u));
      OnwardGoesOn(p, m);
      AfterSnoc(p, us, u);
      reply := ReplyFrom(p, part + Fsm.UnitBytes(u));
    }
  }

  /** Nothing leads out of the error state. */
  lemma {:induction false} AfterError(p: Program, us: seq<Fsm.Unit>, more: seq<Fsm.Unit>)
    requires After(p, us).st == Err(p)
    ensures After(p, us + more).st == Err(p)
    decreases |more|
  {
    if more == [] {
      assert us + more == us;
    } else {
      hide After, ByRow;
      var front, u := more[..|more| - 1], more[|more| - 1];
      AfterError(p, us, front);
      Associative(us, front, [u]);
      assert front + [u] == more;
      AfterSnoc(p, us + front, u);
      StepByRow(p, After(p, us + front), u);
    }
  }

  lemma {:induction false} AfterNotFin(p: Program, us: seq<Fsm.Unit>)
    ensures After(p, us).st != Fin(p)
  {
    if us != [] {
      AfterNotFin(p, us[..|us| - 1]);
    }
  }

  ghost predicate BeginsReply(p: Program, q: bytes) {
    exists reply :: AcceptsReply(p, reply) && q <= reply
  }

  /** The complete tokens of a string begin a reply. */
  ghost predicate Viable(p: Program, q: bytes) {
    Fsm.Lex(q).Lexed? && BeginsReply(p, Whole(q))
  }

  /** A string is viable exactly when its tokens do not lead to the error state. */
  lemma ViableByState(p: Program, q: bytes)
    ensures Viable(p, q) <==> Fsm.Lex(q).Lexed? && After(p, Fsm.Lex(q).units).st != Err(p)
  {
    hide Fsm.Lex, After, Whole;
    if Fsm.Lex(q).Lexed? {
      var us := Fsm.Lex(q).units;
      LexWhole(q);
      if BeginsReply(p, Whole(q)) {
        var reply :| AcceptsReply(p, reply) && Whole(q) <= reply;
        StaysViable(p, Whole(q), reply);
      }
      if After(p, us).st != Err(p) {
        AfterNotFin(p, us);
        var reply := ReplyFrom(p, Whole(q));
      }
    }
  }

  lemma StaysViable(p: Program, head: bytes, reply: bytes)
    requires Fsm.Lex(head).Lexed? && Fsm.Lex(head).rest == [] && AcceptsReply(p, reply) && head <= reply
    ensures After(p, Fsm.Lex(head).units).st != Err(p)
  {
    hide Fsm.Lex, After;
    var more := reply[|head|..];
    assert head + more == reply;
    LexAppend(head, more);
    ErrorRow(p);
    if After(p, Fsm.Lex(head).units).st == Err(p) {
      AfterError(p, Fsm.Lex(head).units, Fsm.Lex(more).units);
    }
  }

  /** The engine, fed a string from the start, neither panics nor runs into its error state
      exactly when the complete tokens of the string begin a reply: replies in the language are
      let through, and anything else is found out as soon as a token is complete. */
  lemma FeedsViable(p: Program, q: bytes)
    ensures Fsm.Valid(TableOf(p), START)
    ensures var r := Fsm.Feed(TableOf(p), START, q);
            r.Fed? && r.m.st != Err(p) <==> Viable(p, q)
  {
    hide TableOf, Fsm.Feed, Fsm.Lex, Fsm.Fold, After, Viable;
    TablesClosed(p);
    ErrorAbsorbs(p);
    ViableByState(p, q);
    var r := Fsm.Feed(TableOf(p), START, q);
    if r.Fed? && r.m.st != Err(p) {
      FeedIsLex(TableOf(p), START, q);
      FoldIsAfter(p, Fsm.Lex(q).units);
    }
    if Viable(p, q) {
      FoldIsAfter(p, Fsm.Lex(q).units);
      Fsm.FoldIsFed(TableOf(p), START, q);
    }
  }

  /** A further escape sequence after a reply makes another reply. */
  lemma TrailingEscape(p: Program, reply: bytes)
    requires AcceptsReply(p, reply)
    ensures AcceptsReply(p, reply + [ESC, 65])
  {
    hide Fsm.Lex, After;
    var us := Fsm.Lex(reply).units;
    LexOne(MARK);
    LexAppend(reply, [ESC, 65]);
    AfterSnoc(p, us, MARK);
    AfterNotFin(p, us);
  }
}
