/** A program at run time: the static buffers and latches its actions write
    (src/back/hp/fsm_*_hp.c), the tokenizer call (src/back/hp/common_hp.c), and the
    engine loop (src/back/fsm.c). */
module Machine {

  import opened Bytes
  import opened Buffers
  import opened EscParser
  import AnsiSeq
  import Fsm

  const OUTBUFSZ := 4096
  const PS1BUFSZ := 256

  /** The static variables of one program file: the recorded output, the recorded prompt,
      and the latches.  (Programs that record less leave the rest unused.) */
  class Recorder {
    const outbuf: Buffer
    const ps1buf: Buffer
    var anykey: bool
    var report: bool

    /** Characters recorded so far, and capacity moved by the growths they caused. */
    ghost var appends: nat
    ghost var moved: nat

    ghost var Repr: set<object>

    ghost predicate Valid()
      reads this, Repr
      ensures Valid() ==> this in Repr
    {
      && {this, outbuf, ps1buf} <= Repr
      && {outbuf.data, ps1buf.data} <= Repr
      && outbuf != ps1buf && outbuf.data != ps1buf.data
      && outbuf.Terminated() && ps1buf.Terminated()
      && outbuf.cnt <= appends
      && moved + OUTBUFSZ == outbuf.data.Length
      && (moved > 0 ==> outbuf.data.Length <= 2 * appends)
    }

    ghost function Abs(st: nat): (m: Fsm.Mach)
      requires Valid()
      reads this, Repr
      ensures m.st == st
    {
      Fsm.Mach(st, outbuf.Contents(), ps1buf.Contents(), anykey, report)
    }

    constructor ()
      ensures Valid() && fresh(Repr) && moved == appends == 0
      ensures forall st :: Abs(st) == Fsm.Mach(st, [], [], false, false)
    {
      outbuf := new Buffer(OUTBUFSZ);
      ps1buf := new Buffer(PS1BUFSZ);
      anykey, report, appends, moved := false, false, 0, 0;
      new;
      Repr := {this, outbuf, ps1buf, outbuf.data, ps1buf.data};
    }

    /** The capacity moved by all growths over n appends is below 2n. */
    lemma GrowthIsAmortized()
      requires Valid()
      ensures moved == 0 || moved < 2 * appends
    {
    }

    method Reset()
      requires Valid()
      modifies Repr
      ensures Valid() && fresh(Repr - old(Repr))
      ensures forall st :: Abs(st) == Fsm.Mach(st, [], [], false, false)
      ensures appends == old(appends) && moved == old(moved)
    {
      outbuf.Clear();
      ps1buf.Clear();
      anykey, report := false, false;
    }

    /** Record to the output, doubling the buffer when the NUL would not fit. */
    method ActRec(c: byte)
      requires Valid()
      modifies Repr
      ensures Valid() && fresh(Repr - old(Repr))
      ensures forall st :: Abs(st) == Fsm.Act(Fsm.Rec, c, old(Abs(st)))
      ensures appends == old(appends) + 1
      ensures moved == old(moved) + if outbuf.data == old(outbuf.data) then 0 else old(outbuf.data.Length)
    {
      appends := appends + 1;
      if outbuf.cnt + 1 >= outbuf.data.Length {
        moved := moved + outbuf.data.Length;
        outbuf.Move(outbuf.data.Length * 2);
        outbuf.data[outbuf.cnt] := NUL;
        Repr := Repr + {outbuf.data};
      }
      Put(outbuf, c);
    }

    method ActRecPs(c: byte)
      requires Valid()
      modifies Repr
      ensures Valid() && fresh(Repr - old(Repr))
      ensures forall st :: Abs(st) == Fsm.Act(Fsm.RecPs, c, old(Abs(st)))
      ensures appends == old(appends) && moved == old(moved)
    {
      if ps1buf.cnt + 1 >= ps1buf.data.Length {
        ps1buf.Move(ps1buf.data.Length * 2);
        Repr := Repr + {ps1buf.data};
      }
      Put(ps1buf, c);
    }

    /** No output after all: what was recorded is the prompt. */
    method ActNoOut()
      requires Valid()
      modifies Repr
      ensures Valid() && fresh(Repr - old(Repr))
      ensures forall st :: Abs(st) == Fsm.Act(Fsm.NoOut, Fsm.EOF, old(Abs(st)))
      ensures appends == old(appends) && moved == old(moved)
    {
      var nsz := ps1buf.data.Length;
      while outbuf.cnt >= nsz
        invariant nsz >= ps1buf.data.Length
        decreases outbuf.cnt - nsz
      {
        nsz := nsz * 2;
      }
      if nsz > ps1buf.data.Length {
        ps1buf.Move(nsz);
        Repr := Repr + {ps1buf.data};
      }
      forall i | 0 <= i < outbuf.cnt {
        ps1buf.data[i] := outbuf.data[i];
      }
      ps1buf.cnt := outbuf.cnt;
      ps1buf.data[ps1buf.cnt] := NUL;
      outbuf.Clear();
    }

    /** Reading a latch clears it. */
    method ReadAnyKey() returns (b: bool)
      requires Valid()
      modifies this`anykey
      ensures Valid() && b == old(anykey)
      ensures forall st :: Abs(st) == old(Abs(st)).(anykey := false)
    {
      b := anykey;
      anykey := false;
    }

    method ReadReport() returns (b: bool)
      requires Valid()
      modifies this`report
      ensures Valid() && b == old(report)
      ensures forall st :: Abs(st) == old(Abs(st)).(report := false)
    {
      b := report;
      report := false;
    }

    /** The action of a table cell. */
    method Act(a: Fsm.Action, c: int)
      requires Valid()
      modifies Repr
      ensures Valid() && fresh(Repr - old(Repr))
      ensures forall st, st' :: Abs(st') == Fsm.Act(a, c, old(Abs(st))).(st := st')
    {
      match a
      case Nop =>
      case Rec => ActRec(c % 256);
      case RecPs => ActRecPs(c % 256);
      case NoOut => ActNoOut();
      case AnyKey => anykey := true;
      case Report => report := true;
    }
  }

  method Put(b: Buffer, c: byte)
    requires b.Valid() && b.cnt + 1 < b.data.Length
    modifies b`cnt, b.data
    ensures b.Terminated() && b.data == old(b.data)
    ensures b.Contents() == old(b.Contents()) + [c]
  {
    b.data[b.cnt] := c;
    b.cnt := b.cnt + 1;
    b.data[b.cnt] := NUL;
  }

  /** What `fsm_hp_mktok` answers: a token and its length, or that there is too little data. */
  datatype Tokenized = Short | Token(t: nat, toklen: nat) | Bad

  /** What `fsm_feed` gets: a null pointer or bytes. */
  datatype Input = Null | Given(data: bytes)

  method MkTok(parser: Parser, input: Input) returns (r: Tokenized)
    requires parser.Valid()
    requires input.Given? ==> input.data != [] && AnsiSeq.StreamInBounds(input.data)
    modifies parser.Repr
    ensures parser.Valid()
    ensures r.Token? ==> r.t <= Fsm.T_EOF
    ensures input.Null? ==> r == Token(Fsm.T_EOF, 1)
    ensures input.Given? ==>
              match Fsm.MkTok(input.data)
              case Need => r == Short
              case Panic => r == Bad
              case Tok(t, len) => r == Token(t, len)
  {
    if input.Null? {
      return Token(Fsm.T_EOF, 1);
    }
    var data := input.data;
    if data[0] == ESC {
      ghost var statics := parser.Abs(AnsiSeq.SSta);
      InBoundsFromStart(statics, data);
      AnsiSeq.SameFromStart(statics, AnsiSeq.FRESH, data);
      var e := parser.EatOne(data);
      match e
      case NeedMore => return Short;
      case Ate(n) => return Token(Fsm.T_ESEQ, n);
      case Aborted => return Bad;
    }
    return Token(Fsm.T_REST, 1);
  }

  lemma InBoundsFromStart(statics: AnsiSeq.Parser, data: bytes)
    requires statics.st == AnsiSeq.SSta && data != [] && data[0] == ESC && AnsiSeq.StreamInBounds(data)
    ensures AnsiSeq.EatInBounds(statics, data)
  {
    assert data[0..|data|] == data;
    assert AnsiSeq.EatInBounds(AnsiSeq.FRESH, data);
    AnsiSeq.EscapeResets(statics, AnsiSeq.FRESH);
  }

  /** A byte count (or a probe's yes or no), or the panic of the tokenizer. */
  datatype FeedCode = Count(n: nat) | Died

  /** How one turn of the loop of `fsm_feed` ends. */
  datatype TurnCode = TooLittle | Broken | Probed(b: bool) | Taken(toklen: nat)

  /** What `fsm_feed` answers, and the machine it leaves unless it panics: the probe changes
      nothing, the commit takes the end-of-data transition, data is fed. */
  predicate Feeds(t: Fsm.Table, m: Fsm.Mach, input: Input, len: nat, r: FeedCode, after: Fsm.Mach) {
    && Fsm.Valid(t, m)
    && match input
       case Null =>
         if len == 0 then after == m && r == Count(if Fsm.Probe(t, m) then 1 else 0)
         else after == Fsm.Commit(t, m) && r == Count(if m.st == t.errst then 0 else 1)
       case Given(data) =>
         match Fsm.Feed(t, m, data)
         case Fed(next, n) => after == next && r == Count(n)
         case Panicked => r == Died
  }

  /** A `struct fsm` with the statics its actions write. */
  class Engine {
    const tbl: Fsm.Table
    const rec: Recorder
    var curst: nat

    ghost var Repr: set<object>

    ghost predicate Valid()
      reads this, Repr
      ensures Valid() ==> this in Repr
    {
      && this in Repr && rec in Repr && rec.Repr <= Repr && this !in rec.Repr
      && rec.Valid() && Fsm.Closed(tbl) && curst < tbl.nsta
    }

    ghost function Abs(): (m: Fsm.Mach)
      requires Valid()
      reads this, Repr
      ensures Fsm.Valid(tbl, m) && m.st == curst
    {
      rec.Abs(curst)
    }

    constructor (t: Fsm.Table)
      requires Fsm.Closed(t)
      ensures Valid() && fresh(Repr) && tbl == t
      ensures Abs() == Fsm.Mach(t.inist, [], [], false, false)
    {
      tbl := t;
      rec := new Recorder();
      curst := t.inist;
      new;
      Repr := {this} + rec.Repr;
    }

    method IsAccepting(state: nat) returns (b: bool)
      ensures b == Fsm.IsAccepting(tbl, state)
    {
      for i := 0 to |tbl.accst|
        invariant state !in tbl.accst[..i]
      {
        if state == tbl.accst[i] {
          return true;
        }
      }
      return false;
    }

    /** `fsm_reset`. */
    method Reset()
      requires Valid()
      modifies Repr
      ensures Valid() && fresh(Repr - old(Repr))
      ensures Abs() == Fsm.Mach(tbl.inist, [], [], false, false)
    {
      curst := tbl.inist;
      rec.Reset();
      Repr := Repr + rec.Repr;
    }

    /** `fsm_error`. */
    method InError() returns (b: bool)
      requires Valid()
      ensures b == (Abs().st == tbl.errst)
    {
      b := curst == tbl.errst;
    }

    method ReadAnyKey() returns (b: bool)
      requires Valid()
      modifies Repr
      ensures Valid() && Repr == old(Repr)
      ensures b == old(Abs()).anykey && Abs() == old(Abs()).(anykey := false)
    {
      b := rec.ReadAnyKey();
    }

    method ReadReport() returns (b: bool)
      requires Valid()
      modifies Repr
      ensures Valid() && Repr == old(Repr)
      ensures b == old(Abs()).report && Abs() == old(Abs()).(report := false)
    {
      b := rec.ReadReport();
    }

    /** The recorded output and prompt as the C strings their pointers denote. */
    method OutString() returns (s: bytes)
      requires Valid()
      ensures s == CStr(Abs().out)
    {
      var len := rec.outbuf.StrLen();
      s := rec.outbuf.data[..len];
      assert rec.outbuf.Contents()[..len] == s;
    }

    method Ps1String() returns (s: bytes)
      requires Valid()
      ensures s == CStr(Abs().ps1)
    {
      var len := rec.ps1buf.StrLen();
      s := rec.ps1buf.data[..len];
      assert rec.ps1buf.Contents()[..len] == s;
    }

    /** One turn of the loop of `fsm_feed`: get a token, look up its cell, and unless this is
        only a probe, act and move. */
    method Turn(parser: Parser, view: Input, probing: bool) returns (r: TurnCode)
      requires Valid() && parser.Valid() && Repr !! parser.Repr
      requires view.Given? ==> !probing && view.data != [] && AnsiSeq.StreamInBounds(view.data)
      modifies Repr, parser.Repr
      ensures Valid() && parser.Valid() && fresh(Repr - old(Repr))
      ensures view.Null? && probing ==>
                Abs() == old(Abs()) &&
                r == Probed(Fsm.IsAccepting(tbl, Fsm.Cell(tbl, old(curst), Fsm.T_EOF).state))
      ensures view.Null? && !probing ==>
                Abs() == Fsm.Advance(tbl, old(Abs()), Fsm.T_EOF, Fsm.EOF) && r == Taken(1)
      ensures view.Given? ==>
                match Fsm.MkTok(view.data)
                case Need => r == TooLittle && Abs() == old(Abs())
                case Panic => r == Broken
                case Tok(t, len) => r == Taken(len) && Abs() == Fsm.Advance(tbl, old(Abs()), t, view.data[0])
    {
      hide Fsm.MkTok, Fsm.IsAccepting, AnsiSeq.StreamInBounds, Fsm.Act, Recorder.Valid, Recorder.Abs, Parser.Valid,
           Parser.Abs;
      var t := MkTok(parser, view);
      match t
      case Short => return TooLittle;
      case Bad => return Broken;
      case Token(tok, toklen) =>
        Fsm.IndInverts(tbl, curst, tok);
        var tr := tbl.delta[Fsm.Ind(tbl, curst, tok)];
        if probing {
          var b := IsAccepting(tr.state);
          return Probed(b);
        }
        var c := if view.Given? then view.data[0] else Fsm.EOF;
        ghost var m := rec.Abs(curst);
        rec.Act(tr.action, c);
        assert rec.Abs(tr.state) == Fsm.Act(tr.action, c, m).(st := tr.state);
        curst := tr.state;
        Repr := Repr + rec.Repr;
        return Taken(toklen);
    }

    /** `fsm_feed`: with data it eats tokens, without data it probes (`len` 0) or commits
        (`len` above 0) the end of data. */
    method Feed(parser: Parser, input: Input, len: nat) returns (r: FeedCode)
      requires Valid() && parser.Valid() && Repr !! parser.Repr
      requires input.Given? ==> len == |input.data| && AnsiSeq.StreamInBounds(input.data)
      modifies Repr, parser.Repr
      ensures Valid() && parser.Valid() && fresh(Repr - old(Repr))
      ensures Feeds(tbl, old(Abs()), input, len, r, Abs())
    {
      hide Fsm.Feed, Fsm.MkTok, Fsm.Advance, Fsm.IsAccepting, AnsiSeq.StreamInBounds, Recorder.Valid, Recorder.Abs,
           Parser.Valid, Parser.Abs;
      var i := 0;
      ghost var start := Abs();
      if input.Given? {
        Fsm.FeedAtError(tbl, start, input.data);
      }
      if curst == tbl.errst {
        return Count(0);
      }
      while input.Null? || i < len
        invariant Valid() && parser.Valid() && fresh(Repr - old(Repr)) && Repr !! parser.Repr
        invariant curst != tbl.errst
        invariant input.Null? ==> i == 0 && Abs() == start
        invariant input.Given? ==>
                    i <= len && Fsm.Feed(tbl, start, input.data) == Fsm.Ahead(i, Fsm.Feed(tbl, Abs(), input.data[i..]))
        decreases len - i
      {
        var view := Null;
        if input.Given? {
          view := Given(input.data[i..]);
          AnsiSeq.StreamInBoundsTail(input.data, i);
          Fsm.FeedTurn(tbl, start, Abs(), input.data, i);
        }
        var t := Turn(parser, view, len == 0);
        match t
        case TooLittle => return Count(i);
        case Broken => return Died;
        case Probed(b) => return Count(if b then 1 else 0);
        case Taken(toklen) => i := i + toklen;
        if curst == tbl.errst || input.Null? {
          break;
        }
      }
      if input.Given? {
        Fsm.FeedStops(tbl, start, Abs(), input.data, i);
      }
      return Count(i);
    }
  }
}
