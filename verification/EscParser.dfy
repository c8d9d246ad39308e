/** The recogniser as src/back/ansiseq.c runs it: a loop over the input whose actions write
    the static variables, with a fixed array for the string argument and one for
    the parameters. */
module EscParser {

  import opened Bytes
  import opened AnsiSeq

  /** -1, a length, or the panic. */
  datatype Code = NeedMore | Ate(n: nat) | Aborted

  class Parser {
    var cls: byte
    var cmd: byte
    const strarg: array<byte>
    var ext: bool
    const argv: array<int>
    var argc: nat
    var parmv: int
    var gotparm: bool

    /** The length of the string in `strarg`; everything behind it is NUL. */
    ghost var arglen: nat

    ghost const Repr: set<object> := {this, strarg, argv}

    ghost predicate Valid()
      reads Repr
    {
      && strarg.Length == OSC_STR_SZ && argv.Length == MAX_PARAMS
      && argc <= MAX_PARAMS && arglen < OSC_STR_SZ
      && (forall i :: 0 <= i < OSC_STR_SZ ==> (strarg[i] == NUL <==> arglen <= i))
    }

    /** The statics, with the local state `st` of a call in progress. */
    ghost function Abs(st: State): AnsiSeq.Parser
      requires Valid()
      reads Repr
    {
      AnsiSeq.Parser(st, Sequence(cls, cmd, strarg[..arglen], ext, argv[..argc]), parmv, gotparm)
    }

    /** Static storage starts zeroed. */
    constructor ()
      ensures Valid() && fresh(Repr) && Abs(SSta) == AnsiSeq.FRESH
    {
      strarg := new byte[OSC_STR_SZ](_ => 0);
      argv := new int[MAX_PARAMS](_ => 0);
      cls, cmd, ext, argc, parmv, gotparm, arglen := 0, 0, false, 0, 0, false, 0;
    }

    method ActBegin()
      requires Valid()
      modifies Repr
      ensures Valid()
      ensures forall st :: Abs(st) == AnsiSeq.Parser(st, PROTO, 0, false)
    {
      forall i | 0 <= i < OSC_STR_SZ {
        strarg[i] := NUL;
      }
      forall i | 0 <= i < MAX_PARAMS {
        argv[i] := 0;
      }
      cls, cmd, ext, argc, arglen := 0, 0, false, 0, 0;
      gotparm := false;
      parmv := 0;
    }

    method ActStor(c: int)
      requires Valid() && ((c == SEMI || gotparm) ==> argc < MAX_PARAMS)
      modifies this, argv
      ensures Valid()
      ensures forall st :: Abs(st) == AnsiSeq.ActStor(c, old(Abs(st)))
    {
      if c == SEMI {
        argv[argc] := if gotparm then parmv else ABSENT;
        argc := argc + 1;
      } else if gotparm {
        argv[argc] := parmv;
        argc := argc + 1;
      }
      parmv := 0;
      gotparm := false;
    }

    method ActMkCtl(c: byte)
      requires Valid() && (gotparm ==> argc < MAX_PARAMS)
      modifies this, argv
      ensures Valid()
      ensures forall st :: Abs(st) == AnsiSeq.ActMkCtl(c, old(Abs(st)))
    {
      if gotparm {
        ActStor(0);
      }
      cmd := c;
    }

    method ActMkStr(c: byte)
      requires Valid()
      modifies this, strarg
      ensures Valid()
      ensures forall st :: Abs(st) == AnsiSeq.ActMkStr(c, old(Abs(st)))
    {
      var len := 0;
      while strarg[len] != NUL
        invariant len <= arglen
        decreases arglen - len
      {
        len := len + 1;
      }
      if len + 1 >= OSC_STR_SZ {
        return;
      }
      strarg[len] := c;
      if c != NUL {
        arglen := len + 1;
      }
    }

    /** The action of a table cell. */
    method Act(a: Action, c: byte, ghost st: State)
      requires Valid() && st != SFin && st != SErr
      requires a == Delta(st, MkTok(c)).1 && StepInBounds(Abs(st), c)
      modifies Repr
      ensures Valid()
      ensures forall s :: Abs(s) == AnsiSeq.Act(a, c, old(Abs(s)))
    {
      match a
      case ANop =>
      case ABegin => ActBegin();
      case AStor => SemicolonStores(st, c); ActStor(c);
      case AMkCtl => ActMkCtl(c);
      case AMkPar => parmv := parmv * 10 + (c - ZERO); gotparm := true;
      case AMkStr => ActMkStr(c);
      case ASetCls => cls := c;
      case AExt => ext := true;
    }

    /** `ansiseq_eatone`: from the start state, whatever the statics hold. */
    method EatOne(data: bytes) returns (r: Code)
      requires Valid() && EatInBounds(Abs(SSta), data)
      modifies Repr
      ensures Valid()
      ensures match Eat(old(Abs(SSta)), data)
              case More(p) => r == NeedMore && Abs(p.st) == p
              case Done(n, p) => r == Ate(n) && Abs(SFin) == p
              case Fatal(_) => r == Aborted
    {
      hide Eat, EatInBounds, StepInBounds, Delta, MkTok, AnsiSeq.Act;
      var i := 0;
      var st := SSta;
      ghost var start := Abs(SSta);
      assert data[0..] == data;
      while i < |data|
        invariant i <= |data| && Valid()
        invariant st != SFin && st != SErr
        invariant EatInBounds(Abs(st), data[i..])
        invariant Eat(start, data) == Shift(i, Eat(Abs(st), data[i..]))
        decreases |data| - i
      {
        var c := data[i];
        EatTurn(start, Abs(st), data, i);
        var (next, action) := Delta(st, MkTok(c));
        ghost var before := Abs(st);
        Act(action, c, st);
        assert Abs(next) == Step(before, c);
        i := i + 1;
        st := next;
        if st == SErr {
          return Aborted;
        }
        if st == SFin {
          return Ate(i);
        }
      }
      EatNothing(Abs(st), data[i..]);
      return NeedMore;
    }
  }

  lemma EatNothing(p: AnsiSeq.Parser, data: bytes)
    requires Live(p) && data == []
    ensures Eat(p, data) == More(p)
  {
  }

  lemma SemicolonStores(st: State, c: byte)
    requires st != SFin && st != SErr && Delta(st, MkTok(c)).1 == AStor
    ensures c == SEMI
  {
  }
}
