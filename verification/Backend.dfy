/** The attached HP back end: the three programs with their statics and the escape recogniser
    that their tokenizer shares. */
module Backend {

  import opened Bytes
  import opened Programs
  import opened Machine
  import EscParser
  import AnsiSeq
  import Fsm

  /** `fsm_new` with the table of a program. */
  method NewEngine(p: Program) returns (e: Engine)
    ensures fresh(e.Repr) && e.Valid() && e.tbl == TableOf(p) && e.Abs() == START
  {
    hide Engine.Valid, Engine.Abs;
    TablesClosed(p);
    e := new Engine(TableOf(p));
  }

  /** The three programs, which share no memory. */
  method NewEngines() returns (i: Engine, e: Engine, c: Engine)
    ensures i.Valid() && e.Valid() && c.Valid()
    ensures fresh(i.Repr + e.Repr + c.Repr) && i.Repr !! e.Repr !! c.Repr
    ensures i.tbl == TableOf(Init) && e.tbl == TableOf(Inchar) && c.tbl == TableOf(Cmdout)
    ensures i.Abs() == e.Abs() == c.Abs() == START
  {
    hide Engine.Valid, Engine.Abs, TableOf;
    i := NewEngine(Init);
    e := NewEngine(Inchar);
    c := NewEngine(Cmdout);
  }

  class HpBackend {
    const parser: EscParser.Parser
    const init: Engine
    const inchar: Engine
    const cmdout: Engine

    ghost var Repr: set<object>

    ghost predicate Separate()
      reads this, Repr
    {
      && this in Repr
      && {parser, init, inchar, cmdout} <= Repr
      && parser.Repr + init.Repr + inchar.Repr + cmdout.Repr <= Repr
      && this !in parser.Repr + init.Repr + inchar.Repr + cmdout.Repr
      && parser.Repr !! init.Repr !! inchar.Repr !! cmdout.Repr
    }

    ghost predicate Valid()
      reads this, Repr
      ensures Valid() ==> this in Repr
    {
      && Separate()
      && parser.Valid() && init.Valid() && inchar.Valid() && cmdout.Valid()
      && init.tbl == TableOf(Init) && inchar.tbl == TableOf(Inchar) && cmdout.tbl == TableOf(Cmdout)
    }

    ghost function MachOf(p: Program): Fsm.Mach
      requires Valid()
      reads this, Repr
      ensures Fsm.Valid(TableOf(p), MachOf(p))
    {
      match p
      case Init => init.Abs()
      case Inchar => inchar.Abs()
      case Cmdout => cmdout.Abs()
    }

    function EngineOf(p: Program): Engine {
      match p
      case Init => init
      case Inchar => inchar
      case Cmdout => cmdout
    }

    constructor ()
      ensures Valid() && fresh(Repr)
      ensures forall p :: MachOf(p) == START
    {
      hide TableOf, Engine.Valid, Engine.Abs, EscParser.Parser.Valid, EscParser.Parser.Abs;
      parser := new EscParser.Parser();
      var i, e, c := NewEngines();
      init, inchar, cmdout := i, e, c;
      new;
      Repr := {this} + parser.Repr + init.Repr + inchar.Repr + cmdout.Repr;
    }

    /** `fsm_feed` on one of the programs. */
    method Feed(p: Program, input: Input, len: nat) returns (r: FeedCode)
      requires Valid()
      requires input.Given? ==> len == |input.data| && AnsiSeq.StreamInBounds(input.data)
      modifies Repr
      ensures Valid() && fresh(Repr - old(Repr))
      ensures forall q :: q != p ==> MachOf(q) == old(MachOf(q))
      ensures Feeds(TableOf(p), old(MachOf(p)), input, len, r, MachOf(p))
    {
      hide TableOf, Feeds, Engine.Valid, Engine.Abs, EscParser.Parser.Valid,
           EscParser.Parser.Abs, AnsiSeq.StreamInBounds;
      var e := EngineOf(p);
      r := e.Feed(parser, input, len);
      Repr := Repr + e.Repr;
    }

    /** `fsm_reset` on one of the programs. */
    method Reset(p: Program)
      requires Valid()
      modifies Repr
      ensures Valid() && fresh(Repr - old(Repr))
      ensures MachOf(p) == START
      ensures forall q :: q != p ==> MachOf(q) == old(MachOf(q))
    {
      TablesClosed(p);
      hide TableOf, Engine.Valid, Engine.Abs, EscParser.Parser.Valid, EscParser.Parser.Abs;
      var e := EngineOf(p);
      e.Reset();
      Repr := Repr + e.Repr;
    }

    method InError(p: Program) returns (b: bool)
      requires Valid()
      ensures b == (MachOf(p).st == Err(p))
    {
      TablesClosed(p);
      hide TableOf, Engine.Valid, Engine.Abs, EscParser.Parser.Valid, EscParser.Parser.Abs;
      var e := EngineOf(p);
      b := e.InError();
    }

    /** What a program recorded, as C strings. */
    method OutString(p: Program) returns (s: bytes)
      requires Valid()
      ensures s == CStr(MachOf(p).out)
    {
      hide Engine.Valid, Engine.Abs, CStr;
      var e := EngineOf(p);
      s := e.OutString();
    }

    method Ps1String(p: Program) returns (s: bytes)
      requires Valid()
      ensures s == CStr(MachOf(p).ps1)
    {
      hide Engine.Valid, Engine.Abs, CStr;
      var e := EngineOf(p);
      s := e.Ps1String();
    }

    /** `fsm_init_anykey` and `fsm_init_report`. */
    method ReadAnyKey() returns (b: bool)
      requires Valid()
      modifies Repr
      ensures Valid() && Repr == old(Repr)
      ensures b == old(MachOf(Init)).anykey
      ensures MachOf(Init) == old(MachOf(Init)).(anykey := false)
      ensures forall q :: q != Init ==> MachOf(q) == old(MachOf(q))
    {
      hide TableOf, Engine.Valid, Engine.Abs, EscParser.Parser.Valid, EscParser.Parser.Abs;
      b := init.ReadAnyKey();
    }

    method ReadReport() returns (b: bool)
      requires Valid()
      modifies Repr
      ensures Valid() && Repr == old(Repr)
      ensures b == old(MachOf(Init)).report
      ensures MachOf(Init) == old(MachOf(Init)).(report := false)
      ensures forall q :: q != Init ==> MachOf(q) == old(MachOf(q))
    {
      hide TableOf, Engine.Valid, Engine.Abs, EscParser.Parser.Valid, EscParser.Parser.Abs;
      b := init.ReadReport();
    }
  }
}
