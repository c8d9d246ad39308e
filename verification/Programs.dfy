/** The three programs of the HP back end (src/back/hp): the login chat, the echo of one
    typed character, and the reply to a command line. */
module Programs {

  import opened Fsm

  datatype Program = Init | Inchar | Cmdout

  /** A row of a transition table: the cells for an escape sequence, for another
      character, and for end of data. */
  datatype Row = Row(eseq: Trans, rest: Trans, eof: Trans)

  function States(p: Program): nat {
    match p
    case Init => 11
    case Inchar => 6
    case Cmdout => 8
  }

  /** The accepting state is the last but one, the error state the last. */
  function Fin(p: Program): nat { States(p) - 2 }

  function Err(p: Program): nat { States(p) - 1 }

  function InitRow(sta: nat): Row {
    var err := Trans(10, Nop);
    match sta
    case 0 => Row(err, Trans(1, Nop), err)                  // starting state
    case 1 => Row(Trans(2, Nop), Trans(1, Nop), err)        // license text
    case 2 => Row(Trans(2, Nop), Trans(3, Nop), err)
    case 3 => Row(Trans(4, AnyKey), Trans(3, Nop), err)     // press any key
    case 4 => Row(Trans(4, Nop), Trans(5, Report), err)
    case 5 => Row(Trans(6, Nop), Trans(5, Nop), err)        // last login
    case 6 => Row(Trans(6, Nop), Trans(7, RecPs), err)
    case 7 => Row(Trans(8, Nop), Trans(7, RecPs), err)      // prompt
    case 8 => Row(Trans(8, Nop), err, Trans(9, Nop))
    case _ => Row(err, err, err)
  }

  function IncharRow(sta: nat): Row {
    var err := Trans(5, Nop);
    match sta
    case 0 => Row(Trans(1, Nop), err, err)                  // starting state
    case 1 => Row(err, Trans(2, Nop), err)
    case 2 => Row(Trans(3, Nop), err, err)                  // the echoed character
    case 3 => Row(Trans(3, Nop), err, Trans(4, Nop))
    case _ => Row(err, err, err)
  }

  function CmdoutRow(sta: nat): Row {
    var err := Trans(7, Nop);
    match sta
    case 0 => Row(Trans(1, Nop), err, err)                  // starting state
    case 1 => Row(Trans(1, Nop), Trans(2, Rec), err)
    case 2 => Row(Trans(3, Nop), Trans(2, Rec), err)        // output, question or prompt
    case 3 => Row(Trans(3, Nop), Trans(4, RecPs), Trans(6, NoOut))
    case 4 => Row(Trans(5, Nop), Trans(4, RecPs), err)      // prompt
    case 5 => Row(Trans(5, Nop), err, Trans(6, Nop))
    case _ => Row(err, err, err)
  }

  function RowOf(p: Program, sta: nat): Row {
    match p
    case Init => InitRow(sta)
    case Inchar => IncharRow(sta)
    case Cmdout => CmdoutRow(sta)
  }

  function Column(r: Row, tok: nat): Trans {
    if tok == T_ESEQ then r.eseq else if tok == T_REST then r.rest else r.eof
  }

  /** The table as `fsm_new` gets it: the rows one after the other. */
  function TableOf(p: Program): (t: Table)
    ensures Closed(t) && t.nsta == States(p) && t.errst == Err(p)
  {
    Table(States(p), 3, Err(p), 0, [Fin(p)],
          seq(States(p) * 3, i requires 0 <= i => Column(RowOf(p, i / 3), i % 3)))
  }

  /** A program that has just been reset. */
  const START := Mach(0, [], [], false, false)

  lemma TablesClosed(p: Program)
    ensures Closed(TableOf(p)) && Valid(TableOf(p), START)
    ensures !IsAccepting(TableOf(p), TableOf(p).errst)
    ensures TableOf(p).nsta == States(p) && TableOf(p).errst == Err(p) && TableOf(p).inist == START.st
  {
  }

  lemma CellsAreRows(p: Program, sta: nat, tok: nat)
    requires sta < States(p) && tok < 3
    ensures Closed(TableOf(p))
    ensures Cell(TableOf(p), sta, tok) == Column(RowOf(p, sta), tok)
  {
    TablesClosed(p);
    IndInverts(TableOf(p), sta, tok);
  }

  lemma ErrorAbsorbs(p: Program)
    ensures Closed(TableOf(p)) && Absorbing(TableOf(p))
  {
    TablesClosed(p);
    forall tok | 0 <= tok < 3
      ensures Cell(TableOf(p), Err(p), tok).state == Err(p)
    {
      CellsAreRows(p, Err(p), tok);
    }
  }
}
