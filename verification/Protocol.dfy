/** The switch protocol (src/sc.c) on values: one call of each entry point as a function of
    the static variables, with the panics as explicit outcomes. */
module Protocol {

  import opened Bytes
  import Fsm
  import opened Programs

  datatype Mode = Busy | Ready | Writing

  /** What `xread` on the non-blocking pipe returns. */
  datatype Read = Again | Data(d: bytes) | Closed

  datatype Why =
    | ReadEof           // read: EOF
    | BadEscape         // error state reached in the escape recogniser
    | FsmError          // fsm in error state
    | NoData            // meh
    | NotEmptied        // why isn't the outbuf empty here
    | NothingToWrite    // line from user didn't end in newline
    | OperateReady      // cannot operate while ready
    | WriteNotReady     // attempt to write outside READY state
    | WriteNotEmpty     // write buffer not empty

  /** The static variables of sc.c and of the three programs.  Buffers are the bytes their
      counts cover. */
  datatype Sc = Sc(mode: Mode, nodata: bool, cur: Program, init: Fsm.Mach, inchar: Fsm.Mach, cmdout: Fsm.Mach,
                   readbuf: bytes, writebuf: bytes, outbuf: bytes, ps1buf: bytes)
  {
    function Mach(): Fsm.Mach {
      match cur
      case Init => init
      case Inchar => inchar
      case Cmdout => cmdout
    }

    function With(m: Fsm.Mach): Sc {
      match cur
      case Init => this.(init := m)
      case Inchar => this.(inchar := m)
      case Cmdout => this.(cmdout := m)
    }

    predicate Valid() {
      init.st < States(Init) && inchar.st < States(Inchar) && cmdout.st < States(Cmdout)
    }
  }

  /** A call either panics or returns; `ret` is the return value and `sent` the bytes it has
      written to the switch by then.  `eaten` and `ended` are what the call consumed: bytes
      of the read buffer, or the end of data. */
  datatype Op = Panicked(why: Why, sent: bytes) | Returned(s: Sc, ret: bool, sent: bytes, eaten: bytes, ended: bool)

  predicate PanicsWith(r: Op, why: Why) {
    r.Panicked? && r.why == why
  }

  /** The answer to "press any key", and the terminal size report. */
  const ANYKEY: bytes := [120]
  const REPORT: bytes := [27, 91, 57, 57, 57, 57, 59, 49, 51, 48, 82]

  /** After `sc_init`. */
  const INITIAL := Sc(Busy, false, Init, START, START, START, [], [], [], [])

  /** The replies to the login chat that the latches ask for; reading a latch clears it. */
  function Answers(s: Sc): bytes {
    if s.cur == Init then
      (if s.init.anykey then ANYKEY else []) + (if s.init.report then REPORT else [])
    else []
  }

  function Answered(s: Sc): Sc {
    if s.cur == Init then s.(init := s.init.(anykey := false, report := false)) else s
  }

  /** The branch of `oper_busy` that has bytes to feed. */
  function OperFeed(s: Sc, buf: bytes): (r: Op)
    requires s.Valid()
    ensures r.Returned? ==> r.s.Valid()
  {
    var t := TableOf(s.cur);
    match Fsm.Feed(t, s.Mach(), buf)
    case Panicked => Panicked(BadEscape, [])
    case Fed(m, n) =>
      var s1 := s.With(m).(nodata := false, readbuf := buf);
      if n == 0 then Returned(s1, false, [], [], false)
      else if m.st == t.errst then Panicked(FsmError, Answers(s1))
      else Returned(Answered(s1).(readbuf := buf[n..]), true, Answers(s1), buf[..n], false)
  }

  /** The buffer that is fed replaces the one stored. */
  lemma OperFeedReplaces(s: Sc, buf: bytes)
    requires s.Valid()
    ensures OperFeed(s.(readbuf := buf), buf) == OperFeed(s, buf)
  {
  }

  /** What the current program hands over at READY, as C strings. */
  function OutOf(s: Sc): bytes {
    if s.cur == Cmdout then CStr(s.cmdout.out) else []
  }

  function Ps1Of(s: Sc): bytes {
    match s.cur
    case Init => CStr(s.init.ps1)
    case Cmdout => CStr(s.cmdout.ps1)
    case Inchar => []
  }

  /** The branch of `oper_busy` that found no data. */
  function OperEnd(s: Sc): (r: Op)
    requires s.Valid()
    ensures r.sent == []
    ensures r.Returned? ==> r.s.Valid() && r.eaten == []
  {
    var t := TableOf(s.cur);
    if Fsm.Probe(t, s.Mach()) then
      var s1 := s.With(Fsm.Commit(t, s.Mach()));
      if s.writebuf != [] then Returned(s1.(mode := Writing), true, [], [], true)
      else if s.outbuf != [] then Panicked(NotEmptied, [])
      else Returned(s1.(mode := Ready, outbuf := OutOf(s1), ps1buf := Ps1Of(s1)), true, [], [], true)
    else if !s.nodata then Returned(s.(nodata := true), false, [], [], false)
    else Panicked(NoData, [])
  }

  function OperBusy(s: Sc, rd: Read): (r: Op)
    requires s.Valid()
    ensures r.Returned? ==> r.s.Valid()
  {
    match rd
    case Closed => Panicked(ReadEof, [])
    case Data(d) => if s.readbuf + d != [] then OperFeed(s, s.readbuf + d) else OperEnd(s)
    case Again => if s.readbuf != [] then OperFeed(s, s.readbuf) else OperEnd(s)
  }

  function OperWriting(s: Sc): Op {
    if s.writebuf == [] then Panicked(NothingToWrite, [])
    else
      var c := s.writebuf[0];
      var s1 := s.(writebuf := s.writebuf[1..], cur := if c == NL then Cmdout else Inchar);
      Returned(s1.With(START).(mode := Busy), true, [c], [], false)
  }

  /** `sc_operate`; `rd` is what the read returns if there is one. */
  function Operate(s: Sc, rd: Read): (r: Op)
    requires s.Valid()
    ensures r.Returned? ==> r.s.Valid()
  {
    match s.mode
    case Writing => OperWriting(s)
    case Busy => OperBusy(s, rd)
    case Ready => Panicked(OperateReady, [])
  }

  function Write(s: Sc, line: bytes): Op {
    if s.mode != Ready then Panicked(WriteNotReady, [])
    else if s.writebuf != [] then Panicked(WriteNotEmpty, [])
    else Returned(s.(writebuf := line, mode := Writing, outbuf := []), true, [], [], false)
  }

  /** `sc_hasreply`, `sc_getreply` and `sc_getps1` as `core_run` passes them on. */
  function Shown(s: Sc): bytes {
    CStr(s.outbuf) + CStr(s.ps1buf)
  }
}
