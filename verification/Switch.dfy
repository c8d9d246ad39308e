/** The switch protocol as src/sc.c runs it: static variables, growing buffers, and the pipe
    to ssh. */
module Switch {

  import opened Bytes
  import opened Buffers
  import opened Programs
  import opened Protocol
  import opened Pipe
  import Machine
  import opened Backend
  import AnsiSeq
  import Fsm

  const READBUFSZ := 4096
  const OUTBUFSZ := 4096
  const PS1BUFSZ := 128
  const WRITEBUFSZ := 4096

  /** What a call does: return, or panic. */
  datatype Ret = Ret(b: bool) | Panic(why: Why)

  /** What a call answered, and where it left the variables unless it panicked. */
  predicate Did(o: Protocol.Op, r: Ret, s: Protocol.Sc) {
    if o.Panicked? then r == Panic(o.why) else r == Ret(o.ret) && s == o.s
  }

  class Conn {
    const back: HpBackend
    const readbuf: Buffer
    const writebuf: Buffer
    const outbuf: Buffer
    const ps1buf: Buffer

    var mode: Mode
    var nodata: bool
    var cur: Program

    ghost var Repr: set<object>

    ghost predicate Separate()
      reads this, Repr
    {
      && {this, back, readbuf, writebuf, outbuf, ps1buf} <= Repr
      && back.Repr + readbuf.Repr() + writebuf.Repr() + outbuf.Repr() + ps1buf.Repr() <= Repr
      && back.Repr !! readbuf.Repr() !! writebuf.Repr() !! outbuf.Repr() !! ps1buf.Repr() !! {this}
    }

    ghost predicate Valid()
      reads this, Repr
      ensures Valid() ==> this in Repr
    {
      && Separate() && back.Valid()
      && readbuf.Valid() && writebuf.Valid() && outbuf.Valid() && ps1buf.Valid()
      && outbuf.Terminated() && ps1buf.Terminated()
    }

    /** The protocol state the variables hold. */
    ghost function Abs(): (s: Protocol.Sc)
      requires Valid()
      reads this, Repr
      ensures s.Valid() && s.mode == mode && s.nodata == nodata && s.cur == cur
    {
      TablesClosed(Init);
      TablesClosed(Inchar);
      TablesClosed(Cmdout);
      Protocol.Sc(mode, nodata, cur, back.MachOf(Init), back.MachOf(Inchar), back.MachOf(Cmdout),
                  readbuf.Contents(), writebuf.Contents(), outbuf.Contents(), ps1buf.Contents())
    }

    constructor (b: HpBackend, rb: Buffer, wb: Buffer, pb: Buffer, ob: Buffer)
      requires b.Valid() && rb.Valid() && wb.Valid() && pb.Valid() && ob.Valid()
      requires pb.Terminated() && ob.Terminated()
      requires b.Repr !! rb.Repr() !! wb.Repr() !! ob.Repr() !! pb.Repr()
      requires forall p :: b.MachOf(p) == START
      requires rb.Contents() == wb.Contents() == pb.Contents() == ob.Contents() == []
      ensures Valid() && Repr == {this} + b.Repr + rb.Repr() + wb.Repr() + ob.Repr() + pb.Repr()
      ensures Abs() == INITIAL
    {
      hide HpBackend.Valid, HpBackend.MachOf, Buffer.Valid, Buffer.Contents, Buffer.Terminated;
      back, readbuf, writebuf, ps1buf, outbuf := b, rb, wb, pb, ob;
      mode, nodata, cur := Busy, false, Init;
      Repr := {this} + b.Repr + rb.Repr() + wb.Repr() + ob.Repr() + pb.Repr();
    }

    /** Make room in the read buffer, doubling it when it is full. */
    method MakeRoom() returns (remain: nat)
      requires Valid()
      modifies Repr
      ensures Valid() && fresh(Repr - old(Repr))
      ensures remain > 0 && readbuf.cnt + remain == readbuf.data.Length
      ensures Abs() == old(Abs())
    {
      hide HpBackend.Valid, HpBackend.MachOf;
      if readbuf.data.Length - readbuf.cnt == 0 {
        readbuf.Grow(readbuf.data.Length * 2);
        Repr := Repr + readbuf.Repr();
      }
      remain := readbuf.data.Length - readbuf.cnt;
    }

    /** `read_more`: make room, read, append. */
    method ReadMore(wire: Wire) returns (r: Read)
      requires Valid() && wire.Valid() && wire !in Repr
      modifies Repr, wire`script
      ensures Valid() && wire.Valid() && fresh(Repr - old(Repr))
      ensures ReadFrom(old(wire.script), wire.script, r)
      ensures Abs() == old(Abs()).(readbuf := old(Abs()).readbuf + if r.Data? then r.d else [])
    {
      hide HpBackend.Valid, HpBackend.MachOf, Stream, Left;
      var remain := MakeRoom();
      r := wire.XRead(remain);
      if r.Data? {
        readbuf.Append(r.d);
      }
    }

    // ---- The busy state ----

    /** `fsm_feed` on the current program. */
    method CallFeed(input: Machine.Input, len: nat) returns (r: Machine.FeedCode)
      requires Valid()
      requires input.Given? ==> len == |input.data| && AnsiSeq.StreamInBounds(input.data)
      modifies Repr
      ensures Valid() && fresh(Repr - old(Repr))
      ensures Machine.Feeds(TableOf(cur), old(Abs()).Mach(), input, len, r, Abs().Mach())
      ensures Abs() == old(Abs()).With(Abs().Mach())
    {
      hide HpBackend.Valid, HpBackend.MachOf, Buffer.Valid, Buffer.Contents, Buffer.Terminated, TableOf, Machine.Feeds,
           AnsiSeq.StreamInBounds, Fsm.Valid;
      r := back.Feed(cur, input, len);
      Repr := Repr + back.Repr;
      assert Separate();
      assert Valid();
    }

    /** Answer the login chat as far as the latches ask for it. */
    method Answer(wire: Wire)
      requires Valid() && wire.Valid() && wire !in Repr
      modifies Repr, wire`sent
      ensures Valid() && wire.Valid() && fresh(Repr - old(Repr))
      ensures Abs() == Answered(old(Abs())) && wire.sent == old(wire.sent) + Answers(old(Abs()))
    {
      hide Conn.Valid, Conn.Separate, Conn.Abs;
      if cur == Init {
        var pressed := TakeAnyKey();
        if pressed {
          wire.XWrite(ANYKEY);
        }
        var wanted := TakeReport();
        if wanted {
          wire.XWrite(REPORT);
        }
      }
    }

    /** `fsm_init_anykey` and `fsm_init_report`. */
    method TakeAnyKey() returns (b: bool)
      requires Valid()
      modifies Repr
      ensures Valid() && Repr == old(Repr)
      ensures b == old(Abs()).init.anykey
      ensures Abs() == old(Abs()).(init := old(Abs()).init.(anykey := false))
    {
      hide HpBackend.Valid, HpBackend.MachOf, Buffer.Valid, Buffer.Contents, Buffer.Terminated;
      b := back.ReadAnyKey();
    }

    method TakeReport() returns (b: bool)
      requires Valid()
      modifies Repr
      ensures Valid() && Repr == old(Repr)
      ensures b == old(Abs()).init.report
      ensures Abs() == old(Abs()).(init := old(Abs()).init.(report := false))
    {
      hide HpBackend.Valid, HpBackend.MachOf, Buffer.Valid, Buffer.Contents, Buffer.Terminated;
      b := back.ReadReport();
    }

    method SetNoData(b: bool)
      requires Valid()
      modifies Repr
      ensures Valid() && Repr == old(Repr)
      ensures Abs() == old(Abs()).(nodata := b)
    {
      hide HpBackend.Valid, HpBackend.MachOf, Buffer.Valid, Buffer.Contents, Buffer.Terminated;
      nodata := b;
    }

    method Unread() returns (d: bytes)
      requires Valid()
      ensures d == Abs().readbuf
    {
      d := readbuf.data[..readbuf.cnt];
    }

    method ShiftRead(n: nat)
      requires Valid() && n <= |Abs().readbuf|
      modifies Repr
      ensures Valid() && Repr == old(Repr)
      ensures Abs() == old(Abs()).(readbuf := old(Abs()).readbuf[n..])
    {
      hide HpBackend.Valid, HpBackend.MachOf;
      readbuf.Shift(n);
    }

    /** The branch of `oper_busy` that has bytes to feed. */
    method FeedBuffer(wire: Wire) returns (r: Ret)
      requires Valid() && wire.Valid() && wire !in Repr
      requires AnsiSeq.StreamInBounds(Abs().readbuf)
      modifies Repr, wire`sent
      ensures Valid() && wire.Valid() && fresh(Repr - old(Repr))
      ensures Did(OperFeed(old(Abs()), old(Abs()).readbuf), r, Abs())
      ensures wire.sent == old(wire.sent) + OperFeed(old(Abs()), old(Abs()).readbuf).sent
    {
      hide Conn.Valid, Conn.Separate, Conn.Abs, TableOf, Fsm.Feed, AnsiSeq.StreamInBounds;
      TablesClosed(cur);
      SetNoData(false);
      var d := Unread();
      Fsm.FeedBounds(TableOf(cur), Abs().Mach(), d);
      var f := CallFeed(Machine.Given(d), |d|);
      if f.Died? {
        return Panic(BadEscape);
      }
      if f.n == 0 {
        return Ret(false);
      }
      Answer(wire);
      ShiftRead(f.n);
      var failed := InError();
      if failed {
        return Panic(FsmError);
      }
      return Ret(true);
    }

    /** `fsm_error` on the current program. */
    method InError() returns (b: bool)
      requires Valid()
      ensures b == (Abs().Mach().st == Err(cur))
    {
      b := back.InError(cur);
    }

    /** `fsm_cmdout_outbuf` and its like: what the current program hands over at READY. */
    method Recorded() returns (out: bytes, ps1: bytes)
      requires Valid()
      ensures out == OutOf(Abs()) && ps1 == Ps1Of(Abs())
    {
      hide HpBackend.Valid, HpBackend.MachOf, Buffer.Valid, Buffer.Contents, Buffer.Terminated, CStr;
      out := [];
      if cur == Cmdout {
        out := back.OutString(Cmdout);
      }
      ps1 := [];
      if cur == Init {
        ps1 := back.Ps1String(Init);
      } else if cur == Cmdout {
        ps1 := back.Ps1String(Cmdout);
      }
    }

    method StoreOut(s: bytes)
      requires Valid()
      modifies Repr
      ensures Valid() && fresh(Repr - old(Repr))
      ensures Abs() == old(Abs()).(outbuf := s)
    {
      hide HpBackend.Valid, HpBackend.MachOf;
      outbuf.Assign(s);
      Repr := Repr + outbuf.Repr();
    }

    method StorePs1(s: bytes)
      requires Valid()
      modifies Repr
      ensures Valid() && fresh(Repr - old(Repr))
      ensures Abs() == old(Abs()).(ps1buf := s)
    {
      hide HpBackend.Valid, HpBackend.MachOf;
      ps1buf.Assign(s);
      Repr := Repr + ps1buf.Repr();
    }

    method SetMode(m: Mode)
      requires Valid()
      modifies Repr
      ensures Valid() && Repr == old(Repr)
      ensures Abs() == old(Abs()).(mode := m)
    {
      hide HpBackend.Valid, HpBackend.MachOf, Buffer.Valid, Buffer.Contents, Buffer.Terminated;
      mode := m;
    }

    /** Whether bytes are queued for the switch, and whether a reply is still stored. */
    method Counts() returns (queued: bool, stored: bool)
      requires Valid()
      ensures queued == (Abs().writebuf != []) && stored == (Abs().outbuf != [])
    {
      queued, stored := writebuf.cnt != 0, outbuf.cnt != 0;
    }

    /** The branch of `oper_busy` that found no data. */
    method EndOfData() returns (r: Ret)
      requires Valid()
      modifies Repr
      ensures Valid() && fresh(Repr - old(Repr))
      ensures Did(OperEnd(old(Abs())), r, Abs())
    {
      hide Conn.Valid, Conn.Separate, Conn.Abs, TableOf, Fsm.Probe, Fsm.Commit, OutOf, Ps1Of, Machine.Feeds;
      ghost var s := Abs();
      var probe := CallFeed(Machine.Null, 0);
      ProbeTells(s, probe, Abs());
      if probe == Machine.Count(1) {
        var committed := CallFeed(Machine.Null, 1);
        CommitMoves(s, committed, Abs());
      } else if !nodata {
        SetNoData(true);
        return Ret(false);
      } else {
        return Panic(NoData);
      }
      var queued, stored := Counts();
      if queued {
        SetMode(Writing);
      } else {
        if stored {
          return Panic(NotEmptied);
        }
        var out, ps1 := Recorded();
        StoreOut(out);
        StorePs1(ps1);
        SetMode(Ready);
      }
      return Ret(true);
    }

    /** `oper_busy`; `rd` is what its read returned. */
    method DoBusy(wire: Wire) returns (r: Ret, ghost rd: Read)
      requires Valid() && wire.Valid() && wire !in Repr
      requires AnsiSeq.StreamInBounds(Abs().readbuf + Stream(wire.script))
      modifies Repr, wire
      ensures Valid() && wire.Valid() && fresh(Repr - old(Repr))
      ensures ReadFrom(old(wire.script), wire.script, rd)
      ensures Did(OperBusy(old(Abs()), rd), r, Abs())
      ensures wire.sent == old(wire.sent) + OperBusy(old(Abs()), rd).sent
    {
      hide Conn.Valid, Conn.Separate, Conn.Abs, TableOf, AnsiSeq.StreamInBounds, OperFeed, OperEnd, Stream, Left,
           Wire.Valid,
           ReadFrom;
      ghost var before := Abs();
      ghost var script, all := wire.script, Abs().readbuf + Stream(wire.script);
      var got := ReadMore(wire);
      rd := got;
      ReadFacts(script, wire.script, rd);
      OperFeedReplaces(before, Abs().readbuf);
      if got.Closed? {
        return Panic(ReadEof), rd;
      }
      var d := Unread();
      assert all[..|d|] == d;
      AnsiSeq.StreamInBoundsPart(all, 0, |d|);
      assert all[0..|d|] == all[..|d|];
      assert rd.Again? ==> Abs().readbuf + [] == Abs().readbuf;
      if d != [] {
        r := FeedBuffer(wire);
      } else {
        r := EndOfData();
        assert wire.sent + [] == wire.sent;
      }
    }

    // ---- The other entry points ----

    /** Take the first byte off the write buffer. */
    method Unqueue() returns (c: byte)
      requires Valid() && Abs().writebuf != []
      modifies Repr
      ensures Valid() && Repr == old(Repr)
      ensures c == old(Abs()).writebuf[0] && Abs() == old(Abs()).(writebuf := old(Abs()).writebuf[1..])
    {
      hide HpBackend.Valid, HpBackend.MachOf;
      c := writebuf.data[0];
      writebuf.Shift(1);
    }

    /** Make a program current and reset it. */
    method Restart(p: Program)
      requires Valid()
      modifies Repr
      ensures Valid() && fresh(Repr - old(Repr))
      ensures Abs() == old(Abs()).(cur := p).With(START)
    {
      hide HpBackend.Valid, HpBackend.MachOf, Buffer.Valid, Buffer.Contents, Buffer.Terminated;
      cur := p;
      back.Reset(cur);
      Repr := Repr + back.Repr;
    }

    /** `oper_writing`. */
    method DoWriting(wire: Wire) returns (r: Ret)
      requires Valid() && wire.Valid() && wire !in Repr
      modifies Repr, wire`sent
      ensures Valid() && wire.Valid() && fresh(Repr - old(Repr))
      ensures Did(OperWriting(old(Abs())), r, Abs())
      ensures wire.sent == old(wire.sent) + OperWriting(old(Abs())).sent
    {
      hide Conn.Valid, Conn.Separate, Conn.Abs;
      var queued, _ := Counts();
      if !queued {
        return Panic(NothingToWrite);
      }
      var c := Unqueue();
      wire.XWrite([c]);
      Restart(if c == NL then Cmdout else Inchar);
      SetMode(Busy);
      return Ret(true);
    }

    /** `sc_write`. */
    method Write(line: bytes) returns (r: Ret)
      requires Valid()
      modifies Repr
      ensures Valid() && fresh(Repr - old(Repr))
      ensures Did(Protocol.Write(old(Abs()), line), r, Abs())
    {
      hide Conn.Valid, Conn.Separate, Conn.Abs;
      if mode != Ready {
        return Panic(WriteNotReady);
      }
      var queued, _ := Counts();
      if queued {
        return Panic(WriteNotEmpty);
      }
      Enqueue(line);
      SetMode(Writing);
      StoreOut([]);
      return Ret(true);
    }

    method Enqueue(line: bytes)
      requires Valid() && Abs().writebuf == []
      modifies Repr
      ensures Valid() && fresh(Repr - old(Repr))
      ensures Abs() == old(Abs()).(writebuf := line)
    {
      hide HpBackend.Valid, HpBackend.MachOf;
      writebuf.Assign(line);
      Repr := Repr + writebuf.Repr();
    }

    /** `sc_hasreply`, `sc_getreply` and `sc_getps1`: the strings the pointers denote. */
    method Replies() returns (has: bool, reply: bytes, ps1: bytes)
      requires Valid()
      ensures reply == CStr(Abs().outbuf) && ps1 == CStr(Abs().ps1buf)
      ensures has == (Abs().outbuf != [])
    {
      hide HpBackend.Valid, HpBackend.MachOf, CStr;
      has := outbuf.cnt != 0;
      var n := outbuf.StrLen();
      reply := outbuf.data[..n];
      assert outbuf.Contents()[..n] == reply;
      n := ps1buf.StrLen();
      ps1 := ps1buf.data[..n];
      assert ps1buf.Contents()[..n] == ps1;
    }

    /** `sc_operate`; `rd` is what its read returned if there was one. */
    method Operate(wire: Wire) returns (r: Ret, ghost rd: Read)
      requires Valid() && wire.Valid() && wire !in Repr
      requires AnsiSeq.StreamInBounds(Abs().readbuf + Stream(wire.script))
      modifies Repr, wire
      ensures Valid() && wire.Valid() && fresh(Repr - old(Repr))
      ensures if old(mode) == Busy then ReadFrom(old(wire.script), wire.script, rd)
              else rd == Again && wire.script == old(wire.script)
      ensures Did(Protocol.Operate(old(Abs()), rd), r, Abs())
      ensures wire.sent == old(wire.sent) + Protocol.Operate(old(Abs()), rd).sent
    {
      hide Conn.Valid, Conn.Separate, Conn.Abs, OperBusy, OperWriting, AnsiSeq.StreamInBounds, ReadFrom, Wire.Valid;
      rd := Again;
      match mode
      case Writing => r := DoWriting(wire);
      case Busy => r, rd := DoBusy(wire);
      case Ready => r := Panic(OperateReady);
    }
  }

  /** What the calls of `fsm_feed` without data do to the protocol state. */
  lemma ProbeTells(s: Protocol.Sc, r: Machine.FeedCode, after: Protocol.Sc)
    requires Machine.Feeds(TableOf(s.cur), s.Mach(), Machine.Null, 0, r, after.Mach()) && after == s.With(after.Mach())
    ensures after == s && Fsm.Valid(TableOf(s.cur), s.Mach())
    ensures r == Machine.Count(1) <==> Fsm.Probe(TableOf(s.cur), s.Mach())
  {
  }

  lemma CommitMoves(s: Protocol.Sc, r: Machine.FeedCode, after: Protocol.Sc)
    requires Machine.Feeds(TableOf(s.cur), s.Mach(), Machine.Null, 1, r, after.Mach()) && after == s.With(after.Mach())
    ensures Fsm.Valid(TableOf(s.cur), s.Mach())
    ensures after == s.With(Fsm.Commit(TableOf(s.cur), s.Mach()))
  {
  }

  /** Four separate empty buffers. */
  method NewBuffers() returns (a: Buffer, b: Buffer, c: Buffer, d: Buffer)
    ensures a.Valid() && b.Valid() && c.Valid() && d.Valid() && c.Terminated() && d.Terminated()
    ensures a.Contents() == b.Contents() == c.Contents() == d.Contents() == []
    ensures fresh(a.Repr() + b.Repr() + c.Repr() + d.Repr())
    ensures a.Repr() !! b.Repr() !! c.Repr() !! d.Repr()
  {
    hide Buffer.Valid, Buffer.Contents, Buffer.Terminated;
    a := new Buffer(READBUFSZ);
    b := new Buffer(WRITEBUFSZ);
    c := new Buffer(PS1BUFSZ);
    d := new Buffer(OUTBUFSZ);
  }

  /** `sc_init`. */
  method ScInit() returns (s: Conn)
    ensures fresh(s.Repr) && s.Valid() && s.Abs() == INITIAL
  {
    hide HpBackend.Valid, HpBackend.MachOf, Buffer.Valid, Buffer.Contents, Buffer.Terminated, Conn.Valid, Conn.Abs;
    var readbuf, writebuf, ps1buf, outbuf := NewBuffers();
    var back := new HpBackend();
    s := new Conn(back, readbuf, writebuf, ps1buf, outbuf);
  }
}
