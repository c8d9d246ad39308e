/** The interactive front end (src/front/ia/uc_ia.c): a fixed buffer that standard input is
    read into and complete lines are taken out of. */
module Ui {

  import opened Bytes
  import Buffers

  const READBUFSZ := 4095

  /** What reading the terminal gives: some bytes, or the end of input. */
  datatype Key = Typed(d: bytes) | EndOfInput

  /** What is typed before the input ends. */
  function KeyStream(keys: seq<Key>): bytes {
    if keys == [] || keys[0].EndOfInput? then [] else keys[0].d + KeyStream(keys[1..])
  }

  /** The end of the input and what is behind it; nothing if the input does not end. */
  function KeyEnd(keys: seq<Key>): seq<Key> {
    if keys == [] || keys[0].EndOfInput? then keys else KeyEnd(keys[1..])
  }

  /** `d` has been read: it is taken off the front of what is typed, and where the input ends,
      and whether it does, stays. */
  predicate KeysRead(before: seq<Key>, d: bytes, after: seq<Key>) {
    KeyStream(before) == d + KeyStream(after) && KeyEnd(after) == KeyEnd(before)
  }

  /** The terminal: input by script, output kept. */
  class Tty {
    var keys: seq<Key>
    var shown: bytes

    ghost predicate Valid()
      reads this
    {
      forall i :: 0 <= i < |keys| && keys[i].Typed? ==> keys[i].d != []
    }

    constructor (k: seq<Key>)
      requires forall i :: 0 <= i < |k| && k[i].Typed? ==> k[i].d != []
      ensures Valid() && keys == k && shown == []
    {
      keys, shown := k, [];
    }

    /** `xread` of at most `max` bytes from an input that has something to say; asking for
        nothing reads as the end of input. */
    method XRead(max: nat) returns (r: Key)
      requires Valid() && keys != []
      modifies this`keys
      ensures Valid()
      ensures r.Typed? ==> 0 < |r.d| <= max && KeysRead(old(keys), r.d, keys)
      ensures r.EndOfInput? <==> max == 0 || old(keys)[0].EndOfInput?
      ensures r.EndOfInput? ==> keys == old(keys)
    {
      r := keys[0];
      if max == 0 || r.EndOfInput? {
        return EndOfInput;
      }
      if |r.d| > max {
        var rest := r.d[max..];
        r := Typed(r.d[..max]);
        keys := [Typed(rest)] + keys[1..];
        assert r.d + rest == old(keys)[0].d && keys[1..] == old(keys)[1..];
        Associative(r.d, rest, KeyStream(keys[1..]));
      } else {
        keys := keys[1..];
      }
    }

    /** `uc_ia_putdata`. */
    method PutData(s: bytes)
      requires Valid()
      modifies this`shown
      ensures Valid() && shown == old(shown) + s
    {
      shown := shown + s;
    }
  }

  /** Where the first newline of a string stands, if it has one. */
  predicate FirstNewline(s: bytes, p: nat) {
    p < |s| && s[p] == NL && NL !in s[..p]
  }

  /** The answer of `uc_ia_hasdata`: yes, no, wait for ever, or the panic at end of input. */
  datatype HasData = Yes | No | Waits | Gone

  class LineBuffer {
    const readbuf: array<byte>
    var cnt: nat

    /** All bytes read, and all lines handed out. */
    ghost var typed: bytes
    ghost var delivered: seq<bytes>

    ghost const Repr: set<object> := {this, readbuf}

    /** Nothing is lost or reordered: the lines handed out and the buffer together are the
        bytes read; every line handed out has exactly one newline, and it is last. */
    ghost predicate Valid()
      reads Repr
    {
      && readbuf.Length == READBUFSZ + 1 && cnt <= READBUFSZ && readbuf[cnt] == NUL
      && Flatten(delivered) + readbuf[..cnt] == typed
      && forall i :: 0 <= i < |delivered| ==> UserLine(delivered[i]) && NUL !in delivered[i]
    }

    ghost function Buffered(): bytes
      requires Valid()
      reads Repr
    {
      readbuf[..cnt]
    }

    constructor ()
      ensures Valid() && fresh(Repr) && Buffered() == typed == [] && delivered == []
    {
      readbuf := new byte[READBUFSZ + 1](_ => 0);
      cnt, typed, delivered := 0, [], [];
    }

    /** `strchr(s_readbuf, '\n')`. */
    method FindNewline() returns (found: bool, p: nat)
      requires Valid()
      ensures found ==> FirstNewline(CStr(Buffered()), p) && p < cnt
      ensures !found ==> NL !in CStr(Buffered())
    {
      p := 0;
      while readbuf[p] != NUL && readbuf[p] != NL
        invariant p <= cnt && NUL !in readbuf[..p] && NL !in readbuf[..p]
        decreases cnt - p
      {
        p := p + 1;
      }
      found := readbuf[p] == NL;
      ghost var len := p;
      while len < cnt && readbuf[len] != NUL
        invariant p <= len <= cnt && NUL !in readbuf[..len]
      {
        len := len + 1;
      }
      Buffers.CStrIs(Buffered(), len);
      assert Buffered()[..len] == readbuf[..len];
      assert found ==> readbuf[..len][..p] == readbuf[..p];
    }

    /** `read_more`; false is the panic. */
    method ReadMore(tty: Tty) returns (ok: bool)
      requires Valid() && tty.Valid() && tty.keys != [] && tty !in Repr
      modifies this, readbuf, tty`keys
      ensures Valid() && tty.Valid() && delivered == old(delivered)
      ensures ok <==> old(cnt) < 4095 && old(tty.keys)[0].Typed?
      ensures ok ==> cnt > old(cnt)
      ensures !ok ==> Buffered() == old(Buffered()) && tty.keys == old(tty.keys)
      ensures typed + KeyStream(tty.keys) == old(typed) + KeyStream(old(tty.keys))
      ensures KeyEnd(tty.keys) == KeyEnd(old(tty.keys))
      ensures cnt + |KeyStream(tty.keys)| == old(cnt) + |KeyStream(old(tty.keys))|
    {
      hide UserLine, Flatten, KeyStream, KeyEnd;
      var r := tty.XRead(READBUFSZ - cnt);
      if r.EndOfInput? {
        return false;
      }
      TakeIn(r.d);
      return true;
    }

    /** Append what was read, and the new terminator. */
    method TakeIn(d: bytes)
      requires Valid() && cnt + |d| <= READBUFSZ
      modifies this, readbuf
      ensures Valid() && delivered == old(delivered) && cnt == old(cnt) + |d|
      ensures Buffered() == old(Buffered()) + d && typed == old(typed) + d
    {
      hide UserLine, Flatten;
      forall i | 0 <= i < |d| {
        readbuf[cnt + i] := d[i];
      }
      assert readbuf[..cnt + |d|] == old(readbuf[..cnt]) + d;
      cnt := cnt + |d|;
      readbuf[cnt] := NUL;
      typed := typed + d;
    }

    /** `uc_ia_hasdata`: is there a whole line, reading more while there is input. */
    method HasLine(tty: Tty, block: bool) returns (r: HasData)
      requires Valid() && tty.Valid() && tty !in Repr
      modifies this, readbuf, tty`keys
      ensures Valid() && tty.Valid() && delivered == old(delivered)
      ensures typed + KeyStream(tty.keys) == old(typed) + KeyStream(old(tty.keys))
      ensures KeyEnd(tty.keys) == KeyEnd(old(tty.keys))
      ensures cnt + |KeyStream(tty.keys)| == old(cnt) + |KeyStream(old(tty.keys))|
      ensures r.Yes? <==> NL in CStr(Buffered())
      ensures r.No? ==> !block
      ensures r.No? || r.Waits? ==> tty.keys == []
      ensures r.Gone? ==> tty.keys != [] && (tty.keys[0].EndOfInput? || cnt == 4095)
      ensures r.Gone? && Tame(typed + KeyStream(tty.keys)) ==> tty.keys[0].EndOfInput?
    {
      var found, p := FindNewline();
      if found {
        return Yes;
      }
      while tty.keys != []
        invariant Valid() && tty.Valid() && delivered == old(delivered)
        invariant typed + KeyStream(tty.keys) == old(typed) + KeyStream(old(tty.keys))
        invariant KeyEnd(tty.keys) == KeyEnd(old(tty.keys))
        invariant cnt + |KeyStream(tty.keys)| == old(cnt) + |KeyStream(old(tty.keys))|
        invariant NL !in CStr(Buffered())
        decreases |KeyStream(tty.keys)|
      {
        ghost var full := cnt == READBUFSZ;
        if full && Tame(typed + KeyStream(tty.keys)) {
          NotFull(Flatten(delivered), Buffered(), KeyStream(tty.keys));
        }
        var ok := ReadMore(tty);
        if !ok {
          return Gone;
        }
        found, p := FindNewline();
        if found {
          return Yes;
        }
      }
      return if block then Waits else No;
    }

    /** `uc_ia_getdata`: hand out the first line.  The whole length is returned even when
        the line does not fit, and then what was copied is one byte short of `dest`. */
    method GetLine(dest: array<byte>) returns (len: nat)
      requires Valid() && dest.Length > 0 && dest != readbuf
      modifies this, readbuf, dest
      ensures Valid() && typed == old(typed)
      ensures len == 0 <==> NL !in CStr(old(Buffered()))
      ensures len == 0 ==> Buffered() == old(Buffered()) && delivered == old(delivered) && dest[..] == old(dest[..])
      ensures len > 0 ==>
                && len <= old(cnt) && cnt == old(cnt) - len
                && UserLine(old(Buffered())[..len]) && NUL !in old(Buffered())[..len]
                && delivered == old(delivered) + [old(Buffered())[..len]]
                && Buffered() == old(Buffered())[len..]
                && (len < dest.Length ==> dest[..len] == old(Buffered())[..len])
                && (len >= dest.Length ==> dest[..dest.Length - 1] == old(Buffered())[..dest.Length - 1])
    {
      hide UserLine, CStr, Flatten;
      var found, p := FindNewline();
      if !found {
        return 0;
      }
      len := p + 1;
      var copy := len;
      if copy >= dest.Length {
        copy := dest.Length - 1;
      }
      CutLine(Buffered(), p);
      forall i | 0 <= i < copy {
        dest[i] := readbuf[i];
      }
      TakeOut(len);
    }

    /** `shiftbuf` and the new terminator. */
    method TakeOut(len: nat)
      requires Valid() && 0 < len <= cnt
      requires UserLine(Buffered()[..len]) && NUL !in Buffered()[..len]
      modifies this, readbuf
      ensures Valid() && typed == old(typed) && cnt == old(cnt) - len
      ensures delivered == old(delivered) + [old(Buffered())[..len]]
      ensures Buffered() == old(Buffered())[len..]
    {
      hide UserLine, CStr, Flatten;
      ghost var before, line := Buffered(), Buffered()[..len];
      cnt := cnt - len;
      forall i | 0 <= i < cnt {
        readbuf[i] := readbuf[i + len];
      }
      readbuf[cnt] := NUL;
      assert readbuf[..cnt] == before[len..];
      Regroup(delivered, before, len);
      delivered := delivered + [line];
    }
  }

  /** Handing out the front of the buffer keeps the order of all bytes. */
  lemma Regroup(delivered: seq<bytes>, before: bytes, len: nat)
    requires len <= |before|
    ensures Flatten(delivered + [before[..len]]) + before[len..] == Flatten(delivered) + before
  {
    FlattenSnoc(delivered, before[..len]);
    hide Flatten;
    assert before == before[..len] + before[len..];
  }

  /** The first line of a buffer whose C string has its first newline at `p`. */
  lemma CutLine(s: bytes, p: nat)
    requires FirstNewline(CStr(s), p)
    ensures p < |s| && UserLine(s[..p + 1]) && NUL !in s[..p + 1]
  {
    PrefixLine(CStr(s), s, p);
  }

  lemma PrefixLine(c: bytes, s: bytes, p: nat)
    requires c <= s && NUL !in c && FirstNewline(c, p)
    ensures p < |s| && UserLine(s[..p + 1]) && NUL !in s[..p + 1]
  {
    var line := s[..p + 1];
    assert c[..p + 1] == line && line[..p] == c[..p];
    forall i | 0 <= i < |line| ensures line[i] != NUL {
      assert line[i] == c[i];
    }
  }

  /** Input the front end is made for: no NUL, and no line of 512 bytes or more. */
  predicate Tame(s: bytes) {
    NUL !in s && forall i, j :: 0 <= i <= j <= |s| && NL !in s[i..j] ==> j - i < 511
  }

  /** On such input the buffer is never full without holding a line, and every line fits
      the 512 bytes of its destination. */
  lemma NotFull(front: bytes, s: bytes, behind: bytes)
    requires Tame(front + s + behind) && NL !in CStr(s)
    ensures |s| < 511
  {
    var all := front + s + behind;
    assert all[|front|..|front + s|] == s;
    assert NUL !in s by {
      assert forall i :: 0 <= i < |s| ==> s[i] == all[|front| + i];
    }
    CStrIdentity(s);
  }

  lemma LineFits(front: bytes, line: bytes, behind: bytes)
    requires Tame(front + line + behind) && UserLine(line)
    ensures |line| < 512
  {
    var all, k := front + line + behind, |line| - 1;
    assert all[|front|..|front| + k] == line[..k];
  }
}
