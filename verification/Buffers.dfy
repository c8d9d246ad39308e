/** Growing byte buffers: a pointer, a size and a count, with the helpers of
    src/common/common.c. */
module Buffers {

  import opened Bytes

  /** The size `growbuf` arrives at. */
  function Doubled(size: nat, minsz: nat): (r: nat)
    requires size > 0
    ensures r >= size && r >= minsz
    ensures size < minsz ==> r < 2 * minsz
    decreases minsz - size
  {
    if size < minsz then Doubled(size * 2, minsz) else size
  }

  class Buffer {
    var data: array<byte>
    var cnt: nat

    ghost function Repr(): set<object>
      reads this
    {
      {this, data}
    }

    ghost predicate Valid()
      reads this, data
    {
      cnt <= data.Length && data.Length > 0
    }

    /** The bytes the count covers. */
    ghost function Contents(): bytes
      requires Valid()
      reads this, data
    {
      data[..cnt]
    }

    /** The buffer is also a C string: a NUL follows its contents. */
    ghost predicate Terminated()
      reads this, data
    {
      Valid() && cnt < data.Length && data[cnt] == NUL
    }

    constructor (size: nat)
      requires size > 0
      ensures Valid() && Terminated() && Contents() == [] && data.Length == size && fresh(data)
    {
      data := new byte[size];
      cnt := 0;
      new;
      data[0] := NUL;
    }

    /** `shiftbuf`: drop the first `n` bytes by moving the rest down in place. */
    method Shift(n: nat)
      requires Valid() && n <= cnt
      modifies this`cnt, data
      ensures Valid() && data == old(data)
      ensures Contents() == old(Contents())[n..]
    {
      if n == 0 {
        return;
      }
      cnt := cnt - n;
      forall i | 0 <= i < cnt {
        data[i] := data[i + n];
      }
    }

    /** `growbuf`: double the size until it is at least `minsz`, keeping the contents. */
    method Grow(minsz: nat)
      requires Valid()
      modifies this`data
      ensures Valid() && cnt == old(cnt)
      ensures data == old(data) || fresh(data)
      ensures data.Length == Doubled(old(data.Length), minsz)
      ensures Contents() == old(Contents())
    {
      if minsz < data.Length {
        return;
      }
      var nsz := data.Length;
      while nsz < minsz
        invariant data.Length <= nsz
        invariant Doubled(nsz, minsz) == Doubled(data.Length, minsz)
        decreases minsz - nsz
      {
        nsz := nsz * 2;
      }
      Move(nsz);
    }

    /** `xrealloc`: the same bytes in a block of another size. */
    method Move(size: nat)
      requires Valid() && size >= data.Length
      modifies this`data
      ensures Valid() && fresh(data) && data.Length == size
      ensures Contents() == old(Contents())
    {
      var wide := new byte[size];
      forall i | 0 <= i < data.Length {
        wide[i] := data[i];
      }
      data := wide;
    }

    /** Copy bytes in at the front and terminate them, growing as `growbuf` does. */
    method Assign(s: bytes)
      requires Valid()
      modifies this, data
      ensures Terminated() && Contents() == s
      ensures data == old(data) || fresh(data)
    {
      Grow(|s| + 1);
      forall i | 0 <= i < |s| {
        data[i] := s[i];
      }
      data[|s|] := NUL;
      cnt := |s|;
    }

    /** Copy bytes in behind the contents, where there is room. */
    method Append(s: bytes)
      requires Valid() && cnt + |s| <= data.Length
      modifies this`cnt, data
      ensures Valid() && data == old(data)
      ensures Contents() == old(Contents()) + s
    {
      forall i | 0 <= i < |s| {
        data[cnt + i] := s[i];
      }
      cnt := cnt + |s|;
    }

    method Clear()
      requires Valid()
      modifies this`cnt, data
      ensures Terminated() && data == old(data) && Contents() == []
    {
      cnt := 0;
      data[0] := NUL;
    }

    /** `strlen` of a terminated buffer stops at the first NUL. */
    method StrLen() returns (len: nat)
      requires Terminated()
      ensures len <= cnt && Contents()[..len] == CStr(Contents())
    {
      len := 0;
      while data[len] != NUL
        invariant len <= cnt && NUL !in data[..len]
        decreases cnt - len
      {
        len := len + 1;
      }
      CStrIs(Contents(), len);
    }
  }

  /** The C string of a byte string is its longest prefix without NUL. */
  lemma {:induction false} CStrIs(s: bytes, len: nat)
    requires len <= |s| && NUL !in s[..len] && (len < |s| ==> s[len] == NUL)
    ensures CStr(s) == s[..len]
  {
    if len > 0 {
      assert s[0] in s[..len];
      assert s[1..][..len - 1] == s[..len][1..];
      CStrIs(s[1..], len - 1);
    }
  }
}
