/** The pipe to and from ssh: what `xread`, `xwrite` and `selectfd` (src/common/common.c) do to a
    script of what arrives. */
module Pipe {

  import opened Bytes
  import opened Protocol

  /** The bytes that a script of read results holds. */
  function Stream(script: seq<Read>): bytes {
    if script == [] then [] else (if script[0].Data? then script[0].d else []) + Stream(script[1..])
  }

  /** How much a script still holds. */
  function Left(script: seq<Read>): nat {
    |script| + |Stream(script)|
  }

  /** What a read does to a script: it takes an empty read off it, or some of the bytes that
      have arrived, or it finds the end, which stays.  When nothing is left to come there is
      nothing to read. */
  predicate ReadFrom(before: seq<Read>, after: seq<Read>, r: Read) {
    if before == [] then r == Again && after == []
    else
      match before[0]
      case Again => r == Again && after == before[1..]
      case Closed => r == Closed && after == before
      case Data(d) =>
        r.Data? && r.d != [] && r.d <= d && after == (if r.d == d then [] else [Data(d[|r.d|..])]) + before[1..]
  }

  /** No byte is lost or made up, no read is empty, and every read but a hang-up makes
      progress unless nothing is left to come. */
  lemma ReadFacts(before: seq<Read>, after: seq<Read>, r: Read)
    requires ReadFrom(before, after, r)
    ensures Stream(before) == (if r.Data? then r.d else []) + Stream(after)
    ensures r.Data? ==> r.d != []
    ensures r == Again <==> before == [] || before[0].Again?
    ensures Left(after) <= Left(before)
    ensures before != [] && !r.Closed? ==> Left(after) < Left(before)
  {
    if r.Data? {
      var d := before[0].d;
      if r.d != d {
        assert after[1..] == before[1..];
        assert r.d + d[|r.d|..] == d;
        Associative(r.d, d[|r.d|..], Stream(before[1..]));
      } else {
        assert after == before[1..];
      }
    }
  }

  /** What is left of a script when time has passed until there is something to read. */
  function SkipAgain(script: seq<Read>): (r: seq<Read>)
    ensures r != [] ==> !r[0].Again?
  {
    if script != [] && script[0].Again? then SkipAgain(script[1..]) else script
  }

  /** `rest` is what follows a block of empty reads that is as long as possible. */
  predicate BehindPauses(script: seq<Read>, rest: seq<Read>) {
    exists k ::
      && 0 <= k <= |script| && rest == script[k..]
      && (forall i :: 0 <= i < k ==> script[i] == Again)
      && (k < |script| ==> script[k] != Again)
  }

  lemma OneMorePause(script: seq<Read>, rest: seq<Read>)
    requires script != [] && script[0] == Again && BehindPauses(script[1..], rest)
    ensures BehindPauses(script, rest)
  {
    var tail := script[1..];
    var k :| && 0 <= k <= |tail| && rest == tail[k..]
             && (forall i :: 0 <= i < k ==> tail[i] == Again)
             && (k < |tail| ==> tail[k] != Again);
    assert rest == script[k + 1..];
    forall i | 0 <= i < k + 1 ensures script[i] == Again {
      assert i > 0 ==> script[i] == tail[i - 1];
    }
    assert k + 1 < |script| ==> script[k + 1] == tail[k];
  }

  lemma NoPause(script: seq<Read>)
    requires script != [] ==> script[0] != Again
    ensures BehindPauses(script, script)
  {
    assert script[0..] == script;
  }

  /** Empty reads pass, and nothing else: bytes and a hang-up stay to be read. */
  lemma {:induction false} SkipsPauses(script: seq<Read>)
    ensures BehindPauses(script, SkipAgain(script))
    ensures Closed in SkipAgain(script) <==> Closed in script
    decreases |script|
  {
    hide BehindPauses;
    if script != [] && script[0].Again? {
      SkipsPauses(script[1..]);
      OneMorePause(script, SkipAgain(script[1..]));
    } else {
      NoPause(script);
    }
  }

  /** Only one string of reads can be left. */
  lemma BehindPausesOnly(script: seq<Read>, a: seq<Read>, b: seq<Read>)
    requires BehindPauses(script, a) && BehindPauses(script, b)
    ensures a == b
  {
  }

  lemma ReadKeepsHangUp(before: seq<Read>, after: seq<Read>, r: Read)
    requires ReadFrom(before, after, r)
    ensures Closed in after <==> Closed in before
  {
  }

  lemma {:induction false} SkipFacts(script: seq<Read>)
    ensures Stream(SkipAgain(script)) == Stream(script)
    ensures Left(SkipAgain(script)) <= Left(script)
    ensures script == [] ==> SkipAgain(script) == []
    decreases |script|
  {
    if script != [] && script[0].Again? {
      SkipFacts(script[1..]);
    }
  }

  /** The pipe.  What arrives on it, and when nothing does, is given by a script; what is
      written to it is kept. */
  class Wire {
    var script: seq<Read>
    var sent: bytes

    ghost predicate Valid()
      reads this
    {
      forall i :: 0 <= i < |script| && script[i].Data? ==> script[i].d != []
    }

    constructor (s: seq<Read>)
      requires forall i :: 0 <= i < |s| && s[i].Data? ==> s[i].d != []
      ensures Valid() && script == s && sent == []
    {
      script, sent := s, [];
    }

    /** `xread` of at most `max` bytes. */
    method XRead(max: nat) returns (r: Read)
      requires Valid() && max > 0
      modifies this`script
      ensures Valid()
      ensures ReadFrom(old(script), script, r)
      ensures r.Data? ==> |r.d| <= max
    {
      if script == [] {
        return Again;
      }
      r := script[0];
      if r.Closed? {
        return;
      }
      if r.Data? && |r.d| > max {
        var rest := r.d[max..];
        r := Data(r.d[..max]);
        script := [Data(rest)] + script[1..];
      } else {
        script := script[1..];
        assert r.Data? ==> [] + script == script;
      }
    }

    /** `selectfd`, blocking: let time pass until there is something to read; false if there
        never will be. */
    method Select() returns (ready: bool)
      requires Valid()
      modifies this`script
      ensures Valid() && BehindPauses(old(script), script) && script == SkipAgain(old(script))
      ensures ready <==> script != []
    {
      SkipsPauses(script);
      while script != [] && script[0].Again?
        invariant Valid() && SkipAgain(script) == SkipAgain(old(script))
        decreases |script|
      {
        script := script[1..];
      }
      return script != [];
    }

    method XWrite(s: bytes)
      requires Valid()
      modifies this`sent
      ensures Valid() && sent == old(sent) + s
    {
      sent := sent + s;
    }
  }
}
