/** The bounded capture of a command's output, and the server's own cut of what was captured. */
module LimitWriter {
  import opened Bytes

  /** What the buffer holds once `p` has been written to it. */
  function Append(limit: nat, buf: bytes, p: bytes): bytes {
    if limit == 0 || |buf| + |p| <= limit then buf + p
    else if limit <= |buf| then buf
    else buf + p[..limit - |buf|]
  }

  /** A write of `n` bytes after `before` bytes is cut in the middle. */
  predicate Straddles(limit: nat, before: nat, n: nat) {
    0 < limit && before < limit < before + n
  }

  class Writer {
    const limit: nat
    var buf: bytes
    ghost var written: bytes

    /** The buffer is the first bytes of everything written, up to the limit. */
    ghost predicate Valid()
      reads this
    {
      buf == Limited(limit, written)
    }

    constructor (limit: nat)
      ensures Valid() && this.limit == limit && written == []
    {
      this.limit := limit;
      buf := [];
      written := [];
    }

    /** The returned count is short exactly on a write that straddles the limit. */
    method Write(p: bytes) returns (n: nat)
      requires Valid()
      modifies this
      ensures Valid() && written == old(written) + p
      ensures buf == Append(limit, old(buf), p)
      ensures n < |p| <==> Straddles(limit, |old(written)|, |p|)
      ensures n <= |p|
    {
      var q := p;
      written := written + p;
      if limit > 0 {
        var remaining := limit - |buf|;
        if remaining <= 0 {
          return |p|;
        }
        if |p| > remaining {
          q := p[..remaining];
        }
      }
      buf := buf + q;
      n := |q|;
    }
  }

  // ----- Any sequence of writes -----

  function Captured(limit: nat, chunks: seq<bytes>): bytes {
    if chunks == [] then [] else Append(limit, Captured(limit, chunks[..|chunks| - 1]), chunks[|chunks| - 1])
  }

  function ShortCounts(limit: nat, chunks: seq<bytes>): nat {
    if chunks == [] then 0
    else
      var n := |chunks| - 1;
      ShortCounts(limit, chunks[..n]) + if Straddles(limit, |Concat(chunks[..n])|, |chunks[n]|) then 1 else 0
  }

  /** After any writes the buffer is the limited concatenation of all of them. */
  lemma {:induction false} CapturedIsLimited(limit: nat, chunks: seq<bytes>)
    ensures Captured(limit, chunks) == Limited(limit, Concat(chunks))
  {
    if chunks != [] {
      CapturedIsLimited(limit, chunks[..|chunks| - 1]);
    }
  }

  /** The limit falls on the boundary of two writes. */
  ghost predicate OnBoundary(limit: nat, chunks: seq<bytes>) {
    exists k :: 0 <= k <= |chunks| && |Concat(chunks[..k])| == limit
  }

  /**
    * At most one write returns a short count, and none does exactly if there is no limit, the output stays
    * within it, or the limit falls on the boundary of two writes.
    */
  lemma {:induction false} ShortCountsExactly(limit: nat, chunks: seq<bytes>)
    ensures ShortCounts(limit, chunks) <= 1
    ensures ShortCounts(limit, chunks) == 0 <==>
              limit == 0 || |Concat(chunks)| <= limit || OnBoundary(limit, chunks)
  {
    if chunks != [] {
      var n := |chunks| - 1;
      ShortCountsExactly(limit, chunks[..n]);
      BoundaryOfPrefix(limit, chunks);
      if OnBoundary(limit, chunks[..n]) {
        var k :| 0 <= k <= n && |Concat(chunks[..n][..k])| == limit;
        PrefixIsShorter(chunks[..n], k);
      }
    }
  }

  lemma {:induction false} PrefixIsShorter(chunks: seq<bytes>, k: nat)
    requires k <= |chunks|
    ensures |Concat(chunks[..k])| <= |Concat(chunks)|
  {
    if k < |chunks| {
      PrefixIsShorter(chunks[..|chunks| - 1], k);
      assert chunks[..|chunks| - 1][..k] == chunks[..k];
    } else {
      assert chunks[..k] == chunks;
    }
  }

  lemma BoundaryOfPrefix(limit: nat, chunks: seq<bytes>)
    requires chunks != []
    ensures OnBoundary(limit, chunks) <==> OnBoundary(limit, chunks[..|chunks| - 1]) || |Concat(chunks)| == limit
  {
    var n := |chunks| - 1;
    forall k | 0 <= k <= n ensures chunks[..n][..k] == chunks[..k] {}
    assert chunks[..|chunks|] == chunks;
    if OnBoundary(limit, chunks[..n]) {
      var k :| 0 <= k <= n && |Concat(chunks[..n][..k])| == limit;
      assert |Concat(chunks[..k])| == limit;
    }
  }

  // ----- The server's truncateOutput -----

  const NOTICE: bytes := [10, 91, 111, 117, 116, 112, 117, 116, 32, 116, 114, 117, 110, 99, 97, 116, 101, 100, 93]

  function TruncateOutput(out: bytes, max: int): bytes {
    if max <= 0 || |out| <= max then out
    else
      var cut := if max - |NOTICE| < 0 then 0 else max - |NOTICE|;
      out[..cut] + NOTICE
  }

  function LimitFor(max: int): nat {
    if max > 0 then max else 0
  }

  /** With both limits set from the same variable, the server's cut changes nothing that was captured. */
  lemma TruncateIsIdentity(max: int, chunks: seq<bytes>)
    ensures TruncateOutput(Captured(LimitFor(max), chunks), max) == Captured(LimitFor(max), chunks)
  {
    CapturedIsLimited(LimitFor(max), chunks);
  }

  /** On other output the cut respects the limit exactly if the limit leaves room for the notice. */
  lemma TruncateBoundExactly(out: bytes, max: int)
    requires 0 < max < |out|
    ensures |TruncateOutput(out, max)| <= max <==> |NOTICE| <= max
    ensures |NOTICE| <= max ==> TruncateOutput(out, max) == out[..max - |NOTICE|] + NOTICE
    ensures max < |NOTICE| ==> TruncateOutput(out, max) == NOTICE
  {
  }
}
