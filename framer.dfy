/**
  The framer of the chat screen: an encrypted message is cut into consecutive
  pieces, each small enough for one QR code, and the pieces a receiver scans
  are glued back together in scan order. Frames carry no index and no total,
  so order and completeness rest entirely on the order of scanning.
 */
module Framer {

  /** Largest number of characters put into one QR code. */
  const MaxQrChunk: nat := 1000

  function Min(a: int, b: int): int { if a <= b then a else b }

  function Max(a: int, b: int): int { if a <= b then b else a }

  /**
    JavaScript's `String.prototype.substring`: both bounds are clamped to
    `[0, |s|]` and swapped when the start lies after the end.
   */
  function Substring(s: string, start: int, end: int): (r: string)
    ensures |r| <= |s|
    ensures 0 <= start <= end <= |s| ==> r == s[start..end]
    ensures 0 <= start <= |s| <= end ==> r == s[start..]
    ensures 0 <= end <= start <= |s| ==> r == s[end..start]
  {
    var a := Min(Max(start, 0), |s|);
    var b := Min(Max(end, 0), |s|);
    if a <= b then s[a..b] else s[b..a]
  }

  /**
    The frames of `s` for a frame limit `n`: a first frame of `n` characters
    (or all of `s` when shorter), followed by the frames of the rest.
   */
  function Chunks(s: string, n: nat): seq<string>
    requires n > 0
    decreases |s|
  {
    if |s| == 0 then [] else [s[..Min(n, |s|)]] + Chunks(s[Min(n, |s|)..], n)
  }

  /** `Array.prototype.join("")`: the frames concatenated in the order given. */
  function ReassembleMessage(chunks: seq<string>): string
  {
    if chunks == [] then "" else chunks[0] + ReassembleMessage(chunks[1..])
  }

  /** Number of frames `splitMessage` produces: the length divided by the limit, rounded up. */
  function CeilDiv(a: nat, n: nat): nat
    requires n > 0
  {
    (a + n - 1) / n
  }

  /** Frame `k` of `s`: the characters from `k * n` up to `k * n + n`, cut at the end of `s`. */
  function FrameAt(s: string, n: nat, k: nat): string
    requires k * n <= |s|
  {
    s[k * n .. Min(k * n + n, |s|)]
  }

  lemma {:induction false} ReassembleAppend(a: seq<string>, b: seq<string>)
    ensures ReassembleMessage(a + b) == ReassembleMessage(a) + ReassembleMessage(b)
    decreases |a|
  {
    if a == [] {
      assert a + b == b;
    } else {
      assert (a + b)[1..] == a[1..] + b;
      ReassembleAppend(a[1..], b);
    }
  }

  /** Joining the frames of `s` gives back `s`, character for character. */
  lemma {:induction false} ChunksRoundTrip(s: string, n: nat)
    requires n > 0
    ensures ReassembleMessage(Chunks(s, n)) == s
    decreases |s|
  {
    if |s| > 0 {
      var m := Min(n, |s|);
      ChunksRoundTrip(s[m..], n);
      assert s[..m] + s[m..] == s;
    }
  }

  /** Every frame is non-empty and holds at most `n` characters. */
  lemma {:induction false} ChunksBounded(s: string, n: nat)
    requires n > 0
    ensures forall k :: 0 <= k < |Chunks(s, n)| ==> 0 < |Chunks(s, n)[k]| <= n
    decreases |s|
  {
    if |s| > 0 {
      var m := Min(n, |s|);
      ChunksBounded(s[m..], n);
      var cs := Chunks(s, n);
      assert cs == [s[..m]] + Chunks(s[m..], n);
      forall k | 0 <= k < |cs| ensures 0 < |cs[k]| <= n {
        if k > 0 {
          assert cs[k] == Chunks(s[m..], n)[k - 1];
        }
      }
    }
  }

  lemma MulAtLeast(d: int, n: int)
    requires d >= 1 && n > 0
    ensures d * n >= n
  {
  }

  /** Division is determined by quotient and remainder. */
  lemma DivUnique(x: int, n: int, q: int, r: int)
    requires n > 0 && 0 <= r < n && x == q * n + r
    ensures x / n == q
  {
    var q', r' := x / n, x % n;
    assert x == q' * n + r';
    if q' < q {
      assert q * n == q' * n + (q - q') * n;
      MulAtLeast(q - q', n);
    } else if q < q' {
      assert q' * n == q * n + (q' - q) * n;
      MulAtLeast(q' - q, n);
    }
  }

  /** There are `ceil(|s| / n)` frames; the empty message has none. */
  lemma {:induction false} ChunksCount(s: string, n: nat)
    requires n > 0
    ensures |Chunks(s, n)| == CeilDiv(|s|, n)
    ensures s == [] <==> Chunks(s, n) == []
    decreases |s|
  {
    if |s| == 0 {
      DivUnique(n - 1, n, 0, n - 1);
    } else if |s| <= n {
      assert Chunks(s[|s|..], n) == [];
      DivUnique(|s| + n - 1, n, 1, |s| - 1);
    } else {
      ChunksCount(s[n..], n);
      assert Min(n, |s|) == n;
      var x := |s| - 1;
      var q, r := x / n, x % n;
      assert x + n == (q + 1) * n + r;
      DivUnique(x + n, n, q + 1, r);
    }
  }

  /**
    Frame `k` is exactly `s[k*n .. min(k*n + n, |s|)]`, and every frame but
    the last holds exactly `n` characters.
   */
  lemma {:induction false} ChunksAt(s: string, n: nat, k: nat)
    requires n > 0
    requires k < |Chunks(s, n)|
    ensures k * n < |s|
    ensures Chunks(s, n)[k] == FrameAt(s, n, k)
    ensures k < |Chunks(s, n)| - 1 ==> |Chunks(s, n)[k]| == n
    decreases |s|
  {
    var m := Min(n, |s|);
    var rest := Chunks(s[m..], n);
    assert Chunks(s, n) == [s[..m]] + rest;
    if k == 0 {
      if 0 < |rest| {
        assert |s| > n by { assert |s[m..]| > 0; }
      }
    } else {
      ChunksAt(s[m..], n, k - 1);
      assert m == n by { assert |s[m..]| > 0; }
      assert (k - 1) * n + n == k * n;
      assert s[m..][(k - 1) * n .. Min((k - 1) * n + n, |s| - n)]
          == s[k * n .. Min(k * n + n, |s|)];
    }
  }

  /**
    The frame sequence is determined by the two facts `ChunksAt` gives: a
    sequence with `ceil(|s| / n)` elements whose element `k` is `FrameAt(s, n, k)`
    is `Chunks(s, n)`.
   */
  lemma FramesAreChunks(s: string, n: nat, frames: seq<string>)
    requires n > 0
    requires |frames| == CeilDiv(|s|, n)
    requires forall k :: 0 <= k < |frames| ==> k * n <= |s| && frames[k] == FrameAt(s, n, k)
    ensures frames == Chunks(s, n)
  {
    ChunksCount(s, n);
    forall k | 0 <= k < |frames| ensures frames[k] == Chunks(s, n)[k] {
      ChunksAt(s, n, k);
    }
  }

  /**
    `splitMessage`: a loop stepping `i` by `MaxQrChunk` from 0 while `i` is
    below the length, pushing `substring(i, i + MaxQrChunk)` each time.
   */
  method SplitMessage(message: string) returns (chunks: seq<string>)
    ensures chunks == Chunks(message, MaxQrChunk)
    ensures ReassembleMessage(chunks) == message
    ensures |chunks| == CeilDiv(|message|, MaxQrChunk)
    ensures forall k :: 0 <= k < |chunks| ==> 0 < |chunks[k]| <= MaxQrChunk
    ensures forall k :: 0 <= k < |chunks| - 1 ==> |chunks[k]| == MaxQrChunk
    ensures forall k :: 0 <= k < |chunks| ==>
      k * MaxQrChunk < |message| && chunks[k] == FrameAt(message, MaxQrChunk, k)
  {
    chunks := [];
    var i := 0;
    while i < |message|
      invariant i == |chunks| * MaxQrChunk
      invariant |chunks| == 0 || (|chunks| - 1) * MaxQrChunk < |message|
      invariant forall k :: 0 <= k < |chunks| ==>
        k * MaxQrChunk <= |message| && chunks[k] == FrameAt(message, MaxQrChunk, k)
    {
      chunks := chunks + [Substring(message, i, i + MaxQrChunk)];
      i := i + MaxQrChunk;
    }
    assert |chunks| == CeilDiv(|message|, MaxQrChunk);
    FramesAreChunks(message, MaxQrChunk, chunks);
    ChunksRoundTrip(message, MaxQrChunk);
    ChunksBounded(message, MaxQrChunk);
    forall k | 0 <= k < |chunks|
      ensures k * MaxQrChunk < |message|
      ensures k < |chunks| - 1 ==> |chunks[k]| == MaxQrChunk
    {
      ChunksAt(message, MaxQrChunk, k);
    }
  }

  /** Reassembly of a buffer that has one frame scanned twice holds that frame twice. */
  lemma RescanRepeats(frames: seq<string>, k: nat)
    requires k < |frames|
    ensures ReassembleMessage(frames[..k + 1] + frames[k..])
         == ReassembleMessage(frames[..k]) + frames[k] + frames[k] + ReassembleMessage(frames[k + 1..])
  {
    var a, b := frames[..k], frames[k + 1..];
    assert frames[..k + 1] + frames[k..] == a + ([frames[k]] + ([frames[k]] + b));
    ReassembleAppend(a, [frames[k]] + ([frames[k]] + b));
    ReassembleAppend([frames[k]], [frames[k]] + b);
    ReassembleAppend([frames[k]], b);
    assert ReassembleMessage([frames[k]]) == frames[k] by {
      assert [frames[k]][1..] == [];
    }
  }

  /**
    Rescanning any one frame of a message's frames (no deduplication) makes the
    reassembled blob longer than the message, so it is never the message.
   */
  lemma RescanCorrupts(s: string, n: nat, k: nat)
    requires n > 0
    requires k < |Chunks(s, n)|
    ensures ReassembleMessage(Chunks(s, n)[..k + 1] + Chunks(s, n)[k..]) != s
  {
    var cs := Chunks(s, n);
    RescanRepeats(cs, k);
    ReassembleAppend(cs[..k], [cs[k]] + cs[k + 1..]);
    ReassembleAppend([cs[k]], cs[k + 1..]);
    assert ReassembleMessage([cs[k]]) == cs[k] by {
      assert [cs[k]][1..] == [];
    }
    assert cs == cs[..k] + ([cs[k]] + cs[k + 1..]);
    ChunksRoundTrip(s, n);
    ChunksBounded(s, n);
    assert |ReassembleMessage(cs[..k + 1] + cs[k..])| == |s| + |cs[k]|;
  }
}
