/** Cursor arithmetic on a circular buffer of interleaved samples. */
module Circular {
  import opened Arithmetic
  import opened Sequences

  // ----- Whole frames -----

  /** The number of samples in k frames of n samples. */
  function Samples(k: nat, n: nat): nat {
    if k == 0 then 0 else Samples(k - 1, n) + n
  }

  lemma {:induction false} SamplesIsProduct(k: nat, n: nat)
    ensures k * n == Samples(k, n)
  {
    if k > 0 {
      SamplesIsProduct(k - 1, n);
      assert k * n == (k - 1) * n + n;
    }
  }

  lemma {:induction false} SamplesAdd(a: nat, b: nat, n: nat)
    ensures Samples(a + b, n) == Samples(a, n) + Samples(b, n)
  {
    if b > 0 { SamplesAdd(a, b - 1, n); }
  }

  lemma SamplesLeq(a: nat, b: nat, n: nat)
    requires a <= b
    ensures Samples(a, n) <= Samples(b, n)
  {
    SamplesAdd(a, b - a, n);
  }

  lemma SamplesAtLeast(k: nat, n: nat)
    requires n > 0
    ensures Samples(k, n) >= k
  {
    SamplesIsProduct(k, n);
  }

  lemma {:induction false} FramesLeq(a: nat, b: nat, n: nat)
    requires n > 0 && Samples(a, n) <= Samples(b, n)
    ensures a <= b
  {
    if a > 0 && b > 0 { FramesLeq(a - 1, b - 1, n); }
  }

  lemma SamplesInjective(a: nat, b: nat, n: nat)
    requires n > 0 && Samples(a, n) == Samples(b, n)
    ensures a == b
  {
    FramesLeq(a, b, n);
    FramesLeq(b, a, n);
  }

  /** p is a whole number of frames of n samples. */
  predicate Aligned(p: int, n: nat)
    requires n > 0
    decreases p
  {
    p == 0 || (p >= n && Aligned(p - n, n))
  }

  lemma {:induction false} AlignedSum(p: int, q: int, n: nat)
    requires n > 0 && Aligned(p, n) && Aligned(q, n)
    ensures Aligned(p + q, n)
    decreases p
  {
    if p != 0 { AlignedSum(p - n, q, n); }
  }

  lemma {:induction false} AlignedDifference(p: int, q: int, n: nat)
    requires n > 0 && Aligned(p, n) && Aligned(q, n) && p >= q
    ensures Aligned(p - q, n)
    decreases p
  {
    if q != 0 { AlignedDifference(p - n, q - n, n); }
  }

  lemma {:induction false} SamplesAligned(k: nat, n: nat)
    requires n > 0
    ensures Aligned(Samples(k, n), n)
  {
    if k > 0 { SamplesAligned(k - 1, n); }
  }

  lemma {:induction false} AlignedDivides(p: int, n: nat)
    requires n > 0 && Aligned(p, n)
    ensures p / n >= 0 && Samples(p / n, n) == p
    decreases p
  {
    if p != 0 {
      AlignedDivides(p - n, n);
      DivideLess(p, n);
    }
  }

  lemma DivideLess(p: int, n: nat)
    requires n > 0 && p >= n
    ensures p / n == (p - n) / n + 1
  {
    var q, r := (p - n) / n, (p - n) % n;
    assert p - n == q * n + r;
    assert p == (q + 1) * n + r;
    var s, t := p / n, p % n;
    assert p == s * n + t;
    assert (q + 1 - s) * n == t - r;
    SmallMultiple(q + 1 - s, n, t - r);
  }

  // ----- Circular views -----

  function Wrap(i: nat, capacity: nat): nat {
    if i < capacity then i else i - capacity
  }

  /** The n elements from position r on, going round at the end. */
  ghost function CircularView<T>(buf: seq<T>, r: nat, n: nat): (v: seq<T>)
    requires n <= |buf| && r <= |buf| && (n > 0 ==> r < |buf|)
    ensures |v| == n
  {
    seq(n, i requires 0 <= i < n => buf[Wrap(r + i, |buf|)])
  }

  /** The buffer with the data written at position w. */
  ghost function Span<T>(buf: seq<T>, w: nat, data: seq<T>): (r: seq<T>)
    requires w + |data| <= |buf|
    ensures |r| == |buf|
  {
    buf[..w] + data + buf[w + |data|..]
  }

  /** One more element of the data is written. */
  lemma SpanNext<T>(buf: seq<T>, w: nat, data: seq<T>, i: nat)
    requires w + |data| <= |buf| && i < |data|
    ensures Span(buf, w, data[..i])[w + i := data[i]] == Span(buf, w, data[..i + 1])
  {}

  lemma ViewDrop<T>(buf: seq<T>, r: nat, n: nat, d: nat)
    requires d <= n <= |buf| && r < |buf|
    ensures Wrap(r + d, |buf|) <= |buf|
    ensures CircularView(buf, Wrap(r + d, |buf|), n - d) == CircularView(buf, r, n)[d..]
  {
    var after := CircularView(buf, Wrap(r + d, |buf|), n - d);
    forall i | 0 <= i < n - d ensures after[i] == CircularView(buf, r, n)[d..][i] {
      assert Wrap(Wrap(r + d, |buf|) + i, |buf|) == Wrap(r + (d + i), |buf|);
    }
  }

  lemma ViewAll<T>(buf: seq<T>)
    ensures CircularView(buf, 0, |buf|) == buf
  {
    forall i | 0 <= i < |buf| ensures CircularView(buf, 0, |buf|)[i] == buf[i] {
      assert Wrap(0 + i, |buf|) == i;
    }
  }

  /** Writing at the end of the view extends it. */
  lemma ViewAppend<T>(buf: seq<T>, r: nat, n: nat, data: seq<T>)
    requires r < |buf| && n + |data| <= |buf| && n < |buf| && Wrap(r + n, |buf|) + |data| <= |buf|
    ensures CircularView(Span(buf, Wrap(r + n, |buf|), data), r, n + |data|) == CircularView(buf, r, n) + data
  {
    var after := Span(buf, Wrap(r + n, |buf|), data);
    forall i | 0 <= i < n + |data|
      ensures after[Wrap(r + i, |buf|)] == (CircularView(buf, r, n) + data)[i]
    {}
  }

  /** Writing in two spans, the second one at the beginning of the buffer. */
  lemma ViewAppendTwo<T>(buf: seq<T>, r: nat, n: nat, first: seq<T>, second: seq<T>)
    requires r < |buf| && n + |first| + |second| <= |buf| && n < |buf|
    requires Wrap(r + n, |buf|) + |first| <= |buf|
    requires second != [] ==> Wrap(r + n, |buf|) + |first| == |buf|
    ensures CircularView(Span(Span(buf, Wrap(r + n, |buf|), first), 0, second), r, n + |first| + |second|)
         == CircularView(buf, r, n) + (first + second)
  {
    var once, view := Span(buf, Wrap(r + n, |buf|), first), CircularView(buf, r, n);
    ViewAppend(buf, r, n, first);
    if second == [] {
      assert Span(once, 0, second) == once && first + second == first;
    } else {
      assert Wrap(r + (n + |first|), |buf|) == 0;
      ViewAppend(once, r, n + |first|, second);
      Associate(view, first, second);
    }
  }

  // ----- Planar and interleaved audio -----

  /** Planar audio: at least n samples in each of the channels. */
  ghost predicate IsPlanar<T>(inputs: seq<seq<T>>, n: nat, channels: int) {
    |inputs| == channels && forall c :: 0 <= c < channels ==> |inputs[c]| >= n
  }

  /** The samples of frame k, one from each channel. */
  function Frame<T>(inputs: seq<seq<T>>, k: nat): (f: seq<T>)
    requires forall c :: 0 <= c < |inputs| ==> k < |inputs[c]|
    ensures |f| == |inputs|
  {
    seq(|inputs|, c requires 0 <= c < |inputs| => inputs[c][k])
  }

  /** n frames of planar audio from frame a on, interleaved. */
  function Interleaved<T>(inputs: seq<seq<T>>, a: nat, n: nat): (s: seq<T>)
    requires IsPlanar(inputs, a + n, |inputs|)
    ensures |s| == Samples(n, |inputs|)
  {
    if n == 0 then [] else Interleaved(inputs, a, n - 1) + Frame(inputs, a + n - 1)
  }

  lemma {:induction false} InterleavedSplit<T>(inputs: seq<seq<T>>, a: nat, m: nat, n: nat)
    requires IsPlanar(inputs, a + m + n, |inputs|)
    ensures Interleaved(inputs, a, m + n) == Interleaved(inputs, a, m) + Interleaved(inputs, a + m, n)
  {
    if n > 0 {
      InterleavedSplit(inputs, a, m, n - 1);
    }
  }

  /** Where sample c of frame k is in interleaved audio. */
  function Slot(channels: nat, k: nat, c: nat): nat {
    Samples(k, channels) + c
  }

  lemma SlotBelow(channels: nat, k: nat, c: nat, n: nat)
    requires k < n && c < channels
    ensures Slot(channels, k, c) < Samples(n, channels)
  {
    SamplesLeq(k + 1, n, channels);
  }

  /** Every sample of n frames is in one of them. */
  lemma {:induction false} SlotOf(channels: nat, n: nat, p: nat) returns (k: nat, c: nat)
    requires channels > 0 && p < Samples(n, channels)
    ensures k < n && c < channels && p == Slot(channels, k, c)
  {
    if p >= Samples(n - 1, channels) {
      k, c := n - 1, p - Samples(n - 1, channels);
    } else {
      k, c := SlotOf(channels, n - 1, p);
    }
  }

  lemma {:induction false} InterleavedAt<T>(inputs: seq<seq<T>>, a: nat, n: nat, k: nat, c: nat)
    requires c < |inputs| && IsPlanar(inputs, a + n, |inputs|) && k < n
    ensures Slot(|inputs|, k, c) < Samples(n, |inputs|)
    ensures Interleaved(inputs, a, n)[Slot(|inputs|, k, c)] == inputs[c][a + k]
  {
    SlotBelow(|inputs|, k, c, n);
    if k < n - 1 {
      InterleavedAt(inputs, a, n - 1, k, c);
    }
  }

  // ----- Samples as frames -----

  /** Interleaved samples as frames. */
  function FramesOf<T>(s: seq<T>, channels: nat): (f: seq<seq<T>>)
    requires channels > 0 && Aligned(|s|, channels)
    ensures forall k :: 0 <= k < |f| ==> |f[k]| == channels
  {
    if |s| == 0 then [] else [s[..channels]] + FramesOf(s[channels..], channels)
  }

  lemma AppendRest<T>(s: seq<T>, t: seq<T>, n: nat)
    requires n <= |s|
    ensures (s + t)[..n] == s[..n] && (s + t)[n..] == s[n..] + t
  {}

  lemma {:induction false} FramesOfAppend<T>(s: seq<T>, t: seq<T>, channels: nat)
    requires channels > 0 && Aligned(|s|, channels) && Aligned(|t|, channels)
    ensures Aligned(|s + t|, channels)
    ensures FramesOf(s + t, channels) == FramesOf(s, channels) + FramesOf(t, channels)
  {
    AlignedSum(|s|, |t|, channels);
    if |s| == 0 {
      assert s + t == t;
    } else {
      var first, rest := s[..channels], s[channels..];
      FramesOfAppend(rest, t, channels);
      AppendRest(s, t, channels);
      Associate([first], FramesOf(rest, channels), FramesOf(t, channels));
    }
  }

  lemma {:induction false} FramesOfLength<T>(s: seq<T>, channels: nat)
    requires channels > 0 && Aligned(|s|, channels)
    ensures Samples(|FramesOf(s, channels)|, channels) == |s|
  {
    if |s| > 0 {
      FramesOfLength(s[channels..], channels);
    }
  }

  lemma {:induction false} FramesOfAt<T>(s: seq<T>, channels: nat, k: nat, c: nat)
    requires channels > 0 && Aligned(|s|, channels) && k < |FramesOf(s, channels)| && c < channels
    ensures Slot(channels, k, c) < |s| && FramesOf(s, channels)[k][c] == s[Slot(channels, k, c)]
  {
    FramesOfLength(s, channels);
    SlotBelow(channels, k, c, |FramesOf(s, channels)|);
    if k > 0 {
      FramesOfAt(s[channels..], channels, k - 1, c);
    }
  }

  /** Dropping the samples of n frames drops n frames. */
  /** Sample c of frame k is where the interleaving of the channels puts it. */
  lemma FrameSample<T>(s: seq<T>, channels: nat, k: nat, c: nat)
    requires channels > 0 && Aligned(|s|, channels) && k < |FramesOf(s, channels)| && c < channels
    ensures k * channels + c < |s| && FramesOf(s, channels)[k][c] == s[k * channels + c]
  {
    FramesOfAt(s, channels, k, c);
    SamplesIsProduct(k, channels);
  }

  lemma {:induction false} FramesOfDrop<T>(s: seq<T>, n: nat, channels: nat)
    requires channels > 0 && Aligned(|s|, channels) && Samples(n, channels) <= |s|
    ensures Aligned(|s| - Samples(n, channels), channels) && n <= |FramesOf(s, channels)|
    ensures FramesOf(s[Samples(n, channels)..], channels) == FramesOf(s, channels)[n..]
  {
    if n > 0 {
      FramesOfDrop(s[channels..], n - 1, channels);
      assert s[Samples(n, channels)..] == s[channels..][Samples(n - 1, channels)..];
    }
  }

  /** The newest samples of a whole number of frames are the newest frames. */
  lemma FramesOfNewest<T>(s: seq<T>, n: nat, channels: nat)
    requires channels > 0 && Aligned(|s|, channels)
    ensures Aligned(|Newest(s, Samples(n, channels))|, channels)
    ensures FramesOf(Newest(s, Samples(n, channels)), channels) == Newest(FramesOf(s, channels), n)
  {
    var all := |FramesOf(s, channels)|;
    FramesOfLength(s, channels);
    if |s| <= Samples(n, channels) {
      FramesLeq(all, n, channels);
    } else {
      if all <= n { SamplesLeq(all, n, channels); }
      SamplesAdd(all - n, n, channels);
      FramesOfDrop(s, all - n, channels);
    }
  }

  lemma {:induction false} FramesOfInterleaved<T>(inputs: seq<seq<T>>, a: nat, n: nat)
    requires |inputs| > 0 && IsPlanar(inputs, a + n, |inputs|)
    ensures Aligned(Samples(n, |inputs|), |inputs|)
    ensures FramesOf(Interleaved(inputs, a, n), |inputs|) == PlanarFrames(inputs, a, n)
  {
    SamplesAligned(n, |inputs|);
    if n > 0 {
      SamplesAligned(n - 1, |inputs|);
      FramesOfInterleaved(inputs, a, n - 1);
      FramesOfAppend(Interleaved(inputs, a, n - 1), Frame(inputs, a + n - 1), |inputs|);
      OneFrame(Frame(inputs, a + n - 1), |inputs|);
    }
  }

  lemma OneFrame<T>(f: seq<T>, channels: nat)
    requires channels > 0 && |f| == channels
    ensures FramesOf(f, channels) == [f]
  {
    assert f[..channels] == f;
  }

  /** The frames from a on of planar audio. */
  function PlanarFrames<T>(inputs: seq<seq<T>>, a: nat, n: nat): (f: seq<seq<T>>)
    requires IsPlanar(inputs, a + n, |inputs|)
    ensures |f| == n
  {
    seq(n, k requires 0 <= k < n => Frame(inputs, a + k))
  }

  /** Frames as interleaved samples. */
  function Flatten<T>(frames: seq<seq<T>>): seq<T> {
    if frames == [] then [] else frames[0] + Flatten(frames[1..])
  }

  lemma {:induction false} FramesOfFlatten<T>(frames: seq<seq<T>>, channels: nat)
    requires channels > 0 && forall k :: 0 <= k < |frames| ==> |frames[k]| == channels
    ensures |Flatten(frames)| == Samples(|frames|, channels) && Aligned(|Flatten(frames)|, channels)
    ensures FramesOf(Flatten(frames), channels) == frames
  {
    if frames != [] {
      FramesOfFlatten(frames[1..], channels);
      assert Flatten(frames)[..channels] == frames[0] && Flatten(frames)[channels..] == Flatten(frames[1..]);
      assert [frames[0]] + frames[1..] == frames;
    }
  }

  lemma PlanarInTwo<T>(inputs: seq<seq<T>>, a: nat, n: nat, whole: nat)
    requires a + n == whole && IsPlanar(inputs, whole, |inputs|)
    ensures PlanarFrames(inputs, 0, whole) == PlanarFrames(inputs, 0, a) + PlanarFrames(inputs, a, n)
  {}

  lemma PlanarFramesWide<T>(inputs: seq<seq<T>>, a: nat, n: nat)
    requires IsPlanar(inputs, a + n, |inputs|)
    ensures forall k :: 0 <= k < n ==> |PlanarFrames(inputs, a, n)[k]| == |inputs|
  {
    forall k | 0 <= k < n ensures |PlanarFrames(inputs, a, n)[k]| == |inputs| {
      assert PlanarFrames(inputs, a, n)[k] == Frame(inputs, a + k);
    }
  }
}
