/** Streaming linear interpolation, over exact reals. */
module Resampler {
  import opened Circular
  import opened Sequences

  type Sample = real

  /** One sample from each channel. */
  type Frame = seq<Sample>

  // ----- Output positions -----

  /** The position of output k in the input. */
  function Position(k: nat, step: real): real {
    if k == 0 then 0.0 else Position(k - 1, step) + step
  }

  function Ceil(x: real): int {
    -(-x).Floor
  }

  /** How many outputs lie strictly before the end of len steps between frames. */
  function Count(len: nat, step: real): (n: nat)
    requires step > 0.0
  {
    CeilNatural(len, step);
    Ceil(len as real / step)
  }

  lemma CeilNatural(len: nat, step: real)
    requires step > 0.0
    ensures len as real / step >= 0.0 && Ceil(len as real / step) >= 0
  {
    var x := len as real / step;
    assert x * step == len as real;
    if x < 0.0 { NegativeProduct(x, step); }
  }

  lemma NegativeProduct(x: real, y: real)
    requires x < 0.0 && y > 0.0
    ensures x * y < 0.0
  {}

  lemma {:induction false} PositionIsProduct(k: nat, step: real)
    ensures Position(k, step) == k as real * step
  {
    if k > 0 {
      PositionIsProduct(k - 1, step);
      assert k as real * step == (k - 1) as real * step + step;
    }
  }

  /** Output k lies before the end exactly when it is counted. */
  lemma CountedIsBefore(k: nat, len: nat, step: real)
    requires step > 0.0
    ensures k < Count(len, step) <==> Position(k, step) < len as real
  {
    PositionIsProduct(k, step);
    var x := len as real / step;
    assert x * step == len as real;
    var y := x - k as real;
    assert y * step == len as real - k as real * step;
    if k < Ceil(x) {
      assert y > 0.0;
      if y * step <= 0.0 { NegativeProduct(-y, step); }
    } else if y < 0.0 {
      NegativeProduct(y, step);
    }
  }

  /** The phase that is carried into the next block is less than a step. */
  lemma CarriedPhase(len: nat, step: real)
    requires step > 0.0
    ensures 0.0 <= Position(Count(len, step), step) - len as real < step
  {
    var n := Count(len, step);
    CountedIsBefore(n, len, step);
    if n > 0 { CountedIsBefore(n - 1, len, step); }
  }

  lemma CountGrows(a: nat, b: nat, step: real)
    requires step > 0.0 && a <= b
    ensures Count(a, step) <= Count(b, step)
  {
    var n := Count(b, step);
    CountedIsBefore(n, b, step);
    CountedIsBefore(n, a, step);
  }

  lemma {:induction false} PositionAdd(a: nat, b: nat, step: real)
    ensures Position(a + b, step) == Position(a, step) + Position(b, step)
  {
    if b > 0 { PositionAdd(a, b - 1, step); }
  }

  lemma {:induction false} PositionNonNegative(k: nat, step: real)
    requires step > 0.0
    ensures Position(k, step) >= 0.0
  {
    if k > 0 { PositionNonNegative(k - 1, step); }
  }

  // ----- Interpolation -----

  ghost predicate HaveChannels(s: seq<Frame>, channels: int) {
    forall k :: 0 <= k < |s| ==> |s[k]| == channels
  }

  /** The frame at a position between two others. */
  function Between(a: Frame, b: Frame, frac: real): (f: Frame)
    requires |a| == |b|
    ensures |f| == |a|
  {
    seq(|a|, c requires 0 <= c < |a| => (1.0 - frac) * a[c] + frac * b[c])
  }

  ghost predicate InRange(s: seq<Frame>, p: real) {
    0.0 <= p < |s| as real - 1.0 && HaveChannels(s, if |s| > 0 then |s[0]| else 0)
  }

  /** The signal at any position before the last frame. */
  function Interpolated(s: seq<Frame>, p: real): (f: Frame)
    requires InRange(s, p)
    ensures |f| == |s[0]|
  {
    Between(s[p.Floor], s[p.Floor + 1], p - p.Floor as real)
  }

  lemma InterpolatedSuffix(s: seq<Frame>, d: nat, p: real)
    requires d <= |s| && InRange(s[d..], p) && HaveChannels(s, |s[d]|)
    ensures InRange(s, p + d as real) && Interpolated(s[d..], p) == Interpolated(s, p + d as real)
  {
    assert (p + d as real).Floor == p.Floor + d;
  }

  lemma InterpolatedPrefix(s: seq<Frame>, t: seq<Frame>, p: real)
    requires InRange(s, p) && HaveChannels(s + t, |s[0]|)
    ensures InRange(s + t, p) && Interpolated(s + t, p) == Interpolated(s, p)
  {}

  /** The whole signal at the new rate. */
  ghost function Resampled(s: seq<Frame>, step: real): (r: seq<Frame>)
    requires step > 0.0 && s != [] && HaveChannels(s, |s[0]|)
    ensures |r| == Count(|s| - 1, step)
  {
    seq(Count(|s| - 1, step), k requires 0 <= k < Count(|s| - 1, step) => OutputFrame(s, step, k))
  }

  ghost function OutputFrame(s: seq<Frame>, step: real, k: nat): Frame
    requires step > 0.0 && s != [] && HaveChannels(s, |s[0]|) && k < Count(|s| - 1, step)
  {
    CountedIsBefore(k, |s| - 1, step);
    PositionNonNegative(k, step);
    Interpolated(s, Position(k, step))
  }

  /** More input adds output and changes none. */
  lemma ResampledExtends(s: seq<Frame>, t: seq<Frame>, step: real)
    requires step > 0.0 && s != [] && HaveChannels(s + t, |s[0]|) && HaveChannels(s, |s[0]|)
    ensures Resampled(s, step) <= Resampled(s + t, step)
  {
    CountGrows(|s| - 1, |s + t| - 1, step);
    forall k | 0 <= k < |Resampled(s, step)| ensures Resampled(s, step)[k] == Resampled(s + t, step)[k] {
      CountedIsBefore(k, |s| - 1, step);
      PositionNonNegative(k, step);
      InterpolatedPrefix(s, t, Position(k, step));
    }
  }

  // ----- Feeding blocks -----

  /** What has been heard after another planar block. */
  function FedPlanar(stream: seq<Frame>, data: seq<Frame>): seq<Frame> {
    stream + data
  }

  /** Interleaved blocks start from a copy of their first frame. */
  function FedInterleaved(stream: seq<Frame>, data: seq<Frame>): seq<Frame> {
    if data == [] then stream
    else if stream == [] then [data[0]] + data
    else stream + data
  }

  function Fed(stream: seq<Frame>, data: seq<Frame>, interleaved: bool): seq<Frame> {
    if interleaved then FedInterleaved(stream, data) else FedPlanar(stream, data)
  }

  ghost predicate Uniform(s: seq<Frame>) {
    s != [] ==> HaveChannels(s, |s[0]|)
  }

  /** All the output of a stream, which may still be empty. */
  ghost function Output(s: seq<Frame>, step: real): seq<Frame>
    requires step > 0.0 && Uniform(s)
  {
    if s == [] then [] else Resampled(s, step)
  }

  /** The position that the next output has relative to the last frame. */
  ghost function Phase(s: seq<Frame>, step: real): (p: real)
    requires step > 0.0
    ensures s != [] ==> 0.0 <= p < step
  {
    if s == [] then 0.0
    else
      CarriedPhase(|s| - 1, step);
      Position(Count(|s| - 1, step), step) - (|s| - 1) as real
  }

  class LinearResampler {
    var inputRate: real
    var outputRate: real
    var step: real
    var phase: real
    var configured: bool
    var passthrough: bool
    var havePrev: bool
    var channels: int
    var prevSamples: Frame
    var sourceBuffer: seq<Frame>

    /** Everything interpolated since the last configuration or reset. */
    ghost var stream: seq<Frame>

    ghost predicate Valid()
      reads this
    {
      && outputRate != 0.0 && step == inputRate / outputRate
      && (passthrough <==> AreClose(inputRate, outputRate))
      && (configured ==> |prevSamples| == Wanted(channels))
      && (passthrough || !configured || step <= 0.0 ==> stream == [])
      && HaveChannels(stream, channels)
      && (step > 0.0 ==> phase == Phase(stream, step))
      && (!passthrough ==> (havePrev <==> stream != []))
      && (stream != [] ==> prevSamples == stream[|stream| - 1])
    }

    /** There is nothing to interpolate, or the positions advance. */
    ghost predicate Usable()
      reads this
    {
      passthrough || step > 0.0
    }

    constructor ()
      ensures Valid() && !configured && passthrough && inputRate == outputRate == 48000.0 && stream == []
    {
      inputRate, outputRate, step, phase := 48000.0, 48000.0, 1.0, 0.0;
      configured, passthrough, havePrev, channels := false, true, false, 0;
      prevSamples, sourceBuffer, stream := [], [], [];
      new;
      OneStep(48000.0, 48000.0);
    }

    method Configure(inputRate: real, outputRate: real, channels: int)
      requires outputRate != 0.0
      modifies this
      ensures Valid() && configured && stream == [] && !havePrev && phase == 0.0
      ensures this.inputRate == inputRate && this.outputRate == outputRate && this.channels == channels
      ensures step == inputRate / outputRate && (passthrough <==> -0.000001 < inputRate - outputRate < 0.000001)
      ensures inputRate > 0.0 && outputRate > 0.0 ==> Usable()
    {
      this.inputRate, this.outputRate, this.channels := inputRate, outputRate, channels;
      step := inputRate / outputRate;
      phase := 0.0;
      configured := true;
      var difference := inputRate - outputRate;
      passthrough := (if difference < 0.0 then -difference else difference) < 0.000001;
      havePrev := false;
      prevSamples := seq(Wanted(channels), _ => 0.0);
      stream := [];
      if inputRate > 0.0 && outputRate > 0.0 { PositiveQuotient(inputRate, outputRate); }
    }

    method Reset()
      requires Valid()
      modifies this`phase, this`havePrev, this`prevSamples, this`stream
      ensures Valid() && stream == []
    {
      phase := 0.0;
      havePrev := false;
      prevSamples := seq(Wanted(channels), _ => 0.0);
      stream := [];
    }

    /** What is still remembered when a block with the given number of channels arrives. */
    ghost function Kept(channels: int): seq<Frame>
      requires Valid()
      reads this
    {
      if configured && channels == this.channels then stream else []
    }

    /** The setting that a block goes by: it configures the resampler when the channels change. */
    method Prepare(channels: int)
      requires Valid() && channels > 0
      modifies this
      ensures Valid() && configured && this.channels == channels && stream == old(Kept(channels))
      ensures inputRate == old(inputRate) && outputRate == old(outputRate)
      ensures passthrough == old(passthrough) && step == old(step)
    {
      if !configured || channels != this.channels {
        Configure(inputRate, outputRate, channels);
      }
    }

    /** With equal rates the input is passed on. */
    method PassThrough(data: seq<Frame>) returns (out: seq<Frame>)
      requires Valid() && configured && passthrough && channels > 0 && HaveChannels(data, channels)
      modifies this`prevSamples, this`havePrev, this`phase
      ensures Valid() && out == data
    {
      out := data;
      if |data| > 0 {
        prevSamples := data[|data| - 1];
        havePrev := true;
      }
      phase := 0.0;
    }

    method ProcessInterleaved(data: seq<Frame>, channels: int) returns (out: seq<Frame>)
      requires Valid() && Usable() && channels > 0 && HaveChannels(data, channels)
      modifies this
      ensures Valid() && Usable() && configured && this.channels == channels
      ensures inputRate == old(inputRate) && outputRate == old(outputRate)
      ensures passthrough == old(passthrough) && step == old(step) && (passthrough ==> stream == [])
      ensures passthrough ==> out == data
      ensures !passthrough ==> stream == FedInterleaved(old(Kept(channels)), data)
      ensures !passthrough ==> Uniform(stream) && Uniform(old(Kept(channels)))
      ensures !passthrough ==> Output(stream, step) == Output(old(Kept(channels)), step) + out
    {
      Prepare(channels);
      if passthrough {
        out := PassThrough(data);
        return;
      }
      if |data| == 0 {
        return [];
      }
      if !havePrev {
        Start(data[0]);
      }
      sourceBuffer := [prevSamples] + data;
      out := ProcessBuffer(sourceBuffer);
    }

    method ProcessPlanar(inputs: seq<seq<Sample>>, frames: nat, channels: int) returns (out: seq<Frame>)
      requires Valid() && Usable() && channels > 0 && IsPlanar(inputs, frames, channels)
      modifies this
      ensures Valid() && Usable() && configured && this.channels == channels
      ensures inputRate == old(inputRate) && outputRate == old(outputRate)
      ensures passthrough == old(passthrough) && step == old(step) && (passthrough ==> stream == [])
      ensures passthrough ==> out == PlanarFrames(inputs, 0, frames)
      ensures !passthrough ==> stream == FedPlanar(old(Kept(channels)), PlanarFrames(inputs, 0, frames))
      ensures !passthrough ==> Uniform(stream) && Uniform(old(Kept(channels)))
      ensures !passthrough ==> Output(stream, step) == Output(old(Kept(channels)), step) + out
    {
      Prepare(channels);
      if passthrough {
        PlanarFramesWide(inputs, 0, frames);
        out := PassThrough(PlanarFrames(inputs, 0, frames));
        return;
      }
      if frames == 0 {
        return [];
      }
      out := ResamplePlanar(inputs, frames);
    }

    method ResamplePlanar(inputs: seq<seq<Sample>>, frames: nat) returns (out: seq<Frame>)
      requires Valid() && configured && !passthrough && step > 0.0
      requires channels > 0 && IsPlanar(inputs, frames, channels) && frames > 0
      modifies this`phase, this`havePrev, this`prevSamples, this`sourceBuffer, this`stream
      ensures Valid() && stream == FedPlanar(old(stream), PlanarFrames(inputs, 0, frames))
      ensures Output(stream, step) == Output(old(stream), step) + out
    {
      var start := 0;
      if !havePrev {
        Start(Circular.Frame(inputs, 0));
        start := 1;
        if frames == 1 {
          assert PlanarFrames(inputs, 0, frames) == stream;
          return [];
        }
      }
      var effectiveFrames := frames - start;
      var rest := PlanarFrames(inputs, start, effectiveFrames);
      PlanarInTwo(inputs, start, effectiveFrames, frames);
      PlanarFramesWide(inputs, start, effectiveFrames);
      sourceBuffer := [prevSamples] + rest;
      out := ProcessBuffer(sourceBuffer);
      assert sourceBuffer[1..] == rest;
    }

    /** The first frame ever is the previous one of the next. */
    method Start(first: Frame)
      requires Valid() && configured && !passthrough && step > 0.0 && !havePrev && |first| == channels
      modifies this`prevSamples, this`havePrev, this`stream
      ensures Valid() && havePrev && stream == [first] && Output(stream, step) == []
    {
      prevSamples := first;
      havePrev := true;
      stream := [first];
      CountNothing(step);
    }

    /** Interpolates between the previous frame and those after it. */
    method ProcessBuffer(source: seq<Frame>) returns (out: seq<Frame>)
      requires Valid() && configured && !passthrough && step > 0.0 && channels > 0 && havePrev
      requires source != [] && source[0] == prevSamples && HaveChannels(source, channels)
      modifies this`phase, this`prevSamples, this`stream
      ensures Valid() && stream == old(stream) + source[1..]
      ensures Output(stream, step) == Output(old(stream), step) + out
    {
      out := [];
      var frames := |source|;
      if frames < 2 {
        return;
      }
      ghost var heard := stream;
      var pos;
      out, pos := Interpolations(source, heard);
      var carried := pos - (frames - 1) as real;
      phase := if carried < 0.0 then 0.0 else carried;
      prevSamples := source[frames - 1];
      stream := heard + source[1..];
    }

    /** The outputs before the last frame of the block, and the position of the next one. */
    method Interpolations(source: seq<Frame>, ghost heard: seq<Frame>) returns (out: seq<Frame>, pos: real)
      requires step > 0.0 && Continues(heard, source) && |heard[0]| == channels && phase == Phase(heard, step)
      ensures pos - (|source| - 1) as real == Phase(heard + source[1..], step)
      ensures Resampled(heard + source[1..], step) == Resampled(heard, step) + out
    {
      ghost var all, base := heard + source[1..], Count(|heard| - 1, step);
      CountGrows(|heard| - 1, |all| - 1, step);
      out, pos := [], phase;
      while pos < |source| as real - 1.0
        invariant pos == Position(base + |out|, step) - (|heard| - 1) as real
        invariant base + |out| <= Count(|all| - 1, step)
        invariant out == Resampled(all, step)[base..base + |out|]
        decreases Count(|all| - 1, step) - |out|
      {
        NextOutput(heard, source, step, base + |out|, pos);
        var idx := pos.Floor;
        var frac := pos - idx as real;
        var frame := Interpolate(source[idx], source[idx + 1], frac);
        out := out + [frame];
        pos := pos + step;
      }
      AllCounted(heard, source, step, base, out);
    }

    method Interpolate(frame0: Frame, frame1: Frame, frac: real) returns (samples: Frame)
      requires |frame0| == |frame1| == channels
      ensures samples == Between(frame0, frame1, frac)
    {
      samples := [];
      for ch := 0 to channels
        invariant samples == Between(frame0, frame1, frac)[..ch]
      {
        var sample := (1.0 - frac) * frame0[ch] + frac * frame1[ch];
        assert sample == Between(frame0, frame1, frac)[ch];
        samples := samples + [sample];
      }
    }
  }

  /** The block begins with the last frame that was heard before it. */
  ghost predicate Continues(heard: seq<Frame>, source: seq<Frame>) {
    && heard != [] && source != [] && source[0] == heard[|heard| - 1]
    && HaveChannels(heard, |heard[0]|) && HaveChannels(source, |heard[0]|)
  }

  /** A position in the block is a position in the whole stream. */
  lemma NextOutput(heard: seq<Frame>, source: seq<Frame>, step: real, n: nat, pos: real)
    requires step > 0.0 && Continues(heard, source) && n >= Count(|heard| - 1, step)
    requires pos == Position(n, step) - (|heard| - 1) as real && pos < |source| as real - 1.0
    ensures n < Count(|heard + source[1..]| - 1, step) && InRange(source, pos)
    ensures Resampled(heard + source[1..], step)[n] == Interpolated(source, pos)
  {
    var all, d := heard + source[1..], |heard| - 1;
    assert all[d..] == source;
    CountedIsBefore(n, |all| - 1, step);
    CountedIsBefore(n, |heard| - 1, step);
    InterpolatedSuffix(all, d, pos);
  }

  /** When the next position is past the end of the block, all its output is there. */
  lemma AllCounted(heard: seq<Frame>, source: seq<Frame>, step: real, base: nat, out: seq<Frame>)
    requires step > 0.0 && Continues(heard, source) && base == Count(|heard| - 1, step)
    requires base + |out| <= Count(|heard + source[1..]| - 1, step)
    requires out == Resampled(heard + source[1..], step)[base..base + |out|]
    requires Position(base + |out|, step) - (|heard| - 1) as real >= |source| as real - 1.0
    ensures base + |out| == Count(|heard + source[1..]| - 1, step)
    ensures Resampled(heard + source[1..], step) == Resampled(heard, step) + out
    ensures 0.0 <= Position(base + |out|, step) - (|heard + source[1..]| - 1) as real < step
  {
    var all := heard + source[1..];
    CountedIsBefore(base + |out|, |all| - 1, step);
    CarriedPhase(|all| - 1, step);
    ResampledExtends(heard, source[1..], step);
    var whole := Resampled(all, step);
    assert whole == whole[..base] + whole[base..];
  }

  function Wanted(channels: int): nat {
    if 0 < channels then channels else 0
  }

  ghost predicate AreClose(a: real, b: real) {
    -0.000001 < a - b < 0.000001
  }

  lemma PositiveQuotient(a: real, b: real)
    requires a > 0.0 && b > 0.0
    ensures a / b > 0.0
  {
    var q := a / b;
    assert q * b == a;
    if q < 0.0 { NegativeProduct(q, b); }
  }

  lemma OneStep(a: real, b: real)
    requires a == b > 0.0
    ensures a / b == 1.0
  {}

  lemma CountNothing(step: real)
    requires step > 0.0
    ensures Count(0, step) == 0
  {
    CountedIsBefore(0, 0, step);
  }

  // ----- Block boundaries make no difference -----

  function FedAll(blocks: seq<seq<Frame>>, interleaved: bool): seq<Frame> {
    if blocks == [] then []
    else Fed(FedAll(blocks[..|blocks| - 1], interleaved), blocks[|blocks| - 1], interleaved)
  }

  /** A stream fed in blocks is heard as the stream fed whole. */
  lemma {:induction false} FedInBlocks(blocks: seq<seq<Frame>>, interleaved: bool)
    ensures FedAll(blocks, interleaved) == Fed([], Concat(blocks), interleaved)
  {
    if blocks != [] {
      FedInBlocks(blocks[..|blocks| - 1], interleaved);
    }
  }

  lemma FedUniform(data: seq<Frame>, interleaved: bool, channels: int)
    requires HaveChannels(data, channels)
    ensures HaveChannels(Fed([], data, interleaved), channels) && Uniform(Fed([], data, interleaved))
  {}

  /** The outputs that a resampler returned for some blocks, call by call. */
  ghost predicate IsRun(blocks: seq<seq<Frame>>, outs: seq<seq<Frame>>, interleaved: bool, step: real) {
    && step > 0.0 && |outs| == |blocks| && Uniform(FedAll(blocks, interleaved))
    && (blocks != [] ==>
          var init := blocks[..|blocks| - 1];
          && IsRun(init, outs[..|outs| - 1], interleaved, step)
          && Output(FedAll(blocks, interleaved), step) == Output(FedAll(init, interleaved), step) + outs[|outs| - 1])
  }

  /** Whatever the blocks, empty and single-frame ones included, the outputs join up to that of the whole stream. */
  lemma {:induction false} RunOutput(blocks: seq<seq<Frame>>, outs: seq<seq<Frame>>, interleaved: bool, step: real)
    requires IsRun(blocks, outs, interleaved, step)
    ensures Uniform(Fed([], Concat(blocks), interleaved))
    ensures Concat(outs) == Output(Fed([], Concat(blocks), interleaved), step)
  {
    FedInBlocks(blocks, interleaved);
    if blocks != [] {
      RunOutput(blocks[..|blocks| - 1], outs[..|outs| - 1], interleaved, step);
      FedInBlocks(blocks[..|blocks| - 1], interleaved);
    }
  }

  /** The resampler has been fed the blocks, and has returned the outputs. */
  ghost predicate HasReturned(r: LinearResampler, channels: int, blocks: seq<seq<Frame>>, outs: seq<seq<Frame>>,
      interleaved: bool)
    reads r
  {
    && r.Valid() && r.Usable() && |outs| == |blocks|
    && if r.passthrough then outs == blocks
       else r.Kept(channels) == FedAll(blocks, interleaved) && IsRun(blocks, outs, interleaved, r.step)
  }

  /** The outputs join up to that of the whole stream. */
  ghost predicate JoinUp(passthrough: bool, step: real, blocks: seq<seq<Frame>>, outs: seq<seq<Frame>>,
      interleaved: bool)
  {
    if passthrough then outs == blocks
    else
      && step > 0.0 && Uniform(Fed([], Concat(blocks), interleaved))
      && Concat(outs) == Output(Fed([], Concat(blocks), interleaved), step)
  }

  method NextInterleaved(r: LinearResampler, channels: int, ghost blocks: seq<seq<Frame>>, outs: seq<seq<Frame>>,
      block: seq<Frame>)
    returns (more: seq<seq<Frame>>)
    requires HasReturned(r, channels, blocks, outs, true) && channels > 0 && HaveChannels(block, channels)
    modifies r
    ensures HasReturned(r, channels, blocks + [block], more, true)
    ensures r.passthrough == old(r.passthrough) && r.step == old(r.step)
  {
    var out := r.ProcessInterleaved(block, channels);
    if !r.passthrough { RunGrows(blocks, block, outs, out, true, r.step); }
    more := outs + [out];
  }

  /** Feeds a stream of interleaved frames to a fresh resampler block by block. */
  method FeedInterleaved(r: LinearResampler, blocks: seq<seq<Frame>>, channels: int) returns (outs: seq<seq<Frame>>)
    requires r.Valid() && r.Usable() && channels > 0 && r.Kept(channels) == []
    requires forall i :: 0 <= i < |blocks| ==> HaveChannels(blocks[i], channels)
    modifies r
    ensures r.Valid() && r.passthrough == old(r.passthrough) && r.step == old(r.step)
    ensures JoinUp(r.passthrough, r.step, blocks, outs, true)
  {
    outs := [];
    for i := 0 to |blocks|
      invariant r.passthrough == old(r.passthrough) && r.step == old(r.step)
      invariant HasReturned(r, channels, blocks[..i], outs, true)
    {
      outs := NextInterleaved(r, channels, blocks[..i], outs, blocks[i]);
      TakeNext(blocks, i);
    }
    assert blocks[..|blocks|] == blocks;
    if !r.passthrough { RunOutput(blocks, outs, true, r.step); }
  }

  /** A block of planar input: a number of frames of each channel. */
  datatype PlanarBlock = PlanarBlock(inputs: seq<seq<Sample>>, frames: nat)

  ghost predicate ArePlanar(blocks: seq<PlanarBlock>, channels: int) {
    forall i :: 0 <= i < |blocks| ==> IsPlanar(blocks[i].inputs, blocks[i].frames, channels)
  }

  function FramesOfBlocks(blocks: seq<PlanarBlock>, channels: int): (s: seq<seq<Frame>>)
    requires ArePlanar(blocks, channels)
    ensures |s| == |blocks|
  {
    seq(|blocks|, i requires 0 <= i < |blocks| => PlanarFrames(blocks[i].inputs, 0, blocks[i].frames))
  }

  method NextPlanar(r: LinearResampler, channels: int, ghost blocks: seq<seq<Frame>>, outs: seq<seq<Frame>>,
      block: PlanarBlock)
    returns (more: seq<seq<Frame>>)
    requires HasReturned(r, channels, blocks, outs, false) && channels > 0
      && IsPlanar(block.inputs, block.frames, channels)
    modifies r
    ensures HasReturned(r, channels, blocks + [PlanarFrames(block.inputs, 0, block.frames)], more, false)
    ensures r.passthrough == old(r.passthrough) && r.step == old(r.step)
  {
    var out := r.ProcessPlanar(block.inputs, block.frames, channels);
    if !r.passthrough { RunGrows(blocks, PlanarFrames(block.inputs, 0, block.frames), outs, out, false, r.step); }
    more := outs + [out];
  }

  /** Feeds a planar stream to a fresh resampler block by block. */
  method FeedPlanar(r: LinearResampler, blocks: seq<PlanarBlock>, channels: int) returns (outs: seq<seq<Frame>>)
    requires r.Valid() && r.Usable() && channels > 0 && r.Kept(channels) == [] && ArePlanar(blocks, channels)
    modifies r
    ensures r.Valid() && r.passthrough == old(r.passthrough) && r.step == old(r.step)
    ensures JoinUp(r.passthrough, r.step, FramesOfBlocks(blocks, channels), outs, false)
  {
    outs := [];
    ghost var s := FramesOfBlocks(blocks, channels);
    for i := 0 to |blocks|
      invariant r.passthrough == old(r.passthrough) && r.step == old(r.step)
      invariant HasReturned(r, channels, s[..i], outs, false)
    {
      outs := NextPlanar(r, channels, s[..i], outs, blocks[i]);
      TakeNext(s, i);
    }
    assert s[..|s|] == s;
    if !r.passthrough { RunOutput(s, outs, false, r.step); }
  }

  lemma RunGrows(blocks: seq<seq<Frame>>, block: seq<Frame>, outs: seq<seq<Frame>>, out: seq<Frame>, interleaved: bool,
      step: real)
    requires IsRun(blocks, outs, interleaved, step)
    requires Uniform(Fed(FedAll(blocks, interleaved), block, interleaved))
    requires Output(Fed(FedAll(blocks, interleaved), block, interleaved), step)
      == Output(FedAll(blocks, interleaved), step) + out
    ensures FedAll(blocks + [block], interleaved) == Fed(FedAll(blocks, interleaved), block, interleaved)
    ensures IsRun(blocks + [block], outs + [out], interleaved, step)
  {
    assert (blocks + [block])[..|blocks|] == blocks && (outs + [out])[..|outs|] == outs;
  }

  /** How many outputs a stream has. */
  lemma OutputCount(data: seq<Frame>, interleaved: bool, channels: int, step: real)
    requires step > 0.0 && HaveChannels(data, channels) && data != []
    ensures Uniform(Fed([], data, interleaved))
    ensures |Output(Fed([], data, interleaved), step)|
      == Ceil((if interleaved then |data| else |data| - 1) as real / step)
  {
    FedUniform(data, interleaved, channels);
  }

  /** What output k of a stream is. */
  lemma OutputAt(data: seq<Frame>, interleaved: bool, channels: int, step: real, k: nat)
    requires step > 0.0 && HaveChannels(data, channels) && Uniform(Fed([], data, interleaved))
    requires k < |Output(Fed([], data, interleaved), step)|
    ensures InRange(Fed([], data, interleaved), k as real * step)
    ensures Output(Fed([], data, interleaved), step)[k] == Interpolated(Fed([], data, interleaved), k as real * step)
  {
    var s := Fed([], data, interleaved);
    CountedIsBefore(k, |s| - 1, step);
    PositionNonNegative(k, step);
    PositionIsProduct(k, step);
  }

  /** How far the output lags behind the input: interleaved input is led by a copy of its first frame. */
  function Lag(interleaved: bool): nat {
    if interleaved then 1 else 0
  }

  /**
    * Wherever a channel is a line between two neighbouring frames, the output
    * on that stretch is on the line, at the time of the output.
    */
  lemma OutputOnLine(data: seq<Frame>, interleaved: bool, channels: int, step: real, k: nat, i: nat, c: nat,
      u: real, v: real, t: real)
    requires step > 0.0 && HaveChannels(data, channels) && Uniform(Fed([], data, interleaved))
    requires k < |Output(Fed([], data, interleaved), step)| && i + 1 < |data| && c < channels
    requires t == k as real * step - Lag(interleaved) as real && i as real <= t <= i as real + 1.0
    requires data[i][c] == u + v * i as real && data[i + 1][c] == u + v * (i as real + 1.0)
    ensures Output(Fed([], data, interleaved), step)[k][c] == u + v * t
  {
    var p := t + Lag(interleaved) as real;
    OutputAtTime(data, interleaved, channels, step, k, p);
    StreamOnLine(data, interleaved, p, i, c, u, v, t);
  }

  /** At the time of an input frame the output is that frame. */
  lemma OutputOnFrame(data: seq<Frame>, interleaved: bool, channels: int, step: real, k: nat, i: nat)
    requires step > 0.0 && HaveChannels(data, channels) && Uniform(Fed([], data, interleaved))
    requires k < |Output(Fed([], data, interleaved), step)| && k as real * step == (i + Lag(interleaved)) as real
    ensures i + 1 < |data| && Output(Fed([], data, interleaved), step)[k] == data[i]
  {
    var p := k as real * step;
    OutputAtTime(data, interleaved, channels, step, k, p);
    FrameInStream(data, interleaved, p, i, i + Lag(interleaved));
  }

  lemma FrameInStream(data: seq<Frame>, interleaved: bool, p: real, i: nat, q: nat)
    requires InRange(Fed([], data, interleaved), p) && p == q as real && q == i + Lag(interleaved)
    ensures i + 1 < |data| && Interpolated(Fed([], data, interleaved), p) == data[i]
  {
    var s := Fed([], data, interleaved);
    assert p.Floor == q && s[q] == data[i];
    var f := Interpolated(s, p);
    forall c | 0 <= c < |f| ensures f[c] == data[i][c] {
      Whole(s[q][c], s[q + 1][c], p - q as real);
    }
  }

  lemma StreamOnLine(data: seq<Frame>, interleaved: bool, p: real, i: nat, c: nat, u: real, v: real, t: real)
    requires InRange(Fed([], data, interleaved), p) && i + 1 < |data| && c < |Fed([], data, interleaved)[0]|
    requires p == t + Lag(interleaved) as real && i as real <= t <= i as real + 1.0
    requires |data[i]| == |data[i + 1]| == |Fed([], data, interleaved)[0]|
    requires data[i][c] == u + v * i as real && data[i + 1][c] == u + v * (i as real + 1.0)
    ensures Interpolated(Fed([], data, interleaved), p)[c] == u + v * t
  {
    var s, d, x := Fed([], data, interleaved), Lag(interleaved), i as real;
    FedLater(data, interleaved, i, i + 1, i + d);
    OnLine(s, p, i + d, x, c, u, v, t);
  }

  lemma OutputAtTime(data: seq<Frame>, interleaved: bool, channels: int, step: real, k: nat, p: real)
    requires step > 0.0 && HaveChannels(data, channels) && Uniform(Fed([], data, interleaved))
    requires k < |Output(Fed([], data, interleaved), step)| && p == k as real * step
    ensures var s := Fed([], data, interleaved);
      InRange(s, p) && Output(s, step)[k] == Interpolated(s, p)
  {
    OutputAt(data, interleaved, channels, step, k);
  }

  lemma FedLater(data: seq<Frame>, interleaved: bool, i: nat, j: nat, q: nat)
    requires j == i + 1 < |data| && q == i + Lag(interleaved)
    ensures var s := Fed([], data, interleaved); q + 1 < |s| && s[q] == data[i] && s[q + 1] == data[j]
  {}

  lemma OnLine(s: seq<Frame>, p: real, q: nat, x: real, c: nat, u: real, v: real, t: real)
    requires InRange(s, p) && q + 1 < |s| && c < |s[0]| && x <= t <= x + 1.0 && t - x == p - q as real
    requires s[q][c] == u + v * x && s[q + 1][c] == u + v * (x + 1.0)
    ensures Interpolated(s, p)[c] == u + v * t
  {
    var frac := p - q as real;
    Mixed(s, p, q, c, frac);
    LineBetween(s[q][c], s[q + 1][c], frac, u, v, x, t);
  }

  /** The weights add up to one, also at the end of the stretch. */
  lemma Mixed(s: seq<Frame>, p: real, q: nat, c: nat, frac: real)
    requires InRange(s, p) && q + 1 < |s| && c < |s[0]| && frac == p - q as real && 0.0 <= frac <= 1.0
    ensures Interpolated(s, p)[c] == (1.0 - frac) * s[q][c] + frac * s[q + 1][c]
  {
    if frac == 1.0 {
      OnNextFrame(s, p, q + 1, c);
      AllWeight(s[q][c], s[q + 1][c], frac);
    } else {
      assert p.Floor == q;
    }
  }

  lemma AllWeight(a: real, b: real, frac: real)
    requires frac == 1.0
    ensures (1.0 - frac) * a + frac * b == b
  {}

  lemma OnNextFrame(s: seq<Frame>, p: real, q: nat, c: nat)
    requires InRange(s, p) && p == q as real && q < |s| && c < |s[0]|
    ensures q + 1 < |s| && Interpolated(s, p)[c] == s[q][c]
  {
    Whole(s[q][c], s[q + 1][c], p - q as real);
  }

  lemma Whole(a: real, b: real, frac: real)
    requires frac == 0.0
    ensures (1.0 - frac) * a + frac * b == a
  {}

  lemma LineBetween(a: real, b: real, frac: real, u: real, v: real, x: real, t: real)
    requires a == u + v * x && b == u + v * (x + 1.0) && t == x + frac
    ensures (1.0 - frac) * a + frac * b == u + v * t
  {
    assert b == a + v && frac * b == frac * a + frac * v;
  }

  /** Before the first frame of interleaved input there is that frame. */
  lemma OutputBefore(data: seq<Frame>, channels: int, step: real, k: nat)
    requires step > 0.0 && HaveChannels(data, channels) && data != [] && k as real * step <= 1.0
    requires Uniform(Fed([], data, true)) && k < |Output(Fed([], data, true), step)|
    ensures Output(Fed([], data, true), step)[k] == data[0]
  {
    var s, p := Fed([], data, true), k as real * step;
    OutputAtTime(data, true, channels, step, k, p);
    PositionNonNegative(k, step);
    PositionIsProduct(k, step);
    FirstStretch(s, p);
    assert s[0] == data[0];
  }

  /** Between two equal frames there is nothing else. */
  lemma FirstStretch(s: seq<Frame>, p: real)
    requires InRange(s, p) && 0.0 <= p <= 1.0 && |s| >= 2 && s[0] == s[1]
    ensures Interpolated(s, p) == s[0]
  {
    var f := Interpolated(s, p);
    forall c | 0 <= c < |f| ensures f[c] == s[0][c] {
      Mixed(s, p, 0, c, p);
      Same(s[0][c], p);
    }
  }

  lemma Same(a: real, frac: real)
    ensures (1.0 - frac) * a + frac * a == a
  {}

  // ----- The resampler as a state machine -----

  datatype Setting = Setting(passthrough: bool, step: real)

  /** What a setting makes of an interleaved block, given what has been heard before it. */
  ghost function Resample(setting: Setting, heard: seq<Frame>, block: seq<Frame>): (seq<Frame>, seq<Frame>) {
    if setting.passthrough then (heard, block)
    else (FedInterleaved(heard, block), NewOutput(heard, FedInterleaved(heard, block), setting.step))
  }

  /** The output of a longer stream that a shorter one does not have. */
  ghost function NewOutput(heard: seq<Frame>, longer: seq<Frame>, step: real): seq<Frame> {
    if step > 0.0 && Uniform(heard) && Uniform(longer) && |Output(heard, step)| <= |Output(longer, step)|
    then Output(longer, step)[|Output(heard, step)|..] else []
  }

  /** At half the rate, one more frame brings at most one more output. */
  lemma CountedTwice(n: nat)
    ensures n > 0 ==> Count(n, 2.0) <= Count(n - 1, 2.0) + 1
    ensures Count(1, 2.0) == 1
  {
    assert 1.0 / 2.0 == 0.5;
    if n > 0 {
      var k := Count(n, 2.0);
      CountedIsBefore(Count(n - 1, 2.0) + 1, n, 2.0);
      CountedIsBefore(Count(n - 1, 2.0), n - 1, 2.0);
    }
  }

  /** A longer stream has all the output of a shorter one, and no more than what is new. */
  lemma OutputGrows(heard: seq<Frame>, block: seq<Frame>, channels: int, step: real)
    requires step > 0.0 && HaveChannels(heard, channels) && HaveChannels(block, channels)
    ensures var longer := FedInterleaved(heard, block);
      && Uniform(heard) && Uniform(longer)
      && Output(longer, step) == Output(heard, step) + NewOutput(heard, longer, step)
  {
    var longer := FedInterleaved(heard, block);
    if heard != [] { ResampledExtends(heard, longer[|heard|..], step); }
    assert heard != [] ==> longer == heard + longer[|heard|..];
  }

  /** A block brings output exactly when the next position lies before its end. */
  lemma BlockBringsOutput(heard: seq<Frame>, block: seq<Frame>, channels: int, step: real)
    requires step > 0.0 && HaveChannels(heard, channels) && HaveChannels(block, channels)
    ensures NewOutput(heard, FedInterleaved(heard, block), step) != [] <==> Phase(heard, step) < |block| as real
  {
    var longer := FedInterleaved(heard, block);
    if heard == [] {
      if block != [] { CountedIsBefore(0, |longer| - 1, step); }
    } else {
      var n := Count(|heard| - 1, step);
      CountGrows(|heard| - 1, |longer| - 1, step);
      CountedIsBefore(n, |longer| - 1, step);
    }
  }

  lemma OutputUniform(s: seq<Frame>, step: real, channels: int)
    requires step > 0.0 && HaveChannels(s, channels)
    ensures Uniform(s) && HaveChannels(Output(s, step), channels)
  {}
}
