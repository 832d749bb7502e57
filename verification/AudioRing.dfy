/** The ring buffer for interleaved audio, and the queue of samples that it implements. */
module AudioRing {
  import opened Circular
  import opened Sequences

  type Sample = real

  class AudioRingBuffer {
    var buffer: array<Sample>
    var frameCapacity: nat
    var channelCount: nat
    var writePos: nat
    var readPos: nat
    var size: nat

    /** The cursors stay at the starts of frames. */
    ghost predicate Valid()
      reads this
    {
      && buffer.Length == Samples(frameCapacity, channelCount)
      && size <= buffer.Length
      && (buffer.Length == 0 ==> readPos == writePos == size == 0)
      && (buffer.Length > 0 ==>
            && channelCount > 0
            && readPos < buffer.Length && writePos == Wrap(readPos + size, buffer.Length)
            && Aligned(buffer.Length, channelCount) && Aligned(readPos, channelCount)
            && Aligned(writePos, channelCount) && Aligned(size, channelCount))
    }

    /** The samples that have not been read, oldest first. */
    ghost function Contents(): (s: seq<Sample>)
      requires Valid()
      reads this, buffer
      ensures |s| == size
    {
      CircularView(buffer[..], readPos, size)
    }

    /** The same queue, by frames. */
    ghost function Queue(): (q: seq<seq<Sample>>)
      requires Valid()
      reads this, buffer
    {
      if channelCount == 0 then [] else FramesOf(Contents(), channelCount)
    }

    constructor (frameCapacity: nat, channelCount: nat)
      ensures Valid() && fresh(buffer) && Contents() == []
      ensures this.frameCapacity == frameCapacity && this.channelCount == channelCount
    {
      this.frameCapacity, this.channelCount := frameCapacity, channelCount;
      buffer := new Sample[frameCapacity * channelCount](_ => 0.0);
      writePos, readPos, size := 0, 0, 0;
      new;
      SamplesIsProduct(frameCapacity, channelCount);
      if channelCount > 0 { SamplesAligned(frameCapacity, channelCount); }
    }

    method Reset(frameCapacity: nat, channelCount: nat)
      modifies this
      ensures Valid() && fresh(buffer) && Contents() == []
      ensures this.frameCapacity == frameCapacity && this.channelCount == channelCount
    {
      this.frameCapacity, this.channelCount := frameCapacity, channelCount;
      buffer := new Sample[frameCapacity * channelCount](_ => 0.0);
      writePos, readPos, size := 0, 0, 0;
      SamplesIsProduct(frameCapacity, channelCount);
      if channelCount > 0 { SamplesAligned(frameCapacity, channelCount); }
    }

    /** The queue never holds more frames than the ring. */
    lemma QueueFits()
      requires Valid()
      ensures |Queue()| <= frameCapacity && forall k :: 0 <= k < |Queue()| ==> |Queue()[k]| == channelCount
    {
      if channelCount > 0 {
        FramesOfLength(Contents(), channelCount);
        FramesLeq(|Queue()|, frameCapacity, channelCount);
      }
    }

    /** What is left of the queue when audio with the given number of channels arrives. */
    ghost function KeptFrames(channels: int): seq<seq<Sample>>
      requires Valid()
      reads this, buffer
    {
      if channels == channelCount then Queue() else []
    }

    /** Keeping the newest samples keeps the newest frames. */
    lemma NewestFrames(kept: seq<Sample>, added: seq<Sample>)
      requires Valid() && channelCount > 0
      requires Aligned(|kept|, channelCount) && Aligned(|added|, channelCount)
      requires Contents() == Newest(kept + added, buffer.Length)
      ensures Queue() == Newest(FramesOf(kept, channelCount) + FramesOf(added, channelCount), frameCapacity)
    {
      FramesOfAppend(kept, added, channelCount);
      FramesOfNewest(kept + added, frameCapacity, channelCount);
    }

    /** Appends planar audio; the newest frames win over the oldest. */
    method Push(inputs: seq<seq<Sample>>, frames: nat, channels: int)
      requires Valid() && (channels > 0 ==> IsPlanar(inputs, frames, channels))
      modifies this, buffer
      ensures Valid() && (buffer == old(buffer) || fresh(buffer)) && frameCapacity == old(frameCapacity)
      ensures channels <= 0 || frames == 0 ==> channelCount == old(channelCount) && Queue() == old(Queue())
      ensures channels > 0 && frames > 0 ==> channelCount == channels
      ensures channels > 0 && frames > 0 ==>
        Queue() == Newest((if channels == old(channelCount) then old(Queue()) else [])
          + PlanarFrames(inputs, 0, frames),
                          frameCapacity)
    {
      if channels <= 0 || frames == 0 {
        return;
      }
      Prepare(channels);
      var capacity := buffer.Length;
      if capacity == 0 {
        NothingFits();
        return;
      }
      PushFrames(inputs, frames);
    }

    /** Audio with another number of channels starts the buffer afresh. */
    method Prepare(channels: nat)
      requires Valid() && channels > 0
      modifies this
      ensures Valid() && (buffer == old(buffer) || fresh(buffer))
        && (channels == old(channelCount) ==> buffer == old(buffer))
      ensures channelCount == channels && frameCapacity == old(frameCapacity) && Queue() == old(KeptFrames(channels))
    {
      if channelCount != channels {
        Reset(frameCapacity, channels);
      }
    }

    method PushFrames(inputs: seq<seq<Sample>>, frames: nat)
      requires Valid() && buffer.Length > 0 && IsPlanar(inputs, frames, channelCount)
      modifies this`readPos, this`writePos, this`size, buffer
      ensures Valid() && Queue() == Newest(old(Queue()) + PlanarFrames(inputs, 0, frames), frameCapacity)
    {
      ghost var kept := Contents();
      PushPlanar(inputs, frames);
      SamplesAligned(frames, channelCount);
      NewestFrames(kept, Interleaved(inputs, 0, frames));
      FramesOfInterleaved(inputs, 0, frames);
    }

    lemma NothingFits()
      requires Valid() && buffer.Length == 0 && channelCount > 0
      ensures frameCapacity == 0 && Queue() == []
    {
      SamplesAtLeast(frameCapacity, channelCount);
    }

    /** Appends interleaved audio by the same rule. */
    method PushInterleaved(input: seq<Sample>, frames: nat, channels: int)
      requires Valid() && (channels > 0 ==> |input| >= Samples(frames, channels))
      modifies this, buffer
      ensures channels == old(channelCount) ==> buffer == old(buffer)
      ensures Valid() && (buffer == old(buffer) || fresh(buffer)) && frameCapacity == old(frameCapacity)
      ensures channels <= 0 || frames == 0 ==> channelCount == old(channelCount) && Queue() == old(Queue())
      ensures channels > 0 && frames > 0 ==> channelCount == channels && Aligned(Samples(frames, channels), channels)
      ensures channels > 0 && frames > 0 ==>
        Queue() == Newest((if channels == old(channelCount) then old(Queue()) else [])
                          + FramesOf(input[..Samples(frames, channels)], channels), frameCapacity)
    {
      if channels <= 0 || frames == 0 {
        return;
      }
      Prepare(channels);
      SamplesAligned(frames, channels);
      var capacity := buffer.Length;
      if capacity == 0 {
        NothingFits();
        return;
      }
      PushSamples(input, frames);
    }

    method PushSamples(input: seq<Sample>, frames: nat)
      requires Valid() && buffer.Length > 0 && frames > 0 && Samples(frames, channelCount) <= |input|
      modifies this`readPos, this`writePos, this`size, buffer
      ensures Valid() && Aligned(Samples(frames, channelCount), channelCount)
      ensures Queue() == Newest(old(Queue()) + FramesOf(input[..Samples(frames, channelCount)], channelCount),
        frameCapacity)
    {
      ghost var kept := Contents();
      var n, from := NewestWindow(frames);
      AppendFrames(input[from..], n);
      NewestSkips(kept, input, from, Samples(n, channelCount), buffer.Length);
      SamplesAligned(frames, channelCount);
      NewestFrames(kept, input[..Samples(frames, channelCount)]);
    }

    /** The newest frames that the buffer can hold, and how many samples come before them. */
    method NewestWindow(frames: nat) returns (n: nat, from: nat)
      requires Valid() && buffer.Length > 0 && frames > 0
      ensures 0 < n && Samples(n, channelCount) <= buffer.Length
      ensures from + Samples(n, channelCount) == Samples(frames, channelCount)
      ensures from == 0 || Samples(n, channelCount) == buffer.Length
    {
      n, from := frames, 0;
      if frames > frameCapacity {
        SamplesIsProduct(frames - frameCapacity, channelCount);
        SamplesAdd(frames - frameCapacity, frameCapacity, channelCount);
        from := (frames - frameCapacity) * channelCount;
        n := frameCapacity;
      } else {
        SamplesLeq(frames, frameCapacity, channelCount);
      }
    }

    /** Appends samples that fit the buffer, in at most two spans. */
    method AppendFrames(input: seq<Sample>, frames: nat)
      requires Valid() && buffer.Length > 0 && frames > 0 && Samples(frames, channelCount) <= |input|
      requires Samples(frames, channelCount) <= buffer.Length
      modifies this`readPos, this`writePos, this`size, buffer
      ensures Valid() && Contents() == Newest(old(Contents()) + input[..Samples(frames, channelCount)], buffer.Length)
    {
      var capacity := buffer.Length;
      var samples := frames * channelCount;
      SamplesIsProduct(frames, channelCount);
      SamplesAligned(frames, channelCount);
      SamplesLeq(1, frames, channelCount);
      MakeRoom(samples);
      CopySamples(input[..samples]);
      NewestAfterDrop(old(Contents()), input[..samples], capacity);
    }

    method CopySamples(input: seq<Sample>)
      requires Valid() && size + |input| <= buffer.Length && 0 < |input| && Aligned(|input|, channelCount)
      modifies this`writePos, this`size, buffer
      ensures Valid() && Contents() == old(Contents()) + input
    {
      WriteAround(input);
      TurnWrite(|input|);
      Enlarge(|input|);
    }

    /** Copies the samples behind those in the queue, in two spans if they go round. */
    method WriteAround(input: seq<Sample>)
      requires Valid() && size + |input| <= buffer.Length && 0 < |input|
      modifies buffer
      ensures CircularView(buffer[..], readPos, size + |input|) == old(Contents()) + input
    {
      var capacity, samples := buffer.Length, |input|;
      var first := if samples < capacity - writePos then samples else capacity - writePos;
      AroundView(buffer[..], readPos, size, input, first);
      CopyTwice(input, first);
    }

    method CopyTwice(input: seq<Sample>, first: nat)
      requires first <= |input| <= buffer.Length && writePos + first <= buffer.Length
      modifies buffer
      ensures buffer[..] == TwoSpans(old(buffer[..]), writePos, input, first)
    {
      CopyN(input[..first], writePos);
      CopyN(input[first..], 0);
    }

    /** Moves the write cursor over a whole number of frames. */
    method TurnWrite(samples: nat)
      requires Valid() && size + samples <= buffer.Length && 0 < samples && Aligned(samples, channelCount)
      modifies this`writePos
      ensures writePos == Wrap(readPos + (size + samples), buffer.Length)
      ensures Aligned(writePos, channelCount) && Aligned(size + samples, channelCount)
    {
      var capacity := buffer.Length;
      AlignedSum(size, samples, channelCount);
      AlignedSum(writePos, samples, channelCount);
      if writePos + samples >= capacity {
        AlignedDifference(writePos + samples, capacity, channelCount);
      }
      WrapIsMod(writePos + samples, capacity);
      writePos := (writePos + samples) % capacity;
    }

    method Enlarge(samples: nat)
      requires buffer.Length > 0 && channelCount > 0 && buffer.Length == Samples(frameCapacity, channelCount)
      requires size + samples <= buffer.Length && readPos < buffer.Length
      requires Aligned(buffer.Length, channelCount) && Aligned(readPos, channelCount)
      requires Aligned(writePos, channelCount) && Aligned(size + samples, channelCount)
      requires writePos == Wrap(readPos + (size + samples), buffer.Length)
      modifies this`size
      ensures Valid() && Contents() == CircularView(buffer[..], readPos, old(size) + samples)
    {
      size := size + samples;
    }

    method CopyN(source: seq<Sample>, at: nat)
      requires at + |source| <= buffer.Length
      modifies buffer
      ensures buffer[..] == Span(old(buffer[..]), at, source)
    {
      for i := 0 to |source|
        invariant buffer[..] == Span(old(buffer[..]), at, source[..i])
      {
        ghost var before := buffer[..];
        buffer[at + i] := source[i];
        assert buffer[..] == before[at + i := source[i]];
        SpanNext(old(buffer[..]), at, source, i);
      }
      assert source[..|source|] == source;
    }

    // ----- Reading -----

    /** How many frames a read delivers. */
    ghost function Delivered(frames: nat, channels: int): (n: nat)
      requires Valid()
      reads this, buffer
      ensures n <= frames
    {
      if channels <= 0 || channels != channelCount then 0
      else if frames < |Queue()| then frames else |Queue()|
    }

    /** Takes the oldest frames and fills up with silence. */
    method Pop(outputs: array2<Sample>, frames: nat, channels: int) returns (n: nat)
      requires Valid() && (channels > 0 ==> outputs.Length0 == channels && outputs.Length1 >= frames)
      modifies this`readPos, this`size, outputs
      ensures Valid() && n == old(Delivered(frames, channels)) <= |old(Queue())|
      ensures channels > 0 && channels == channelCount ==>
        n == if frames < |old(Queue())| then frames else |old(Queue())|
      ensures Queue() == old(Queue())[n..] && buffer[..] == old(buffer[..])
      ensures channels > 0 ==> forall k, c :: 0 <= k < frames && 0 <= c < channels ==>
        outputs[c, k] == SampleOf(old(Queue())[..n], k, c)
      ensures channels > 0 && channels != channelCount ==>
        n == 0 && forall k, c :: 0 <= k < frames && 0 <= c < channels ==> outputs[c, k] == 0.0
      ensures forall k, c :: 0 <= k < outputs.Length1 && 0 <= c < outputs.Length0 && (channels <= 0 || frames <= k) ==>
        outputs[c, k] == old(outputs[c, k])
    {
      if channels <= 0 || frames == 0 {
        return 0;
      }
      if channelCount != channels {
        Silence(outputs, 0, frames);
        return 0;
      }
      ghost var was := Contents();
      FramesOfLength(was, channels);
      if buffer.Length == 0 || size == 0 {
        Silence(outputs, 0, frames);
        return 0;
      }
      n := ReadFrames(outputs, frames);
      FramesOfDrop(was, n, channels);
      FramesRead(was, n, channels);
      Silence(outputs, n, frames);
    }

    method ReadFrames(outputs: array2<Sample>, frames: nat) returns (n: nat)
      requires Valid() && size > 0 && outputs.Length0 == channelCount && frames <= outputs.Length1
      modifies this`readPos, this`size, outputs
      ensures Valid() && n <= frames && Samples(n, channelCount) <= old(size)
      ensures n == frames || Samples(n, channelCount) == old(size)
      ensures Contents() == old(Contents())[Samples(n, channelCount)..]
      ensures forall k, c :: 0 <= k < n && 0 <= c < channelCount ==>
        Slot(channelCount, k, c) < old(size) && outputs[c, k] == old(Contents())[Slot(channelCount, k, c)]
      ensures forall k, c :: n <= k < outputs.Length1 && 0 <= c < channelCount ==> outputs[c, k] == old(outputs[c, k])
    {
      var requestedSamples := frames * channelCount;
      SamplesIsProduct(frames, channelCount);
      SamplesAligned(frames, channelCount);
      var samplesToRead := if requestedSamples < size then requestedSamples else size;
      AlignedDivides(samplesToRead, channelCount);
      n := samplesToRead / channelCount;
      FramesLeq(n, frames, channelCount);
      if samplesToRead == requestedSamples { FramesLeq(frames, n, channelCount); }
      ReadSpans(outputs, n);
      Consume(samplesToRead, old(readPos));
    }

    /** The samples before the read cursor are no longer in the queue. */
    method Consume(samplesToRead: nat, ghost r0: nat)
      requires buffer.Length == Samples(frameCapacity, channelCount) > 0 && channelCount > 0
      requires r0 < buffer.Length && samplesToRead <= size <= buffer.Length
      requires readPos == Wrap(r0 + samplesToRead, buffer.Length) && writePos == Wrap(r0 + size, buffer.Length)
      requires Aligned(buffer.Length, channelCount) && Aligned(readPos, channelCount) && Aligned(writePos, channelCount)
      requires Aligned(size, channelCount) && Aligned(samplesToRead, channelCount)
      modifies this`size
      ensures Valid() && Contents() == CircularView(buffer[..], r0, old(size))[samplesToRead..]
    {
      AlignedDifference(size, samplesToRead, channelCount);
      ViewDrop(buffer[..], r0, size, samplesToRead);
      size := size - samplesToRead;
    }

    /** Copies the oldest n frames in contiguous spans. */
    method ReadSpans(outputs: array2<Sample>, n: nat)
      requires Valid() && size > 0 && outputs.Length0 == channelCount && n <= outputs.Length1
      requires Samples(n, channelCount) <= size
      modifies this`readPos, outputs
      ensures readPos == Wrap(old(readPos) + Samples(n, channelCount), buffer.Length) && Aligned(readPos, channelCount)
      ensures forall k, c :: 0 <= k < n && 0 <= c < channelCount ==>
        Slot(channelCount, k, c) < size && outputs[c, k] == old(Contents())[Slot(channelCount, k, c)]
      ensures forall k, c :: n <= k < outputs.Length1 && 0 <= c < channelCount ==> outputs[c, k] == old(outputs[c, k])
    {
      var frame := 0;
      while frame < n
        invariant frame <= n
        invariant readPos == Wrap(old(readPos) + Samples(frame, channelCount), buffer.Length)
        invariant Aligned(readPos, channelCount)
        invariant forall k, c :: 0 <= k < frame && 0 <= c < channelCount ==>
          Slot(channelCount, k, c) < size && outputs[c, k] == old(Contents())[Slot(channelCount, k, c)]
        invariant forall k, c :: frame <= k < outputs.Length1 && 0 <= c < channelCount ==>
          outputs[c, k] == old(outputs[c, k])
        decreases n - frame
      {
        var count := ReadNext(outputs, frame, n - frame, old(readPos));
        frame := frame + count;
      }
    }
    /** The read cursor is at the given frame of the queue that starts at r0, with more frames behind it. */
    ghost predicate Reading(r0: nat, frame: nat, left: nat)
      reads this
    {
      && channelCount > 0 && Aligned(buffer.Length, channelCount) && Aligned(readPos, channelCount)
      && r0 < buffer.Length && size <= buffer.Length
      && readPos == Wrap(r0 + Samples(frame, channelCount), buffer.Length)
      && Samples(frame + left, channelCount) <= size
    }

    method ReadNext(outputs: array2<Sample>, frame: nat, left: nat, ghost r0: nat) returns (count: nat)
      requires Reading(r0, frame, left) && left > 0
      requires outputs.Length0 == channelCount && frame + left <= outputs.Length1
      modifies this`readPos, outputs
      ensures 0 < count <= left && Reading(r0, frame + count, left - count)
      ensures forall k, c :: 0 <= k < outputs.Length1 && 0 <= c < channelCount ==>
        if frame <= k < frame + count then
          Slot(channelCount, k, c) < size && outputs[c, k]
            == CircularView(buffer[..], r0, size)[Slot(channelCount, k, c)]
        else outputs[c, k] == old(outputs[c, k])
    {
      count := ReadableFrames(frame, left, r0);
      ReadSpan(outputs, frame, count, r0);
      AdvanceRead(frame, count, r0);
    }

    /** How many of the given frames are before the end of the buffer: at least one. */
    method ReadableFrames(ghost frame: nat, left: nat, ghost r0: nat) returns (count: nat)
      requires Reading(r0, frame, left) && left > 0
      ensures 0 < count <= left && readPos + Samples(count, channelCount) <= buffer.Length
      ensures Reading(r0, frame, count)
    {
      SamplesAdd(frame, left, channelCount);
      SamplesLeq(1, left, channelCount);
      AlignedDifference(buffer.Length, readPos, channelCount);
      AlignedDivides(buffer.Length - readPos, channelCount);
      var room := (buffer.Length - readPos) / channelCount;
      count := if left < room then left else room;
      SamplesLeq(count, room, channelCount);
      SamplesLeq(frame + count, frame + left, channelCount);
    }

    method AdvanceRead(ghost frame: nat, count: nat, ghost r0: nat)
      requires Reading(r0, frame, count) && readPos + Samples(count, channelCount) <= buffer.Length && count > 0
      modifies this`readPos
      ensures Aligned(readPos, channelCount) && readPos
        == Wrap(r0 + Samples(frame + count, channelCount), buffer.Length)
    {
      SamplesIsProduct(count, channelCount);
      SamplesAligned(count, channelCount);
      SamplesAdd(frame, count, channelCount);
      AlignedSum(readPos, Samples(count, channelCount), channelCount);
      readPos := readPos + count * channelCount;
      if readPos == buffer.Length {
        readPos := 0;
      }
    }

    /** Copies a span channel by channel. */
    method ReadSpan(outputs: array2<Sample>, frame: nat, count: nat, ghost r0: nat)
      requires Reading(r0, frame, count) && readPos + Samples(count, channelCount) <= buffer.Length
      requires outputs.Length0 == channelCount && frame + count <= outputs.Length1
      modifies outputs
      ensures forall k, c :: 0 <= k < outputs.Length1 && 0 <= c < channelCount ==>
        if frame <= k < frame + count then
          Slot(channelCount, k, c) < size && outputs[c, k]
            == CircularView(buffer[..], r0, size)[Slot(channelCount, k, c)]
        else outputs[c, k] == old(outputs[c, k])
    {
      for ch := 0 to channelCount
        invariant forall k, c :: 0 <= k < outputs.Length1 && 0 <= c < channelCount ==>
          if frame <= k < frame + count && c < ch then
            Slot(channelCount, k, c) < size && outputs[c, k]
              == CircularView(buffer[..], r0, size)[Slot(channelCount, k, c)]
          else outputs[c, k] == old(outputs[c, k])
      {
        ReadChannel(outputs, frame, count, ch, r0);
      }
    }

    method ReadChannel(outputs: array2<Sample>, frame: nat, count: nat, ch: nat, ghost r0: nat)
      requires Reading(r0, frame, count) && readPos + Samples(count, channelCount) <= buffer.Length && ch < channelCount
      requires outputs.Length0 == channelCount && frame + count <= outputs.Length1
      modifies outputs
      ensures forall k, c :: 0 <= k < outputs.Length1 && 0 <= c < channelCount ==>
        if frame <= k < frame + count && c == ch then
          Slot(channelCount, k, c) < size && outputs[c, k]
            == CircularView(buffer[..], r0, size)[Slot(channelCount, k, c)]
        else outputs[c, k] == old(outputs[c, k])
    {
      for i := 0 to count
        invariant forall k, c :: 0 <= k < outputs.Length1 && 0 <= c < channelCount ==>
          if frame <= k < frame + i && c == ch then
            Slot(channelCount, k, c) < size && outputs[c, k]
              == CircularView(buffer[..], r0, size)[Slot(channelCount, k, c)]
          else outputs[c, k] == old(outputs[c, k])
      {
        var v := ReadSample(i, ch, frame, count, r0);
        outputs[ch, frame + i] := v;
      }
    }

    method ReadSample(i: nat, ch: nat, ghost frame: nat, ghost count: nat, ghost r0: nat) returns (v: Sample)
      requires Reading(r0, frame, count) && readPos + Samples(count, channelCount) <= buffer.Length
      requires i < count && ch < channelCount
      ensures Slot(channelCount, frame + i, ch) < size
      ensures v == CircularView(buffer[..], r0, size)[Slot(channelCount, frame + i, ch)]
    {
      SlotBelow(channelCount, i, ch, count);
      SlotBelow(channelCount, frame + i, ch, frame + count);
      SamplesAdd(frame, i, channelCount);
      SamplesIsProduct(i, channelCount);
      v := buffer[readPos + i * channelCount + ch];
      ViewAt(buffer[..], r0, size, Samples(frame, channelCount), Slot(channelCount, i, ch));
    }

    /** The frames that a read of the given number of channels would find. */
    method AvailableFrames(channels: int) returns (n: nat)
      requires Valid()
      ensures n == if channels == channelCount then |Queue()| else 0
    {
      if channels <= 0 || channelCount != channels {
        return 0;
      }
      FramesOfLength(Contents(), channels);
      if size > 0 { AlignedDivides(size, channels); }
      n := size / channels;
      SamplesInjective(n, |Queue()|, channels);
    }

    method PushPlanar(inputs: seq<seq<Sample>>, frames: nat)
      requires Valid() && buffer.Length > 0 && IsPlanar(inputs, frames, channelCount)
      modifies this`readPos, this`writePos, this`size, buffer
      ensures Valid() && Contents() == Newest(old(Contents()) + Interleaved(inputs, 0, frames), buffer.Length)
    {
      var capacity := buffer.Length;
      var totalSamples := frames * channelCount;
      SamplesIsProduct(frames, channelCount);
      SamplesAligned(frames, channelCount);
      if totalSamples >= capacity {
        Replace(inputs, frames);
        return;
      }
      AppendPlanar(inputs, frames, totalSamples);
    }

    method AppendPlanar(inputs: seq<seq<Sample>>, frames: nat, totalSamples: nat)
      requires Valid() && buffer.Length > 0 && IsPlanar(inputs, frames, channelCount)
      requires totalSamples == Samples(frames, channelCount) <= buffer.Length && Aligned(totalSamples, channelCount)
      modifies this`readPos, this`writePos, this`size, buffer
      ensures Valid() && Contents() == Newest(old(Contents()) + Interleaved(inputs, 0, frames), buffer.Length)
    {
      MakeRoom(totalSamples);
      WriteSpans(inputs, frames);
      NewestAfterDrop(old(Contents()), Interleaved(inputs, 0, frames), buffer.Length);
    }

    /** Drops the oldest samples, just enough for the given number of new ones. */
    method MakeRoom(samples: nat)
      requires Valid() && buffer.Length > 0 && samples <= buffer.Length && Aligned(samples, channelCount)
      modifies this`readPos, this`size
      ensures Valid() && Contents() == Newest(old(Contents()), buffer.Length - samples)
    {
      var capacity := buffer.Length;
      if size + samples > capacity {
        AlignedSum(size, samples, channelCount);
        AlignedDifference(size + samples, capacity, channelCount);
        Discard(size + samples - capacity);
      }
    }

    /** More audio than the buffer holds: only the newest frames are copied. */
    method Replace(inputs: seq<seq<Sample>>, frames: nat)
      requires Valid() && buffer.Length > 0 && IsPlanar(inputs, frames, channelCount)
      requires Samples(frames, channelCount) >= buffer.Length
      modifies this`readPos, this`writePos, this`size, buffer
      ensures Valid() && size == buffer.Length
      ensures Contents() == Newest(old(Contents()) + Interleaved(inputs, 0, frames), buffer.Length)
    {
      var capacity, channels := buffer.Length, channelCount;
      AlignedDivides(capacity, channels);
      var framesToCopy := capacity / channels;
      FramesLeq(framesToCopy, frames, channels);
      var startFrame := frames - framesToCopy;
      FillNewest(inputs, frames, startFrame);
      Refill();
      LastFramesStay(old(Contents()), inputs, startFrame, framesToCopy);
    }

    /** The whole buffer becomes the queue. */
    method Refill()
      requires buffer.Length == Samples(frameCapacity, channelCount) > 0 && channelCount > 0
      requires Aligned(buffer.Length, channelCount)
      modifies this`readPos, this`writePos, this`size
      ensures Valid() && Contents() == buffer[..]
    {
      var capacity := buffer.Length;
      readPos := 0;
      size := capacity;
      writePos := size % capacity;
      ViewAll(buffer[..]);
    }

    method FillNewest(inputs: seq<seq<Sample>>, frames: nat, startFrame: nat)
      requires startFrame <= frames && IsPlanar(inputs, frames, channelCount)
      requires Samples(frames - startFrame, channelCount) == buffer.Length
      modifies buffer
      ensures buffer[..] == Interleaved(inputs, startFrame, frames - startFrame)
    {
      var channels := channelCount;
      var idx := 0;
      ghost var flat := Interleaved(inputs, startFrame, frames - startFrame);
      for frame := startFrame to frames
        invariant idx == Samples(frame - startFrame, channels)
        invariant idx <= buffer.Length && buffer[..idx] == flat[..idx]
      {
        SamplesLeq(frame - startFrame + 1, frames - startFrame, channels);
        for ch := 0 to channels
          invariant idx == Slot(channels, frame - startFrame, ch)
          invariant idx <= buffer.Length && buffer[..idx] == flat[..idx]
        {
          InterleavedAt(inputs, startFrame, frames - startFrame, frame - startFrame, ch);
          FillOne(idx, inputs[ch][frame], flat);
          idx := idx + 1;
        }
      }
    }

    method FillOne(idx: nat, v: Sample, ghost flat: seq<Sample>)
      requires idx < buffer.Length && idx < |flat| && v == flat[idx]
      requires buffer[..idx] == flat[..idx]
      modifies buffer
      ensures buffer[..idx + 1] == flat[..idx + 1]
    {
      buffer[idx] := v;
      assert buffer[..idx] == flat[..idx];
    }

    /** Drops the oldest samples. */
    method Discard(discarded: nat)
      requires Valid() && buffer.Length > 0 && discarded <= size && Aligned(discarded, channelCount)
      modifies this`readPos, this`size
      ensures Valid() && size == old(size) - discarded && Contents() == old(Contents())[discarded..]
    {
      var capacity := buffer.Length;
      ViewDrop(buffer[..], readPos, size, discarded);
      AlignedSum(readPos, discarded, channelCount);
      if readPos + discarded >= capacity {
        AlignedDifference(readPos + discarded, capacity, channelCount);
      }
      AlignedDifference(size, discarded, channelCount);
      WrapIsMod(readPos + discarded, capacity);
      readPos := (readPos + discarded) % capacity;
      size := size - discarded;
    }

    /** Appends the frames in contiguous spans. */
    method WriteSpans(inputs: seq<seq<Sample>>, frames: nat)
      requires Valid() && buffer.Length > 0 && IsPlanar(inputs, frames, channelCount)
      requires size + Samples(frames, channelCount) <= buffer.Length
      modifies this`writePos, this`size, buffer
      ensures Valid() && Contents() == old(Contents()) + Interleaved(inputs, 0, frames)
    {
      var frame := 0;
      while frame < frames
        invariant frame <= frames
        invariant size == old(size) && InSpans(old(Contents()) + Interleaved(inputs, 0, frame))
        decreases frames - frame
      {
        SamplesAdd(frame, frames - frame, channelCount);
        frame := WriteNext(inputs, frame, frames - frame, old(Contents()));
      }
      Commit(frames, old(Contents()) + Interleaved(inputs, 0, frames));
    }

    /** Writes the next span and returns the frame after it. */
    method WriteNext(inputs: seq<seq<Sample>>, frame: nat, left: nat, ghost start: seq<Sample>) returns (next: nat)
      requires left > 0 && IsPlanar(inputs, frame + left, channelCount)
      requires InSpans(start + Interleaved(inputs, 0, frame))
      requires |start| + Samples(frame, channelCount) + Samples(left, channelCount) <= buffer.Length
      modifies this`writePos, buffer
      ensures frame < next <= frame + left && InSpans(start + Interleaved(inputs, 0, next))
    {
      SamplesLeq(1, left, channelCount);
      var count := SpanFrames(left);
      next := frame + count;
      AppendSpan(inputs, frame, count, start + Interleaved(inputs, 0, frame));
      Rejoin(start, inputs, frame, count);
    }

    /** Makes the written samples part of the queue. */
    method Commit(frames: nat, ghost all: seq<Sample>)
      requires InSpans(all) && |all| == size + Samples(frames, channelCount)
      requires buffer.Length == Samples(frameCapacity, channelCount)
      modifies this`size
      ensures Valid() && Contents() == all
    {
      SamplesIsProduct(frames, channelCount);
      size := size + frames * channelCount;
    }

    /** The given samples follow the read cursor, and the write cursor is behind them. */
    ghost predicate InSpans(samples: seq<Sample>)
      reads this, buffer
    {
      && channelCount > 0 && Aligned(buffer.Length, channelCount)
      && readPos < buffer.Length && |samples| <= buffer.Length
      && Aligned(readPos, channelCount) && Aligned(writePos, channelCount) && Aligned(|samples|, channelCount)
      && writePos == Wrap(readPos + |samples|, buffer.Length)
      && CircularView(buffer[..], readPos, |samples|) == samples
    }

    /** How many of the given frames fit before the end of the buffer: at least one, as the cursor is at
        the start of a frame. */
    method SpanFrames(left: nat) returns (count: nat)
      requires channelCount > 0 && Aligned(buffer.Length, channelCount) && Aligned(writePos, channelCount)
      requires writePos < buffer.Length && left > 0
      ensures 0 < count <= left && Samples(count, channelCount) <= Samples(left, channelCount)
      ensures writePos + Samples(count, channelCount) <= buffer.Length
    {
      AlignedDifference(buffer.Length, writePos, channelCount);
      AlignedDivides(buffer.Length - writePos, channelCount);
      var room := (buffer.Length - writePos) / channelCount;
      count := if left < room then left else room;
      SamplesLeq(count, room, channelCount);
      SamplesLeq(count, left, channelCount);
    }

    method AppendSpan(inputs: seq<seq<Sample>>, frame: nat, count: nat, ghost sofar: seq<Sample>)
      requires InSpans(sofar) && IsPlanar(inputs, frame + count, channelCount) && count > 0
      requires writePos + Samples(count, channelCount) <= buffer.Length
      requires |sofar| + Samples(count, channelCount) <= buffer.Length
      modifies this`writePos, buffer
      ensures InSpans(sofar + Interleaved(inputs, frame, count))
    {
      ghost var was, span := buffer[..], Interleaved(inputs, frame, count);
      WriteSpan(inputs, frame, count);
      ViewAppend(was, readPos, |sofar|, span);
      SamplesIsProduct(count, channelCount);
      SamplesAligned(count, channelCount);
      AdvanceWrite(count * channelCount, sofar, span);
    }

    /** The write cursor goes round at the end of the buffer. */
    method AdvanceWrite(k: nat, ghost sofar: seq<Sample>, ghost span: seq<Sample>)
      requires channelCount > 0 && Aligned(buffer.Length, channelCount) && Aligned(writePos, channelCount)
      requires readPos < buffer.Length && |sofar| + k <= buffer.Length && k == |span| > 0
      requires Aligned(readPos, channelCount) && Aligned(|sofar|, channelCount) && Aligned(k, channelCount)
      requires writePos == Wrap(readPos + |sofar|, buffer.Length) && writePos + k <= buffer.Length
      requires CircularView(buffer[..], readPos, |sofar| + k) == sofar + span
      modifies this`writePos
      ensures InSpans(sofar + span)
    {
      AlignedSum(|sofar|, k, channelCount);
      AlignedSum(writePos, k, channelCount);
      writePos := writePos + k;
      if writePos == buffer.Length {
        writePos := 0;
      }
    }

    /** Copies a span channel by channel. */
    method WriteSpan(inputs: seq<seq<Sample>>, frame: nat, count: nat)
      requires channelCount > 0 && IsPlanar(inputs, frame + count, channelCount)
      requires writePos + Samples(count, channelCount) <= buffer.Length
      modifies buffer
      ensures buffer[..] == Span(old(buffer[..]), writePos, Interleaved(inputs, frame, count))
    {
      var channels := channelCount;
      ghost var before, span := buffer[..], Interleaved(inputs, frame, count);
      ghost var done: set<nat> := {};
      for ch := 0 to channels
        invariant Written(buffer[..], before, writePos, span, done) && Covers(done, channels, count, ch, 0)
      {
        done := CopyChannel(inputs, frame, count, ch, before, done);
      }
      CoversAll(done, channels, count);
      AllWritten(buffer[..], before, writePos, span, done);
    }

    method CopyChannel(inputs: seq<seq<Sample>>, frame: nat, count: nat, ch: nat,
                       ghost before: seq<Sample>, ghost done: set<nat>)
      returns (ghost after: set<nat>)
      requires ch < channelCount && IsPlanar(inputs, frame + count, channelCount)
      requires Written(buffer[..], before, writePos, Interleaved(inputs, frame, count), done)
      requires Covers(done, channelCount, count, ch, 0)
      modifies buffer
      ensures Written(buffer[..], before, writePos, Interleaved(inputs, frame, count), after)
      ensures Covers(after, channelCount, count, ch + 1, 0)
    {
      var channels := channelCount;
      after := done;
      for i := 0 to count
        invariant Written(buffer[..], before, writePos, Interleaved(inputs, frame, count), after)
        invariant Covers(after, channels, count, ch, i)
      {
        InterleavedAt(inputs, frame, count, i, ch);
        SamplesIsProduct(i, channels);
        CopySample(i * channels + ch, inputs[ch][frame + i], before, Interleaved(inputs, frame, count), after);
        after := after + {Slot(channels, i, ch)};
      }
    }

    method CopySample(k: nat, v: Sample, ghost before: seq<Sample>, ghost span: seq<Sample>, ghost done: set<nat>)
      requires Written(buffer[..], before, writePos, span, done) && k < |span| && span[k] == v
      modifies buffer
      ensures Written(buffer[..], before, writePos, span, done + {k})
    {
      ghost var after := buffer[..][writePos + k := v];
      buffer[writePos + k] := v;
      assert buffer[..] == after;
    }
  }

  /** Fills frames of planar audio with zeros. */
  method Silence(outputs: array2<Sample>, from: nat, frames: nat)
    requires from <= frames <= outputs.Length1
    modifies outputs
    ensures forall k, c :: 0 <= k < outputs.Length1 && 0 <= c < outputs.Length0 ==>
      outputs[c, k] == if from <= k < frames then 0.0 else old(outputs[c, k])
  {
    for frame := from to frames
      invariant forall k, c :: 0 <= k < outputs.Length1 && 0 <= c < outputs.Length0 ==>
        outputs[c, k] == if from <= k < frame then 0.0 else old(outputs[c, k])
    {
      for ch := 0 to outputs.Length0
        invariant forall k, c :: 0 <= k < outputs.Length1 && 0 <= c < outputs.Length0 ==>
          outputs[c, k] == if from <= k < frame || (k == frame && c < ch) then 0.0 else old(outputs[c, k])
      {
        outputs[ch, frame] := 0.0;
      }
    }
  }

  /** A sample of a queue of frames, or silence after its end. */
  function SampleOf(q: seq<seq<Sample>>, k: nat, c: nat): Sample {
    if k < |q| && c < |q[k]| then q[k][c] else 0.0
  }

  /** What is heard of a sample: the frame in the queue, or silence after its end. */
  lemma SampleIs(q: seq<seq<Sample>>, n: nat, k: nat, c: nat)
    requires n <= |q| && forall i :: 0 <= i < |q| ==> c < |q[i]|
    ensures SampleOf(q[..n], k, c) == if k < n then q[k][c] else 0.0
  {}

  /** Counted from the newest frame: first the frames that were pushed, sample by sample, then those that were kept. */
  lemma PushedAt(kept: seq<seq<Sample>>, inputs: seq<seq<Sample>>, frames: nat, capacity: nat, j: nat, c: nat)
    requires IsPlanar(inputs, frames, |inputs|) && c < |inputs|
    ensures var q := Newest(kept + PlanarFrames(inputs, 0, frames), capacity);
      && |q| == (if |kept| + frames < capacity then |kept| + frames else capacity)
      && (j < |q| && j < frames ==> |q[|q| - 1 - j]| == |inputs| && q[|q| - 1 - j][c] == inputs[c][frames - 1 - j])
      && (frames <= j < |q| ==> q[|q| - 1 - j] == kept[|kept| + frames - 1 - j])
  {
    var all := kept + PlanarFrames(inputs, 0, frames);
    var q := Newest(all, capacity);
    assert q == all[|all| - |q|..];
  }

  /** The buffer with the first part of the input at position w, and what is left of it at the front. */
  ghost function TwoSpans(buf: seq<Sample>, w: nat, input: seq<Sample>, first: nat): (r: seq<Sample>)
    requires first <= |input| <= |buf| && w + first <= |buf|
    ensures |r| == |buf|
  {
    Span(Span(buf, w, input[..first]), 0, input[first..])
  }

  lemma AroundView(buf: seq<Sample>, r: nat, n: nat, input: seq<Sample>, first: nat)
    requires r < |buf| && n + |input| <= |buf| && n < |buf| && first <= |input|
    requires Wrap(r + n, |buf|) + first <= |buf| && (first < |input| ==> Wrap(r + n, |buf|) + first == |buf|)
    ensures CircularView(TwoSpans(buf, Wrap(r + n, |buf|), input, first), r, n + |input|)
      == CircularView(buf, r, n) + input
  {
    ViewAppendTwo(buf, r, n, input[..first], input[first..]);
    assert input[..first] + input[first..] == input;
  }

  lemma Rejoin(start: seq<Sample>, inputs: seq<seq<Sample>>, frame: nat, count: nat)
    requires IsPlanar(inputs, frame + count, |inputs|)
    ensures start + Interleaved(inputs, 0, frame) + Interleaved(inputs, frame, count)
      == start + Interleaved(inputs, 0, frame + count)
  {
    InterleavedSplit(inputs, 0, frame, count);
    assert start + Interleaved(inputs, 0, frame) + Interleaved(inputs, frame, count)
        == start + (Interleaved(inputs, 0, frame) + Interleaved(inputs, frame, count));
  }

  /** Of a span at position w exactly the samples in the set have been copied. */
  ghost predicate Written(buf: seq<Sample>, before: seq<Sample>, w: nat, span: seq<Sample>, done: set<nat>) {
    && |buf| == |before| && w + |span| <= |buf|
    && forall p :: 0 <= p < |buf| ==>
        buf[p] == if w <= p < w + |span| && p - w in done then span[p - w] else before[p]
  }

  /** The set has the channels before ch and the first n frames of ch. */
  ghost predicate Covers(done: set<nat>, channels: nat, count: nat, ch: nat, n: nat) {
    forall k: nat, c: nat :: k < count && (c < ch || (c == ch && k < n)) ==> Slot(channels, k, c) in done
  }

  lemma CoversAll(done: set<nat>, channels: nat, count: nat)
    requires channels > 0 && Covers(done, channels, count, channels, 0)
    ensures forall p: nat :: p < Samples(count, channels) ==> p in done
  {
    forall p: nat | p < Samples(count, channels) ensures p in done {
      var k, c := SlotOf(channels, count, p);
      assert Slot(channels, k, c) in done;
    }
  }

  lemma AllWritten(buf: seq<Sample>, before: seq<Sample>, w: nat, span: seq<Sample>, done: set<nat>)
    requires Written(buf, before, w, span, done) && forall p: nat :: p < |span| ==> p in done
    ensures buf == Span(before, w, span)
  {}

  lemma NewestAfterDrop(s: seq<Sample>, t: seq<Sample>, n: nat)
    requires |t| <= n
    ensures Newest(s, n - |t|) + t == Newest(s + t, n)
  {}

  lemma LastFramesStay(s: seq<Sample>, inputs: seq<seq<Sample>>, m: nat, n: nat)
    requires IsPlanar(inputs, m + n, |inputs|)
    ensures Newest(s + Interleaved(inputs, 0, m + n), Samples(n, |inputs|)) == Interleaved(inputs, m, n)
  {
    InterleavedSplit(inputs, 0, m, n);
    NewestIsSuffix(s, Interleaved(inputs, 0, m + n), Interleaved(inputs, 0, m), Interleaved(inputs, m, n));
  }

  lemma NewestIsSuffix(s: seq<Sample>, whole: seq<Sample>, t: seq<Sample>, u: seq<Sample>)
    requires whole == t + u
    ensures Newest(s + whole, |u|) == u
  {}

  /** Skipping older input makes no difference when the rest fills the buffer. */
  lemma NewestSkips(kept: seq<Sample>, input: seq<Sample>, from: nat, m: nat, n: nat)
    requires from + m <= |input| && (from == 0 || m == n)
    ensures Newest(kept + input[from..][..m], n) == Newest(kept + input[..from + m], n)
  {
    assert input[from..][..m] == input[from..from + m];
  }

  lemma WrapIsMod(i: nat, capacity: nat)
    requires 0 < capacity && i < 2 * capacity
    ensures i % capacity == Wrap(i, capacity)
  {}

  lemma ViewAt(buf: seq<Sample>, r: nat, n: nat, d: nat, j: nat)
    requires r < |buf| && n <= |buf| && d + j < n && Wrap(r + d, |buf|) + j < |buf|
    ensures CircularView(buf, r, n)[d + j] == buf[Wrap(r + d, |buf|) + j]
  {
    assert Wrap(r + (d + j), |buf|) == Wrap(r + d, |buf|) + j;
  }

  lemma FramesRead(s: seq<Sample>, n: nat, channels: nat)
    requires channels > 0 && Aligned(|s|, channels) && n <= |FramesOf(s, channels)|
    ensures forall k, c :: 0 <= k < n && 0 <= c < channels ==>
      Slot(channels, k, c) < |s| && SampleOf(FramesOf(s, channels)[..n], k, c) == s[Slot(channels, k, c)]
  {
    forall k, c | 0 <= k < n && 0 <= c < channels
      ensures Slot(channels, k, c) < |s| && SampleOf(FramesOf(s, channels)[..n], k, c) == s[Slot(channels, k, c)]
    {
      FramesOfAt(s, channels, k, c);
    }
  }
}
