/** The audio of one peer from packets to the host: decoder, resampler and ring together. */
module AudioPath {
  import opened Results
  import opened Sequences
  import opened Circular
  import opened AudioRing
  import opened PullModel
  import R = Resampler

  /** The decoder, if there is one, is any deterministic state machine; it makes no frames when it fails. */
  datatype Codec<!D(!new), !P(!new)> = Codec(present: bool, decode: (D, P) -> (D, seq<R.Frame>),
    conceal: D -> (D, seq<R.Frame>))

  /** A packet comes as a media frame, or by another way that is ignored after the first frame. */
  datatype Sent<P> = Sent(packet: P, fromFrame: bool)

  ghost predicate HasChannels<D(!new), P(!new)>(codec: Codec<D, P>, channels: nat) {
    && (forall d, p :: R.HaveChannels(codec.decode(d, p).1, channels))
    && (forall d :: R.HaveChannels(codec.conceal(d).1, channels))
  }

  /** The state of the decoder, whether a media frame was decoded, and what the resampler has heard. */
  datatype Source<D> = Source(decoder: D, frameSeen: bool, heard: seq<R.Frame>)

  /** Resamples what the decoder made. */
  ghost function Made<D>(setting: R.Setting, s: Source<D>, made: (D, seq<R.Frame>)): (Source<D>, seq<R.Frame>) {
    if made.1 == [] then (s.(decoder := made.0), [])
    else
      var (heard, out) := R.Resample(setting, s.heard, made.1);
      (s.(decoder := made.0, heard := heard), out)
  }

  predicate Ignores<D(!new), P(!new)>(codec: Codec<D, P>, frameSeen: bool, sent: Sent<P>) {
    !codec.present || (!sent.fromFrame && frameSeen)
  }

  ghost function Decoded<D(!new), P(!new)>(codec: Codec<D, P>, setting: R.Setting, s: Source<D>,
      sent: Sent<P>): (Source<D>, seq<R.Frame>)
  {
    if Ignores(codec, s.frameSeen, sent) then (s, [])
    else
      var made := codec.decode(s.decoder, sent.packet);
      Made(setting, s.(frameSeen := s.frameSeen || (sent.fromFrame && made.1 != [])), made)
  }

  ghost function Concealed<D(!new), P(!new)>(codec: Codec<D, P>, setting: R.Setting,
      s: Source<D>): (Source<D>, seq<R.Frame>)
  {
    if !codec.present then (s, []) else Made(setting, s, codec.conceal(s.decoder))
  }

  ghost function Decoding<D(!new), P(!new)>(codec: Codec<D, P>,
      setting: R.Setting): (Source<D>, Sent<P>) -> (Source<D>, seq<R.Frame>)
  {
    (s: Source<D>, sent: Sent<P>) => Decoded(codec, setting, s, sent)
  }

  ghost function Concealing<D(!new), P(!new)>(codec: Codec<D, P>,
      setting: R.Setting): Source<D> -> (Source<D>, seq<R.Frame>)
  {
    (s: Source<D>) => Concealed(codec, setting, s)
  }

  /** What a peer is made of. */
  datatype Part = CodecPart | ResamplerPart | BufferPart

  class PeerAudio<D(!new), P(!new)> {
    const codec: Codec<D, P>
    const channels: nat
    const resampler: R.LinearResampler
    const buffer: AudioRingBuffer
    const preFillFrames: nat
    var active: bool
    var decoder: D
    var onFrameDecodeSeen: bool
    var preFillReady: bool
    var frameCount: nat
    var decodeErrorCount: nat
    var plcFrameCount: nat
    ghost var made: seq<R.Frame>

    ghost predicate Sound(part: Part)
      reads resampler, buffer, buffer.buffer
    {
      match part
      case CodecPart => HasChannels(codec, channels) && channels > 0
      case ResamplerPart =>
        resampler.Valid() && resampler.Usable() && resampler.configured && resampler.channels == channels
      case BufferPart => buffer.Valid() && buffer.channelCount == channels && buffer.frameCapacity > 0
    }

    ghost predicate Valid()
      reads resampler, buffer, buffer.buffer
    {
      forall part :: Sound(part)
    }

    ghost function Setting(): R.Setting
      reads resampler
    {
      R.Setting(resampler.passthrough, resampler.step)
    }

    ghost function State(): Player<Source<D>, R.Frame>
      requires Valid()
      reads this, resampler, buffer, buffer.buffer
    {
      assert Sound(BufferPart);
      Player(Source(decoder, onFrameDecodeSeen, resampler.stream), buffer.Queue(), plcFrameCount, made)
    }

    ghost function Turns(when: nat -> Meanwhile<Sent<P>>): Step<Source<D>, R.Frame>
      reads this, resampler, buffer
    {
      Among(Decoding(codec, Setting()), Concealing(codec, Setting()), buffer.frameCapacity, when)
    }

    /** What a pull of so many frames would bring, with the packets that arrive meanwhile. */
    ghost function Coming(left: nat, when: nat -> Meanwhile<Sent<P>>, turn: nat): Pulled<Source<D>, R.Frame>
      requires Valid()
      reads this, resampler, buffer, buffer.buffer
    {
      Loop(Turns(when), State(), left, turn)
    }

    /** What the next turn of a pull brings. */
    ghost function NextTurn(left: nat, w: Meanwhile<Sent<P>>): Pulled<Source<D>, R.Frame>
      requires Valid()
      reads this, resampler, buffer, buffer.buffer
    {
      TurnAmong(Decoding(codec, Setting()), Concealing(codec, Setting()), buffer.frameCapacity, State(), left, w)
    }

    /** The state after some packets. */
    ghost function After(packets: seq<Sent<P>>): Player<Source<D>, R.Frame>
      requires Valid()
      reads this, resampler, buffer, buffer.buffer
    {
      Receive(Decoding(codec, Setting()), buffer.frameCapacity, State(), packets)
    }

    /** The state after a turn for another number of channels, which gets no frames but conceals. */
    ghost function Mistaken(w: Meanwhile<Sent<P>>): Player<Source<D>, R.Frame>
      requires Valid()
      reads this, resampler, buffer, buffer.buffer
    {
      var q := After(w.before);
      if w.closedBefore then q
      else
        var s := Receive(Decoding(codec, Setting()), buffer.frameCapacity, q, w.inside);
        if w.closedInside then s else Conceal(Concealing(codec, Setting()), buffer.frameCapacity, s)
    }

    /** The turn is the beginning of what is left of a pull. */
    lemma TurnAdvances(left: nat, sofar: seq<R.Frame>, whole: Pulled<Source<D>, R.Frame>,
                       when: nat -> Meanwhile<Sent<P>>, turn: nat)
      requires Valid() && left > 0 && whole == PullModel.After(sofar, Coming(left, when, turn))
      ensures GoesOn(Turns(when), whole, sofar, NextTurn(left, when(turn)), left, turn)
    {
      TurnIsBounded(Decoding(codec, Setting()), Concealing(codec, Setting()), buffer.frameCapacity, State(), left,
        when(turn));
      Advance(Turns(when), whole, sofar, State(), left, turn);
    }

    constructor (codec: Codec<D, P>, decoder: D, channels: nat, outputRate: real, capacityFrames: nat,
        preFillFrames: nat)
      requires HasChannels(codec, channels) && channels > 0 && outputRate > 0.0 && capacityFrames > 0
      ensures Valid() && fresh(resampler) && fresh(buffer) && fresh(buffer.buffer) && active
      ensures State() == Player(Source(decoder, false, []), [], 0, []) && buffer.frameCapacity == capacityFrames
    {
      this.codec, this.decoder, this.channels, this.preFillFrames := codec, decoder, channels, preFillFrames;
      var r := new R.LinearResampler();
      var b := new AudioRingBuffer(capacityFrames, channels);
      resampler, buffer, active, onFrameDecodeSeen := r, b, true, false;
      preFillReady, frameCount, decodeErrorCount, plcFrameCount, made := false, 0, 0, 0, [];
      new;
      r.Configure(48000.0, outputRate, channels);
    }

    method Resample(frames: seq<R.Frame>) returns (out: seq<R.Frame>)
      requires Valid() && R.HaveChannels(frames, channels)
      modifies resampler
      ensures Valid() && Setting() == old(Setting()) && R.HaveChannels(out, channels)
      ensures (resampler.stream, out) == R.Resample(old(Setting()), old(resampler.stream), frames)
    {
      ghost var heard, setting := resampler.stream, Setting();
      assert Sound(CodecPart) && Sound(ResamplerPart) && Sound(BufferPart);
      out := resampler.ProcessInterleaved(frames, channels);
      ResampledBlock(setting, heard, resampler.stream, frames, out, channels);
    }

    method Push(out: seq<R.Frame>)
      requires Valid() && R.HaveChannels(out, channels)
      modifies buffer, buffer.buffer
      ensures Valid() && buffer.buffer == old(buffer.buffer) && buffer.frameCapacity == old(buffer.frameCapacity)
      ensures State().queue == Newest(old(State()).queue + out, buffer.frameCapacity)
    {
      assert Sound(CodecPart) && Sound(ResamplerPart) && Sound(BufferPart);
      var outFrames := |out|;
      if outFrames > 0 {
        FramesOfFlatten(out, channels);
        assert Flatten(out)[..Samples(outFrames, channels)] == Flatten(out);
        buffer.PushInterleaved(Flatten(out), outFrames, channels);
      } else {
        buffer.QueueFits();
        assert old(State()).queue + out == old(State()).queue;
      }
    }

    /** Resamples a block that the decoder made, and appends the result to the ring. */
    method Queue(frames: seq<R.Frame>) returns (outFrames: nat)
      requires Valid() && R.HaveChannels(frames, channels)
      modifies this`made, resampler, buffer, buffer.buffer
      ensures Valid() && Setting() == old(Setting()) && buffer.buffer == old(buffer.buffer)
      ensures buffer.frameCapacity == old(buffer.frameCapacity)
      ensures var (heard, out) := R.Resample(old(Setting()), old(resampler.stream), frames);
        && outFrames == |out|
        && State() == old(Enqueue(State(), buffer.frameCapacity, Source(decoder, onFrameDecodeSeen, heard), out))
    {
      var out := Resample(frames);
      outFrames := |out|;
      Push(out);
      made := made + out;
    }

    // ----- Packets -----

    /** Decodes a packet, and queues what it makes; not after the peer has been closed. */
    method DecodeAndQueueAudio(sent: Sent<P>, shuttingDown: bool) returns (queued: bool)
      requires Valid()
      modifies this`decoder, this`onFrameDecodeSeen, this`preFillReady, this`frameCount, this`decodeErrorCount
      modifies this`made, resampler, buffer, buffer.buffer
      ensures Valid() && Setting() == old(Setting()) && buffer.buffer == old(buffer.buffer)
      ensures buffer.frameCapacity == old(buffer.frameCapacity)
      ensures State() == if shuttingDown || !active then old(State())
        else Happen(Decoding(codec, old(Setting())), Concealing(codec, old(Setting())), old(buffer.frameCapacity),
                    old(State()), Packet(sent)).player
      ensures queued <==> |State().made| > |old(State()).made|
      ensures preFillReady <==> old(preFillReady) || (queued && |State().queue| >= preFillFrames)
    {
      assert Sound(CodecPart) && Sound(ResamplerPart) && Sound(BufferPart);
      buffer.QueueFits();
      if shuttingDown || !active {
        return false;
      }
      if !codec.present || (!sent.fromFrame && onFrameDecodeSeen) {
        EnqueueNothing(State(), buffer.frameCapacity, State().source);
        return false;
      }
      queued := DecodePacket(sent);
    }

    /** Decodes a packet that is not ignored. */
    method DecodePacket(sent: Sent<P>) returns (queued: bool)
      requires Valid() && !Ignores(codec, onFrameDecodeSeen, sent) && |State().queue| <= buffer.frameCapacity
      modifies this`decoder, this`onFrameDecodeSeen, this`preFillReady, this`frameCount, this`decodeErrorCount
      modifies this`made, resampler, buffer, buffer.buffer
      ensures Valid() && Setting() == old(Setting()) && buffer.buffer == old(buffer.buffer)
      ensures buffer.frameCapacity == old(buffer.frameCapacity)
      ensures State() == Happen(Decoding(codec, old(Setting())), Concealing(codec, old(Setting())),
        old(buffer.frameCapacity),
                                old(State()), Packet(sent)).player
      ensures queued <==> |State().made| > |old(State()).made|
      ensures preFillReady <==> old(preFillReady) || (queued && |State().queue| >= preFillFrames)
    {
      assert Sound(CodecPart) && Sound(ResamplerPart) && Sound(BufferPart);
      var (d, frames) := codec.decode(decoder, sent.packet);
      ghost var before := State();
      decoder := d;
      if |frames| > 0 {
        frameCount := frameCount + 1;
        onFrameDecodeSeen := onFrameDecodeSeen || sent.fromFrame;
        queued := QueueDecoded(frames);
      } else {
        decodeErrorCount := decodeErrorCount + 1;
        queued := false;
        EnqueueNothing(before, buffer.frameCapacity, State().source);
      }
    }

    /** Queues a decoded block; the peer is ready once enough is queued. */
    method QueueDecoded(frames: seq<R.Frame>) returns (queued: bool)
      requires Valid() && R.HaveChannels(frames, channels)
      modifies this`preFillReady, this`made, resampler, buffer, buffer.buffer
      ensures Valid() && Setting() == old(Setting()) && buffer.buffer == old(buffer.buffer)
      ensures buffer.frameCapacity == old(buffer.frameCapacity)
      ensures var (heard, out) := R.Resample(old(Setting()), old(resampler.stream), frames);
        && (queued <==> out != [])
        && State() == old(Enqueue(State(), buffer.frameCapacity, Source(decoder, onFrameDecodeSeen, heard), out))
      ensures queued <==> |State().made| > |old(State()).made|
      ensures preFillReady <==> old(preFillReady) || (queued && |State().queue| >= preFillFrames)
    {
      var outFrames := Queue(frames);
      queued := outFrames > 0;
      if queued {
        assert Sound(BufferPart);
        var available := buffer.AvailableFrames(channels);
        preFillReady := preFillReady || available >= preFillFrames;
      }
    }

    /** The packets that other threads decode. */
    method ReceiveAll(packets: seq<Sent<P>>)
      requires Valid() && active
      modifies this`decoder, this`onFrameDecodeSeen, this`preFillReady, this`frameCount, this`decodeErrorCount
      modifies this`made, resampler, buffer, buffer.buffer
      ensures Valid() && Setting() == old(Setting()) && buffer.buffer == old(buffer.buffer)
      ensures buffer.frameCapacity == old(buffer.frameCapacity) && State() == old(After(packets))
    {
      for i := 0 to |packets|
        invariant Valid() && Setting() == old(Setting()) && buffer.buffer == old(buffer.buffer)
        invariant buffer.frameCapacity == old(buffer.frameCapacity) && State() == old(After(packets[..i]))
      {
        assert packets[..i + 1][..i] == packets[..i];
        var queued := DecodeAndQueueAudio(packets[i], false);
      }
      assert packets[..|packets|] == packets;
    }

    // ----- Pulls -----

    /** Makes up a block for what is missing; without a decoder, frames or output there is none. */
    method ConcealLoss() returns (concealed: bool)
      requires Valid()
      modifies this`decoder, this`plcFrameCount, this`made, resampler, buffer, buffer.buffer
      ensures Valid() && Setting() == old(Setting()) && buffer.buffer == old(buffer.buffer)
      ensures buffer.frameCapacity == old(buffer.frameCapacity)
      ensures State() == Conceal(Concealing(codec, old(Setting())), old(buffer.frameCapacity), old(State()))
      ensures concealed <==> plcFrameCount > old(plcFrameCount)
    {
      if !codec.present {
        return false;
      }
      assert Sound(CodecPart) && Sound(ResamplerPart) && Sound(BufferPart);
      var (d, frames) := codec.conceal(decoder);
      ghost var before := State();
      buffer.QueueFits();
      decoder := d;
      if |frames| == 0 {
        return false;
      }
      var outFrames := Queue(frames);
      if outFrames == 0 {
        EnqueueNothing(before, buffer.frameCapacity, State().source);
        return false;
      }
      plcFrameCount := plcFrameCount + 1;
      return true;
    }

    /** Takes what the ring has, which is nothing for a wrong number of channels. */
    method PopInto(temp: array2<Sample>, left: nat, channels: nat) returns (n: nat)
      requires Valid() && channels > 0 && temp.Length0 == channels && temp.Length1 >= left
      modifies buffer, temp
      ensures Valid() && buffer.buffer == old(buffer.buffer) && buffer.frameCapacity == old(buffer.frameCapacity)
      ensures var r := Pop(old(State()), left);
        if channels == this.channels then
          && n == |r.frames| && State() == r.player
          && forall k, c :: 0 <= k < n && 0 <= c < channels ==> temp[c, k] == SampleOf(r.frames, k, c)
        else n == 0 && State() == old(State())
    {
      assert Sound(CodecPart) && Sound(ResamplerPart) && Sound(BufferPart);
      n := buffer.Pop(temp, left, channels);
    }

    /** One turn of the loop over the ring and the decoder, while packets arrive and the peer may be closed. */
    method NextFrames(temp: array2<Sample>, left: nat, channels: nat, w: Meanwhile<Sent<P>>) returns (n: nat)
      requires Valid() && active && channels > 0 && temp.Length0 == channels && temp.Length1 >= left > 0
      modifies this, resampler, buffer, buffer.buffer, temp
      ensures Valid() && Setting() == old(Setting()) && (n > 0 ==> active)
      ensures buffer.buffer == old(buffer.buffer) && buffer.frameCapacity == old(buffer.frameCapacity)
      ensures channels != this.channels ==> n == 0 && State() == old(Mistaken(w))
      ensures channels == this.channels ==>
        var t := old(NextTurn(left, w));
        && n == |t.frames| && State() == t.player
        && forall k, c :: 0 <= k < n && 0 <= c < channels ==> temp[c, k] == SampleOf(t.frames, k, c)
    {
      ReceiveAll(w.before);
      active := !w.closedBefore;
      if !active {
        return 0;
      }
      n := PopInto(temp, left, channels);
      if n == 0 {
        n := NextLocked(temp, left, channels, w);
      }
    }

    /** The part of the turn under the lock of the decoder. */
    method NextLocked(temp: array2<Sample>, left: nat, channels: nat, w: Meanwhile<Sent<P>>) returns (n: nat)
      requires Valid() && active && channels > 0 && temp.Length0 == channels && temp.Length1 >= left > 0
      modifies this, resampler, buffer, buffer.buffer, temp
      ensures Valid() && Setting() == old(Setting()) && (n > 0 ==> active)
      ensures buffer.buffer == old(buffer.buffer) && buffer.frameCapacity == old(buffer.frameCapacity)
      ensures channels != this.channels ==>
        var s := old(After(w.inside));
        && n == 0
        && State() == if w.closedInside then s else Conceal(Concealing(codec, old(Setting())),
          old(buffer.frameCapacity), s)
      ensures channels == this.channels ==>
        var s := old(After(w.inside));
        var t := if w.closedInside then Pulled([], s)
                 else Turn(Concealing(codec, old(Setting())), old(buffer.frameCapacity), s, left);
        && n == |t.frames| && State() == t.player
        && forall k, c :: 0 <= k < n && 0 <= c < channels ==> temp[c, k] == SampleOf(t.frames, k, c)
    {
      ReceiveAll(w.inside);
      active := !w.closedInside;
      if !active {
        return 0;
      }
      n := PopInto(temp, left, channels);
      if n == 0 {
        var concealed := ConcealLoss();
        if !concealed {
          return 0;
        }
        n := PopInto(temp, left, channels);
      }
    }

    /** What the peer plays of so many frames, and how it is afterwards. */
    ghost function Due(left: nat, channels: nat, when: nat -> Meanwhile<Sent<P>>, turn: nat): Pulled<Source<D>, R.Frame>
      requires Valid()
      reads this, resampler, buffer, buffer.buffer
    {
      if !active || left == 0 then Pulled([], State())
      else if channels == this.channels then Coming(left, when, turn)
      else Pulled([], Mistaken(when(turn)))
    }

    /** What has been played, and what is still due. */
    ghost function Whole(sofar: seq<R.Frame>, left: nat, channels: nat, when: nat -> Meanwhile<Sent<P>>, turn: nat):
      Pulled<Source<D>, R.Frame>
      requires Valid()
      reads this, resampler, buffer, buffer.buffer
    {
      PullModel.After(sofar, Due(left, channels, when, turn))
    }

    lemma NothingTaken(left: nat, channels: nat, when: nat -> Meanwhile<Sent<P>>)
      requires Valid()
      ensures Due(left, channels, when, 0) == Whole([], left, channels, when, 0)
    {
      var whole := Due(left, channels, when, 0);
      assert [] + whole.frames == whole.frames;
    }

    lemma NothingLeft(whole: Pulled<Source<D>, R.Frame>, sofar: seq<R.Frame>, left: nat, channels: nat,
                      when: nat -> Meanwhile<Sent<P>>, turn: nat)
      requires Valid() && whole == Whole(sofar, left, channels, when, turn) && (left == 0 || !active)
      ensures whole == Pulled(sofar, State())
    {
      assert sofar + [] == sofar;
    }

    /** Nothing is missing when the decoder makes up enough, whatever packets arrive. */
    lemma NothingMissing(frames: nat, channels: nat, when: nat -> Meanwhile<Sent<P>>)
      requires Valid() && active && channels == this.channels && Suffices(codec, Setting()) && NeverClosed(when)
      ensures |Due(frames, channels, when, 0).frames| == frames
    {
      assert Sound(CodecPart) && Sound(ResamplerPart) && Sound(BufferPart);
      PullIsComplete(codec, Setting(), channels, buffer.frameCapacity, State(), frames, when, 0);
    }

    /** Adds what the peer plays to the output; that is all that was asked for if the decoder makes up enough. */
    method PullPeer(outputs: array2<Sample>, temp: array2<Sample>, frames: nat, channels: nat,
        when: nat -> Meanwhile<Sent<P>>)
      returns (mixed: nat, ghost played: seq<R.Frame>)
      requires Valid() && channels > 0 && outputs != temp
      requires temp.Length0 == outputs.Length0 == channels && temp.Length1 >= frames && outputs.Length1 >= frames
      modifies this, resampler, buffer, buffer.buffer, temp, outputs
      ensures Valid() && Setting() == old(Setting())
      ensures buffer.buffer == old(buffer.buffer) && buffer.frameCapacity == old(buffer.frameCapacity)
      ensures mixed == |played| <= frames && Pulled(played, State()) == old(Due(frames, channels, when, 0))
      ensures old(active && channels == this.channels && Suffices(codec, Setting())) && NeverClosed(when)
        ==> mixed == frames
      ensures old(active) && channels == this.channels && frames > 0 ==>
        Pulled(played, State()) == old(Coming(frames, when, 0))
      ensures !old(active) ==> played == [] && State() == old(State())
      ensures channels != this.channels ==> played == []
      ensures forall k, c :: 0 <= k < outputs.Length1 && 0 <= c < channels ==>
        outputs[c, k] - SampleOf(played, k, c) == old(outputs[c, k])
    {
      mixed, played := 0, [];
      var turn, left: nat := 0, frames;
      ghost var whole, start := Due(frames, channels, when, 0), Snapshot(outputs);
      NothingTaken(frames, channels, when);
      if active && channels == this.channels && Suffices(codec, Setting()) && NeverClosed(when) {
        NothingMissing(frames, channels, when);
      }
      while mixed < frames
        invariant Valid() && Setting() == old(Setting())
        invariant buffer.buffer == old(buffer.buffer) && buffer.frameCapacity == old(buffer.frameCapacity)
        invariant mixed == |played| && mixed + left == frames
        invariant whole == Whole(played, left, channels, when, turn)
        invariant IsMixed(outputs, start, played)
        decreases frames - mixed
      {
        var framesRead;
        framesRead, left, turn, played := MixNext(outputs, temp, mixed, left, channels, when, turn, played, whole,
          start);
        if framesRead == 0 {
          return;
        }
        mixed := mixed + framesRead;
      }
      NothingLeft(whole, played, left, channels, when, turn);
    }

    /** Takes frames, unless the peer has been closed, and adds them behind those that were added before. */
    method MixNext(outputs: array2<Sample>, temp: array2<Sample>, at: nat, left: nat, channels: nat,
                   when: nat -> Meanwhile<Sent<P>>, turn: nat,
                   ghost sofar: seq<R.Frame>, ghost whole: Pulled<Source<D>, R.Frame>, ghost start: seq<seq<Sample>>)
      returns (n: nat, rest: nat, next: nat, ghost more: seq<R.Frame>)
      requires Valid() && channels > 0 && outputs != temp && left > 0 && at == |sofar|
      requires temp.Length0 == outputs.Length0 == channels && temp.Length1 >= left && outputs.Length1 >= at + left
      requires whole == Whole(sofar, left, channels, when, turn) && IsMixed(outputs, start, sofar)
      modifies this, resampler, buffer, buffer.buffer, temp, outputs
      ensures Valid() && Setting() == old(Setting())
      ensures buffer.buffer == old(buffer.buffer) && buffer.frameCapacity == old(buffer.frameCapacity)
      ensures rest == left - n && next == turn + 1 && |more| == |sofar| + n
      ensures if n == 0 then whole == Pulled(more, State()) else whole == Whole(more, rest, channels, when, next)
      ensures IsMixed(outputs, start, more)
    {
      if !active {
        NothingLeft(whole, sofar, left, channels, when, turn);
        return 0, left, turn + 1, sofar;
      }
      ghost var frames;
      n, rest, next, frames := PullNext(temp, left, channels, when, turn, sofar, whole);
      more := sofar + frames;
      AddFrames(outputs, temp, at, n, sofar, frames);
    }

    /** The next turn of a pull of which some frames have been taken. */
    method PullNext(temp: array2<Sample>, left: nat, channels: nat, when: nat -> Meanwhile<Sent<P>>, turn: nat,
                    ghost sofar: seq<R.Frame>, ghost whole: Pulled<Source<D>, R.Frame>)
      returns (n: nat, rest: nat, next: nat, ghost frames: seq<R.Frame>)
      requires Valid() && active && channels > 0 && temp.Length0 == channels && temp.Length1 >= left > 0
      requires whole == Whole(sofar, left, channels, when, turn)
      modifies this, resampler, buffer, buffer.buffer, temp
      ensures Valid() && Setting() == old(Setting())
      ensures buffer.buffer == old(buffer.buffer) && buffer.frameCapacity == old(buffer.frameCapacity)
      ensures n == |frames| <= left && rest == left - n && next == turn + 1
      ensures if n == 0 then whole == Pulled(sofar + frames, State())
        else whole == Whole(sofar + frames, rest, channels, when, next)
      ensures forall k, c :: 0 <= k < n && 0 <= c < channels ==> temp[c, k] == SampleOf(frames, k, c)
    {
      frames := [];
      ghost var t, turns := NextTurn(left, when(turn)), Turns(when);
      if channels == this.channels {
        frames := t.frames;
        TurnAdvances(left, sofar, whole, when, turn);
      }
      n := NextFrames(temp, left, channels, when(turn));
      rest, next := left - n, turn + 1;
      if n > 0 {
        AfterTurn(turns, whole, sofar, t, left, turn, rest, next);
        StillDue(sofar + frames, rest, channels, when, next);
      }
    }

    lemma StillDue(sofar: seq<R.Frame>, left: nat, channels: nat, when: nat -> Meanwhile<Sent<P>>, turn: nat)
      requires Valid() && active && channels == this.channels
      ensures Whole(sofar, left, channels, when, turn) == PullModel.After(sofar, Loop(Turns(when), State(), left, turn))
    {}
  }

  ghost function Snapshot(a: array2<Sample>): seq<seq<Sample>>
    reads a
  {
    seq(a.Length0, c requires 0 <= c < a.Length0 reads a => seq(a.Length1,
      k requires 0 <= k < a.Length1 reads a => a[c, k]))
  }

  /** The frames have been added to what was there before. */
  ghost predicate IsMixed(a: array2<Sample>, start: seq<seq<Sample>>, played: seq<R.Frame>)
    reads a
  {
    && |start| == a.Length0 && (forall c :: 0 <= c < |start| ==> |start[c]| == a.Length1)
    && forall k, c :: 0 <= k < a.Length1 && 0 <= c < a.Length0 ==> a[c, k] == start[c][k] + SampleOf(played, k, c)
  }

  /** Adds frames to the output behind those that were added before. */
  method AddFrames(outputs: array2<Sample>, temp: array2<Sample>, at: nat, n: nat, ghost sofar: seq<R.Frame>,
      ghost frames: seq<R.Frame>)
    requires outputs != temp && temp.Length0 == outputs.Length0 && n <= temp.Length1 && at + n <= outputs.Length1
    requires at == |sofar| && n == |frames|
    requires forall k, c :: 0 <= k < n && 0 <= c < temp.Length0 ==> temp[c, k] == SampleOf(frames, k, c)
    modifies outputs
    ensures forall k, c :: 0 <= k < outputs.Length1 && 0 <= c < outputs.Length0 ==>
      outputs[c, k] - SampleOf(sofar + frames, k, c) == old(outputs[c, k]) - SampleOf(sofar, k, c)
  {
    for ch := 0 to outputs.Length0
      invariant forall k, c :: 0 <= k < outputs.Length1 && 0 <= c < outputs.Length0 ==>
        outputs[c, k] == old(outputs[c, k]) + if c < ch && at <= k < at + n then temp[c, k - at] else 0.0
    {
      for i := 0 to n
        invariant forall k, c :: 0 <= k < outputs.Length1 && 0 <= c < outputs.Length0 ==>
          outputs[c, k] == old(outputs[c, k])
            + if (c < ch && at <= k < at + n) || (c == ch && at <= k < at + i) then temp[c, k - at] else 0.0
      {
        outputs[ch, at + i] := outputs[ch, at + i] + temp[ch, i];
      }
    }
  }

  // ----- All peers together -----

  /** What the peers play together. */
  function Mix(played: seq<seq<R.Frame>>, k: nat, c: nat): Sample {
    if played == [] then 0.0 else Mix(played[..|played| - 1], k, c) + SampleOf(played[|played| - 1], k, c)
  }

  function Longest(played: seq<seq<R.Frame>>): nat {
    if played == [] then 0
    else
      var before, last := Longest(played[..|played| - 1]), |played[|played| - 1]|;
      if before < last then last else before
  }

  /** Everything that belongs to a peer. */
  ghost function Parts<D(!new), P(!new)>(p: PeerAudio<D, P>): set<object>
    reads p.buffer
  {
    {p, p.resampler, p.buffer, p.buffer.buffer}
  }

  /** No two of the peers share anything. */
  ghost predicate Apart<D(!new), P(!new)>(peers: seq<PeerAudio<D, P>>)
    reads set p | p in peers :: p.buffer
  {
    forall i, j :: 0 <= i < |peers| && 0 <= j < |peers| && i != j ==> Parts(peers[i]) !! Parts(peers[j])
  }

  /** What other threads do to each peer while it is pulled. */
  type Schedule<!P> = seq<nat -> Meanwhile<Sent<P>>>

  /** What a peer does in a pull: it plays once enough is queued. */
  ghost function Share<D(!new), P(!new)>(p: PeerAudio<D, P>, frames: nat, channels: nat,
      when: nat -> Meanwhile<Sent<P>>):
    Option<Pulled<Source<D>, R.Frame>>
    reads p, p.resampler, p.buffer, p.buffer.buffer
  {
    if !p.Valid() then None
    else if p.preFillReady then Some(p.Due(frames, channels, when, 0))
    else Some(Pulled([], p.State()))
  }

  ghost function Now<D(!new), P(!new)>(p: PeerAudio<D, P>): Option<Player<Source<D>, R.Frame>>
    reads p, p.resampler, p.buffer, p.buffer.buffer
  {
    if p.Valid() then Some(p.State()) else None
  }

  /** A peer has played its share. */
  ghost predicate HasPlayed<D>(share: Option<Pulled<Source<D>, R.Frame>>, played: seq<R.Frame>,
      now: Option<Player<Source<D>, R.Frame>>)
  {
    now.Some? && share == Some(Pulled(played, now.value))
  }

  ghost function Shares<D(!new), P(!new)>(peers: seq<PeerAudio<D, P>>, frames: nat, channels: nat, whens: Schedule<P>):
    (s: seq<Option<Pulled<Source<D>, R.Frame>>>)
    requires |whens| == |peers|
    reads set p | p in peers :: p, set p | p in peers :: p.resampler
    reads set p | p in peers :: p.buffer, set p | p in peers :: p.buffer.buffer
    ensures |s| == |peers| && forall i :: 0 <= i < |peers| ==> s[i] == Share(peers[i], frames, channels, whens[i])
  {
    if peers == [] then []
    else
      var n := |peers| - 1;
      assert peers[n] in peers && forall p :: p in peers[..n] ==> p in peers;
      Shares(peers[..n], frames, channels, whens[..n]) + [Share(peers[n], frames, channels, whens[n])]
  }

  /** The peers from j on are as they were, those before have played their shares. */
  ghost predicate PlayedBelow<D(!new), P(!new)>(peers: seq<PeerAudio<D, P>>, frames: nat, channels: nat,
      whens: Schedule<P>, shares: seq<Option<Pulled<Source<D>, R.Frame>>>, played: seq<seq<R.Frame>>, j: nat)
    requires |whens| == |shares| == |peers|
    reads set p | p in peers :: p, set p | p in peers :: p.resampler
    reads set p | p in peers :: p.buffer, set p | p in peers :: p.buffer.buffer
  {
    && |played| == j <= |peers|
    && (forall i :: 0 <= i < j ==> (assert peers[i] in peers; HasPlayed(shares[i], played[i], Now(peers[i]))))
    && (forall i :: j <= i < |peers| ==>
          (assert peers[i] in peers; Share(peers[i], frames, channels, whens[i]) == shares[i]))
  }

  /** Adds what one of the peers plays, and leaves the others alone. */
  method PullOne<D(!new), P(!new)>(peers: seq<PeerAudio<D, P>>, j: nat, outputs: array2<Sample>, temp: array2<Sample>,
                                   frames: nat, channels: nat, whens: Schedule<P>)
    returns (mixed: nat, ghost played: seq<R.Frame>)
    requires channels > 0 && outputs != temp && temp.Length0 == outputs.Length0 == channels
    requires temp.Length1 >= frames && outputs.Length1 >= frames && |whens| == |peers|
    requires j < |peers| && Apart(peers) && peers[j].Valid()
    modifies Parts(peers[j]), outputs, temp
    ensures forall i :: 0 <= i < |peers| ==> Parts(peers[i]) == old(Parts(peers[i]))
    ensures forall i :: 0 <= i < |peers| && i != j ==>
      && Now(peers[i]) == old(Now(peers[i]))
      && Share(peers[i], frames, channels, whens[i]) == old(Share(peers[i], frames, channels, whens[i]))
    ensures HasPlayed(old(Share(peers[j], frames, channels, whens[j])), played, Now(peers[j])) && mixed == |played|
    ensures forall k, c :: 0 <= k < outputs.Length1 && 0 <= c < channels ==>
      outputs[c, k] - SampleOf(played, k, c) == old(outputs[c, k])
  {
    mixed, played := 0, [];
    if peers[j].preFillReady {
      mixed, played := peers[j].PullPeer(outputs, temp, frames, channels, whens[j]);
    }
  }

  /** The next peer, beside what the peers before it have played. */
  method PullNextPeer<D(!new), P(!new)>(peers: seq<PeerAudio<D, P>>, j: nat, outputs: array2<Sample>,
      temp: array2<Sample>, frames: nat, channels: nat, whens: Schedule<P>, longest: nat,
      ghost shares: seq<Option<Pulled<Source<D>, R.Frame>>>, ghost before: seq<seq<R.Frame>>)
    returns (maxFramesRead: nat, ghost played: seq<seq<R.Frame>>)
    requires channels > 0 && outputs != temp && temp.Length0 == outputs.Length0 == channels
    requires temp.Length1 >= frames && outputs.Length1 >= frames && |whens| == |shares| == |peers|
    requires j < |peers| && Apart(peers) && shares[j].Some? && longest == Longest(before)
    requires PlayedBelow(peers, frames, channels, whens, shares, before, j)
    modifies Parts(peers[j]), outputs, temp
    ensures forall i :: 0 <= i < |peers| ==> Parts(peers[i]) == old(Parts(peers[i]))
    ensures maxFramesRead == Longest(played) && PlayedBelow(peers, frames, channels, whens, shares, played, j + 1)
    ensures forall k, c :: 0 <= k < outputs.Length1 && 0 <= c < channels ==>
      outputs[c, k] - Mix(played, k, c) == old(outputs[c, k]) - Mix(before, k, c)
  {
    var mixed;
    ghost var more;
    assert Share(peers[j], frames, channels, whens[j]) == shares[j];
    mixed, more := PullOne(peers, j, outputs, temp, frames, channels, whens);
    maxFramesRead := if longest < mixed then mixed else longest;
    MixAppend(before, more);
    played := before + [more];
  }

  /** Adds up what the ready peers play, each as it would alone. */
  method PullIncomingAudio<D(!new), P(!new)>(peers: seq<PeerAudio<D, P>>, outputs: array2<Sample>, temp: array2<Sample>,
                                             frames: nat, channels: nat, whens: Schedule<P>)
    returns (maxFramesRead: nat, ghost played: seq<seq<R.Frame>>)
    requires channels > 0 && outputs != temp && temp.Length0 == outputs.Length0 == channels
    requires temp.Length1 >= frames && outputs.Length1 >= frames && |whens| == |peers|
    requires Apart(peers) && forall i :: 0 <= i < |peers| ==> peers[i].Valid()
    modifies set p, o | p in peers && o in Parts(p) :: o
    modifies outputs, temp
    ensures |played| == |peers| && maxFramesRead == Longest(played)
    ensures forall i :: 0 <= i < |peers| ==> HasPlayed(old(Share(peers[i], frames, channels, whens[i])), played[i],
      Now(peers[i]))
    ensures forall i :: 0 <= i < |peers| ==>
      peers[i].Valid() && Pulled(played[i], peers[i].State())
        == old(if peers[i].preFillReady then peers[i].Due(frames, channels, whens[i], 0)
               else Pulled([], peers[i].State()))
    ensures forall k, c :: 0 <= k < frames && 0 <= c < channels ==> outputs[c, k] == Mix(played, k, c)
  {
    ghost var shares := Shares(peers, frames, channels, whens);
    Silence(outputs, 0, frames);
    maxFramesRead, played := MixPeers(peers, outputs, temp, frames, channels, whens, shares);
  }

  method MixPeers<D(!new), P(!new)>(peers: seq<PeerAudio<D, P>>, outputs: array2<Sample>, temp: array2<Sample>,
                                    frames: nat, channels: nat, whens: Schedule<P>,
                                    ghost shares: seq<Option<Pulled<Source<D>, R.Frame>>>)
    returns (maxFramesRead: nat, ghost played: seq<seq<R.Frame>>)
    requires channels > 0 && outputs != temp && temp.Length0 == outputs.Length0 == channels
    requires temp.Length1 >= frames && outputs.Length1 >= frames && |whens| == |shares| == |peers| && Apart(peers)
    requires forall i :: 0 <= i < |shares| ==> shares[i].Some?
    requires PlayedBelow(peers, frames, channels, whens, shares, [], 0)
    modifies set p, o | p in peers && o in Parts(p) :: o
    modifies outputs, temp
    ensures maxFramesRead == Longest(played) && PlayedBelow(peers, frames, channels, whens, shares, played, |peers|)
    ensures forall k, c :: 0 <= k < frames && 0 <= c < channels ==>
              outputs[c, k] - Mix(played, k, c) == old(outputs[c, k])
  {
    maxFramesRead, played := 0, [];
    for j := 0 to |peers|
      invariant maxFramesRead == Longest(played)
      invariant forall i :: 0 <= i < |peers| ==> Parts(peers[i]) == old(Parts(peers[i]))
      invariant PlayedBelow(peers, frames, channels, whens, shares, played, j)
      invariant forall k, c :: 0 <= k < frames && 0 <= c < channels ==>
        outputs[c, k] - Mix(played, k, c) == old(outputs[c, k])
    {
      assert peers[j] in peers;
      maxFramesRead, played := PullNextPeer(peers, j, outputs, temp, frames, channels, whens, maxFramesRead, shares,
        played);
    }
  }

  lemma MixAppend(played: seq<seq<R.Frame>>, more: seq<R.Frame>)
    ensures Longest(played + [more]) == if Longest(played) < |more| then |more| else Longest(played)
    ensures forall k: nat, c: nat :: Mix(played + [more], k, c) == Mix(played, k, c) + SampleOf(more, k, c)
  {
    assert (played + [more])[..|played|] == played;
  }

  lemma ResampledBlock(setting: R.Setting, heard: seq<R.Frame>, longer: seq<R.Frame>, block: seq<R.Frame>,
      out: seq<R.Frame>, channels: nat)
    requires R.HaveChannels(heard, channels) && R.HaveChannels(block, channels) && R.HaveChannels(longer, channels)
    requires setting.passthrough ==> out == block && longer == heard
    requires !setting.passthrough ==> setting.step > 0.0 && longer == R.FedInterleaved(heard, block)
    requires !setting.passthrough ==> R.Output(longer, setting.step) == R.Output(heard, setting.step) + out
    ensures R.Resample(setting, heard, block) == (longer, out) && R.HaveChannels(out, channels)
  {
    if !setting.passthrough {
      R.OutputUniform(longer, setting.step, channels);
    }
  }

  // ----- Complete pulls -----

  /** The resampler advances, or passes its input on. */
  ghost predicate Runs(setting: R.Setting) {
    setting.passthrough || setting.step > 0.0
  }

  /** Every concealed block has at least one frame, and at least as many as the resampler needs for another output. */
  ghost predicate Suffices<D(!new), P(!new)>(codec: Codec<D, P>, setting: R.Setting) {
    && codec.present
    && forall d ::
         1 <= |codec.conceal(d).1| && (setting.passthrough || |codec.conceal(d).1| as real >= setting.step)
  }

  lemma ConcealmentYields<D(!new), P(!new)>(codec: Codec<D, P>, setting: R.Setting, channels: nat, s: Source<D>)
    requires HasChannels(codec, channels) && Runs(setting) && Suffices(codec, setting)
      && R.HaveChannels(s.heard, channels)
    ensures Concealed(codec, setting, s).1 != [] && R.HaveChannels(Concealed(codec, setting, s).0.heard, channels)
  {
    var block := codec.conceal(s.decoder).1;
    if !setting.passthrough { R.BlockBringsOutput(s.heard, block, channels, setting.step); }
  }

  lemma DecodingKeepsChannels<D(!new), P(!new)>(codec: Codec<D, P>, setting: R.Setting, channels: nat, s: Source<D>,
      sent: Sent<P>)
    requires HasChannels(codec, channels) && R.HaveChannels(s.heard, channels)
    ensures R.HaveChannels(Decoded(codec, setting, s, sent).0.heard, channels)
  {
    assert R.HaveChannels(codec.decode(s.decoder, sent.packet).1, channels);
  }

  lemma {:induction false} ReceivingKeepsChannels<D(!new), P(!new)>(
      codec: Codec<D, P>, setting: R.Setting, channels: nat, capacity: nat,
      p: Player<Source<D>, R.Frame>, packets: seq<Sent<P>>)
    requires HasChannels(codec, channels) && R.HaveChannels(p.source.heard, channels)
    ensures R.HaveChannels(Receive(Decoding(codec, setting), capacity, p, packets).source.heard, channels)
  {
    if packets != [] {
      var n := |packets| - 1;
      ReceivingKeepsChannels(codec, setting, channels, capacity, p, packets[..n]);
      DecodingKeepsChannels(codec, setting, channels,
        Receive(Decoding(codec, setting), capacity, p, packets[..n]).source, packets[n]);
    }
  }

  ghost predicate NeverClosed<P(!new)>(when: nat -> Meanwhile<P>) {
    forall k :: StaysOpen(when(k))
  }

  predicate StaysOpen<P>(w: Meanwhile<P>) {
    !w.closedBefore && !w.closedInside
  }

  lemma OpenTurnBrings<D(!new), P(!new)>(codec: Codec<D, P>, setting: R.Setting, channels: nat, capacity: nat,
                                         p: Player<Source<D>, R.Frame>, n: nat, w: Meanwhile<Sent<P>>)
    requires HasChannels(codec, channels) && Runs(setting) && Suffices(codec, setting) && capacity > 0 && n > 0
    requires R.HaveChannels(p.source.heard, channels) && StaysOpen(w)
    ensures var t := TurnAmong(Decoding(codec, setting), Concealing(codec, setting), capacity, p, n, w);
      0 < |t.frames| <= n && R.HaveChannels(t.player.source.heard, channels)
  {
    ReceivingKeepsChannels(codec, setting, channels, capacity, p, w.before);
    var q := Receive(Decoding(codec, setting), capacity, p, w.before);
    ReceivingKeepsChannels(codec, setting, channels, capacity, q, w.inside);
    ConcealmentYields(codec, setting, channels, Receive(Decoding(codec, setting), capacity, q, w.inside).source);
  }

  /** Whatever packets arrive meanwhile: a pull brings all the frames asked for. */
  lemma PullIsComplete<D(!new), P(!new)>(codec: Codec<D, P>, setting: R.Setting, channels: nat, capacity: nat,
      p: Player<Source<D>, R.Frame>, n: nat, when: nat -> Meanwhile<Sent<P>>, turn: nat)
    requires HasChannels(codec, channels) && Runs(setting) && Suffices(codec, setting) && capacity > 0
    requires R.HaveChannels(p.source.heard, channels) && NeverClosed(when)
    ensures |Loop(Among(Decoding(codec, setting), Concealing(codec, setting), capacity, when), p, n, turn).frames| == n
  {
    var step: Step<Source<D>, R.Frame> := Among(Decoding(codec, setting), Concealing(codec, setting), capacity, when);
    var good := (q: Player<Source<D>, R.Frame>) => R.HaveChannels(q.source.heard, channels);
    forall q: Player<Source<D>, R.Frame>, m: nat, k: nat | good(q) && m > 0 ensures TurnIsGood(good, step(q, m, k), m) {
      assert StaysOpen(when(k));
      OpenTurnBrings(codec, setting, channels, capacity, q, m, when(k));
    }
    LoopComplete(step, good, p, n, turn);
  }

  /** Pulling n and then m frames is pulling n + m, in frames, decoder state and concealments. */
  lemma PeerPullSplits<D(!new), P(!new)>(codec: Codec<D, P>, setting: R.Setting, channels: nat, capacity: nat,
                                         p: Player<Source<D>, R.Frame>, n: nat, m: nat)
    requires HasChannels(codec, channels) && Runs(setting) && Suffices(codec, setting) && capacity > 0
    requires R.HaveChannels(p.source.heard, channels)
    ensures Splits(Concealing(codec, setting), capacity, p, n, m)
  {
    var quiet := (k: nat) => Meanwhile<Sent<P>>.Meanwhile([], false, [], false);
    PullIsComplete(codec, setting, channels, capacity, p, n, quiet, 0);
    QuietPull(Decoding(codec, setting), Concealing(codec, setting), capacity, p, n, quiet, 0);
    SplitsExactly(Concealing(codec, setting), capacity, p, n, m);
  }

  // ----- A pull that stops early -----

  /** A decoder that conceals one frame at a time. */
  const SHORT_BLOCKS: Codec<int, int> := Codec(true, (d: int, p: int) => (d, []), (d: int) => (d + 1, [[0.0]]))

  /** Two frames in for each frame out. */
  const HALF_RATE := R.Setting.Setting(false, 2.0)

  /** A one-frame block after n others. */
  lemma ShortBlock(d: int, heard: seq<R.Frame>)
    requires R.HaveChannels(heard, 1)
    ensures var r := Concealed(SHORT_BLOCKS, HALF_RATE, Source(d, false, heard));
      && r.0 == Source(d + 1, false, R.FedInterleaved(heard, [[0.0]]))
      && (r.1 != [] <==> R.Phase(heard, 2.0) < 1.0) && |r.1| <= 1
  {
    R.BlockBringsOutput(heard, [[0.0]], 1, 2.0);
    R.OutputGrows(heard, [[0.0]], 1, 2.0);
    R.CountedTwice(|heard|);
  }

  /** A pull stops for lack of output, although the decoder could go on; pulling what is missing then does go on. */
  lemma StopsEarly()
    ensures var p := Player(Source(0, false, []), [], 0, []);
      && |Pull(Concealing(SHORT_BLOCKS, HALF_RATE), 10, p, 2).frames| == 1
      && !Splits(Concealing(SHORT_BLOCKS, HALF_RATE), 10, p, 2, 1)
  {
    var conceal: Source<int> -> (Source<int>, seq<R.Frame>) := Concealing(SHORT_BLOCKS, HALF_RATE);
    var p: Player<Source<int>, R.Frame> := Player(Source(0, false, []), [], 0, []);
    FirstBlocks();
    OneThenNone(conceal, 10, p);
    SplitsExactly(conceal, 10, p, 2, 1);
    ConcealmentCounts(Pull(conceal, 10, p, 2).player.source);
  }

  lemma FirstBlocks()
    ensures var r := Concealed(SHORT_BLOCKS, HALF_RATE, Source(0, false, []));
      |r.1| == 1 && Concealed(SHORT_BLOCKS, HALF_RATE, r.0).1 == []
  {
    ShortBlock(0, []);
    ShortBlock(1, [[0.0], [0.0]]);
    R.CountedTwice(1);
    assert R.FedInterleaved([], [[0.0]]) == [[0.0], [0.0]];
    assert R.Position(1, 2.0) == 2.0;
  }

  lemma ConcealmentCounts(s: Source<int>)
    ensures !Stuck(Concealing(SHORT_BLOCKS, HALF_RATE), s)
  {}

  // ----- All that is played is one resampled stream -----

  /** A packet is decoded unless there is no decoder, or it is a raw one after a frame was decoded. */
  lemma PacketIsHeard<D(!new), P(!new)>(codec: Codec<D, P>, setting: R.Setting, capacity: nat,
      p: Player<Source<D>, R.Frame>, sent: Sent<P>)
    requires |p.queue| <= capacity
    ensures var r := Happen(Decoding(codec, setting), Concealing(codec, setting), capacity, p, Packet(sent)).player;
      if codec.present && (sent.fromFrame || !p.source.frameSeen) then
        var (decoder, frames) := codec.decode(p.source.decoder, sent.packet);
        && r.source.decoder == decoder
        && r.source.frameSeen == (p.source.frameSeen || (sent.fromFrame && frames != []))
        && (frames == [] ==> r.made == p.made)
        && (frames != [] ==> r.made == p.made + R.Resample(setting, p.source.heard, frames).1)
      else r == p
  {
    assert p.queue + [] == p.queue && p.made + [] == p.made;
  }

  /** Event i of a run decodes a media frame. */
  ghost predicate DecodesFrame<D(!new), P(!new)>(codec: Codec<D, P>, setting: R.Setting, capacity: nat,
      p: Player<Source<D>, R.Frame>, events: seq<Event<Sent<P>>>, i: int)
  {
    && 0 <= i < |events| && codec.present && events[i].Packet? && events[i].packet.fromFrame
    && var before := Play(Decoding(codec, setting), Concealing(codec, setting), capacity, p, events[..i]).player;
       codec.decode(before.source.decoder, events[i].packet.packet).1 != []
  }

  /** In every run raw packets are refused from the first decoded media frame on, and not before. */
  lemma {:induction false} FrameSeenIn<D(!new), P(!new)>(codec: Codec<D, P>, setting: R.Setting, capacity: nat,
      p: Player<Source<D>, R.Frame>, events: seq<Event<Sent<P>>>)
    requires !p.source.frameSeen
    ensures Play(Decoding(codec, setting), Concealing(codec, setting), capacity, p, events).player.source.frameSeen
      <==> exists i :: DecodesFrame(codec, setting, capacity, p, events, i)
    decreases |events|
  {
    if events != [] {
      var init, last := WithoutLast(events);
      FrameSeenIn(codec, setting, capacity, p, init);
      PlayNext(Decoding(codec, setting), Concealing(codec, setting), capacity, p, init, last);
      assert events[..|init|] == init;
      forall i | 0 <= i < |init|
        ensures DecodesFrame(codec, setting, capacity, p, events, i)
          <==> DecodesFrame(codec, setting, capacity, p, init, i)
      {
        assert events[..i] == init[..i];
      }
      FrameSeenNext(codec, setting, capacity,
                    Play(Decoding(codec, setting), Concealing(codec, setting), capacity, p, init).player, last);
      assert DecodesFrame(codec, setting, capacity, p, events, |init|) ==>
        exists i :: DecodesFrame(codec, setting, capacity, p, events, i);
    }
  }

  lemma FrameSeenNext<D(!new), P(!new)>(codec: Codec<D, P>, setting: R.Setting, capacity: nat,
      p: Player<Source<D>, R.Frame>, e: Event<Sent<P>>)
    ensures Happen(Decoding(codec, setting), Concealing(codec, setting), capacity, p, e).player.source.frameSeen
      <==> p.source.frameSeen || (codec.present && e.Packet? && e.packet.fromFrame
                                  && codec.decode(p.source.decoder, e.packet.packet).1 != [])
  {}

  /** What an event makes the decoder give to the resampler. */
  ghost function Raw<D(!new), P(!new)>(codec: Codec<D, P>, s: Source<D>, starved: bool,
      e: Event<Sent<P>>): seq<R.Frame>
  {
    match e
    case Packet(sent) => if Ignores(codec, s.frameSeen, sent) then [] else codec.decode(s.decoder, sent.packet).1
    case Take(_) => []
    case TakeOrConceal(_) => if starved && codec.present then codec.conceal(s.decoder).1 else []
  }

  /** All decoded and concealed frames of a run, in order. */
  ghost function RawFrames<D(!new), P(!new)>(codec: Codec<D, P>, setting: R.Setting, capacity: nat,
                                             p: Player<Source<D>, R.Frame>, events: seq<Event<Sent<P>>>): seq<R.Frame> {
    if events == [] then []
    else
      var init, last := events[..|events| - 1], events[|events| - 1];
      var q := Play(Decoding(codec, setting), Concealing(codec, setting), capacity, p, init).player;
      RawFrames(codec, setting, capacity, p, init) + Raw(codec, q.source, |q.queue| == 0, last)
  }

  ghost function Heard(setting: R.Setting, raw: seq<R.Frame>): seq<R.Frame> {
    if setting.passthrough then [] else R.FedInterleaved([], raw)
  }

  /** The stream at the rate of the host. */
  ghost function AtHostRate(setting: R.Setting, raw: seq<R.Frame>): seq<R.Frame> {
    if setting.passthrough then raw
    else if setting.step > 0.0 && R.Uniform(R.FedInterleaved([], raw))
      then R.Output(R.FedInterleaved([], raw), setting.step)
    else []
  }

  /** A block continues the stream. */
  lemma BlockContinues(setting: R.Setting, channels: nat, raw: seq<R.Frame>, block: seq<R.Frame>)
    requires Runs(setting) && R.HaveChannels(raw, channels) && R.HaveChannels(block, channels)
    ensures var (heard, out) := R.Resample(setting, Heard(setting, raw), block);
      heard == Heard(setting, raw + block) && AtHostRate(setting, raw) + out == AtHostRate(setting, raw + block)
  {
    if !setting.passthrough {
      var heard := R.FedInterleaved([], raw);
      assert R.FedInterleaved(heard, block) == R.FedInterleaved([], raw + block);
      R.OutputGrows(heard, block, channels, setting.step);
    }
  }

  ghost predicate IsResampled<D>(setting: R.Setting, channels: nat, raw: seq<R.Frame>, p: Player<Source<D>, R.Frame>) {
    R.HaveChannels(raw, channels) && p.source.heard == Heard(setting, raw) && p.made == AtHostRate(setting, raw)
  }

  lemma MadeContinues<D>(setting: R.Setting, channels: nat, raw: seq<R.Frame>, s: Source<D>, made: (D, seq<R.Frame>))
    requires Runs(setting) && R.HaveChannels(raw, channels) && R.HaveChannels(made.1, channels)
      && s.heard == Heard(setting, raw)
    ensures var r := Made(setting, s, made);
      r.0.heard == Heard(setting, raw + made.1) && AtHostRate(setting, raw) + r.1 == AtHostRate(setting, raw + made.1)
  {
    if made.1 == [] {
      assert raw + [] == raw && AtHostRate(setting, raw) + [] == AtHostRate(setting, raw);
    } else {
      BlockContinues(setting, channels, raw, made.1);
    }
  }

  lemma EventContinues<D(!new), P(!new)>(codec: Codec<D, P>, setting: R.Setting, channels: nat, capacity: nat,
                                         raw: seq<R.Frame>, p: Player<Source<D>, R.Frame>, e: Event<Sent<P>>)
    requires HasChannels(codec, channels) && Runs(setting) && IsResampled(setting, channels, raw, p)
    ensures IsResampled(setting, channels, raw + Raw(codec, p.source, |p.queue| == 0, e),
                        Happen(Decoding(codec, setting), Concealing(codec, setting), capacity, p, e).player)
  {
    assert raw + [] == raw && p.made + [] == p.made;
    match e
    case Packet(sent) =>
      if !Ignores(codec, p.source.frameSeen, sent) {
        var made := codec.decode(p.source.decoder, sent.packet);
        assert R.HaveChannels(made.1, channels);
        MadeContinues(setting, channels, raw, p.source.(frameSeen := p.source.frameSeen
          || (sent.fromFrame && made.1 != [])), made);
      }
    case Take(_) =>
    case TakeOrConceal(_) =>
      if |p.queue| == 0 && codec.present {
        MadeContinues(setting, channels, raw, p.source, codec.conceal(p.source.decoder));
      }
  }

  lemma {:induction false} RunIsResampled<D(!new), P(!new)>(codec: Codec<D, P>, setting: R.Setting, channels: nat,
      capacity: nat, p: Player<Source<D>, R.Frame>, events: seq<Event<Sent<P>>>)
    requires HasChannels(codec, channels) && Runs(setting) && IsResampled(setting, channels, [], p)
    ensures IsResampled(setting, channels, RawFrames(codec, setting, capacity, p, events),
                        Play(Decoding(codec, setting), Concealing(codec, setting), capacity, p, events).player)
  {
    if events != [] {
      var init, last := events[..|events| - 1], events[|events| - 1];
      RunIsResampled(codec, setting, channels, capacity, p, init);
      EventContinues(codec, setting, channels, capacity, RawFrames(codec, setting, capacity, p, init),
                     Play(Decoding(codec, setting), Concealing(codec, setting), capacity, p, init).player, last);
    }
  }

  /**
    * Without overflow: what was played, followed by what is queued, is the resampling of all decoded and
    * concealed frames in order, as if they had come in one block, whatever the packets and the pulls.
    */
  lemma PlaysOneStream<D(!new), P(!new)>(codec: Codec<D, P>, setting: R.Setting, channels: nat, capacity: nat,
      decoder: D, events: seq<Event<Sent<P>>>)
    requires HasChannels(codec, channels) && Runs(setting)
    requires AllFit(Decoding(codec, setting), Concealing(codec, setting), capacity,
      Player(Source(decoder, false, []), [], 0, []), events)
    ensures var p := Player(Source(decoder, false, []), [], 0, []);
      var r := Play(Decoding(codec, setting), Concealing(codec, setting), capacity, p, events);
      r.frames + r.player.queue == AtHostRate(setting, RawFrames(codec, setting, capacity, p, events))
  {
    var p := Player(Source(decoder, false, []), [], 0, []);
    RunIsResampled(codec, setting, channels, capacity, p, events);
    PlaysInOrder(Decoding(codec, setting), Concealing(codec, setting), capacity, p, events);
  }
}
