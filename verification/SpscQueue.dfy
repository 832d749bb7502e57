/**
  * A queue between one producer and one consumer thread, in steps that each touch one shared variable:
  * every cursor that belongs to the other thread is loaded some time before it is used.
  */
module SpscQueue {

  const CAPACITY: nat := 8192

  /** Where the producer is in appending a block. */
  datatype Producer<T> =
    | Resting
    | KnowsWritten(offered: seq<T>, w: nat)
    | Writing(block: seq<T>, w: nat, done: nat)

  /** Where the consumer is in taking samples, or in skipping all there are. */
  datatype Consumer<T> =
    | Waiting
    | Skipping(to: nat)
    | KnowsRead(limit: nat, r: nat)
    | Copying(r: nat, count: nat, got: seq<T>)

  /** What became of an accepted sample. */
  datatype Fate<T> = Delivered(sample: T) | Discarded

  /**
    * The shared variables, the threads, and the history: all samples
    * accepted, and the fates of those before the read cursor.
    */
  datatype Queue<T> = Queue(samples: seq<T>, written: nat, read: nat, producer: Producer<T>, consumer: Consumer<T>,
                            accepted: seq<T>, fates: seq<Fate<T>>) {
    ghost predicate Inv() {
      && |samples| == CAPACITY && |accepted| == written && |fates| == read
      && read <= written <= read + CAPACITY
      && (forall p :: read <= p < written ==> samples[p % CAPACITY] == accepted[p])
      && (forall p :: 0 <= p < read && fates[p].Delivered? ==> fates[p].sample == accepted[p])
      && ProducerInv() && ConsumerInv()
    }

    ghost predicate ProducerInv()
      requires |samples| == CAPACITY
    {
      match producer
      case Resting => true
      case KnowsWritten(_, w) => w == written
      case Writing(block, w, done) =>
        && w == written && done <= |block| && w + |block| <= read + CAPACITY
        && forall i :: 0 <= i < done ==> samples[(w + i) % CAPACITY] == block[i]
    }

    ghost predicate ConsumerInv()
      requires |accepted| == written
    {
      match consumer
      case Waiting => true
      case Skipping(to) => read <= to <= written
      case KnowsRead(_, r) => r == read
      case Copying(r, count, got) =>
        r == read && r + count <= written && |got| <= count && got == accepted[r..r + |got|]
    }
  }

  ghost predicate Init<T>(q: Queue<T>) {
    && |q.samples| == CAPACITY && q.written == q.read == 0
    && q.producer.Resting? && q.consumer.Waiting? && q.accepted == [] && q.fates == []
  }

  // ----- The producer -----

  function BeginPut<T>(q: Queue<T>, block: seq<T>): Queue<T>
    requires q.producer.Resting?
  {
    q.(producer := KnowsWritten(block, q.written))
  }

  /** How much of the offered block fits, by the read cursor seen at this moment. */
  function LoadRead<T>(q: Queue<T>): Queue<T>
    requires q.Inv() && q.producer.KnowsWritten?
  {
    var room := CAPACITY - (q.producer.w - q.read);
    var count := if |q.producer.offered| < room then |q.producer.offered| else room;
    q.(producer := Writing(q.producer.offered[..count], q.producer.w, 0))
  }

  function WriteSample<T>(q: Queue<T>): Queue<T>
    requires |q.samples| == CAPACITY && q.producer.Writing? && q.producer.done < |q.producer.block|
  {
    var p := q.producer;
    q.(samples := q.samples[(p.w + p.done) % CAPACITY := p.block[p.done]], producer := p.(done := p.done + 1))
  }

  function PublishWritten<T>(q: Queue<T>): Queue<T>
    requires q.producer.Writing? && q.producer.done == |q.producer.block|
  {
    var p := q.producer;
    q.(written := p.w + |p.block|, producer := Resting, accepted := q.accepted + p.block)
  }

  // ----- The consumer -----

  function BeginSkip<T>(q: Queue<T>): Queue<T>
    requires q.consumer.Waiting?
  {
    q.(consumer := Skipping(q.written))
  }

  function FinishSkip<T>(q: Queue<T>): Queue<T>
    requires q.consumer.Skipping? && q.read <= q.consumer.to
  {
    q.(read := q.consumer.to, consumer := Waiting,
       fates := q.fates + seq(q.consumer.to - q.read, _ => Discarded))
  }

  function BeginTake<T>(q: Queue<T>, limit: nat): Queue<T>
    requires q.consumer.Waiting?
  {
    q.(consumer := KnowsRead(limit, q.read))
  }

  /** How much there is to take, by the write cursor seen at this moment. */
  function LoadWritten<T>(q: Queue<T>): Queue<T>
    requires q.consumer.KnowsRead? && q.consumer.r <= q.written
  {
    var c := q.consumer;
    q.(consumer := Copying(c.r, if c.limit < q.written - c.r then c.limit else q.written - c.r, []))
  }

  function CopySample<T>(q: Queue<T>): Queue<T>
    requires |q.samples| == CAPACITY && q.consumer.Copying? && |q.consumer.got| < q.consumer.count
  {
    var c := q.consumer;
    q.(consumer := c.(got := c.got + [q.samples[(c.r + |c.got|) % CAPACITY]]))
  }

  function PublishRead<T>(q: Queue<T>): Queue<T>
    requires q.consumer.Copying? && |q.consumer.got| == q.consumer.count
  {
    var c := q.consumer;
    q.(read := c.r + c.count, consumer := Waiting,
       fates := q.fates + seq(|c.got|, i requires 0 <= i < |c.got| => Delivered(c.got[i])))
  }

  // ----- Each step keeps the queue -----

  /** Positions less than a turn apart have different slots. */
  lemma SlotsDiffer(p: nat, q: nat)
    requires p < q < p + CAPACITY
    ensures p % CAPACITY != q % CAPACITY
  {}

  lemma BeginPutKeeps<T>(q: Queue<T>, block: seq<T>)
    requires q.Inv() && q.producer.Resting?
    ensures BeginPut(q, block).Inv()
  {}

  /** Dropping all that was seen leaves the queue as it was from there on. */
  lemma SkipKeeps<T>(q: Queue<T>)
    requires q.Inv()
    ensures q.consumer.Waiting? ==> BeginSkip(q).Inv()
    ensures q.consumer.Skipping? ==> FinishSkip(q).Inv()
  {}

  lemma TakeKeeps<T>(q: Queue<T>, limit: nat)
    requires q.Inv()
    ensures q.consumer.Waiting? ==> BeginTake(q, limit).Inv()
    ensures q.consumer.KnowsRead? ==> LoadWritten(q).Inv()
  {}

  /** The read cursor that the producer saw can only be behind: what fitted then fits now. */
  lemma LoadReadKeeps<T>(q: Queue<T>)
    requires q.Inv() && q.producer.KnowsWritten?
    ensures LoadRead(q).Inv() && LoadRead(q).producer.block <= q.producer.offered
    ensures q.written + |q.producer.offered| <= q.read + CAPACITY ==> LoadRead(q).producer.block == q.producer.offered
  {}

  /** A sample is never written over one that has not been read. */
  lemma WriteSampleKeeps<T>(q: Queue<T>)
    requires q.Inv() && q.producer.Writing? && q.producer.done < |q.producer.block|
    ensures WriteSample(q).Inv()
  {
    var p := q.producer;
    var n, r := p.w + p.done, WriteSample(q);
    forall k | q.read <= k < q.written ensures r.samples[k % CAPACITY] == q.accepted[k] {
      SlotsDiffer(k, n);
    }
    forall i | 0 <= i < p.done + 1 ensures r.samples[(p.w + i) % CAPACITY] == p.block[i] {
      if i < p.done { SlotsDiffer(p.w + i, n); }
    }
  }

  lemma PublishWrittenKeeps<T>(q: Queue<T>)
    requires q.Inv() && q.producer.Writing? && q.producer.done == |q.producer.block|
    ensures PublishWritten(q).Inv()
  {
    var p, r := q.producer, PublishWritten(q);
    forall k | r.read <= k < r.written ensures r.samples[k % CAPACITY] == r.accepted[k] {
      if k >= p.w {
        assert r.samples[(p.w + (k - p.w)) % CAPACITY] == p.block[k - p.w];
      }
    }
  }

  /** What is copied is what was accepted, whatever the producer does meanwhile. */
  lemma CopySampleKeeps<T>(q: Queue<T>)
    requires q.Inv() && q.consumer.Copying? && |q.consumer.got| < q.consumer.count
    ensures CopySample(q).Inv()
  {
    var c := q.consumer;
    var k := c.r + |c.got|;
    assert q.samples[k % CAPACITY] == q.accepted[k];
  }

  lemma PublishReadKeeps<T>(q: Queue<T>)
    requires q.Inv() && q.consumer.Copying? && |q.consumer.got| == q.consumer.count
    ensures PublishRead(q).Inv()
  {}
}
