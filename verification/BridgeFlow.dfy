/**
  * What passes through the bridge: how much every transfer moves, in every run, whatever the other thread does
  * between its steps.
  */
module BridgeFlow {
  import opened Arithmetic
  import opened Runs
  import opened SpscQueue
  import opened AudioBridge

  // ----- The consumer -----

  /**
    * A transfer of n samples that is under way from a read cursor on, and began with some samples to read.
    * It will take n samples, or all up to one of the given write cursors.
    */
  ghost predicate Takes<T>(q: Queue<T>, n: nat, from: nat, ready: nat, ends: set<nat>) {
    && q.read == from && from + ready <= q.written
    && match q.consumer
       case Waiting => true
       case Skipping(_) => false
       case KnowsRead(limit, r) => limit == n && r == from
       case Copying(r, count, got) =>
         r == from && count <= n && (count < n ==> ready <= count && from + count in ends)
  }

  /** What became of the samples between two read cursors. */
  ghost predicate AllDelivered<T>(q: Queue<T>, from: nat, to: nat) {
    && from <= to <= |q.fates| && to <= |q.accepted|
    && forall i :: from <= i < to ==> q.fates[i] == Delivered(q.accepted[i])
  }

  ghost predicate AllDiscarded<T>(q: Queue<T>, from: nat, to: nat) {
    from <= to <= |q.fates| && forall i :: from <= i < to ==> q.fates[i].Discarded?
  }

  /** n samples were taken, or all there were, and at least what was ready. */
  ghost predicate Took<T>(q: Queue<T>, n: nat, from: nat, ready: nat, ends: set<nat>) {
    && AllDelivered(q, from, q.read) && q.read <= from + n
    && (q.read < from + n ==> from + ready <= q.read && q.read in ends)
  }

  lemma PublishTook<T>(q: Queue<T>, n: nat, from: nat, ready: nat, ends: set<nat>)
    requires q.Inv() && Takes(q, n, from, ready, ends)
    requires q.consumer.Copying? && |q.consumer.got| == q.consumer.count
    ensures Took(PublishRead(q), n, from, ready, ends)
  {
    var c, r := q.consumer, PublishRead(q);
    forall i | from <= i < r.read ensures r.fates[i] == Delivered(r.accepted[i]) {
      assert r.fates[i] == Delivered(c.got[i - from]);
    }
  }

  /** How much there is to read. */
  function Ready<T>(q: Queue<T>): nat {
    if q.written < q.read then 0 else q.written - q.read
  }

  // ----- A play transfer -----

  /** A play transfer of n frames; if a discard was pending, it first drops at least what was ready. */
  ghost predicate Plays(b: Bridge, n: nat, from: nat, ready: nat, discards: bool, ends: set<nat>) {
    match b.host
    case Discarding(frames, _) =>
      discards && frames == n && b.rx.consumer.Waiting? && b.rx.read == from && from + ready <= b.rx.written
    case SkippingRx(frames, _) =>
      discards && frames == n && b.rx.consumer.Skipping? && b.rx.read == from && from + ready <= b.rx.consumer.to
    case Playing(frames, _) =>
      && frames == n
      && if discards then
           from + ready <= b.rx.read && AllDiscarded(b.rx, from, b.rx.read) && Takes(b.rx, n, b.rx.read, 0, ends)
         else Takes(b.rx, n, from, ready, ends)
    case _ => false
  }

  lemma PlayStarts(b: Bridge, n: nat, c: Bridge, ends: set<nat>)
    requires Inv(b) && Next(b, BeginPlay(n), c)
    ensures Plays(c, n, b.rx.read, Ready(b.rx), b.discardRx, ends)
  {}

  lemma PlayGoesOn(b: Bridge, a: Action, c: Bridge, n: nat, from: nat, ready: nat, discards: bool, ends: set<nat>)
    requires Inv(b) && Next(b, a, c) && Plays(b, n, from, ready, discards, ends) && !a.PublishRxRead?
    requires b.rx.written in ends
    ensures Plays(c, n, from, ready, discards, ends)
  {
    if a.StoreRxSkip? {
      SkipDiscards(b.rx, c.rx, from);
    } else if IsHosts(a) {
      HostPlays(b, a, c, n, from, ready, discards, ends);
    } else {
      WorkerLetsPlay(b, a, c);
    }
  }

  lemma HostPlays(b: Bridge, a: Action, c: Bridge, n: nat, from: nat, ready: nat, discards: bool, ends: set<nat>)
    requires Inv(b) && Next(b, a, c) && IsHosts(a) && !a.PublishRxRead? && !a.StoreRxSkip?
    requires Plays(b, n, from, ready, discards, ends) && b.rx.written in ends
    ensures Plays(c, n, from, ready, discards, ends)
  {}

  /** The worker does not touch what a play transfer works with, it only adds samples. */
  lemma WorkerLetsPlay(b: Bridge, a: Action, c: Bridge)
    requires Inv(b) && Next(b, a, c) && !IsHosts(a)
    ensures c.host == b.host && c.rx.consumer == b.rx.consumer && c.rx.read == b.rx.read && c.rx.fates == b.rx.fates
    ensures b.rx.written <= c.rx.written
  {}

  lemma SkipDiscards<T>(q: Queue<T>, r: Queue<T>, from: nat)
    requires q.Inv() && q.consumer.Skipping? && q.read == from && r == FinishSkip(q)
    ensures AllDiscarded(r, from, r.read) && r.read == q.consumer.to
  {}

  ghost function Writtens(states: seq<Bridge>, p: nat, k: nat): set<nat>
    requires k < |states|
  {
    set j | p < j <= k :: states[j].rx.written
  }

  /**
    * A play transfer of n frames from its begin to the publication of the read cursor. Without a pending discard it
    * delivers n samples, or all that were written at one of its steps, and at least what was ready when it began; with
    * one it first discards at least what was ready then.
    */
  lemma PlayTakes(states: seq<Bridge>, actions: seq<Action>, p: nat, k: nat, n: nat)
    requires IsRun(states, actions) && p < k < |actions|
    requires actions[p] == BeginPlay(n) && actions[k].PublishRxRead?
    requires forall i :: p < i < k ==> !actions[i].PublishRxRead?
    ensures var q, from, ready := states[k + 1].rx, states[p].rx.read, Ready(states[p].rx);
      if states[p].discardRx then
        exists start :: from + ready <= start <= q.read && AllDiscarded(q, from, start)
                        && Took(q, n, start, 0, Writtens(states, p, k))
      else Took(q, n, from, ready, Writtens(states, p, k))
  {
    var ends, from, ready := Writtens(states, p, k), states[p].rx.read, Ready(states[p].rx);
    var discards := states[p].discardRx;
    RunKeeps(states, actions, p);
    PlayStarts(states[p], n, states[p + 1], ends);
    var plays := (b: Bridge) => Plays(b, n, from, ready, discards, ends);
    forall i | p + 1 <= i < k && plays(states[i]) ensures plays(states[i + 1]) {
      RunKeeps(states, actions, i);
      RunKeeps(states, actions, i + 1);
      PlayGoesOn(states[i], actions[i], states[i + 1], n, from, ready, discards, ends);
    }
    EverAfter(plays, states, p + 1, k);
    RunKeeps(states, actions, k);
    PlayEnds(states[k], states[k + 1], n, from, ready, discards, ends);
  }

  lemma PlayEnds(b: Bridge, c: Bridge, n: nat, from: nat, ready: nat, discards: bool, ends: set<nat>)
    requires Inv(b) && Next(b, PublishRxRead, c) && Plays(b, n, from, ready, discards, ends)
    ensures if discards then
        exists start :: from + ready <= start <= c.rx.read && AllDiscarded(c.rx, from, start)
                        && Took(c.rx, n, start, 0, ends)
      else Took(c.rx, n, from, ready, ends)
  {
    if discards {
      PublishTook(b.rx, n, b.rx.read, 0, ends);
      assert AllDiscarded(c.rx, from, b.rx.read);
    } else {
      PublishTook(b.rx, n, from, ready, ends);
    }
  }

  // ----- What the host wants after it -----

  /** The host is about to store, or has stored, the cursor up to which it wants samples. */
  ghost predicate Asks(b: Bridge, target: nat, read: nat) {
    b.host == Asking(target) && b.rx.read == read
  }

  lemma AskingGoesOn(b: Bridge, a: Action, c: Bridge, target: nat, read: nat)
    requires Inv(b) && Next(b, a, c) && Asks(b, target, read) && !a.StoreWanted?
    ensures Asks(c, target, read)
  {
    if !IsHosts(a) { WorkerLetsPlay(b, a, c); }
  }

  /** The reserve is the larger of the minimum and four blocks, but no more than the capacity. */
  lemma ReserveIs(minimum: nat, frames: nat)
    ensures var r := Reserve(minimum, frames);
      && r <= CAPACITY && (r == CAPACITY || (r >= minimum && r >= 4 * frames))
      && (r == CAPACITY ==> minimum >= CAPACITY || 4 * frames >= CAPACITY)
      && (r < CAPACITY ==> r == minimum || r == 4 * frames)
  {}

  lemma PlayAsks(states: seq<Bridge>, actions: seq<Action>, k: nat, s: nat)
    requires IsRun(states, actions) && k < s < |actions| && actions[k].PublishRxRead? && actions[s].StoreWanted?
    requires forall i :: k < i < s ==> !actions[i].StoreWanted?
    ensures states[k].host.Playing?
    ensures var wanted, minimum, blocks :=
        states[s + 1].wanted - states[k + 1].rx.read, states[k].minimumReserve, 4 * states[k].host.frames;
      wanted == if CAPACITY <= minimum || CAPACITY <= blocks then CAPACITY
                else if minimum < blocks then blocks
                else minimum
  {
    var target, read := states[k + 1].host.target, states[k + 1].rx.read;
    RunKeeps(states, actions, k);
    ReserveIs(states[k].minimumReserve, states[k].host.frames);
    var asks := (b: Bridge) => Asks(b, target, read);
    forall i | k + 1 <= i < s && asks(states[i]) ensures asks(states[i + 1]) {
      RunKeeps(states, actions, i);
      AskingGoesOn(states[i], actions[i], states[i + 1], target, read);
    }
    EverAfter(asks, states, k + 1, s);
  }

  // ----- Taking input -----

  ghost predicate TakesInput(b: Bridge, from: nat, ready: nat, ends: set<nat>) {
    b.worker.TakingInput? && !b.tx.consumer.Waiting? && Takes(b.tx, CHUNK, from, ready, ends)
  }

  lemma InputGoesOn(b: Bridge, a: Action, c: Bridge, from: nat, ready: nat, ends: set<nat>)
    requires Inv(b) && Next(b, a, c) && TakesInput(b, from, ready, ends) && !a.PublishTxRead? && b.tx.written in ends
    ensures TakesInput(c, from, ready, ends)
  {
    if IsHosts(a) { HostLetsTake(b, a, c); }
  }

  /** The host does not touch what the worker takes input with, it only adds samples. */
  lemma HostLetsTake(b: Bridge, a: Action, c: Bridge)
    requires Inv(b) && Next(b, a, c) && IsHosts(a)
    ensures c.worker == b.worker && c.tx.consumer == b.tx.consumer && c.tx.read == b.tx.read && c.tx.fates == b.tx.fates
    ensures b.tx.written <= c.tx.written
  {}

  ghost function TxWrittens(states: seq<Bridge>, p: nat, k: nat): set<nat>
    requires k < |states|
  {
    set j | p < j <= k :: states[j].tx.written
  }

  /** Input is taken 512 samples at a time, or all that were written at a step, and at least what was ready. */
  lemma InputIsTaken(states: seq<Bridge>, actions: seq<Action>, p: nat, k: nat)
    requires IsRun(states, actions) && p < k < |actions| && actions[p].BeginTakeInput? && actions[k].PublishTxRead?
    requires forall i :: p < i < k ==> !actions[i].PublishTxRead?
    ensures Took(states[k + 1].tx, 512, states[p].tx.read, Ready(states[p].tx), TxWrittens(states, p, k))
  {
    var ends, from, ready := TxWrittens(states, p, k), states[p].tx.read, Ready(states[p].tx);
    RunKeeps(states, actions, p);
    var takes := (b: Bridge) => TakesInput(b, from, ready, ends);
    forall i | p + 1 <= i < k && takes(states[i]) ensures takes(states[i + 1]) {
      RunKeeps(states, actions, i);
      InputGoesOn(states[i], actions[i], states[i + 1], from, ready, ends);
    }
    EverAfter(takes, states, p + 1, k);
    RunKeeps(states, actions, k);
    InputEnds(states[k], states[k + 1], from, ready, ends);
  }

  lemma InputEnds(b: Bridge, c: Bridge, from: nat, ready: nat, ends: set<nat>)
    requires Inv(b) && Next(b, PublishTxRead, c) && TakesInput(b, from, ready, ends)
    ensures Took(c.tx, CHUNK, from, ready, ends)
  {
    PublishTook(b.tx, CHUNK, from, ready, ends);
  }

  // ----- The producer -----

  /** A block is being appended; the whole of it, or as much as fits before one of the given ends. */
  ghost predicate Puts<T>(q: Queue<T>, block: seq<T>, accepted: seq<T>, room: nat, ends: set<nat>) {
    && q.accepted == accepted && |accepted| == q.written && q.written + room <= q.read + CAPACITY
    && match q.producer
       case Resting => false
       case KnowsWritten(offered, w) => offered == block && w == q.written
       case Writing(part, w, _) =>
         w == q.written && part <= block && (part != block ==> room <= |part| && w + |part| in ends)
  }

  /** A block was appended, or the first samples of it, as many as there was room for. */
  ghost predicate Put<T>(q: Queue<T>, block: seq<T>, accepted: seq<T>, room: nat, ends: set<nat>) {
    && q.written == |q.accepted| && accepted <= q.accepted && q.accepted[|accepted|..] <= block
    && (q.accepted != accepted + block ==> |accepted| + room <= q.written && q.written in ends)
  }

  lemma PublishPut<T>(q: Queue<T>, block: seq<T>, accepted: seq<T>, room: nat, ends: set<nat>)
    requires q.Inv() && Puts(q, block, accepted, room, ends)
    requires q.producer.Writing? && q.producer.done == |q.producer.block|
    ensures Put(PublishWritten(q), block, accepted, room, ends)
  {
    var part := q.producer.block;
    assert (accepted + part)[|accepted|..] == part;
  }

  /** How much could be appended. */
  function Room<T>(q: Queue<T>): nat {
    if q.written > q.read + CAPACITY then 0 else q.read + CAPACITY - q.written
  }

  /** Where the buffer ended at some step. */
  ghost function TxEnds(states: seq<Bridge>, p: nat, k: nat): set<nat>
    requires k < |states|
  {
    set j | p < j <= k :: states[j].tx.read + CAPACITY
  }

  ghost function RxEnds(states: seq<Bridge>, p: nat, k: nat): set<nat>
    requires k < |states|
  {
    set j | p < j <= k :: states[j].rx.read + CAPACITY
  }

  ghost predicate PutsInput(b: Bridge, input: seq<Stereo>, accepted: seq<Stereo>, room: nat, ends: set<nat>) {
    b.host.Publishing? && Puts(b.tx, input, accepted, room, ends)
  }

  lemma PublishingGoesOn(b: Bridge, a: Action, c: Bridge, input: seq<Stereo>, accepted: seq<Stereo>, room: nat,
      ends: set<nat>)
    requires Inv(b) && Next(b, a, c) && PutsInput(b, input, accepted, room, ends) && !a.PublishTx?
    requires b.tx.read + CAPACITY in ends
    ensures PutsInput(c, input, accepted, room, ends)
  {
    if IsHosts(a) {
      HostPuts(b, a, c, input, accepted, room, ends);
    } else {
      WorkerLetsPut(b, a, c);
    }
  }

  lemma HostPuts(b: Bridge, a: Action, c: Bridge, input: seq<Stereo>, accepted: seq<Stereo>, room: nat, ends: set<nat>)
    requires Inv(b) && Next(b, a, c) && IsHosts(a) && PutsInput(b, input, accepted, room, ends) && !a.PublishTx?
    requires b.tx.read + CAPACITY in ends
    ensures PutsInput(c, input, accepted, room, ends)
  {}

  lemma WorkerLetsPut(b: Bridge, a: Action, c: Bridge)
    requires Inv(b) && Next(b, a, c) && !IsHosts(a)
    ensures c.host == b.host && c.tx.producer == b.tx.producer && c.tx.accepted == b.tx.accepted
    ensures c.tx.written == b.tx.written && b.tx.read <= c.tx.read
  {}

  /**
    * A published block of the host is accepted whole, or up to where the
    * buffer ended at one of its steps, and at least as far as there was room.
    */
  lemma InputIsPublished(states: seq<Bridge>, actions: seq<Action>, p: nat, k: nat, input: seq<Stereo>)
    requires IsRun(states, actions) && p < k < |actions| && actions[p] == BeginPublish(input) && actions[k].PublishTx?
    requires forall i :: p < i < k ==> !actions[i].PublishTx?
    ensures Put(states[k + 1].tx, input, states[p].tx.accepted, Room(states[p].tx), TxEnds(states, p, k))
  {
    var ends, accepted, room := TxEnds(states, p, k), states[p].tx.accepted, Room(states[p].tx);
    RunKeeps(states, actions, p);
    var puts := (b: Bridge) => PutsInput(b, input, accepted, room, ends);
    forall i | p + 1 <= i < k && puts(states[i]) ensures puts(states[i + 1]) {
      RunKeeps(states, actions, i);
      PublishingGoesOn(states[i], actions[i], states[i + 1], input, accepted, room, ends);
    }
    EverAfter(puts, states, p + 1, k);
    RunKeeps(states, actions, k);
    PublishingEnds(states[k], states[k + 1], input, accepted, room, ends);
  }

  lemma PublishingEnds(b: Bridge, c: Bridge, input: seq<Stereo>, accepted: seq<Stereo>, room: nat, ends: set<nat>)
    requires Inv(b) && Next(b, PublishTx, c) && PutsInput(b, input, accepted, room, ends)
    ensures Put(c.tx, input, accepted, room, ends)
  {
    PublishPut(b.tx, input, accepted, room, ends);
  }

  ghost predicate PutsOutput(b: Bridge, output: seq<Stereo>, accepted: seq<Stereo>, room: nat, ends: set<nat>) {
    b.worker.Supplying? && Puts(b.rx, output, accepted, room, ends)
  }

  lemma SupplyGoesOn(b: Bridge, a: Action, c: Bridge, output: seq<Stereo>, accepted: seq<Stereo>, room: nat,
      ends: set<nat>)
    requires Inv(b) && Next(b, a, c) && PutsOutput(b, output, accepted, room, ends) && !a.PublishRx?
    requires b.rx.read + CAPACITY in ends
    ensures PutsOutput(c, output, accepted, room, ends)
  {
    if IsHosts(a) {
      HostLetsSupply(b, a, c);
    } else {
      WorkerPuts(b, a, c, output, accepted, room, ends);
    }
  }

  lemma HostLetsSupply(b: Bridge, a: Action, c: Bridge)
    requires Inv(b) && Next(b, a, c) && IsHosts(a)
    ensures c.worker == b.worker && c.rx.producer == b.rx.producer && c.rx.accepted == b.rx.accepted
    ensures c.rx.written == b.rx.written && b.rx.read <= c.rx.read
  {}

  lemma WorkerPuts(b: Bridge, a: Action, c: Bridge, output: seq<Stereo>, accepted: seq<Stereo>, room: nat,
      ends: set<nat>)
    requires Inv(b) && Next(b, a, c) && !IsHosts(a) && PutsOutput(b, output, accepted, room, ends) && !a.PublishRx?
    requires b.rx.read + CAPACITY in ends
    ensures PutsOutput(c, output, accepted, room, ends)
  {}

  /** The same of a block that the worker supplies. */
  lemma OutputIsSupplied(states: seq<Bridge>, actions: seq<Action>, p: nat, k: nat, output: seq<Stereo>)
    requires IsRun(states, actions) && p < k < |actions| && actions[p] == BeginSupply(output) && actions[k].PublishRx?
    requires forall i :: p < i < k ==> !actions[i].PublishRx?
    ensures Put(states[k + 1].rx, output, states[p].rx.accepted, Room(states[p].rx), RxEnds(states, p, k))
  {
    var ends, accepted, room := RxEnds(states, p, k), states[p].rx.accepted, Room(states[p].rx);
    RunKeeps(states, actions, p);
    var puts := (b: Bridge) => PutsOutput(b, output, accepted, room, ends);
    forall i | p + 1 <= i < k && puts(states[i]) ensures puts(states[i + 1]) {
      RunKeeps(states, actions, i);
      SupplyGoesOn(states[i], actions[i], states[i + 1], output, accepted, room, ends);
    }
    EverAfter(puts, states, p + 1, k);
    RunKeeps(states, actions, k);
    SupplyEnds(states[k], states[k + 1], output, accepted, room, ends);
  }

  lemma SupplyEnds(b: Bridge, c: Bridge, output: seq<Stereo>, accepted: seq<Stereo>, room: nat, ends: set<nat>)
    requires Inv(b) && Next(b, PublishRx, c) && PutsOutput(b, output, accepted, room, ends)
    ensures Put(c.rx, output, accepted, room, ends)
  {
    PublishPut(b.rx, output, accepted, room, ends);
  }

  // ----- A reset -----

  ghost predicate SkipsInput(b: Bridge, from: nat, to: nat) {
    b.worker.ResettingTx? && b.tx.consumer == Skipping(to) && b.tx.read == from
  }

  lemma SkippingGoesOn(b: Bridge, a: Action, c: Bridge, from: nat, to: nat)
    requires Inv(b) && Next(b, a, c) && SkipsInput(b, from, to) && !a.StoreTxReset?
    ensures SkipsInput(c, from, to)
  {
    if IsHosts(a) { HostLetsTake(b, a, c); }
  }

  /** A reset discards all the input that was published when it began, and only that. */
  lemma ResetDropsInput(states: seq<Bridge>, actions: seq<Action>, p: nat, k: nat)
    requires IsRun(states, actions) && p < k < |actions| && actions[p].LoadTxToReset? && actions[k].StoreTxReset?
    requires forall i :: p < i < k ==> !actions[i].StoreTxReset?
    ensures states[k + 1].tx.read == states[p].tx.written
    ensures AllDiscarded(states[k + 1].tx, states[p].tx.read, states[k + 1].tx.read)
  {
    var from, to := states[p].tx.read, states[p].tx.written;
    RunKeeps(states, actions, p);
    var skips := (b: Bridge) => SkipsInput(b, from, to);
    forall i | p + 1 <= i < k && skips(states[i]) ensures skips(states[i + 1]) {
      RunKeeps(states, actions, i);
      SkippingGoesOn(states[i], actions[i], states[i + 1], from, to);
    }
    EverAfter(skips, states, p + 1, k);
    RunKeeps(states, actions, k);
    SkippingEnds(states[k], states[k + 1], from, to);
  }

  lemma SkippingEnds(b: Bridge, c: Bridge, from: nat, to: nat)
    requires Inv(b) && Next(b, StoreTxReset, c) && SkipsInput(b, from, to)
    ensures c.tx.read == to && AllDiscarded(c.tx, from, to)
  {
    SkipDiscards(b.tx, c.tx, from);
  }

  /** The host has not asked for more than there is. */
  ghost predicate Satisfied(b: Bridge) {
    b.wanted <= b.rx.written
  }

  lemma SatisfiedGoesOn(b: Bridge, a: Action, c: Bridge)
    requires Inv(b) && Next(b, a, c) && Satisfied(b) && !a.StoreWanted?
    ensures Satisfied(c)
  {
    if IsHosts(a) {
      HostLetsSupply(b, a, c);
    } else {
      SupplyOnlyGrows(b, a, c);
    }
  }

  lemma SupplyOnlyGrows(b: Bridge, a: Action, c: Bridge)
    requires Inv(b) && Next(b, a, c) && !IsHosts(a)
    ensures b.rx.written <= c.rx.written && (c.wanted == b.wanted || c.wanted == b.rx.written)
  {}

  /** After a reset nothing is demanded until the host has played again. */
  lemma NoDemandAfterReset(states: seq<Bridge>, actions: seq<Action>, r: nat, k: nat)
    requires IsRun(states, actions) && r < k < |states| && actions[r].ResetWanted?
    requires forall i :: r < i < k ==> !actions[i].StoreWanted?
    ensures states[k].wanted <= states[k].rx.written
    ensures Demand(states[k].wanted, states[k].rx.written, states[k].rx.read) == 0
  {
    var satisfied := (b: Bridge) => Satisfied(b);
    RunKeeps(states, actions, r);
    forall i | r + 1 <= i < k && satisfied(states[i]) ensures satisfied(states[i + 1]) {
      RunKeeps(states, actions, i);
      SatisfiedGoesOn(states[i], actions[i], states[i + 1]);
    }
    EverAfter(satisfied, states, r + 1, k);
    RunKeeps(states, actions, k);
  }
}
