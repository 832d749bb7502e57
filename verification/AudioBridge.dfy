/**
  * The bridge between the host's audio thread and the worker: a queue in each direction, the demand of the host,
  * and a request to discard. Every action is one access to shared memory; any interleaving is a run.
  */
module AudioBridge {
  import opened Arithmetic
  import opened Results
  import opened Runs
  import opened SpscQueue

  const CHUNK: nat := 512

  /** One sample for each of the two channels. */
  type Stereo = (real, real)

  datatype Host =
    | HostIdle
    | Publishing
    | Discarding(frames: nat, since: nat)
    | SkippingRx(frames: nat, since: nat)
    | Playing(frames: nat, since: nat)
    | Asking(target: nat)

  datatype Worker =
    | WorkerIdle
    | TakingInput
    | KnowsWanted(wanted: nat)
    | Supplying(offered: seq<Stereo>, demanded: bool)
    | ResettingTx
    | ResettingWanted
    | ResettingRx

  /** Besides the shared variables and the threads: the last demand not yet supplied, and where the last reset was. */
  datatype Bridge = Bridge(tx: Queue<Stereo>, rx: Queue<Stereo>, wanted: nat, minimumReserve: nat, discardRx: bool,
                           host: Host, worker: Worker, demand: nat, barrier: nat)

  datatype Action =
    // the host: transfer
    | BeginPublish(input: seq<Stereo>) | LoadTxRead | WriteTx | PublishTx
    | BeginPlay(frames: nat) | LoadRxToSkip | StoreRxSkip | LoadRxRead | LoadRxWritten | CopyRx | PublishRxRead
      | StoreWanted
    // the worker: takeInput, takeDemand, supplyOutput, reset
    | BeginTakeInput | LoadTxWritten | CopyTx | PublishTxRead
    | LoadWanted | FinishDemand
    | BeginSupply(output: seq<Stereo>) | LoadRxReadToSupply | WriteRx | PublishRx
    | LoadTxToReset | StoreTxReset | ResetWanted | RequestDiscard
    // any other thread
    | SetReserve(reserve: nat)

  /** How far ahead of the read cursor the host wants samples. */
  function Reserve(minimumReserve: nat, frames: nat): nat {
    var blocks := Least(frames, CAPACITY / 4) * 4;
    Least(CAPACITY, if minimumReserve < blocks then blocks else minimumReserve)
  }

  /** What a demand is, from the cursors that were loaded. */
  function Demand(wanted: nat, written: nat, read: nat): int {
    var missing := if wanted > written then wanted - written else 0;
    var room := CAPACITY - (written - read);
    if CHUNK <= missing && CHUNK <= room then CHUNK else if missing <= room then missing else room
  }

  // ----- Runs -----

  /** The host's part of a step, if the action is the host's next one. */
  function HostStep(b: Bridge, a: Action): Option<Bridge>
    requires b.tx.Inv() && b.rx.Inv()
  {
    match a
    case BeginPublish(input) =>
      if b.host.HostIdle? && b.tx.producer.Resting? then Some(b.(tx := BeginPut(b.tx, input), host := Publishing))
        else None
    case LoadTxRead =>
      if b.host.Publishing? && b.tx.producer.KnowsWritten? then Some(b.(tx := LoadRead(b.tx))) else None
    case WriteTx =>
      if b.host.Publishing? && b.tx.producer.Writing? && b.tx.producer.done < |b.tx.producer.block|
      then Some(b.(tx := WriteSample(b.tx))) else None
    case PublishTx =>
      if b.host.Publishing? && b.tx.producer.Writing? && b.tx.producer.done == |b.tx.producer.block|
      then Some(b.(tx := PublishWritten(b.tx), host := HostIdle)) else None
    case BeginPlay(frames) =>
      if !b.host.HostIdle? then None
      else if b.discardRx then Some(b.(discardRx := false, host := Discarding(frames, b.barrier)))
      else Some(b.(host := Playing(frames, b.barrier)))
    case LoadRxToSkip =>
      if b.host.Discarding? && b.rx.consumer.Waiting?
      then Some(b.(rx := BeginSkip(b.rx), host := SkippingRx(b.host.frames, b.host.since))) else None
    case StoreRxSkip =>
      if b.host.SkippingRx? && b.rx.consumer.Skipping?
      then Some(b.(rx := FinishSkip(b.rx), host := Playing(b.host.frames, b.host.since))) else None
    case LoadRxRead =>
      if b.host.Playing? && b.rx.consumer.Waiting? then Some(b.(rx := BeginTake(b.rx, b.host.frames))) else None
    case LoadRxWritten =>
      if b.host.Playing? && b.rx.consumer.KnowsRead? then Some(b.(rx := LoadWritten(b.rx))) else None
    case CopyRx =>
      if b.host.Playing? && b.rx.consumer.Copying? && |b.rx.consumer.got| < b.rx.consumer.count
      then Some(b.(rx := CopySample(b.rx))) else None
    case PublishRxRead =>
      if b.host.Playing? && b.rx.consumer.Copying? && |b.rx.consumer.got| == b.rx.consumer.count
      then Some(b.(rx := PublishRead(b.rx),
                   host := Asking(b.rx.consumer.r + b.rx.consumer.count + Reserve(b.minimumReserve, b.host.frames))))
      else None
    case StoreWanted =>
      if b.host.Asking? then Some(b.(wanted := b.host.target, host := HostIdle)) else None
    case _ => None
  }

  function WorkerStep(b: Bridge, a: Action): Option<Bridge>
    requires b.tx.Inv() && b.rx.Inv()
  {
    match a
    case BeginTakeInput =>
      if b.worker.WorkerIdle? && b.tx.consumer.Waiting?
      then Some(b.(tx := BeginTake(b.tx, CHUNK), worker := TakingInput)) else None
    case LoadTxWritten =>
      if b.worker.TakingInput? && b.tx.consumer.KnowsRead? then Some(b.(tx := LoadWritten(b.tx))) else None
    case CopyTx =>
      if b.worker.TakingInput? && b.tx.consumer.Copying? && |b.tx.consumer.got| < b.tx.consumer.count
      then Some(b.(tx := CopySample(b.tx))) else None
    case PublishTxRead =>
      if b.worker.TakingInput? && b.tx.consumer.Copying? && |b.tx.consumer.got| == b.tx.consumer.count
      then Some(b.(tx := PublishRead(b.tx), worker := WorkerIdle)) else None
    case LoadWanted =>
      if b.worker.WorkerIdle? then Some(b.(worker := KnowsWanted(b.wanted))) else None
    case FinishDemand =>
      if b.worker.KnowsWanted?
      then
        var demand := Demand(b.worker.wanted, b.rx.written, b.rx.read);
        Some(b.(demand := if demand < 0 then 0 else demand, worker := WorkerIdle))
      else None
    case BeginSupply(output) =>
      if b.worker.WorkerIdle? && b.rx.producer.Resting?
      then Some(b.(rx := BeginPut(b.rx, output), worker := Supplying(output, |output| <= b.demand), demand := 0))
        else None
    case LoadRxReadToSupply =>
      if b.worker.Supplying? && b.rx.producer.KnowsWritten? then Some(b.(rx := LoadRead(b.rx))) else None
    case WriteRx =>
      if b.worker.Supplying? && b.rx.producer.Writing? && b.rx.producer.done < |b.rx.producer.block|
      then Some(b.(rx := WriteSample(b.rx))) else None
    case PublishRx =>
      if b.worker.Supplying? && b.rx.producer.Writing? && b.rx.producer.done == |b.rx.producer.block|
      then Some(b.(rx := PublishWritten(b.rx), worker := WorkerIdle)) else None
    case LoadTxToReset =>
      if b.worker.WorkerIdle? && b.tx.consumer.Waiting? then Some(b.(tx := BeginSkip(b.tx), worker := ResettingTx))
        else None
    case StoreTxReset =>
      if b.worker.ResettingTx? && b.tx.consumer.Skipping?
      then Some(b.(tx := FinishSkip(b.tx), worker := ResettingWanted)) else None
    case ResetWanted =>
      if b.worker.ResettingWanted? then Some(b.(wanted := b.rx.written, worker := ResettingRx)) else None
    case RequestDiscard =>
      if b.worker.ResettingRx? then Some(b.(discardRx := true, barrier := b.rx.written, worker := WorkerIdle)) else None
    case SetReserve(reserve) => Some(b.(minimumReserve := reserve))
    case _ => None
  }

  /** Only one of the threads owns an action. */
  predicate IsHosts(a: Action) {
    a.BeginPublish? || a.LoadTxRead? || a.WriteTx? || a.PublishTx? || a.BeginPlay? || a.LoadRxToSkip? || a.StoreRxSkip?
    || a.LoadRxRead? || a.LoadRxWritten? || a.CopyRx? || a.PublishRxRead? || a.StoreWanted?
  }

  function Step(b: Bridge, a: Action): Option<Bridge>
    requires b.tx.Inv() && b.rx.Inv()
  {
    if IsHosts(a) then HostStep(b, a) else WorkerStep(b, a)
  }

  ghost predicate InitBridge(b: Bridge) {
    && Init(b.tx) && Init(b.rx) && b.wanted == 0 && !b.discardRx && b.host.HostIdle? && b.worker.WorkerIdle?
    && b.demand == 0 && b.barrier == 0
  }

  // ----- What holds in every state -----

  ghost predicate Inv(b: Bridge) {
    && b.tx.Inv() && b.rx.Inv()
    && HostInv(b) && WorkerInv(b)
    && b.wanted <= b.rx.read + CAPACITY
    && b.rx.written + b.demand <= b.rx.read + CAPACITY
    && b.barrier <= b.rx.written
    && Discards(b)
  }

  /** After a reset the host either still has to discard, or is about to, or has done so. */
  ghost predicate Discards(b: Bridge) {
    b.discardRx || b.rx.read >= b.barrier || b.host.Discarding?
    || (b.host.SkippingRx? && b.rx.consumer.Skipping? && b.rx.consumer.to >= b.barrier)
  }

  ghost predicate HostInv(b: Bridge) {
    && (b.host.Publishing? <==> !b.tx.producer.Resting?)
    && match b.host
       case HostIdle => b.rx.consumer.Waiting?
       case Publishing => b.rx.consumer.Waiting?
       case Discarding(_, since) => b.rx.consumer.Waiting? && since <= b.rx.written
       case SkippingRx(_, since) => b.rx.consumer.Skipping? && since <= b.rx.consumer.to
       case Playing(_, since) => !b.rx.consumer.Skipping? && since <= b.rx.read
       case Asking(target) => b.rx.consumer.Waiting? && target <= b.rx.read + CAPACITY
  }

  ghost predicate WorkerInv(b: Bridge) {
    && (b.worker.Supplying? <==> !b.rx.producer.Resting?)
    && match b.worker
       case TakingInput => b.tx.consumer.KnowsRead? || b.tx.consumer.Copying?
       case KnowsWanted(wanted) => b.tx.consumer.Waiting? && wanted <= b.rx.read + CAPACITY
       case Supplying(offered, demanded) =>
         && b.tx.consumer.Waiting? && b.demand == 0
         && (b.rx.producer.KnowsWritten? ==> b.rx.producer.offered == offered)
         && (demanded ==> b.rx.written + |offered| <= b.rx.read + CAPACITY)
         && (demanded && b.rx.producer.Writing? ==> b.rx.producer.block == offered)
       case ResettingTx => b.tx.consumer.Skipping?
       case _ => b.tx.consumer.Waiting?
  }

  lemma QueuesKeep(b: Bridge, a: Action)
    requires Inv(b) && Step(b, a).Some?
    ensures Step(b, a).value.tx.Inv() && Step(b, a).value.rx.Inv()
  {
    match a
    case BeginPublish(input) => BeginPutKeeps(b.tx, input);
    case LoadTxRead => LoadReadKeeps(b.tx);
    case WriteTx => WriteSampleKeeps(b.tx);
    case PublishTx => PublishWrittenKeeps(b.tx);
    case LoadRxToSkip => SkipKeeps(b.rx);
    case StoreRxSkip => SkipKeeps(b.rx);
    case LoadRxRead => TakeKeeps(b.rx, b.host.frames);
    case LoadRxWritten => TakeKeeps(b.rx, 0);
    case CopyRx => CopySampleKeeps(b.rx);
    case PublishRxRead => PublishReadKeeps(b.rx);
    case BeginTakeInput => TakeKeeps(b.tx, CHUNK);
    case LoadTxWritten => TakeKeeps(b.tx, 0);
    case CopyTx => CopySampleKeeps(b.tx);
    case PublishTxRead => PublishReadKeeps(b.tx);
    case BeginSupply(output) => BeginPutKeeps(b.rx, output);
    case LoadRxReadToSupply => LoadReadKeeps(b.rx);
    case WriteRx => WriteSampleKeeps(b.rx);
    case PublishRx => PublishWrittenKeeps(b.rx);
    case LoadTxToReset => SkipKeeps(b.tx);
    case StoreTxReset => SkipKeeps(b.tx);
    case _ =>
  }

  /** One access to shared memory keeps the bridge. */
  lemma StepKeeps(b: Bridge, a: Action)
    requires Inv(b) && Step(b, a).Some?
    ensures Inv(Step(b, a).value)
  {
    QueuesKeep(b, a);
    if IsHosts(a) {
      HostStepKeeps(b, a);
    } else {
      WorkerStepKeeps(b, a);
    }
  }

  lemma HostStepKeeps(b: Bridge, a: Action)
    requires Inv(b) && IsHosts(a) && Step(b, a).Some?
    requires Step(b, a).value.tx.Inv() && Step(b, a).value.rx.Inv()
    ensures Inv(Step(b, a).value)
  {}

  lemma WorkerStepKeeps(b: Bridge, a: Action)
    requires Inv(b) && !IsHosts(a) && Step(b, a).Some?
    requires Step(b, a).value.tx.Inv() && Step(b, a).value.rx.Inv()
    ensures Inv(Step(b, a).value)
  {
    if IsOfTx(a) {
      WorkerTxKeeps(b, a);
    } else if IsOfRx(a) {
      WorkerRxKeeps(b, a);
    } else {
      WorkerRestKeeps(b, a);
    }
  }

  /** The worker's accesses to the queue that it reads. */
  predicate IsOfTx(a: Action) {
    a.BeginTakeInput? || a.LoadTxWritten? || a.CopyTx? || a.PublishTxRead? || a.LoadTxToReset? || a.StoreTxReset?
  }

  /** The worker's accesses to the queue that it fills. */
  predicate IsOfRx(a: Action) {
    a.BeginSupply? || a.LoadRxReadToSupply? || a.WriteRx? || a.PublishRx?
  }

  lemma WorkerTxKeeps(b: Bridge, a: Action)
    requires Inv(b) && IsOfTx(a) && WorkerStep(b, a).Some?
    requires WorkerStep(b, a).value.tx.Inv() && WorkerStep(b, a).value.rx.Inv()
    ensures Inv(WorkerStep(b, a).value)
  {}

  lemma WorkerRxKeeps(b: Bridge, a: Action)
    requires Inv(b) && IsOfRx(a) && WorkerStep(b, a).Some?
    requires WorkerStep(b, a).value.tx.Inv() && WorkerStep(b, a).value.rx.Inv()
    ensures Inv(WorkerStep(b, a).value)
  {
    if a.LoadRxReadToSupply? { LoadReadKeeps(b.rx); }
  }

  lemma WorkerRestKeeps(b: Bridge, a: Action)
    requires Inv(b) && !IsHosts(a) && !IsOfTx(a) && !IsOfRx(a) && WorkerStep(b, a).Some?
    ensures Inv(WorkerStep(b, a).value)
  {}

  // ----- Whole runs -----

  ghost predicate Next(b: Bridge, a: Action, c: Bridge) {
    b.tx.Inv() && b.rx.Inv() && Step(b, a) == Some(c)
  }

  /** The states that some actions lead through from the start. */
  ghost predicate IsRun(states: seq<Bridge>, actions: seq<Action>) {
    && |states| == |actions| + 1 && InitBridge(states[0])
    && forall i :: 0 <= i < |actions| ==> Next(states[i], actions[i], states[i + 1])
  }

  lemma NextKeeps(b: Bridge, a: Action, c: Bridge)
    requires Inv(b) && Next(b, a, c)
    ensures Inv(c)
  {
    StepKeeps(b, a);
  }

  lemma RunKeeps(states: seq<Bridge>, actions: seq<Action>, k: nat)
    requires IsRun(states, actions) && k < |states|
    ensures Inv(states[k])
  {
    var inv := (b: Bridge) => Inv(b);
    forall i | 0 <= i < k && inv(states[i]) ensures inv(states[i + 1]) {
      NextKeeps(states[i], actions[i], states[i + 1]);
    }
    EverAfter(inv, states, 0, k);
  }

  /** In every run the cursors stay within a turn of each other and nothing unread is overwritten. */
  lemma QueuesAreSafe(states: seq<Bridge>, actions: seq<Action>, k: nat)
    requires IsRun(states, actions) && k < |states|
    ensures IsSafe(states[k].tx) && IsSafe(states[k].rx)
  {
    RunKeeps(states, actions, k);
  }

  ghost predicate IsSafe(q: Queue<Stereo>) {
    && 0 <= q.written - q.read <= CAPACITY
    && |q.samples| == CAPACITY && |q.accepted| == q.written && |q.fates| == q.read
    && (forall p :: q.read <= p < q.written ==> q.samples[p % CAPACITY] == q.accepted[p])
    && (forall p :: 0 <= p < q.read && q.fates[p].Delivered? ==> q.fates[p].sample == q.accepted[p])
  }

  /** The action of each queue's consumer that drops samples: both belong to a reset. */
  predicate Drops(a: Action, rx: bool) {
    if rx then a.StoreRxSkip? else a.StoreTxReset?
  }

  ghost predicate Grows(q: Queue<Stereo>, r: Queue<Stereo>, drops: bool) {
    && q.accepted <= r.accepted && q.fates <= r.fates
    && (!drops ==> forall p :: |q.fates| <= p < |r.fates| ==> r.fates[p].Delivered?)
  }

  /** No step changes the history, and only a reset discards. */
  lemma OnlyResetsDiscard(b: Bridge, a: Action)
    requires Inv(b) && Step(b, a).Some?
    ensures Grows(b.tx, Step(b, a).value.tx, Drops(a, false)) && Grows(b.rx, Step(b, a).value.rx, Drops(a, true))
  {
    if IsHosts(a) {
      HostGrows(b, a);
    } else {
      WorkerGrows(b, a);
    }
  }

  lemma HostGrows(b: Bridge, a: Action)
    requires Inv(b) && IsHosts(a) && HostStep(b, a).Some?
    ensures Grows(b.tx, HostStep(b, a).value.tx, false) && Grows(b.rx, HostStep(b, a).value.rx, Drops(a, true))
  {}

  lemma WorkerGrows(b: Bridge, a: Action)
    requires Inv(b) && !IsHosts(a) && WorkerStep(b, a).Some?
    ensures Grows(b.tx, WorkerStep(b, a).value.tx, Drops(a, false)) && Grows(b.rx, WorkerStep(b, a).value.rx, false)
  {}

  /** A supply no larger than the demand before it is published whole. */
  lemma DemandedSupplyIsWhole(b: Bridge)
    requires Inv(b) && b.worker.Supplying? && b.worker.demanded && Step(b, PublishRx).Some?
    ensures Step(b, PublishRx).value.rx.accepted == b.rx.accepted + b.worker.offered
  {}

  /** The free space never limits a demand: the host does not want more than that. */
  lemma DemandIsMissing(b: Bridge)
    requires Inv(b) && b.worker.KnowsWanted?
    ensures Demand(b.worker.wanted, b.rx.written, b.rx.read)
         == Least(CHUNK, if b.worker.wanted > b.rx.written then b.worker.wanted - b.rx.written else 0)
  {}

  /** If the host is playing, it has been since the given reset. */
  ghost predicate PlaysSince(b: Bridge, since: nat) {
    b.host.Discarding? || b.host.SkippingRx? || b.host.Playing? ==> b.host.since == since
  }

  lemma StepPlaysSince(b: Bridge, a: Action, c: Bridge, since: nat)
    requires Next(b, a, c) && PlaysSince(b, since) && !a.BeginPlay?
    ensures PlaysSince(c, since)
  {}

  lemma StepRaisesBarrier(b: Bridge, a: Action, c: Bridge)
    requires Inv(b) && Next(b, a, c)
    ensures b.barrier <= c.barrier
  {}

  lemma BarrierRises(states: seq<Bridge>, actions: seq<Action>, j: nat, k: nat)
    requires IsRun(states, actions) && j <= k < |states|
    ensures states[j].barrier <= states[k].barrier
  {
    var least := states[j].barrier;
    var above := (b: Bridge) => least <= b.barrier;
    forall i | j <= i < k && above(states[i]) ensures above(states[i + 1]) {
      RunKeeps(states, actions, i);
      StepRaisesBarrier(states[i], actions[i], states[i + 1]);
    }
    EverAfter(above, states, j, k);
  }

  lemma SinceIsKept(states: seq<Bridge>, actions: seq<Action>, j: nat, k: nat, since: nat)
    requires IsRun(states, actions) && j <= k < |states| && PlaysSince(states[j], since)
    requires forall i :: j <= i < k ==> !actions[i].BeginPlay?
    ensures PlaysSince(states[k], since)
  {
    var plays := (b: Bridge) => PlaysSince(b, since);
    forall i | j <= i < k && plays(states[i]) ensures plays(states[i + 1]) {
      StepPlaysSince(states[i], actions[i], states[i + 1], since);
    }
    EverAfter(plays, states, j, k);
  }

  /**
    * A play transfer that begins at step p, after the end of a
    * reset at step r, copies nothing that was supplied before it.
    */
  lemma ResetSeparates(states: seq<Bridge>, actions: seq<Action>, r: nat, p: nat, k: nat)
    requires IsRun(states, actions) && r < p < k < |states|
    requires actions[r].RequestDiscard? && actions[p].BeginPlay?
    requires forall i :: p < i < k ==> !actions[i].BeginPlay?
    requires states[k].host.Playing? && states[k].rx.consumer.Copying?
    ensures var c := states[k].rx.consumer;
      c.r >= states[r].rx.written && c.r + |c.got| <= |states[k].rx.accepted|
      && c.got == states[k].rx.accepted[c.r..c.r + |c.got|]
  {
    RequestRaisesBarrier(states[r], states[r + 1]);
    BarrierRises(states, actions, r + 1, p);
    PlayBegins(states[p], actions[p], states[p + 1]);
    SinceIsKept(states, actions, p + 1, k, states[p].barrier);
    RunKeeps(states, actions, k);
  }

  lemma RequestRaisesBarrier(b: Bridge, c: Bridge)
    requires Next(b, RequestDiscard, c)
    ensures c.barrier == b.rx.written && c.discardRx
  {}

  lemma PlayBegins(b: Bridge, a: Action, c: Bridge)
    requires Next(b, a, c) && a.BeginPlay?
    ensures PlaysSince(c, b.barrier)
  {}
}
