/**
  * What a peer plays: its queue of frames, and a source of more frames, the decoder followed by the resampler,
  * that is any deterministic state machine.
  */
module PullModel {
  import opened Sequences

  /** Frames still to be played, how often loss was concealed, and all the frames that were made so far. */
  datatype Player<S, F> = Player(source: S, queue: seq<F>, conceals: nat, made: seq<F>)

  datatype Pulled<S, F> = Pulled(frames: seq<F>, player: Player<S, F>)

  /** Puts a block into the ring, which keeps the newest frames. */
  function Enqueue<S, F>(p: Player<S, F>, capacity: nat, source: S, block: seq<F>): Player<S, F> {
    p.(source := source, queue := Newest(p.queue + block, capacity), made := p.made + block)
  }

  lemma EnqueueNothing<S, F>(p: Player<S, F>, capacity: nat, source: S)
    requires |p.queue| <= capacity
    ensures Enqueue(p, capacity, source, []) == p.(source := source)
  {
    assert p.queue + [] == p.queue && p.made + [] == p.made;
  }

  function Taken<F>(queue: seq<F>, n: nat): nat {
    if n < |queue| then n else |queue|
  }

  /** Takes the oldest frames. */
  function Pop<S, F>(p: Player<S, F>, n: nat): Pulled<S, F> {
    Pulled(p.queue[..Taken(p.queue, n)], p.(queue := p.queue[Taken(p.queue, n)..]))
  }

  /** Makes a block up for what is missing; without one only the source has changed. */
  function Conceal<S, F>(conceal: S -> (S, seq<F>), capacity: nat, p: Player<S, F>): Player<S, F> {
    var (source, block) := conceal(p.source);
    if block == [] then p.(source := source) else Enqueue(p, capacity, source, block).(conceals := p.conceals + 1)
  }

  /** One turn of the loop: takes frames, after concealing when there are none. */
  function Turn<S, F>(conceal: S -> (S, seq<F>), capacity: nat, p: Player<S, F>, n: nat): Pulled<S, F> {
    if |p.queue| > 0 then Pop(p, n) else Pop(Conceal(conceal, capacity, p), n)
  }

  /** Turns until there are n frames, or until a turn brings none. */
  function Pull<S, F>(conceal: S -> (S, seq<F>), capacity: nat, p: Player<S, F>, n: nat): (r: Pulled<S, F>)
    ensures |r.frames| <= n
    decreases n
  {
    if n == 0 then Pulled([], p)
    else
      var t := Turn(conceal, capacity, p, n);
      if |t.frames| == 0 then t
      else
        var rest := Pull(conceal, capacity, t.player, n - |t.frames|);
        Pulled(t.frames + rest.frames, rest.player)
  }

  /** r is what comes after the given frames. */
  function After<S, F>(frames: seq<F>, r: Pulled<S, F>): Pulled<S, F> {
    Pulled(frames + r.frames, r.player)
  }

  // ----- What a pull takes, and when it conceals -----

  /** The queue comes first: nothing is concealed before it is used up. */
  lemma QueueFirst<S, F>(conceal: S -> (S, seq<F>), capacity: nat, p: Player<S, F>, n: nat)
    ensures n <= |p.queue| ==> Pull(conceal, capacity, p, n) == Pulled(p.queue[..n], p.(queue := p.queue[n..]))
    ensures n > |p.queue| ==>
      Pull(conceal, capacity, p, n) == After(p.queue, Pull(conceal, capacity, p.(queue := []), n - |p.queue|))
  {
    if n == 0 {
      assert p.queue[..0] == [] && p.queue[0..] == p.queue;
    } else if p.queue == [] {
      var r := Pull(conceal, capacity, p, n);
      assert p.(queue := []) == p && [] + r.frames == r.frames;
    } else if n <= |p.queue| {
      assert Turn(conceal, capacity, p, n) == Pulled(p.queue[..n], p.(queue := p.queue[n..]));
      assert p.queue[..n] + [] == p.queue[..n];
    } else {
      assert p.queue[..|p.queue|] == p.queue && p.queue[|p.queue|..] == [];
      assert Turn(conceal, capacity, p, n) == Pulled(p.queue, p.(queue := []));
    }
  }

  /** When more is wanted than is queued, one block is made up and queued whole, or the pull ends. */
  lemma ConcealsNext<S, F>(conceal: S -> (S, seq<F>), capacity: nat, p: Player<S, F>, n: nat)
    requires capacity > 0 && n > 0 && p.queue == []
    ensures var (source, block) := conceal(p.source);
      Pull(conceal, capacity, p, n) ==
      if block == [] then Pulled([], p.(source := source))
      else Pull(conceal, capacity,
                Player(source, if |block| <= capacity then block else block[|block| - capacity..], p.conceals + 1,
                       p.made + block), n)
  {
    var (source, block) := conceal(p.source);
    if block == [] {
      StopsHere(conceal, capacity, p, n);
    } else {
      var queue := if |block| <= capacity then block else block[|block| - capacity..];
      var q := Player(source, queue, p.conceals + 1, p.made + block);
      ConcealIs(conceal, capacity, p, q);
      SameTurn(conceal, capacity, p, q, n);
    }
  }

  lemma StopsHere<S, F>(conceal: S -> (S, seq<F>), capacity: nat, p: Player<S, F>, n: nat)
    requires n > 0 && p.queue == [] && conceal(p.source).1 == []
    ensures Pull(conceal, capacity, p, n) == Pulled([], p.(source := conceal(p.source).0))
  {}

  lemma ConcealIs<S, F>(conceal: S -> (S, seq<F>), capacity: nat, p: Player<S, F>, q: Player<S, F>)
    requires p.queue == [] && conceal(p.source).1 != [] && capacity > 0
    requires var (source, block) := conceal(p.source);
      q == Player(source, if |block| <= capacity then block else block[|block| - capacity..], p.conceals + 1,
                  p.made + block)
    ensures Conceal(conceal, capacity, p) == q && |q.queue| > 0
  {
    assert p.queue + conceal(p.source).1 == conceal(p.source).1;
  }

  lemma SameTurn<S, F>(conceal: S -> (S, seq<F>), capacity: nat, p: Player<S, F>, q: Player<S, F>, n: nat)
    requires n > 0 && p.queue == [] && q == Conceal(conceal, capacity, p) && |q.queue| > 0
    ensures Pull(conceal, capacity, p, n) == Pull(conceal, capacity, q, n)
  {}

  // ----- Frame by frame -----

  /** The same, with a turn for every frame. */
  function PullEach<S, F>(conceal: S -> (S, seq<F>), capacity: nat, p: Player<S, F>, n: nat): (r: Pulled<S, F>)
    ensures |r.frames| <= n
    decreases n
  {
    if n == 0 then Pulled([], p)
    else
      var t := Turn(conceal, capacity, p, 1);
      if |t.frames| == 0 then t
      else
        var rest := PullEach(conceal, capacity, t.player, n - 1);
        Pulled(t.frames + rest.frames, rest.player)
  }

  lemma {:induction false} EachSplits<S, F>(conceal: S -> (S, seq<F>), capacity: nat, p: Player<S, F>, n: nat, m: nat)
    ensures var a := PullEach(conceal, capacity, p, n);
      PullEach(conceal, capacity, p, n + m) == if |a.frames| < n then a
        else After(a.frames, PullEach(conceal, capacity, a.player, m))
    decreases n
  {
    if n == 0 {
      var b := PullEach(conceal, capacity, p, m);
      assert [] + b.frames == b.frames;
    } else {
      var t := Turn(conceal, capacity, p, 1);
      if |t.frames| > 0 {
        EachSplits(conceal, capacity, t.player, n - 1, m);
        var a := PullEach(conceal, capacity, t.player, n - 1);
        Associate(t.frames, a.frames, PullEach(conceal, capacity, a.player, m).frames);
      }
    }
  }

  /** The first k frames of the queue, one by one. */
  lemma {:induction false} PopEach<S, F>(conceal: S -> (S, seq<F>), capacity: nat, p: Player<S, F>, k: nat)
    requires k <= |p.queue|
    ensures PullEach(conceal, capacity, p, k) == Pulled(p.queue[..k], p.(queue := p.queue[k..]))
    decreases k
  {
    if k > 0 {
      var t := Turn(conceal, capacity, p, 1);
      PopEach(conceal, capacity, t.player, k - 1);
      assert p.queue[..1] + p.queue[1..][..k - 1] == p.queue[..k];
      assert p.queue[1..][k - 1..] == p.queue[k..];
    }
  }

  /** A turn is as many single turns as it takes frames. */
  lemma TurnIsEach<S, F>(conceal: S -> (S, seq<F>), capacity: nat, p: Player<S, F>, n: nat)
    requires n > 0
    ensures var t := Turn(conceal, capacity, p, n);
      if |t.frames| == 0 then PullEach(conceal, capacity, p, n) == t
      else PullEach(conceal, capacity, p, |t.frames|) == t
  {
    var q := if |p.queue| > 0 then p else Conceal(conceal, capacity, p);
    if |q.queue| > 0 {
      PopEach(conceal, capacity, q, Taken(q.queue, n));
    }
  }

  /** The loop over spans of the queue does what one over frames would do. */
  lemma {:induction false} PullIsEach<S, F>(conceal: S -> (S, seq<F>), capacity: nat, p: Player<S, F>, n: nat)
    ensures Pull(conceal, capacity, p, n) == PullEach(conceal, capacity, p, n)
    decreases n
  {
    if n > 0 {
      var t := Turn(conceal, capacity, p, n);
      TurnIsEach(conceal, capacity, p, n);
      if |t.frames| > 0 {
        var left := n - |t.frames|;
        var rest := Pull(conceal, capacity, t.player, left);
        PullIsEach(conceal, capacity, t.player, left);
        EachFromTurn(conceal, capacity, p, n, t, left, rest);
        PullUnfolds(conceal, capacity, p, n, t, left, rest);
      }
    }
  }

  lemma EachFromTurn<S, F>(conceal: S -> (S, seq<F>), capacity: nat, p: Player<S, F>, n: nat, t: Pulled<S, F>,
      left: nat, rest: Pulled<S, F>)
    requires n > 0 && t == Turn(conceal, capacity, p, n) && 0 < |t.frames| && n == |t.frames| + left
    requires rest == PullEach(conceal, capacity, t.player, left)
    ensures PullEach(conceal, capacity, p, n) == After(t.frames, rest)
  {
    TurnIsEach(conceal, capacity, p, n);
    EachSplits(conceal, capacity, p, |t.frames|, left);
  }

  /**
    * Pulling n and then m frames is pulling n + m, in frames, source and conceals, if the first pull is complete;
    * otherwise the longer pull stops where the shorter one does.
    */
  lemma PullSplits<S, F>(conceal: S -> (S, seq<F>), capacity: nat, p: Player<S, F>, n: nat, m: nat)
    ensures var a := Pull(conceal, capacity, p, n);
      Pull(conceal, capacity, p, n + m) == if |a.frames| < n then a
        else After(a.frames, Pull(conceal, capacity, a.player, m))
  {
    var a, b := Pull(conceal, capacity, p, n), Pull(conceal, capacity, Pull(conceal, capacity, p, n).player, m);
    calc {
      Pull(conceal, capacity, p, n + m);
    ==  { PullIsEach(conceal, capacity, p, n + m); }
      PullEach(conceal, capacity, p, n + m);
    ==  { EachSplitsAs(conceal, capacity, p, n, m, a, b); }
      if |a.frames| < n then a else After(a.frames, b);
    }
  }

  lemma EachSplitsAs<S, F>(conceal: S -> (S, seq<F>), capacity: nat, p: Player<S, F>, n: nat, m: nat,
                           a: Pulled<S, F>, b: Pulled<S, F>)
    requires a == Pull(conceal, capacity, p, n) && b == Pull(conceal, capacity, a.player, m)
    ensures PullEach(conceal, capacity, p, n + m) == if |a.frames| < n then a else After(a.frames, b)
  {
    EachSplits(conceal, capacity, p, n, m);
    PullIsEach(conceal, capacity, p, n);
    PullIsEach(conceal, capacity, a.player, m);
  }

  // ----- When a pull can be split -----

  /** Pulling n and then m frames is pulling n + m. */
  ghost predicate Splits<S, F>(conceal: S -> (S, seq<F>), capacity: nat, p: Player<S, F>, n: nat, m: nat) {
    IsSplit(conceal, capacity, Pull(conceal, capacity, p, n + m), Pull(conceal, capacity, p, n), m)
  }

  ghost predicate IsSplit<S, F>(conceal: S -> (S, seq<F>), capacity: nat, whole: Pulled<S, F>, a: Pulled<S, F>,
      m: nat)
  {
    whole == After(a.frames, Pull(conceal, capacity, a.player, m))
  }

  /** Concealing brings no frames, and changes nothing. */
  ghost predicate Stuck<S, F>(conceal: S -> (S, seq<F>), s: S) {
    conceal(s) == (s, [])
  }

  ghost predicate StuckWhenFailed<S, F>(conceal: S -> (S, seq<F>), s: S) {
    conceal(s).1 == [] ==> Stuck(conceal, conceal(s).0)
  }

  /** The source of a pull that stopped early has just failed to conceal, and the queue is empty. */
  lemma {:induction false} StoppedPull<S(!new), F>(conceal: S -> (S, seq<F>), capacity: nat, p: Player<S, F>, n: nat)
    requires capacity > 0 && |Pull(conceal, capacity, p, n).frames| < n
    ensures HasFailed(conceal, Pull(conceal, capacity, p, n).player)
    decreases n
  {
    var t := Turn(conceal, capacity, p, n);
    if |t.frames| > 0 {
      var left := n - |t.frames|;
      var rest, whole := Pull(conceal, capacity, t.player, left), Pull(conceal, capacity, p, n);
      PullUnfolds(conceal, capacity, p, n, t, left, rest);
      StopsInRest(t, rest, whole, n, left);
      StoppedPull(conceal, capacity, t.player, left);
    } else {
      EmptyTurn(conceal, capacity, p, n);
      PullIsTurn(conceal, capacity, p, n, t);
    }
  }

  lemma StopsInRest<S, F>(t: Pulled<S, F>, rest: Pulled<S, F>, whole: Pulled<S, F>, n: nat, left: nat)
    requires whole == After(t.frames, rest) && |whole.frames| < n == left + |t.frames|
    ensures |rest.frames| < left && whole.player == rest.player
  {}

  lemma PullIsTurn<S, F>(conceal: S -> (S, seq<F>), capacity: nat, p: Player<S, F>, n: nat, t: Pulled<S, F>)
    requires n > 0 && t == Turn(conceal, capacity, p, n) && t.frames == []
    ensures Pull(conceal, capacity, p, n) == t
  {}

  lemma EmptyTurn<S(!new), F>(conceal: S -> (S, seq<F>), capacity: nat, p: Player<S, F>, n: nat)
    requires capacity > 0 && n > 0 && Turn(conceal, capacity, p, n).frames == []
    ensures HasFailed(conceal, Turn(conceal, capacity, p, n).player)
  {
    assert conceal(p.source) == (Turn(conceal, capacity, p, n).player.source, []);
  }

  ghost predicate HasFailed<S(!new), F>(conceal: S -> (S, seq<F>), p: Player<S, F>) {
    p.queue == [] && exists s :: conceal(s) == (p.source, [])
  }

  lemma StoppedEmpty<S(!new), F>(conceal: S -> (S, seq<F>), capacity: nat, p: Player<S, F>, n: nat)
    requires capacity > 0
    ensures var a := Pull(conceal, capacity, p, n); |a.frames| < n ==> a.player.queue == []
  {
    if |Pull(conceal, capacity, p, n).frames| < n { StoppedPull(conceal, capacity, p, n); }
  }

  /** A player without frames that is stuck stays as it is; any other one changes, or plays. */
  lemma PullFromNothing<S, F>(conceal: S -> (S, seq<F>), capacity: nat, p: Player<S, F>, m: nat)
    requires p.queue == [] && m > 0
    ensures Pull(conceal, capacity, p, m) == Pulled([], p) <==> Stuck(conceal, p.source)
  {
    var t := Turn(conceal, capacity, p, m);
    if |t.frames| > 0 {
      assert |Pull(conceal, capacity, p, m).frames| > 0;
    }
  }

  lemma NothingAfter<S, F>(a: Pulled<S, F>, b: Pulled<S, F>)
    ensures After(a.frames, b) == a <==> b == Pulled([], a.player)
  {
    if After(a.frames, b) == a {
      assert |a.frames + b.frames| == |a.frames| + |b.frames|;
    } else if b.frames == [] {
      assert a.frames + [] == a.frames;
    }
  }

  /**
    * A pull can be split exactly when its first part is complete,
    * or there is no second part, or nothing more can change.
    */
  lemma SplitsExactly<S(!new), F>(conceal: S -> (S, seq<F>), capacity: nat, p: Player<S, F>, n: nat, m: nat)
    requires capacity > 0
    ensures var a := Pull(conceal, capacity, p, n);
      Splits(conceal, capacity, p, n, m) <==> |a.frames| == n || m == 0 || Stuck(conceal, a.player.source)
  {
    SplitsAs(conceal, capacity, p, n, m, Pull(conceal, capacity, p, n), Pull(conceal, capacity, p, n + m));
  }

  lemma SplitsAs<S(!new), F>(conceal: S -> (S, seq<F>), capacity: nat, p: Player<S, F>, n: nat, m: nat,
                             a: Pulled<S, F>, whole: Pulled<S, F>)
    requires capacity > 0 && a == Pull(conceal, capacity, p, n) && whole == Pull(conceal, capacity, p, n + m)
    ensures IsSplit(conceal, capacity, whole, a, m) <==> |a.frames| == n || m == 0 || Stuck(conceal, a.player.source)
  {
    PullSplits(conceal, capacity, p, n, m);
    StoppedEmpty(conceal, capacity, p, n);
    SplitsAfter(conceal, capacity, a, whole, n, m);
  }

  lemma SplitsAfter<S(!new), F>(conceal: S -> (S, seq<F>), capacity: nat, a: Pulled<S, F>, whole: Pulled<S, F>, n: nat,
      m: nat)
    requires |a.frames| <= n && (|a.frames| < n ==> a.player.queue == [])
    requires whole == if |a.frames| < n then a else After(a.frames, Pull(conceal, capacity, a.player, m))
    ensures IsSplit(conceal, capacity, whole, a, m) <==> |a.frames| == n || m == 0 || Stuck(conceal, a.player.source)
  {
    NothingAfter(a, Pull(conceal, capacity, a.player, m));
    if |a.frames| < n && m > 0 { PullFromNothing(conceal, capacity, a.player, m); }
  }

  /**
    * Every pull of every player can be split anywhere, if and
    * only if a source that has failed to conceal once is stuck.
    */
  lemma AlwaysSplits<S(!new), F(!new)>(conceal: S -> (S, seq<F>), capacity: nat)
    requires capacity > 0
    ensures (forall p, n, m :: Splits(conceal, capacity, p, n, m)) <==> (forall s :: StuckWhenFailed(conceal, s))
  {
    if forall s :: StuckWhenFailed(conceal, s) {
      forall p, n, m ensures Splits(conceal, capacity, p, n, m) {
        SplitsExactly(conceal, capacity, p, n, m);
        if |Pull(conceal, capacity, p, n).frames| < n {
          StoppedPull(conceal, capacity, p, n);
          var s :| conceal(s) == (Pull(conceal, capacity, p, n).player.source, []);
          assert StuckWhenFailed(conceal, s);
        }
      }
    }
    if forall p, n, m :: Splits(conceal, capacity, p, n, m) {
      forall s ensures StuckWhenFailed(conceal, s) {
        var p := Player(s, [], 0, []);
        assert Splits(conceal, capacity, p, 1, 1);
        SplitsExactly(conceal, capacity, p, 1, 1);
        if conceal(s).1 == [] {
          assert Pull(conceal, capacity, p, 1) == Pulled([], p.(source := conceal(s).0));
        }
      }
    }
  }

  /** A pull is complete when every concealment from here on brings frames, and there is room for one. */
  lemma {:induction false} PullComplete<S(!new), F>(conceal: S -> (S, seq<F>), good: S -> bool, capacity: nat,
      p: Player<S, F>, n: nat)
    requires capacity > 0 && good(p.source) && forall s :: good(s) ==> conceal(s).1 != [] && good(conceal(s).0)
    ensures IsComplete(good, Pull(conceal, capacity, p, n), n)
    decreases n
  {
    if n > 0 {
      TurnBrings(conceal, good, capacity, p, n);
      var t := Turn(conceal, capacity, p, n);
      PullComplete(conceal, good, capacity, t.player, n - |t.frames|);
      PullUnfolds(conceal, capacity, p, n, t, n - |t.frames|, Pull(conceal, capacity, t.player, n - |t.frames|));
      BothComplete(good, t, Pull(conceal, capacity, t.player, n - |t.frames|), Pull(conceal, capacity, p, n), n);
    }
  }

  lemma BothComplete<S, F>(good: S -> bool, t: Pulled<S, F>, rest: Pulled<S, F>, whole: Pulled<S, F>, n: nat)
    requires |t.frames| <= n && IsComplete(good, rest, n - |t.frames|) && whole == After(t.frames, rest)
    ensures IsComplete(good, whole, n)
  {}

  ghost predicate IsComplete<S, F>(good: S -> bool, a: Pulled<S, F>, n: nat) {
    |a.frames| == n && good(a.player.source)
  }

  lemma PullUnfolds<S, F>(conceal: S -> (S, seq<F>), capacity: nat, p: Player<S, F>, n: nat, t: Pulled<S, F>,
      left: nat, rest: Pulled<S, F>)
    requires n > 0 && t == Turn(conceal, capacity, p, n) && |t.frames| > 0 && left == n - |t.frames|
    requires rest == Pull(conceal, capacity, t.player, left)
    ensures Pull(conceal, capacity, p, n) == After(t.frames, rest)
  {}

  lemma TurnBrings<S(!new), F>(conceal: S -> (S, seq<F>), good: S -> bool, capacity: nat, p: Player<S, F>, n: nat)
    requires capacity > 0 && n > 0 && good(p.source) && forall s :: good(s) ==> conceal(s).1 != [] && good(conceal(s).0)
    ensures var t := Turn(conceal, capacity, p, n); 0 < |t.frames| <= n && good(t.player.source)
  {
    assert conceal(p.source).1 != [];
  }

  /** After a one-frame block and then none, a pull of two frames stops. */
  lemma OneThenNone<S, F>(conceal: S -> (S, seq<F>), capacity: nat, p: Player<S, F>)
    requires capacity > 0 && p.queue == [] && |conceal(p.source).1| == 1 && conceal(conceal(p.source).0).1 == []
    ensures Pull(conceal, capacity, p, 2).frames == conceal(p.source).1
  {
    var first := Turn(conceal, capacity, p, 2);
    assert [] + conceal(p.source).1 == conceal(p.source).1;
    assert first.frames == conceal(p.source).1 && first.player.queue == []
      && first.player.source == conceal(p.source).0;
    StopsAtOnce(conceal, capacity, first.player);
    PullUnfolds(conceal, capacity, p, 2, first, 1, Pull(conceal, capacity, first.player, 1));
    assert first.frames + [] == first.frames;
  }

  lemma StopsAtOnce<S, F>(conceal: S -> (S, seq<F>), capacity: nat, p: Player<S, F>)
    requires p.queue == [] && conceal(p.source).1 == []
    ensures Pull(conceal, capacity, p, 1).frames == []
  {}

  /** A concealment that fails, but advances: a counter that brings no frames. */
  function Counting(s: nat): (nat, seq<bool>) {
    (s + 1, [])
  }

  /** Pulling one frame twice from it conceals twice, pulling two frames conceals once. */
  lemma DoesNotSplit()
    ensures var p: Player<nat, bool> := Player(0, [], 0, []);
      && Pull(Counting, 1, p, 1).frames == [] && !Splits(Counting, 1, p, 1, 1)
      && Pull(Counting, 1, p, 2).player.source == 1
      && Pull(Counting, 1, Pull(Counting, 1, p, 1).player, 1).player.source == 2
  {}

  // ----- Whole runs -----

  /** What can happen to a player, in any order: a packet is decoded, frames are taken, a loss is concealed first. */
  datatype Event<P> = Packet(packet: P) | Take(n: nat) | TakeOrConceal(n: nat)

  function Happen<S, F, P>(decode: (S, P) -> (S, seq<F>), conceal: S -> (S, seq<F>), capacity: nat,
                           p: Player<S, F>, e: Event<P>): Pulled<S, F> {
    match e
    case Packet(packet) =>
      var (source, block) := decode(p.source, packet);
      Pulled([], Enqueue(p, capacity, source, block))
    case Take(n) => Pop(p, n)
    case TakeOrConceal(n) => Turn(conceal, capacity, p, n)
  }

  function Play<S, F, P>(decode: (S, P) -> (S, seq<F>), conceal: S -> (S, seq<F>), capacity: nat,
                         p: Player<S, F>, events: seq<Event<P>>): Pulled<S, F> {
    if events == [] then Pulled([], p)
    else
      var before := Play(decode, conceal, capacity, p, events[..|events| - 1]);
      After(before.frames, Happen(decode, conceal, capacity, before.player, events[|events| - 1]))
  }

  lemma {:induction false} PlayInTwo<S, F, P>(decode: (S, P) -> (S, seq<F>), conceal: S -> (S, seq<F>), capacity: nat,
                                              p: Player<S, F>, first: seq<Event<P>>, second: seq<Event<P>>)
    ensures var a := Play(decode, conceal, capacity, p, first);
      Play(decode, conceal, capacity, p, first + second)
        == After(a.frames, Play(decode, conceal, capacity, a.player, second))
    decreases |second|
  {
    var a := Play(decode, conceal, capacity, p, first);
    if second == [] {
      assert first + second == first && a.frames + [] == a.frames;
    } else {
      var init, last := WithoutLast(second);
      PlayInTwo(decode, conceal, capacity, p, first, init);
      Associate(first, init, [last]);
      PlayLast(decode, conceal, capacity, p, first, init, last, a, Play(decode, conceal, capacity, a.player, init));
    }
  }

  lemma PlayLast<S, F, P>(decode: (S, P) -> (S, seq<F>), conceal: S -> (S, seq<F>), capacity: nat, p: Player<S, F>,
                          first: seq<Event<P>>, init: seq<Event<P>>, last: Event<P>, a: Pulled<S, F>, b: Pulled<S, F>)
    requires b == Play(decode, conceal, capacity, a.player, init)
    requires Play(decode, conceal, capacity, p, first + init) == After(a.frames, b)
    ensures Play(decode, conceal, capacity, p, first + init + [last])
         == After(a.frames, Play(decode, conceal, capacity, a.player, init + [last]))
  {
    PlayNext(decode, conceal, capacity, p, first + init, last);
    PlayNext(decode, conceal, capacity, a.player, init, last);
    Associate(a.frames, b.frames, Happen(decode, conceal, capacity, b.player, last).frames);
  }

  lemma PlayNext<S, F, P>(decode: (S, P) -> (S, seq<F>), conceal: S -> (S, seq<F>), capacity: nat,
                          p: Player<S, F>, events: seq<Event<P>>, e: Event<P>)
    ensures var a := Play(decode, conceal, capacity, p, events);
      Play(decode, conceal, capacity, p, events + [e])
        == After(a.frames, Happen(decode, conceal, capacity, a.player, e))
  {
    assert (events + [e])[..|events|] == events;
  }

  lemma PlayOne<S, F, P>(decode: (S, P) -> (S, seq<F>), conceal: S -> (S, seq<F>), capacity: nat, p: Player<S, F>,
      e: Event<P>)
    ensures Play(decode, conceal, capacity, p, [e]) == Happen(decode, conceal, capacity, p, e)
  {
    assert [e][..0] == [];
    var r := Happen(decode, conceal, capacity, p, e);
    assert [] + r.frames == r.frames;
  }

  // ----- A pull while packets arrive -----

  /**
    * What other threads do during a turn: packets are decoded before the ring is read, and
    * while the lock of the decoder is awaited; after either the peer may have been closed.
    */
  datatype Meanwhile<P> = Meanwhile(before: seq<P>, closedBefore: bool, inside: seq<P>, closedInside: bool)

  function Receive<S, F, P>(decode: (S, P) -> (S, seq<F>), capacity: nat, p: Player<S, F>,
      packets: seq<P>): Player<S, F>
  {
    if packets == [] then p
    else
      var q := Receive(decode, capacity, p, packets[..|packets| - 1]);
      var (source, block) := decode(q.source, packets[|packets| - 1]);
      Enqueue(q, capacity, source, block)
  }

  function TurnAmong<S, F, P>(decode: (S, P) -> (S, seq<F>), conceal: S -> (S, seq<F>), capacity: nat,
                              p: Player<S, F>, n: nat, w: Meanwhile<P>): Pulled<S, F> {
    var q := Receive(decode, capacity, p, w.before);
    if w.closedBefore then Pulled([], q)
    else if |q.queue| > 0 then Pop(q, n)
    else
      var s := Receive(decode, capacity, q, w.inside);
      if w.closedInside then Pulled([], s) else Turn(conceal, capacity, s, n)
  }

  /** What a turn does to a player of whom so many frames are wanted, by the number of the turn. */
  type Step<!S, !F> = (Player<S, F>, nat, nat) -> Pulled<S, F>

  /** A peer that is closed plays nothing more; the packets that came before are decoded all the same. */
  lemma ClosedPlaysNothing<S, F, P>(decode: (S, P) -> (S, seq<F>), conceal: S -> (S, seq<F>), capacity: nat,
      p: Player<S, F>, n: nat, w: Meanwhile<P>)
    ensures w.closedBefore ==>
      TurnAmong(decode, conceal, capacity, p, n, w) == Pulled([], Receive(decode, capacity, p, w.before))
    ensures w.closedInside && Receive(decode, capacity, p, w.before).queue == [] ==>
      TurnAmong(decode, conceal, capacity, p, n, w).frames == []
  {}

  function Among<S, F, P>(decode: (S, P) -> (S, seq<F>), conceal: S -> (S, seq<F>), capacity: nat,
      when: nat -> Meanwhile<P>): Step<S, F>
  {
    (p: Player<S, F>, n: nat, turn: nat) => TurnAmong(decode, conceal, capacity, p, n, when(turn))
  }

  /** Turns until there are n frames, or until a turn brings none. */
  function Loop<S, F>(step: Step<S, F>, p: Player<S, F>, n: nat, turn: nat): (r: Pulled<S, F>)
    ensures |r.frames| <= n
    decreases n
  {
    if n == 0 then Pulled([], p)
    else
      var t := step(p, n, turn);
      if |t.frames| == 0 || |t.frames| > n then Pulled([], t.player)
      else
        var rest := Loop(step, t.player, n - |t.frames|, turn + 1);
        Pulled(t.frames + rest.frames, rest.player)
  }

  lemma TurnIsBounded<S, F, P>(decode: (S, P) -> (S, seq<F>), conceal: S -> (S, seq<F>), capacity: nat,
                               p: Player<S, F>, n: nat, w: Meanwhile<P>)
    ensures |TurnAmong(decode, conceal, capacity, p, n, w).frames| <= n
  {}

  ghost predicate Quiet<P(!new)>(when: nat -> Meanwhile<P>) {
    forall k :: when(k) == Meanwhile([], false, [], false)
  }

  lemma QuietTurn<S, F, P(!new)>(decode: (S, P) -> (S, seq<F>), conceal: S -> (S, seq<F>), capacity: nat,
                                 p: Player<S, F>, n: nat, when: nat -> Meanwhile<P>, turn: nat)
    requires Quiet(when)
    ensures Among(decode, conceal, capacity, when)(p, n, turn) == Turn(conceal, capacity, p, n)
  {
    assert when(turn) == Meanwhile([], false, [], false);
  }

  ghost predicate TurnsAre<S(!new), F(!new)>(step: Step<S, F>, conceal: S -> (S, seq<F>), capacity: nat) {
    forall p, n, turn {:trigger step(p, n, turn)} :: step(p, n, turn) == Turn(conceal, capacity, p, n)
  }

  lemma {:induction false} SameLoop<S(!new), F(!new)>(step: Step<S, F>, conceal: S -> (S, seq<F>), capacity: nat,
                                                      p: Player<S, F>, n: nat, turn: nat)
    requires TurnsAre(step, conceal, capacity)
    ensures Loop(step, p, n, turn) == Pull(conceal, capacity, p, n)
    decreases n
  {
    if n > 0 {
      var t := step(p, n, turn);
      TurnFrames(conceal, capacity, p, n);
      LoopStep(step, p, n, turn, t);
      if |t.frames| > 0 {
        var left := n - |t.frames|;
        SameLoop(step, conceal, capacity, t.player, left, turn + 1);
        PullUnfolds(conceal, capacity, p, n, t, left, Pull(conceal, capacity, t.player, left));
      } else {
        PullIsTurn(conceal, capacity, p, n, t);
      }
    }
  }

  lemma TurnFrames<S, F>(conceal: S -> (S, seq<F>), capacity: nat, p: Player<S, F>, n: nat)
    ensures |Turn(conceal, capacity, p, n).frames| <= n
  {}

  /** When nothing happens meanwhile it is the plain pull. */
  lemma QuietPull<S(!new), F(!new), P(!new)>(decode: (S, P) -> (S, seq<F>), conceal: S -> (S, seq<F>), capacity: nat,
                                             p: Player<S, F>, n: nat, when: nat -> Meanwhile<P>, turn: nat)
    requires Quiet(when)
    ensures Loop(Among(decode, conceal, capacity, when), p, n, turn) == Pull(conceal, capacity, p, n)
  {
    var step: Step<S, F> := Among(decode, conceal, capacity, when);
    forall p: Player<S, F>, n: nat, turn: nat ensures step(p, n, turn) == Turn(conceal, capacity, p, n) {
      QuietTurn(decode, conceal, capacity, p, n, when, turn);
    }
    SameLoop(step, conceal, capacity, p, n, turn);
  }

  lemma LoopStep<S, F>(step: Step<S, F>, p: Player<S, F>, n: nat, turn: nat, t: Pulled<S, F>)
    requires n > 0 && t == step(p, n, turn) && |t.frames| <= n
    ensures Loop(step, p, n, turn)
         == if |t.frames| == 0 then t else After(t.frames, Loop(step, t.player, n - |t.frames|, turn + 1))
  {}

  /** A loop is complete when every turn brings frames. */
  lemma {:induction false} LoopComplete<S(!new), F(!new)>(step: Step<S, F>, good: Player<S, F> -> bool, p: Player<S, F>,
      n: nat, turn: nat)
    requires good(p) && forall p, n, turn :: good(p) && n > 0 ==> TurnIsGood(good, step(p, n, turn), n)
    ensures |Loop(step, p, n, turn).frames| == n
    decreases n
  {
    if n > 0 {
      var t := step(p, n, turn);
      assert TurnIsGood(good, t, n);
      LoopComplete(step, good, t.player, n - |t.frames|, turn + 1);
    }
  }

  ghost predicate TurnIsGood<S, F>(good: Player<S, F> -> bool, t: Pulled<S, F>, n: nat) {
    0 < |t.frames| <= n && good(t.player)
  }

  /** What remains of a pull after a turn in which something came, or nothing. */
  ghost predicate GoesOn<S, F>(step: Step<S, F>, whole: Pulled<S, F>, sofar: seq<F>, t: Pulled<S, F>, left: nat,
      turn: nat)
  {
    && |t.frames| <= left
    && whole == if |t.frames| == 0 then Pulled(sofar + t.frames, t.player)
                else After(sofar + t.frames, Loop(step, t.player, left - |t.frames|, turn + 1))
  }

  lemma AfterTurn<S, F>(step: Step<S, F>, whole: Pulled<S, F>, sofar: seq<F>, t: Pulled<S, F>, left: nat, turn: nat,
                        rest: nat, next: nat)
    requires GoesOn(step, whole, sofar, t, left, turn) && |t.frames| > 0
    requires rest == left - |t.frames| && next == turn + 1
    ensures whole == After(sofar + t.frames, Loop(step, t.player, rest, next))
  {}

  /** A turn is the beginning of what is left to pull. */
  lemma Advance<S, F>(step: Step<S, F>, whole: Pulled<S, F>, sofar: seq<F>, p: Player<S, F>, left: nat, turn: nat)
    requires left > 0 && |step(p, left, turn).frames| <= left
    requires whole == After(sofar, Loop(step, p, left, turn))
    ensures GoesOn(step, whole, sofar, step(p, left, turn), left, turn)
  {
    var t := step(p, left, turn);
    if |t.frames| > 0 {
      var rest := Loop(step, t.player, left - |t.frames|, turn + 1);
      assert Loop(step, p, left, turn) == After(t.frames, rest);
      Associate(sofar, t.frames, rest.frames);
    }
  }

  function Packets<P>(packets: seq<P>): (events: seq<Event<P>>) {
    seq(|packets|, i requires 0 <= i < |packets| => Packet(packets[i]))
  }

  /** A turn as events. */
  function TurnEvents<S, F, P>(decode: (S, P) -> (S, seq<F>), capacity: nat, p: Player<S, F>, n: nat,
      w: Meanwhile<P>): seq<Event<P>>
  {
    var q := Receive(decode, capacity, p, w.before);
    Packets(w.before) +
    (if w.closedBefore then []
     else if |q.queue| > 0 then [Take(n)]
     else Packets(w.inside) + if w.closedInside then [] else [TakeOrConceal(n)])
  }

  type Script<!S, !F, !P> = (Player<S, F>, nat, nat) -> seq<Event<P>>

  function AmongEvents<S, F, P>(decode: (S, P) -> (S, seq<F>), capacity: nat,
      when: nat -> Meanwhile<P>): Script<S, F, P>
  {
    (p: Player<S, F>, n: nat, turn: nat) => TurnEvents(decode, capacity, p, n, when(turn))
  }

  /** A pull as events. */
  function LoopEvents<S, F, P>(step: Step<S, F>, script: Script<S, F, P>, p: Player<S, F>, n: nat,
      turn: nat): seq<Event<P>>
    decreases n
  {
    if n == 0 then []
    else
      var t := step(p, n, turn);
      script(p, n, turn) +
      if |t.frames| == 0 || |t.frames| > n then [] else LoopEvents(step, script, t.player, n - |t.frames|, turn + 1)
  }

  lemma {:induction false} ReceiveIsPlay<S, F, P>(decode: (S, P) -> (S, seq<F>), conceal: S -> (S, seq<F>),
      capacity: nat, p: Player<S, F>, packets: seq<P>)
    ensures Play(decode, conceal, capacity, p, Packets(packets)) == Pulled([], Receive(decode, capacity, p, packets))
  {
    if packets != [] {
      var init := packets[..|packets| - 1];
      ReceiveIsPlay(decode, conceal, capacity, p, init);
      assert Packets(packets)[..|packets| - 1] == Packets(init);
    }
  }

  lemma TurnIsPlay<S, F, P>(decode: (S, P) -> (S, seq<F>), conceal: S -> (S, seq<F>), capacity: nat,
                            p: Player<S, F>, n: nat, w: Meanwhile<P>)
    ensures Play(decode, conceal, capacity, p, TurnEvents(decode, capacity, p, n, w))
      == TurnAmong(decode, conceal, capacity, p, n, w)
  {
    var q := Receive(decode, capacity, p, w.before);
    ReceiveIsPlay(decode, conceal, capacity, p, w.before);
    if w.closedBefore {
      assert Packets(w.before) + [] == Packets(w.before);
    } else if |q.queue| > 0 {
      ThenHappens(decode, conceal, capacity, p, Packets(w.before), q, Take(n));
    } else {
      var s := Receive(decode, capacity, q, w.inside);
      ReceiveIsPlay(decode, conceal, capacity, q, w.inside);
      PlayInTwo(decode, conceal, capacity, p, Packets(w.before), Packets(w.inside));
      assert Packets(w.before) + (Packets(w.inside) + []) == Packets(w.before) + Packets(w.inside);
      if !w.closedInside {
        ThenHappens(decode, conceal, capacity, p, Packets(w.before) + Packets(w.inside), s, TakeOrConceal(n));
        Associate(Packets(w.before), Packets(w.inside), [TakeOrConceal(n)]);
      }
    }
  }

  lemma ThenHappens<S, F, P>(decode: (S, P) -> (S, seq<F>), conceal: S -> (S, seq<F>), capacity: nat,
                             p: Player<S, F>, events: seq<Event<P>>, q: Player<S, F>, e: Event<P>)
    requires Play(decode, conceal, capacity, p, events) == Pulled([], q)
    ensures Play(decode, conceal, capacity, p, events + [e]) == Happen(decode, conceal, capacity, q, e)
  {
    PlayInTwo(decode, conceal, capacity, p, events, [e]);
    PlayOne(decode, conceal, capacity, q, e);
    var r := Happen(decode, conceal, capacity, q, e);
    assert [] + r.frames == r.frames;
  }

  /** The events of every turn do what the turn does. */
  ghost predicate IsScript<S(!new), F(!new), P>(decode: (S, P) -> (S, seq<F>), conceal: S -> (S, seq<F>), capacity: nat,
                                                step: Step<S, F>, script: Script<S, F, P>) {
    forall p, n, turn {:trigger step(p, n, turn)} ::
      Play(decode, conceal, capacity, p, script(p, n, turn)) == step(p, n, turn) && |step(p, n, turn).frames| <= n
  }

  lemma {:induction false} LoopIsPlay<S(!new), F(!new), P>(decode: (S, P) -> (S, seq<F>), conceal: S -> (S, seq<F>),
      capacity: nat, step: Step<S, F>, script: Script<S, F, P>, p: Player<S, F>, n: nat, turn: nat)
    requires IsScript(decode, conceal, capacity, step, script)
    ensures Play(decode, conceal, capacity, p, LoopEvents(step, script, p, n, turn)) == Loop(step, p, n, turn)
    decreases n
  {
    if n > 0 {
      var t, events := step(p, n, turn), script(p, n, turn);
      assert Play(decode, conceal, capacity, p, events) == t && |t.frames| <= n;
      if |t.frames| == 0 {
        LoopStep(step, p, n, turn, t);
        ScriptStep(step, script, p, n, turn, t);
        assert events + [] == events;
      } else {
        var left := n - |t.frames|;
        var more, rest := LoopEvents(step, script, t.player, left, turn + 1), Loop(step, t.player, left, turn + 1);
        LoopIsPlay(decode, conceal, capacity, step, script, t.player, left, turn + 1);
        LoopTurn(step, script, p, n, turn, t, left, events, more, rest);
        PlayBoth(decode, conceal, capacity, p, events, t, more, rest);
      }
    }
  }

  lemma LoopTurn<S, F, P>(step: Step<S, F>, script: Script<S, F, P>, p: Player<S, F>, n: nat, turn: nat,
                          t: Pulled<S, F>, left: nat, events: seq<Event<P>>, more: seq<Event<P>>, rest: Pulled<S, F>)
    requires n > 0 && t == step(p, n, turn) && 0 < |t.frames| <= n && left == n - |t.frames|
    requires events == script(p, n, turn) && more == LoopEvents(step, script, t.player, left, turn + 1)
    requires rest == Loop(step, t.player, left, turn + 1)
    ensures Loop(step, p, n, turn) == After(t.frames, rest)
    ensures LoopEvents(step, script, p, n, turn) == events + more
  {}

  lemma ScriptStep<S, F, P>(step: Step<S, F>, script: Script<S, F, P>, p: Player<S, F>, n: nat, turn: nat,
      t: Pulled<S, F>)
    requires n > 0 && t == step(p, n, turn) && |t.frames| <= n
    ensures LoopEvents(step, script, p, n, turn) == script(p, n, turn) +
      if |t.frames| == 0 then [] else LoopEvents(step, script, t.player, n - |t.frames|, turn + 1)
  {}

  lemma PlayBoth<S, F, P>(decode: (S, P) -> (S, seq<F>), conceal: S -> (S, seq<F>), capacity: nat, p: Player<S, F>,
                          events: seq<Event<P>>, t: Pulled<S, F>, more: seq<Event<P>>, rest: Pulled<S, F>)
    requires Play(decode, conceal, capacity, p, events) == t && Play(decode, conceal, capacity, t.player, more) == rest
    ensures Play(decode, conceal, capacity, p, events + more) == After(t.frames, rest)
  {
    PlayInTwo(decode, conceal, capacity, p, events, more);
  }

  /** A pull with packets arriving anywhere is a run of single events, so what is proved of all runs holds of it. */
  lemma PullIsPlay<S(!new), F(!new), P>(decode: (S, P) -> (S, seq<F>), conceal: S -> (S, seq<F>), capacity: nat,
                                        p: Player<S, F>, n: nat, when: nat -> Meanwhile<P>, turn: nat)
    ensures Play(decode, conceal, capacity, p,
                 LoopEvents(Among(decode, conceal, capacity, when), AmongEvents(decode, capacity, when), p, n, turn))
         == Loop(Among(decode, conceal, capacity, when), p, n, turn)
  {
    var step: Step<S, F>, script: Script<S, F, P> := Among(decode, conceal, capacity, when),
      AmongEvents(decode, capacity, when);
    forall p: Player<S, F>, n: nat, turn: nat
      ensures Play(decode, conceal, capacity, p, script(p, n, turn)) == step(p, n, turn)
        && |step(p, n, turn).frames| <= n
    {
      TurnIsPlay(decode, conceal, capacity, p, n, when(turn));
      TurnIsBounded(decode, conceal, capacity, p, n, when(turn));
    }
    LoopIsPlay(decode, conceal, capacity, step, script, p, n, turn);
  }

  // ----- Everything is played in order -----

  /** Nothing that was made has been pushed out of the ring. */
  ghost predicate NothingDropped<S, F>(played: seq<F>, p: Player<S, F>) {
    p.made == played + p.queue
  }

  /** The block that an event makes fits behind what is queued. */
  ghost predicate Fits<S, F, P>(decode: (S, P) -> (S, seq<F>), conceal: S -> (S, seq<F>), capacity: nat,
                                p: Player<S, F>, e: Event<P>) {
    match e
    case Packet(packet) => |p.queue| + |decode(p.source, packet).1| <= capacity
    case Take(_) => true
    case TakeOrConceal(_) => |p.queue| > 0 || |conceal(p.source).1| <= capacity
  }

  ghost predicate AllFit<S, F, P>(decode: (S, P) -> (S, seq<F>), conceal: S -> (S, seq<F>), capacity: nat,
                                  p: Player<S, F>, events: seq<Event<P>>) {
    events != [] ==>
      var init, last := events[..|events| - 1], events[|events| - 1];
      && AllFit(decode, conceal, capacity, p, init)
      && Fits(decode, conceal, capacity, Play(decode, conceal, capacity, p, init).player, last)
  }

  lemma EnqueueKeepsAll<S, F>(p: Player<S, F>, capacity: nat, source: S, block: seq<F>, played: seq<F>)
    requires NothingDropped(played, p) && |p.queue| + |block| <= capacity
    ensures NothingDropped(played, Enqueue(p, capacity, source, block))
  {
    Associate(played, p.queue, block);
  }

  lemma PopKeepsAll<S, F>(p: Player<S, F>, n: nat, played: seq<F>)
    requires NothingDropped(played, p)
    ensures NothingDropped(played + Pop(p, n).frames, Pop(p, n).player)
  {
    var k := Taken(p.queue, n);
    assert p.queue[..k] + p.queue[k..] == p.queue;
    Associate(played, p.queue[..k], p.queue[k..]);
  }

  lemma ConcealKeepsAll<S, F>(conceal: S -> (S, seq<F>), capacity: nat, p: Player<S, F>, played: seq<F>)
    requires NothingDropped(played, p) && |p.queue| + |conceal(p.source).1| <= capacity
    ensures NothingDropped(played, Conceal(conceal, capacity, p))
  {
    EnqueueKeepsAll(p, capacity, conceal(p.source).0, conceal(p.source).1, played);
  }

  /**
    * Whatever the order of packets and pulls: what was played, and then what is queued,
    * is all that was made, decoded or concealed, in the order in which it was made.
    */
  lemma {:induction false} PlaysInOrder<S, F, P>(decode: (S, P) -> (S, seq<F>), conceal: S -> (S, seq<F>),
      capacity: nat, p: Player<S, F>, events: seq<Event<P>>)
    requires NothingDropped([], p) && AllFit(decode, conceal, capacity, p, events)
    ensures var r := Play(decode, conceal, capacity, p, events); NothingDropped(r.frames, r.player)
  {
    if events != [] {
      var init, last := events[..|events| - 1], events[|events| - 1];
      PlaysInOrder(decode, conceal, capacity, p, init);
      var before := Play(decode, conceal, capacity, p, init);
      EventKeepsAll(decode, conceal, capacity, before.player, last, before.frames);
    }
  }

  lemma EventKeepsAll<S, F, P>(decode: (S, P) -> (S, seq<F>), conceal: S -> (S, seq<F>), capacity: nat,
                               p: Player<S, F>, e: Event<P>, played: seq<F>)
    requires NothingDropped(played, p) && Fits(decode, conceal, capacity, p, e)
    ensures var r := Happen(decode, conceal, capacity, p, e); NothingDropped(played + r.frames, r.player)
  {
    match e
    case Packet(packet) =>
      EnqueueKeepsAll(p, capacity, decode(p.source, packet).0, decode(p.source, packet).1, played);
      assert played + [] == played;
    case Take(n) => PopKeepsAll(p, n, played);
    case TakeOrConceal(n) =>
      if |p.queue| == 0 {
        ConcealKeepsAll(conceal, capacity, p, played);
        PopKeepsAll(Conceal(conceal, capacity, p), n, played);
      } else {
        PopKeepsAll(p, n, played);
      }
  }

  /** A packet that arrives when part of a concealed block has been played comes after the rest of it. */
  lemma PacketAfterTail<S, F, P>(decode: (S, P) -> (S, seq<F>), conceal: S -> (S, seq<F>), capacity: nat,
                                 p: Player<S, F>, n: nat, packet: P)
    requires p.queue == []
    requires var t := Turn(conceal, capacity, p, n); Fits(decode, conceal, capacity, t.player, Packet(packet))
    requires |conceal(p.source).1| <= capacity && n <= |conceal(p.source).1|
    ensures var block := conceal(p.source).1;
      var t := Turn(conceal, capacity, p, n);
      && t.frames == block[..n]
      && Happen(decode, conceal, capacity, t.player, Packet(packet)).player.queue
         == block[n..] + decode(t.player.source, packet).1
  {
    assert [] + conceal(p.source).1 == conceal(p.source).1;
  }
}
