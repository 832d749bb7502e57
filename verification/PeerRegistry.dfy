/**
  * The live peers of a session, the peers waiting to be released, and the candidates waiting for either. Every
  * method is one critical section, or what one thread does between two of them, so a run is any sequence of calls.
  */
module PeerRegistry {
  import opened Results
  import opened Sequences
  import opened Candidates
  import opened CandidateLedger

  const MAX_PEER_SESSIONS: nat := 16

  datatype Mode = Publish | Play

  /** A peer session; every connection ever made has a number of its own. */
  datatype Peer = Peer(id: nat, uuid: string, sessionId: string, streamId: string, negotiationReady: bool, inbox: Inbox)

  /** A remote description that a thread applies outside the lock, to a connection made for the key. */
  datatype Describing = Describing(key: string, id: nat, isAnswer: bool, applied: bool)

  /**
    * The connections that had a remote description applied, and those that were marked as having one
    * after another connection of their key had been described.
    */
  datatype Marks = Marks(described: set<nat>, mistaken: set<nat>)

  function PeerKey(uuid: string, session: string): string {
    if session == "" then uuid else uuid + ":" + session
  }

  // ----- What holds of the tables -----

  ghost predicate KeyLinked(peers: map<string, Peer>, byUuid: map<string, string>, k: string) {
    k in peers ==> peers[k].uuid in byUuid && byUuid[peers[k].uuid] == k
  }

  ghost predicate UuidLinked(peers: map<string, Peer>, byUuid: map<string, string>, u: string) {
    u in byUuid ==> byUuid[u] in peers && peers[byUuid[u]].uuid == u
  }

  /** The two maps are inverse to each other: one live peer for each UUID. */
  ghost predicate Inverse(peers: map<string, Peer>, byUuid: map<string, string>) {
    (forall k :: KeyLinked(peers, byUuid, k)) && (forall u :: UuidLinked(peers, byUuid, u))
  }

  ghost predicate LiveOnce(peers: map<string, Peer>, departed: seq<nat>, owners: seq<string>, k: string) {
    k in peers ==> peers[k].id < |owners| && owners[peers[k].id] == k && peers[k].id !in departed
  }

  ghost predicate DepartedOnce(departed: seq<nat>, i: int, j: int) {
    0 <= i < j < |departed| ==> departed[i] != departed[j]
  }

  ghost predicate LiveOrDeparted(peers: map<string, Peer>, departed: seq<nat>, owners: seq<string>, id: int) {
    0 <= id < |owners| ==> id in departed || (owners[id] in peers && peers[owners[id]].id == id)
  }

  /** Every connection made so far, for the key in its place, is live or has departed once. */
  ghost predicate Tracked(peers: map<string, Peer>, departed: seq<nat>, owners: seq<string>) {
    && (forall k :: LiveOnce(peers, departed, owners, k))
    && (forall i, j :: DepartedOnce(departed, i, j))
    && (forall i :: 0 <= i < |departed| ==> departed[i] < |owners|)
    && (forall id :: LiveOrDeparted(peers, departed, owners, id))
    && |peers| + |departed| == |owners|
  }

  ghost predicate PeerOk(peers: map<string, Peer>, arrivals: nat, marks: Marks, k: string) {
    k in peers ==>
      var p := peers[k];
      && k == PeerKey(p.uuid, p.sessionId)
      && p.inbox.Valid() && ArrivedBefore(p.inbox.Offered(), arrivals)
      && (p.inbox.remoteDescriptionSet ==> p.id in marks.described + marks.mistaken)
      && (p.id in marks.mistaken ==> p.inbox.remoteDescriptionSet)
  }

  ghost predicate PeersOk(peers: map<string, Peer>, arrivals: nat, marks: Marks) {
    forall k :: PeerOk(peers, arrivals, marks, k)
  }

  ghost predicate InboxHolds(ledger: seq<Entry>, peers: map<string, Peer>, k: string) {
    k in peers ==> Holds(ledger, peers[k].inbox.Offered(), Held(peers[k].id))
  }

  /** Every candidate that ever arrived is where its fate says, and nowhere else. */
  ghost predicate Accounted(ledger: seq<Entry>, pendingIce: seq<Ice>, peers: map<string, Peer>, connections: nat) {
    && WellKept(ledger, connections) && Holds(ledger, pendingIce, Waits)
    && forall k :: InboxHolds(ledger, peers, k)
  }

  ghost predicate OneOf(peers: map<string, Peer>, k: string, l: string) {
    k in peers && l in peers && k != l ==>
      !(peers[k].negotiationReady && peers[l].negotiationReady && peers[k].streamId == peers[l].streamId != "")
  }

  /** Only one generation of a stream is heard. */
  ghost predicate OneGeneration(peers: map<string, Peer>) {
    forall k, l :: OneOf(peers, k, l)
  }

  function Ids(retired: seq<Peer>): (ids: seq<nat>)
    ensures |ids| == |retired|
  {
    seq(|retired|, i requires 0 <= i < |retired| => retired[i].id)
  }

  /** How many peers may be live, and may wait for the cleanup thread. */
  ghost predicate Bounded(live: nat, queued: nat, inFlight: Option<Peer>, pendingCleanup: nat) {
    && pendingCleanup == queued + (if inFlight.Some? then 1 else 0)
    && live <= MAX_PEER_SESSIONS && live + pendingCleanup <= 2 * MAX_PEER_SESSIONS
  }

  ghost predicate Queued(pendingIce: seq<Ice>, arrivals: nat) {
    Increasing(pendingIce) && ArrivedBefore(pendingIce, arrivals) && |pendingIce| <= MAX_PENDING_ICE
  }

  /** A description is for some connection made for its key, which can be gone, or replaced by another one. */
  ghost predicate IsDescribed(d: Describing, owners: seq<string>, marks: Marks, mode: Mode) {
    && d.id < |owners| && owners[d.id] == d.key
    && (d.isAnswer ==> mode.Publish?) && (d.applied ==> d.id in marks.described)
  }

  ghost predicate AllDescribed(describing: map<nat, Describing>, owners: seq<string>, marks: Marks, mode: Mode) {
    && (forall t :: t in describing ==> IsDescribed(describing[t], owners, marks, mode))
    && (forall id :: id in marks.mistaken ==> id < |owners|)
  }

  /** All connections that are no longer live, in the order in which they were closed. */
  function DepartedOf(released: seq<nat>, inFlight: Option<Peer>, retired: seq<Peer>): seq<nat> {
    released + (if inFlight.Some? then [inFlight.value.id] else []) + Ids(retired)
  }

  lemma RetireAppends(released: seq<nat>, inFlight: Option<Peer>, retired: seq<Peer>, p: Peer)
    ensures DepartedOf(released, inFlight, retired + [p]) == DepartedOf(released, inFlight, retired) + [p.id]
  {
    assert Ids(retired + [p]) == Ids(retired) + [p.id];
    Associate(released + (if inFlight.Some? then [inFlight.value.id] else []), Ids(retired), [p.id]);
  }

  // ----- Changes of the tables -----

  lemma CloseKeeps(peers: map<string, Peer>, byUuid: map<string, string>, departed: seq<nat>, owners: seq<string>,
      key: string)
    requires Inverse(peers, byUuid) && Tracked(peers, departed, owners) && key in peers
    ensures |peers - {key}| == |peers| - 1
    ensures Inverse(peers - {key}, byUuid - {peers[key].uuid})
    ensures Tracked(peers - {key}, departed + [peers[key].id], owners)
  {
    CardinalityWithout(peers, key);
    var rest, uuids, id := peers - {key}, byUuid - {peers[key].uuid}, peers[key].id;
    assert KeyLinked(peers, byUuid, key) && LiveOnce(peers, departed, owners, key);
    forall k ensures KeyLinked(rest, uuids, k) {
      assert KeyLinked(peers, byUuid, k);
    }
    forall u ensures UuidLinked(rest, uuids, u) {
      assert UuidLinked(peers, byUuid, u);
    }
    forall k ensures LiveOnce(rest, departed + [id], owners, k) {
      assert LiveOnce(peers, departed, owners, k);
    }
    forall i ensures LiveOrDeparted(rest, departed + [id], owners, i) {
      assert LiveOrDeparted(peers, departed, owners, i);
    }
    forall i, j ensures DepartedOnce(departed + [id], i, j) {
      assert DepartedOnce(departed, i, j);
      if 0 <= i < j == |departed| { assert departed[i] in departed; }
    }
  }

  /** Fewer peers, or fewer of them ready, are as they should be. */
  lemma SomePeersOk(peers: map<string, Peer>, key: string, arrivals: nat, marks: Marks)
    requires PeersOk(peers, arrivals, marks)
    ensures PeersOk(peers - {key}, arrivals, marks)
  {
    forall k ensures PeerOk(peers - {key}, arrivals, marks, k) {
      assert PeerOk(peers, arrivals, marks, k);
    }
  }

  lemma ChangedPeersOk(peers: map<string, Peer>, key: string, p: Peer, arrivals: nat, marks: Marks)
    requires PeersOk(peers, arrivals, marks) && PeerOk(map[key := p], arrivals, marks, key)
    ensures PeersOk(peers[key := p], arrivals, marks)
  {
    var changed := peers[key := p];
    assert PeerOk(map[key := p], arrivals, marks, key);
    forall k ensures PeerOk(changed, arrivals, marks, k) {
      assert PeerOk(peers, arrivals, marks, k);
    }
  }

  lemma FewerGenerations(peers: map<string, Peer>, key: string)
    ensures OneGeneration(peers) ==> OneGeneration(peers - {key})
  {
    if OneGeneration(peers) {
      forall k, l ensures OneOf(peers - {key}, k, l) {
        assert OneOf(peers, k, l);
      }
    }
  }

  /** A change makes no session ready, and does not move a ready one to another stream. */
  ghost predicate StaysSilent(p: Peer, q: Peer) {
    !q.negotiationReady || (p.negotiationReady && q.streamId == p.streamId)
  }

  lemma SameGenerations(peers: map<string, Peer>, key: string, p: Peer)
    ensures OneGeneration(peers) &&
      (!p.negotiationReady || (key in peers && StaysSilent(peers[key], p)))
      ==> OneGeneration(peers[key := p])
  {
    if OneGeneration(peers) && (!p.negotiationReady || (key in peers && StaysSilent(peers[key], p))) {
      var changed := peers[key := p];
      forall k, l ensures OneOf(changed, k, l) {
        assert OneOf(peers, k, l);
      }
    }
  }

  lemma CardinalityWithout<T(!new)>(m: map<string, T>, key: string)
    requires key in m
    ensures |m - {key}| == |m| - 1
  {
    assert m.Keys == (m - {key}).Keys + {key};
    assert |m.Keys| == |m| && |(m - {key}).Keys| == |m - {key}|;
  }

  lemma InsertKeeps(peers: map<string, Peer>, byUuid: map<string, string>, departed: seq<nat>, owners: seq<string>,
      key: string, p: Peer)
    requires Inverse(peers, byUuid) && Tracked(peers, departed, owners)
    requires key !in peers && p.uuid !in byUuid && p.id == |owners|
    ensures |peers[key := p]| == |peers| + 1
    ensures Inverse(peers[key := p], byUuid[p.uuid := key])
    ensures Tracked(peers[key := p], departed, owners + [key])
  {
    var more, uuids := peers[key := p], byUuid[p.uuid := key];
    forall k ensures KeyLinked(more, uuids, k) {
      assert KeyLinked(peers, byUuid, k);
    }
    forall u ensures UuidLinked(more, uuids, u) {
      assert UuidLinked(peers, byUuid, u);
    }
    forall k ensures LiveOnce(more, departed, owners + [key], k) {
      assert LiveOnce(peers, departed, owners, k);
    }
    forall id ensures LiveOrDeparted(more, departed, owners + [key], id) {
      assert LiveOrDeparted(peers, departed, owners, id);
    }
  }

  lemma UpdateKeeps(peers: map<string, Peer>, byUuid: map<string, string>, departed: seq<nat>, owners: seq<string>,
      key: string, p: Peer)
    requires Inverse(peers, byUuid) && Tracked(peers, departed, owners)
    requires key in peers && p.id == peers[key].id && p.uuid == peers[key].uuid
    ensures |peers[key := p]| == |peers|
    ensures Inverse(peers[key := p], byUuid) && Tracked(peers[key := p], departed, owners)
  {
    var changed := peers[key := p];
    forall k ensures KeyLinked(changed, byUuid, k) {
      assert KeyLinked(peers, byUuid, k);
    }
    forall u ensures UuidLinked(changed, byUuid, u) {
      assert UuidLinked(peers, byUuid, u);
    }
    forall k ensures LiveOnce(changed, departed, owners, k) {
      assert LiveOnce(peers, departed, owners, k);
    }
    forall id ensures LiveOrDeparted(changed, departed, owners, id) {
      assert LiveOrDeparted(peers, departed, owners, id);
    }
  }

  // ----- Changes of the ledger -----

  lemma FewerAccounted(ledger: seq<Entry>, pendingIce: seq<Ice>, peers: map<string, Peer>, connections: nat,
      key: string)
    requires Accounted(ledger, pendingIce, peers, connections)
    ensures Accounted(ledger, pendingIce, peers - {key}, connections)
  {
    forall k ensures InboxHolds(ledger, peers - {key}, k) {
      assert InboxHolds(ledger, peers, k);
    }
  }

  lemma MoreAccounted(ledger: seq<Entry>, pendingIce: seq<Ice>, peers: map<string, Peer>, connections: nat, key: string,
      p: Peer)
    requires Accounted(ledger, pendingIce, peers, connections) && p.id == connections && p.inbox == EMPTY_INBOX
    ensures Accounted(ledger, pendingIce, peers[key := p], connections + 1)
  {
    MoreConnections(ledger, connections, connections + 1);
    NothingHeld(ledger, connections, p.id);
    var more := peers[key := p];
    forall k ensures InboxHolds(ledger, more, k) {
      assert InboxHolds(ledger, peers, k);
    }
  }

  /** A peer with the same candidates takes the place of another. */
  lemma SameAccounted(ledger: seq<Entry>, pendingIce: seq<Ice>, peers: map<string, Peer>, connections: nat, key: string,
      p: Peer)
    requires Accounted(ledger, pendingIce, peers, connections) && key in peers
    requires p.id == peers[key].id && p.inbox.Offered() == peers[key].inbox.Offered()
    ensures Accounted(ledger, pendingIce, peers[key := p], connections)
  {
    var changed := peers[key := p];
    forall k ensures InboxHolds(ledger, changed, k) {
      assert InboxHolds(ledger, peers, k);
    }
  }

  /** No two peers have the same connection. */
  ghost predicate OtherId(peers: map<string, Peer>, key: string, k: string) {
    k in peers && k != key && key in peers ==> peers[k].id != peers[key].id
  }

  lemma IdsDiffer(peers: map<string, Peer>, departed: seq<nat>, owners: seq<string>, key: string)
    requires Tracked(peers, departed, owners) && key in peers
    ensures forall k :: OtherId(peers, key, k)
  {
    forall k ensures OtherId(peers, key, k) {
      assert LiveOnce(peers, departed, owners, k) && LiveOnce(peers, departed, owners, key);
    }
  }

  /** The candidates that wait for a new peer are offered to it. */
  lemma SortAccounted(ledger: seq<Entry>, pendingIce: seq<Ice>, peers: map<string, Peer>, connections: nat, key: string,
      p: Peer)
    requires Accounted(ledger, pendingIce, peers, connections)
    requires key in peers && peers[key].inbox == EMPTY_INBOX && p.id == peers[key].id < connections
    requires forall k :: OtherId(peers, key, k)
    requires p.inbox.Offered() == Matching(pendingIce, p.uuid, p.sessionId)
    ensures var after := Refated(ledger, Sorting(p.uuid, p.sessionId, p.id));
      Accounted(after, Others(pendingIce, p.uuid, p.sessionId), peers[key := p], connections) && Advances(ledger, after)
  {
    var fate := Sorting(p.uuid, p.sessionId, p.id);
    assert InboxHolds(ledger, peers, key);
    NotYetHeld(ledger, Held(p.id));
    SortedLedger(ledger, connections, pendingIce, p.uuid, p.sessionId, p.id);
    var after, changed := Refated(ledger, fate), peers[key := p];
    forall k ensures InboxHolds(after, changed, k) {
      assert InboxHolds(ledger, peers, k) && OtherId(peers, key, k);
      if k in peers && k != key {
        RefatedElsewhere(ledger, fate, peers[k].inbox.Offered(), Held(peers[k].id));
      }
    }
  }

  /** What the ledger says after a candidate was offered to a peer. */
  function Delivered(c: Ice, id: nat): Entry {
    Entry(c, if c.text.Some? then Held(id) else Blank)
  }

  lemma DeliverAccounted(ledger: seq<Entry>, pendingIce: seq<Ice>, peers: map<string, Peer>, connections: nat,
      key: string, p: Peer, c: Ice)
    requires Accounted(ledger, pendingIce, peers, connections) && c.arrival == |ledger|
    requires key in peers && p.id == peers[key].id < connections && forall k :: OtherId(peers, key, k)
    requires p.inbox.Offered() == peers[key].inbox.Offered() + if c.text.Some? then [c] else []
    ensures Accounted(ledger + [Delivered(c, p.id)], pendingIce, peers[key := p], connections)
    ensures Advances(ledger, ledger + [Delivered(c, p.id)])
  {
    var e := Delivered(c, p.id);
    Arrives(ledger, connections, e);
    ArrivesIn(ledger, pendingIce, Waits, e);
    assert p.inbox.Offered() == if c.text.Some? then peers[key].inbox.Offered() + [c] else peers[key].inbox.Offered();
    var after, changed := ledger + [e], peers[key := p];
    forall k ensures InboxHolds(after, changed, k) {
      assert InboxHolds(ledger, peers, k) && OtherId(peers, key, k);
      if k in peers { ArrivesIn(ledger, peers[k].inbox.Offered(), Held(peers[k].id), e); }
    }
  }

  /** What the ledger says after a candidate was put in the queue. */
  ghost function QueuedLedger(ledger: seq<Entry>, pendingIce: seq<Ice>, c: Ice): seq<Entry> {
    MadeRoom(ledger, pendingIce) + [Entry(c, Waits)]
  }

  lemma QueueAccounted(ledger: seq<Entry>, pendingIce: seq<Ice>, peers: map<string, Peer>, connections: nat, c: Ice)
    requires Accounted(ledger, pendingIce, peers, connections) && c.arrival == |ledger| && Increasing(pendingIce)
    ensures var room := if |pendingIce| < MAX_PENDING_ICE then pendingIce else pendingIce[1..];
      Accounted(QueuedLedger(ledger, pendingIce, c), room + [c], peers, connections)
    ensures Advances(ledger, QueuedLedger(ledger, pendingIce, c))
  {
    var room, e := if |pendingIce| < MAX_PENDING_ICE then pendingIce else pendingIce[1..], Entry(c, Waits);
    var made := MadeRoom(ledger, pendingIce);
    RoomLedger(ledger, connections, pendingIce);
    Arrives(made, connections, e);
    ArrivesIn(made, room, Waits, e);
    AdvancesTwice(ledger, made, made + [e]);
    forall k ensures InboxHolds(made + [e], peers, k) {
      assert InboxHolds(ledger, peers, k);
      if k in peers {
        var s, f := peers[k].inbox.Offered(), Held(peers[k].id);
        if |pendingIce| >= MAX_PENDING_ICE { RefatedElsewhere(ledger, DropsUntil(pendingIce[0].arrival), s, f); }
        ArrivesIn(made, s, f, e);
      }
    }
  }

  // ----- A new peer -----

  /** A peer that has just been created, with the candidates that were waiting for it. */
  ghost predicate IsNewPeer(p: Peer, id: nat, uuid: string, session: string, streamId: string, waiting: seq<Ice>) {
    && p == Peer(id, uuid, session, streamId, false, p.inbox) && !p.inbox.remoteDescriptionSet
    && p.inbox.Offered() == Matching(waiting, uuid, session)
  }

  // ----- The tables together -----

  /** What an invariant of the tables is about. */
  datatype Aspect = Maps | Connections | Inboxes | Limits | Waiting | Fates | Descriptions

  /** The tables of a registry with their history. */
  datatype Tables = Tables(
    mode: Mode, peers: map<string, Peer>, byUuid: map<string, string>, pendingIce: seq<Ice>, arrivals: nat,
    retired: seq<Peer>, pendingCleanup: nat, inFlight: Option<Peer>, describing: map<nat, Describing>,
    owners: seq<string>, released: seq<nat>, marks: Marks, ledger: seq<Entry>)
  {
    function Departed(): seq<nat> {
      DepartedOf(released, inFlight, retired)
    }

    ghost predicate Keeps(a: Aspect) {
      match a
      case Maps => Inverse(peers, byUuid)
      case Connections => Tracked(peers, Departed(), owners)
      case Inboxes => PeersOk(peers, arrivals, marks)
      case Limits => Bounded(|peers|, |retired|, inFlight, pendingCleanup)
      case Waiting => Queued(pendingIce, arrivals) && arrivals == |ledger|
      case Fates => Accounted(ledger, pendingIce, peers, |owners|)
      case Descriptions => AllDescribed(describing, owners, marks, mode)
    }

    ghost predicate Ok() {
      forall a :: Keeps(a)
    }

    /** No candidate goes on waiting for a peer that is there. */
    ghost predicate Settled() {
      forall k :: k in peers ==> NoneWaits(pendingIce, peers[k])
    }
  }

  /** No candidate waits for the peer by its UUID, with its session name or without one. */
  ghost predicate NoneWaits(pendingIce: seq<Ice>, p: Peer) {
    forall i :: 0 <= i < |pendingIce| ==>
      !(pendingIce[i].uuid == p.uuid && (pendingIce[i].session == "" || pendingIce[i].session == p.sessionId))
  }

  lemma NoneAmongOthers(pendingIce: seq<Ice>, p: Peer)
    ensures NoneWaits(Others(pendingIce, p.uuid, p.sessionId), p)
    ensures forall q :: NoneWaits(pendingIce, q) ==> NoneWaits(Others(pendingIce, p.uuid, p.sessionId), q)
  {
    var rest := Others(pendingIce, p.uuid, p.sessionId);
    forall c ensures c in rest <==> c in pendingIce && !c.IsFor(p.uuid, p.sessionId) {
      PartHas(pendingIce, p.uuid, p.sessionId, c);
    }
    forall i | 0 <= i < |rest| ensures rest[i] in pendingIce && !rest[i].IsFor(p.uuid, p.sessionId) {
      assert rest[i] in rest;
    }
  }

  /** A candidate whose UUID has no peer can be queued. */
  lemma StaysSettled(t: Tables, c: Ice)
    requires t.Ok() && t.Settled() && c.uuid !in t.byUuid
    ensures t.(pendingIce := Newest(t.pendingIce + [c], MAX_PENDING_ICE)).Settled()
  {
    var queue := Newest(t.pendingIce + [c], MAX_PENDING_ICE);
    AllKept(t);
    forall k | k in t.peers ensures NoneWaits(queue, t.peers[k]) {
      assert KeyLinked(t.peers, t.byUuid, k);
      forall i | 0 <= i < |queue| ensures queue[i] == c || queue[i] in t.pendingIce {
        assert queue[i] in t.pendingIce + [c];
      }
    }
  }

  lemma FlushSettles(t: Tables, key: string, p: Peer)
    requires key in t.peers && p.uuid == t.peers[key].uuid && p.sessionId == t.peers[key].sessionId
    requires forall k :: k in t.peers && k != key ==> NoneWaits(t.pendingIce, t.peers[k])
    ensures t.(peers := t.peers[key := p], pendingIce := Others(t.pendingIce, p.uuid, p.sessionId)).Settled()
  {
    NoneAmongOthers(t.pendingIce, p);
  }

  lemma AllKept(t: Tables)
    requires t.Ok()
    ensures Inverse(t.peers, t.byUuid) && Tracked(t.peers, t.Departed(), t.owners)
      && PeersOk(t.peers, t.arrivals, t.marks)
    ensures Bounded(|t.peers|, |t.retired|, t.inFlight, t.pendingCleanup)
    ensures Queued(t.pendingIce, t.arrivals) && t.arrivals == |t.ledger|
    ensures Accounted(t.ledger, t.pendingIce, t.peers, |t.owners|)
      && AllDescribed(t.describing, t.owners, t.marks, t.mode)
  {
    assert t.Keeps(Maps) && t.Keeps(Connections) && t.Keeps(Inboxes) && t.Keeps(Limits);
    assert t.Keeps(Waiting) && t.Keeps(Fates) && t.Keeps(Descriptions);
  }

  lemma CloseTables(t: Tables, key: string)
    requires t.Ok() && key in t.peers
    ensures |t.peers - {key}| == |t.peers| - 1
    ensures t.(peers := t.peers - {key}, byUuid := t.byUuid - {t.peers[key].uuid},
               retired := t.retired + [t.peers[key]], pendingCleanup := t.pendingCleanup + 1).Ok()
  {
    AllKept(t);
    CloseKeeps(t.peers, t.byUuid, t.Departed(), t.owners, key);
    RetireAppends(t.released, t.inFlight, t.retired, t.peers[key]);
    SomePeersOk(t.peers, key, t.arrivals, t.marks);
    FewerAccounted(t.ledger, t.pendingIce, t.peers, |t.owners|, key);
  }

  lemma InsertTables(t: Tables, key: string, p: Peer)
    requires t.Ok() && key !in t.peers && p.uuid !in t.byUuid
    requires |t.peers| < MAX_PEER_SESSIONS && t.pendingCleanup <= MAX_PEER_SESSIONS
    requires p.id == |t.owners| && key == PeerKey(p.uuid, p.sessionId) && p.inbox == EMPTY_INBOX
    ensures t.(peers := t.peers[key := p], byUuid := t.byUuid[p.uuid := key], owners := t.owners + [key]).Ok()
  {
    AllKept(t);
    InsertKeeps(t.peers, t.byUuid, t.Departed(), t.owners, key, p);
    ChangedPeersOk(t.peers, key, p, t.arrivals, t.marks);
    MoreAccounted(t.ledger, t.pendingIce, t.peers, |t.owners|, key, p);
  }

  /** A live peer changes, but neither its names nor its candidates. */
  ghost predicate SamePeer(p: Peer, q: Peer) {
    && q.id == p.id && q.uuid == p.uuid && q.sessionId == p.sessionId
    && q.inbox.Valid() && q.inbox.Offered() == p.inbox.Offered()
    && q.inbox.remoteDescriptionSet == p.inbox.remoteDescriptionSet
  }

  lemma ChangeTables(t: Tables, key: string, p: Peer)
    requires t.Ok() && key in t.peers && SamePeer(t.peers[key], p)
    ensures t.(peers := t.peers[key := p]).Ok()
  {
    AllKept(t);
    assert PeerOk(t.peers, t.arrivals, t.marks, key);
    UpdateKeeps(t.peers, t.byUuid, t.Departed(), t.owners, key, p);
    ChangedPeersOk(t.peers, key, p, t.arrivals, t.marks);
    SameAccounted(t.ledger, t.pendingIce, t.peers, |t.owners|, key, p);
  }

  lemma PeerIsOk(t: Tables, key: string)
    requires t.Ok() && key in t.peers
    ensures PeerOk(t.peers, t.arrivals, t.marks, key) && t.peers[key].inbox.Valid()
    ensures ArrivedBefore(t.peers[key].inbox.Offered(), t.arrivals)
    ensures key == PeerKey(t.peers[key].uuid, t.peers[key].sessionId)
    ensures t.peers[key].id < |t.owners| && t.owners[t.peers[key].id] == key
  {
    AllKept(t);
    assert PeerOk(t.peers, t.arrivals, t.marks, key) && LiveOnce(t.peers, t.Departed(), t.owners, key);
  }

  lemma FlushTables(t: Tables, key: string, p: Peer)
    requires t.Ok() && key in t.peers && t.peers[key].inbox == EMPTY_INBOX && p == t.peers[key].(inbox := p.inbox)
    requires p.inbox.Valid() && !p.inbox.remoteDescriptionSet
      && p.inbox.Offered() == Matching(t.pendingIce, p.uuid, p.sessionId)
    ensures var ledger := Refated(t.ledger, Sorting(p.uuid, p.sessionId, p.id));
      t.(peers := t.peers[key := p], pendingIce := Others(t.pendingIce, p.uuid, p.sessionId), ledger := ledger).Ok()
      && Advances(t.ledger, ledger)
  {
    AllKept(t);
    PeerIsOk(t, key);
    PartIncreasing(t.pendingIce, p.uuid, p.sessionId, t.arrivals);
    IdsDiffer(t.peers, t.Departed(), t.owners, key);
    SortAccounted(t.ledger, t.pendingIce, t.peers, |t.owners|, key, p);
    UpdateKeeps(t.peers, t.byUuid, t.Departed(), t.owners, key, p);
    ChangedPeersOk(t.peers, key, p, t.arrivals, t.marks);
  }

  lemma QueueTables(t: Tables, c: Ice)
    requires t.Ok() && c.arrival == t.arrivals
    ensures var queue, ledger := Newest(t.pendingIce + [c], MAX_PENDING_ICE), QueuedLedger(t.ledger, t.pendingIce, c);
      t.(pendingIce := queue, arrivals := t.arrivals + 1, ledger := ledger).Ok() && Advances(t.ledger, ledger)
  {
    AllKept(t);
    QueueAccounted(t.ledger, t.pendingIce, t.peers, |t.owners|, c);
    LaterArrivals(t.peers, t.arrivals, t.arrivals + 1, t.marks);
    QueueGrows(t.pendingIce, c);
  }

  lemma QueueGrows(pendingIce: seq<Ice>, c: Ice)
    requires Queued(pendingIce, c.arrival)
    ensures Newest(pendingIce + [c], MAX_PENDING_ICE)
      == (if |pendingIce| < MAX_PENDING_ICE then pendingIce else pendingIce[1..]) + [c]
    ensures Queued(Newest(pendingIce + [c], MAX_PENDING_ICE), c.arrival + 1)
  {}

  lemma DeliverTables(t: Tables, key: string, p: Peer, c: Ice)
    requires t.Ok() && c.arrival == t.arrivals && key in t.peers && p == t.peers[key].(inbox := p.inbox)
    requires p.inbox.Valid() && p.inbox.remoteDescriptionSet == t.peers[key].inbox.remoteDescriptionSet
    requires p.inbox.Offered() == t.peers[key].inbox.Offered() + if c.text.Some? then [c] else []
    ensures var ledger := t.ledger + [Delivered(c, p.id)];
      t.(peers := t.peers[key := p], arrivals := t.arrivals + 1, ledger := ledger).Ok() && Advances(t.ledger, ledger)
  {
    AllKept(t);
    PeerIsOk(t, key);
    IdsDiffer(t.peers, t.Departed(), t.owners, key);
    DeliverAccounted(t.ledger, t.pendingIce, t.peers, |t.owners|, key, p, c);
    UpdateKeeps(t.peers, t.byUuid, t.Departed(), t.owners, key, p);
    LaterArrivals(t.peers, t.arrivals, t.arrivals + 1, t.marks);
    ChangedPeersOk(t.peers, key, p, t.arrivals + 1, t.marks);
  }

  lemma BeginTables(t: Tables, thread: nat, key: string, isAnswer: bool)
    requires t.Ok() && key in t.peers && (isAnswer ==> t.mode.Publish?)
    ensures t.(describing := t.describing[thread := Describing(key, t.peers[key].id, isAnswer, false)]).Ok()
  {
    AllKept(t);
    PeerIsOk(t, key);
  }

  lemma ApplyTables(t: Tables, thread: nat)
    requires t.Ok() && thread in t.describing
    ensures var d := t.describing[thread];
      t.(marks := t.marks.(described := t.marks.described + {d.id}),
         describing := t.describing[thread := d.(applied := true)]).Ok()
  {
    AllKept(t);
    MoreDescribed(t.peers, t.arrivals, t.marks, t.describing[thread].id);
  }

  lemma ForgetTables(t: Tables, thread: nat)
    requires t.Ok()
    ensures t.(describing := t.describing - {thread}).Ok()
  {
    AllKept(t);
  }

  /** The marks after a session was marked because some connection had been described. */
  function Marked(marks: Marks, id: nat, describedId: nat): Marks {
    if id == describedId then marks else marks.(mistaken := marks.mistaken + {id})
  }

  lemma MarkTables(t: Tables, key: string, p: Peer, id: nat)
    requires t.Ok() && key in t.peers && id in t.marks.described
    requires p.id == t.peers[key].id && p.uuid == t.peers[key].uuid && p.sessionId == t.peers[key].sessionId
    requires p.inbox.Valid() && p.inbox.remoteDescriptionSet && p.inbox.Offered() == t.peers[key].inbox.Offered()
    ensures t.(peers := t.peers[key := p], marks := Marked(t.marks, p.id, id)).Ok()
  {
    AllKept(t);
    PeerIsOk(t, key);
    IdsDiffer(t.peers, t.Departed(), t.owners, key);
    UpdateKeeps(t.peers, t.byUuid, t.Departed(), t.owners, key, p);
    SameAccounted(t.ledger, t.pendingIce, t.peers, |t.owners|, key, p);
    MarkKeeps(t.peers, key, p, t.arrivals, t.marks, id);
  }

  lemma ResetTables(t: Tables)
    requires t.Ok() && t.peers == map[]
    ensures t.(byUuid := map[], pendingIce := [], ledger := Refated(t.ledger, ClearsAll())).Ok()
  {
    AllKept(t);
    NothingLinked(t.peers, t.byUuid);
    ClearedLedger(t.ledger, |t.owners|, t.pendingIce);
  }

  lemma TakeTables(t: Tables)
    requires t.Ok() && t.inFlight.None? && t.retired != []
    ensures t.(inFlight := Some(t.retired[0]), retired := t.retired[1..]).Ok()
  {
    AllKept(t);
    RetiredInOrder(t.released, t.retired);
  }

  /** A peer that has been released was never released before. */
  lemma ReleaseTables(t: Tables)
    requires t.Ok() && t.inFlight.Some?
    ensures t.pendingCleanup > 0 && t.inFlight.value.id !in t.released
    ensures t.(released := t.released + [t.inFlight.value.id], inFlight := None,
               pendingCleanup := t.pendingCleanup - 1).Ok()
  {
    AllKept(t);
    ReleasedOnce(t.Departed(), |t.released|);
    assert t.Departed()[|t.released|] == t.inFlight.value.id && t.Departed()[..|t.released|] == t.released;
    assert DepartedOf(t.released + [t.inFlight.value.id], None, t.retired) == t.Departed();
  }

  // ----- What holds in every run -----

  /**
    * A live connection is marked as described without being so
    * exactly when it was marked by mistake, and not described since.
    */
  lemma MarkedUndescribed(t: Tables, k: string)
    requires t.Ok() && k in t.peers
    ensures var p := t.peers[k];
      && (p.inbox.remoteDescriptionSet && p.id !in t.marks.described <==> p.id in t.marks.mistaken - t.marks.described)
      && (p.inbox.applied != [] ==> p.id in t.marks.described + t.marks.mistaken)
  {
    PeerIsOk(t, k);
    AppliedInOrder(t.peers[k].inbox);
  }

  /**
    * The session under the key of a description has its connection exactly while that connection has not been closed.
    */
  lemma StillTheSame(t: Tables, thread: nat)
    requires t.Ok() && thread in t.describing
    ensures var d := t.describing[thread];
      d.key in t.peers && t.peers[d.key].id == d.id <==> d.id !in t.Departed()
  {
    AllKept(t);
    var d := t.describing[thread];
    assert LiveOrDeparted(t.peers, t.Departed(), t.owners, d.id) && LiveOnce(t.peers, t.Departed(), t.owners, d.key);
  }

  /** Each candidate that arrived is in the queue, or was offered to one connection, or to none. */
  lemma CandidateAccounted(t: Tables, a: nat)
    requires t.Ok() && a < |t.ledger|
    ensures var e := t.ledger[a];
      && e.ice.arrival == a
      && (e.ice in t.pendingIce <==> e.fate.Waits?)
      && (forall k :: k in t.peers ==> (e.ice in t.peers[k].inbox.Offered() <==> e.fate == Held(t.peers[k].id)))
      && (e.fate.Held? ==> e.ice.text.Some? && e.fate.id < |t.owners|)
      && (e.fate.Blank? ==> e.ice.text.None?)
  {
    AllKept(t);
    var e := t.ledger[a];
    assert EntryOk(t.ledger, |t.owners|, a);
    assert e.ice in t.pendingIce ==> Recorded(t.ledger, e.ice, Waits);
    forall k | k in t.peers
      ensures e.ice in t.peers[k].inbox.Offered() <==> e.fate == Held(t.peers[k].id)
    {
      assert InboxHolds(t.ledger, t.peers, k);
      assert e.ice in t.peers[k].inbox.Offered() ==> Recorded(t.ledger, e.ice, Held(t.peers[k].id));
    }
  }

  /** What waits in the queue is for peers that are not there. */
  lemma WaitsForAbsent(r: Registry, i: nat, k: string)
    requires r.Valid() && i < |r.pendingGlobalIce| && k in r.peerSessions
    ensures var c, p := r.pendingGlobalIce[i], r.peerSessions[k];
      c.uuid == p.uuid ==> c.session != "" && c.session != p.sessionId
  {
    assert NoneWaits(r.View().pendingIce, r.View().peers[k]);
  }

  /** No candidate was offered to two live connections. */
  lemma OfferedOnce(t: Tables, a: nat, k: string, l: string)
    requires t.Ok() && a < |t.ledger| && k in t.peers && l in t.peers
    requires t.ledger[a].ice in t.peers[k].inbox.Offered() && t.ledger[a].ice in t.peers[l].inbox.Offered()
    ensures k == l
  {
    CandidateAccounted(t, a);
    PeerIsOk(t, k);
    PeerIsOk(t, l);
  }

  /** What a live connection was offered it is given, or will be, unless it came after 256 others too early. */
  lemma OfferedIsKept(t: Tables, k: string, a: nat)
    requires t.Ok() && k in t.peers && a < |t.ledger| && t.ledger[a].fate == Held(t.peers[k].id)
    requires t.ledger[a].ice.text != Some("")
    ensures var x, c := t.peers[k].inbox, t.ledger[a].ice;
      exists i :: 0 <= i < |x.Offered()| && x.Offered()[i] == c
        && (c in x.pending + x.applied <==> !(MAX_PEER_ICE <= i < |x.early|))
  {
    CandidateAccounted(t, a);
    PeerIsOk(t, k);
    var x := t.peers[k].inbox;
    var i :| 0 <= i < |x.Offered()| && x.Offered()[i] == t.ledger[a].ice;
    OnlyTheCapLoses(x, i);
  }

  // ----- The registry -----

  class Registry {
    const mode: Mode
    const configuredStreamId: string
    var peerSessions: map<string, Peer>
    var sessionByUuid: map<string, string>
    var pendingGlobalIce: seq<Ice>
    var retiredPeers: seq<Peer>
    var pendingPeerCleanup: nat
    /** The peer that the cleanup thread is releasing. */
    var inFlight: Option<Peer>
    /** What the threads that handle descriptions are doing between two critical sections. */
    var describing: map<nat, Describing>
    var arrivals: nat

    // History: the key that each connection was made for, which connections were released,
    // which had a remote description applied, and what became of the candidates.
    var owners: seq<string>
    ghost var released: seq<nat>
    ghost var marks: Marks
    ghost var ledger: seq<Entry>

    ghost function View(): Tables
      reads this
    {
      Tables(mode, peerSessions, sessionByUuid, pendingGlobalIce, arrivals, retiredPeers, pendingPeerCleanup, inFlight,
             describing, owners, released, marks, ledger)
    }

    /** What holds between any two changes of the tables. */
    ghost predicate Core()
      reads this
    {
      View().Ok()
    }

    ghost predicate Valid()
      reads this
    {
      Core() && View().Settled() && (mode.Play? ==> OneGeneration(peerSessions))
    }

    constructor (mode: Mode, configuredStreamId: string)
      ensures Valid() && this.mode == mode && this.configuredStreamId == configuredStreamId
      ensures peerSessions == map[] && sessionByUuid == map[] && pendingGlobalIce == [] && describing == map[]
      ensures owners == [] && arrivals == 0 && ledger == [] && marks == Marks({}, {}) && pendingPeerCleanup == 0
    {
      this.mode, this.configuredStreamId := mode, configuredStreamId;
      peerSessions, sessionByUuid, pendingGlobalIce, retiredPeers := map[], map[], [], [];
      pendingPeerCleanup, inFlight, describing, arrivals := 0, None, map[], 0;
      owners, released, marks, ledger := [], [], Marks({}, {}), [];
    }

    // ----- Closing -----

    method ClosePeerSession(key: string)
      requires Core()
      modifies this`peerSessions, this`sessionByUuid, this`retiredPeers, this`pendingPeerCleanup
      ensures Core() && peerSessions == old(peerSessions) - {key} && (old(View().Settled()) ==> View().Settled())
      ensures key !in old(peerSessions) ==>
        sessionByUuid == old(sessionByUuid) && retiredPeers == old(retiredPeers)
          && pendingPeerCleanup == old(pendingPeerCleanup)
      ensures key in old(peerSessions) ==>
        var p := old(peerSessions)[key];
        && sessionByUuid == old(sessionByUuid) - {p.uuid} && retiredPeers == old(retiredPeers) + [p]
        && pendingPeerCleanup == old(pendingPeerCleanup) + 1
    {
      if key !in peerSessions {
        return;
      }
      var p := peerSessions[key];
      CloseTables(View(), key);
      sessionByUuid := sessionByUuid - {p.uuid};
      retiredPeers := retiredPeers + [p];
      pendingPeerCleanup := pendingPeerCleanup + 1;
      peerSessions := peerSessions - {key};
    }

    // ----- Creating -----

    /** Why a new peer may be refused: too many are being cleaned up, or too many are live. */
    ghost predicate Refuses(uuid: string, key: string)
      reads this
    {
      && key !in peerSessions
      && (pendingPeerCleanup >= MAX_PEER_SESSIONS || (uuid !in sessionByUuid && |peerSessions| >= MAX_PEER_SESSIONS))
    }

    /** The peers that stay when there is to be a new one for the UUID. */
    ghost function Staying(uuid: string): map<string, Peer>
      reads this
    {
      if uuid in sessionByUuid then peerSessions - {sessionByUuid[uuid]} else peerSessions
    }

    /** There is a new peer, with the candidates that were waiting for it, in place of an earlier one of its UUID. */
    twostate predicate Created(k: string, uuid: string, session: string, streamId: string)
      reads this
    {
      && k in peerSessions && owners == old(owners) + [k]
      && IsNewPeer(peerSessions[k], |old(owners)|, uuid, session, streamId, old(pendingGlobalIce))
      && peerSessions == old(Staying(uuid))[k := peerSessions[k]]
      && sessionByUuid == old(sessionByUuid)[uuid := k]
      && pendingGlobalIce == Others(old(pendingGlobalIce), uuid, session)
      && Advances(old(ledger), ledger) && |ledger| == |old(ledger)|
      && pendingPeerCleanup == old(pendingPeerCleanup) + if uuid in old(sessionByUuid) then 1 else 0
    }

    /** Nothing has happened to the tables. */
    twostate predicate SameTables()
      reads this
    {
      && peerSessions == old(peerSessions) && sessionByUuid == old(sessionByUuid)
      && pendingGlobalIce == old(pendingGlobalIce) && retiredPeers == old(retiredPeers)
      && pendingPeerCleanup == old(pendingPeerCleanup) && owners == old(owners) && ledger == old(ledger)
    }

    method EnsurePeerSession(uuid: string, sessionHint: string, generated: string) returns (key: Option<string>)
      requires Valid() && generated != ""
      modifies this`peerSessions, this`sessionByUuid, this`retiredPeers, this`pendingPeerCleanup
      modifies this`pendingGlobalIce, this`owners, this`ledger
      ensures Valid()
      ensures var session := if sessionHint == "" then generated else sessionHint;
        var k := PeerKey(uuid, session);
        && (key.None? <==>
              && k !in old(peerSessions)
              && (old(pendingPeerCleanup) >= 16 || (uuid !in old(sessionByUuid) && |old(peerSessions)| >= 16)))
        && (key.Some? ==> key.value == k && k in peerSessions)
        && (key.Some? && k !in old(peerSessions) ==> Created(k, uuid, session, configuredStreamId))
      ensures key.None? || key.value in old(peerSessions) ==> SameTables()
    {
      var resolvedSession := if sessionHint == "" then generated else sessionHint;
      var k := PeerKey(uuid, resolvedSession);
      if k in peerSessions {
        return Some(k);
      }
      if pendingPeerCleanup >= MAX_PEER_SESSIONS {
        return None;
      }
      var created := CreatePeer(k, uuid, resolvedSession);
      key := if created then Some(k) else None;
    }

    method CreatePeer(k: string, uuid: string, session: string) returns (created: bool)
      requires Valid() && k == PeerKey(uuid, session) && k !in peerSessions
      requires pendingPeerCleanup < MAX_PEER_SESSIONS
      modifies this`peerSessions, this`sessionByUuid, this`retiredPeers, this`pendingPeerCleanup
      modifies this`pendingGlobalIce, this`owners, this`ledger
      ensures Valid() && (created <==> !old(Refuses(uuid, k)))
      ensures if created then Created(k, uuid, session, configuredStreamId) else SameTables()
    {
      assert View().Keeps(Limits) && View().Keeps(Maps) && UuidLinked(peerSessions, sessionByUuid, uuid);
      if uuid in sessionByUuid && sessionByUuid[uuid] != k {
        CloseOtherSession(uuid);
      }
      if |peerSessions| >= MAX_PEER_SESSIONS {
        return false;
      }
      AddNewPeer(k, uuid, session);
      return true;
    }

    method AddNewPeer(k: string, uuid: string, session: string)
      requires Valid() && k == PeerKey(uuid, session) && k !in peerSessions && uuid !in sessionByUuid
      requires |peerSessions| < MAX_PEER_SESSIONS && pendingPeerCleanup <= MAX_PEER_SESSIONS
      modifies this`peerSessions, this`sessionByUuid, this`pendingGlobalIce, this`owners, this`ledger
      ensures Valid() && k in peerSessions && owners == old(owners) + [k]
      ensures IsNewPeer(peerSessions[k], |old(owners)|, uuid, session, configuredStreamId, old(pendingGlobalIce))
      ensures peerSessions == old(peerSessions)[k := peerSessions[k]] && sessionByUuid == old(sessionByUuid)[uuid := k]
      ensures pendingGlobalIce == Others(old(pendingGlobalIce), uuid, session)
      ensures Advances(old(ledger), ledger) && |ledger| == |old(ledger)|
    {
      AddPeer(k, Peer(|owners|, uuid, session, configuredStreamId, false, EMPTY_INBOX));
      FlushGlobalIce(k);
    }

    method CloseOtherSession(uuid: string)
      requires Valid() && uuid in sessionByUuid
      modifies this`peerSessions, this`sessionByUuid, this`retiredPeers, this`pendingPeerCleanup
      ensures Valid() && uuid !in sessionByUuid && pendingPeerCleanup == old(pendingPeerCleanup) + 1
      ensures peerSessions == old(Staying(uuid)) && |peerSessions| == old(|peerSessions|) - 1
      ensures sessionByUuid == old(sessionByUuid) - {uuid}
    {
      assert View().Keeps(Maps) && UuidLinked(peerSessions, sessionByUuid, uuid);
      FewerGenerations(peerSessions, sessionByUuid[uuid]);
      CardinalityWithout(peerSessions, sessionByUuid[uuid]);
      ClosePeerSession(sessionByUuid[uuid]);
    }

    method AddPeer(k: string, p: Peer)
      requires Valid() && k !in peerSessions && p.uuid !in sessionByUuid
      requires |peerSessions| < MAX_PEER_SESSIONS && pendingPeerCleanup <= MAX_PEER_SESSIONS
      requires p.id == |owners| && k == PeerKey(p.uuid, p.sessionId) && p.inbox == EMPTY_INBOX && !p.negotiationReady
      modifies this`peerSessions, this`sessionByUuid, this`owners
      ensures Core() && (mode.Play? ==> OneGeneration(peerSessions)) && owners == old(owners) + [k]
      ensures peerSessions == old(peerSessions)[k := p] && sessionByUuid == old(sessionByUuid)[p.uuid := k]
    {
      InsertTables(View(), k, p);
      SameGenerations(peerSessions, k, p);
      peerSessions := peerSessions[k := p];
      owners := owners + [k];
      sessionByUuid := sessionByUuid[p.uuid := k];
    }

    /** Gives the candidates that were waiting for a new peer to it. */
    method FlushGlobalIce(key: string)
      requires Core() && (mode.Play? ==> OneGeneration(peerSessions))
      requires key in peerSessions && peerSessions[key].inbox == EMPTY_INBOX
      requires forall k :: k in peerSessions && k != key ==> NoneWaits(pendingGlobalIce, peerSessions[k])
      modifies this`peerSessions, this`pendingGlobalIce, this`ledger
      ensures Valid() && Advances(old(ledger), ledger) && |ledger| == |old(ledger)|
      ensures var p := old(peerSessions)[key];
        && key in peerSessions && peerSessions == old(peerSessions)[key := p.(inbox := peerSessions[key].inbox)]
        && !peerSessions[key].inbox.remoteDescriptionSet
        && peerSessions[key].inbox.Offered() == Matching(old(pendingGlobalIce), p.uuid, p.sessionId)
        && pendingGlobalIce == Others(old(pendingGlobalIce), p.uuid, p.sessionId)
    {
      var session := peerSessions[key];
      assert View().Keeps(Waiting);
      var inbox, kept := SortIce(pendingGlobalIce, session.uuid, session.sessionId);
      var p := session.(inbox := inbox);
      FlushTables(View(), key, p);
      FlushSettles(View(), key, p);
      SameGenerations(peerSessions, key, p);
      ledger := Refated(ledger, Sorting(p.uuid, p.sessionId, p.id));
      peerSessions, pendingGlobalIce := peerSessions[key := p], kept;
    }

    method SortIce(pending: seq<Ice>, uuid: string, session: string) returns (inbox: Inbox, kept: seq<Ice>)
      requires Increasing(pending)
      ensures inbox.Valid() && !inbox.remoteDescriptionSet && inbox.Offered() == Matching(pending, uuid, session)
      ensures kept == Others(pending, uuid, session)
    {
      inbox, kept := EMPTY_INBOX, [];
      for i := 0 to |pending|
        invariant inbox.Valid() && !inbox.remoteDescriptionSet
          && inbox.Offered() == Matching(pending[..i], uuid, session)
        invariant kept == Others(pending[..i], uuid, session)
      {
        var c := pending[i];
        SortNext(pending, i, uuid, session);
        if c.IsFor(uuid, session) {
          inbox := ProcessCandidateMessage(inbox, c);
        } else {
          kept := kept + [c];
        }
      }
      assert pending[..|pending|] == pending;
    }

    /** Changes the fields of a live peer, without making it ready beside another one of its stream. */
    method UpdatePeer(key: string, p: Peer)
      requires Core() && key in peerSessions && SamePeer(peerSessions[key], p)
      modifies this`peerSessions
      ensures Core() && peerSessions == old(peerSessions)[key := p]
      ensures old(View().Settled()) ==> View().Settled()
      ensures mode.Play? && OneGeneration(old(peerSessions)) && StaysSilent(old(peerSessions)[key], p)
        ==> OneGeneration(peerSessions)
    {
      ChangeTables(View(), key, p);
      SameGenerations(peerSessions, key, p);
      peerSessions := peerSessions[key := p];
    }

    // ----- Descriptions, on the thread that received one -----

    /** The first critical section for an offer: its session may change streams, but is not ready then. */
    method BeginOffer(thread: nat, uuid: string, sessionId: string, streamId: Option<string>, generated: string)
      requires Valid() && generated != "" && thread !in describing
      modifies this`peerSessions, this`sessionByUuid, this`retiredPeers, this`pendingPeerCleanup
      modifies this`pendingGlobalIce, this`owners, this`ledger, this`describing
      ensures Valid()
      ensures var session := if sessionId == "" then generated else sessionId;
        var k := PeerKey(uuid, session);
        if uuid == "" || old(Refuses(uuid, k)) then SameTables() && describing == old(describing)
        else
          && k in peerSessions && !peerSessions[k].negotiationReady
          && describing == old(describing)[thread := Describing(k, peerSessions[k].id, false, false)]
          && if k in old(peerSessions) then
               && owners == old(owners) && sessionByUuid == old(sessionByUuid)
               && pendingGlobalIce == old(pendingGlobalIce)
               && var p := old(peerSessions)[k];
                  peerSessions == old(peerSessions)[k := p.(
                    streamId := if streamId.Some? then streamId.value else p.streamId, negotiationReady := false)]
             else Created(k, uuid, session, if streamId.Some? then streamId.value else configuredStreamId)
    {
      if uuid == "" {
        return;
      }
      var key := EnsurePeerSession(uuid, sessionId, generated);
      if key.None? {
        return;
      }
      OfferTo(thread, key.value, streamId);
    }

    method OfferTo(thread: nat, key: string, streamId: Option<string>)
      requires Valid() && key in peerSessions && thread !in describing
      modifies this`peerSessions, this`describing
      ensures Valid() && peerSessions == old(peerSessions)[key := Offered(old(peerSessions)[key], streamId)]
      ensures describing == old(describing)[thread := Describing(key, old(peerSessions)[key].id, false, false)]
    {
      var session := peerSessions[key];
      PeerIsOk(View(), key);
      UpdatePeer(key, Offered(session, streamId));
      BeginTables(View(), thread, key, false);
      describing := describing[thread := Describing(key, session.id, false, false)];
    }

    /** The first critical section for an answer, which a player ignores. */
    method BeginAnswer(thread: nat, uuid: string, sessionId: string, streamId: Option<string>)
      requires Valid() && thread !in describing
      modifies this`peerSessions, this`describing
      ensures Valid()
      ensures mode.Play? || (PeerKey(uuid, sessionId) !in old(peerSessions) && uuid !in old(sessionByUuid)) ==>
        describing == old(describing) && peerSessions == old(peerSessions)
      ensures mode.Publish? && (PeerKey(uuid, sessionId) in old(peerSessions) || uuid in old(sessionByUuid)) ==>
        var direct := PeerKey(uuid, sessionId);
        var key := if direct in old(peerSessions) then direct else old(sessionByUuid)[uuid];
        && key in old(peerSessions) && (key != direct ==> old(peerSessions)[key].uuid == uuid)
        && var p := old(peerSessions)[key];
           && peerSessions == old(peerSessions)[key :=
                p.(streamId := if streamId.Some? then streamId.value else p.streamId)]
           && describing == old(describing)[thread := Describing(key, p.id, true, false)]
    {
      assert View().Keeps(Maps) && UuidLinked(peerSessions, sessionByUuid, uuid);
      if mode.Play? {
        return;
      }
      var key := Locate(peerSessions, sessionByUuid, uuid, sessionId);
      if key.None? {
        return;
      }
      var session := peerSessions[key.value];
      var stream := if streamId.Some? then streamId.value else session.streamId;
      PeerIsOk(View(), key.value);
      UpdatePeer(key.value, session.(streamId := stream));
      BeginTables(View(), thread, key.value, true);
      describing := describing[thread := Describing(key.value, session.id, true, false)];
    }

    /** Outside the lock the description is applied to the connection; applying it or answering may fail. */
    method ApplyDescription(thread: nat, applied: bool, failed: bool)
      requires Valid() && thread in describing && (applied || failed)
      modifies this`describing, this`marks
      ensures Valid()
      ensures marks == if applied then old(marks).(described := old(marks).described + {old(describing)[thread].id})
        else old(marks)
      ensures describing == if failed then old(describing) - {thread}
        else old(describing)[thread := old(describing)[thread].(applied := true)]
    {
      var d := describing[thread];
      if applied {
        ApplyTables(View(), thread);
        marks := marks.(described := marks.described + {d.id});
        describing := describing[thread := d.(applied := true)];
      }
      if failed {
        ForgetTables(View(), thread);
        describing := describing - {thread};
      }
    }

    /**
      * The second critical section: the session that is now under the key, if there is one, can take candidates.
      * It is marked by mistake when it has another connection than the one that was described.
      */
    method FinishDescription(thread: nat)
      requires Valid() && thread in describing && describing[thread].applied
      modifies this`peerSessions, this`describing, this`marks
      ensures Valid() && describing == old(describing) - {thread}
      ensures var d := old(describing)[thread];
        if d.key in old(peerSessions) then
          var p := old(peerSessions)[d.key];
          && d.key in peerSessions && peerSessions[d.key].inbox.remoteDescriptionSet
          && peerSessions[d.key].inbox.Offered() == p.inbox.Offered()
          && peerSessions == old(peerSessions)[d.key := p.(inbox := peerSessions[d.key].inbox,
                                                         negotiationReady := p.negotiationReady || d.isAnswer)]
          && marks == Marked(old(marks), p.id, d.id)
        else peerSessions == old(peerSessions) && marks == old(marks)
    {
      var d := describing[thread];
      assert View().Keeps(Descriptions);
      ForgetTables(View(), thread);
      describing := describing - {thread};
      if d.key in peerSessions {
        var session := peerSessions[d.key];
        PeerIsOk(View(), d.key);
        var inbox := SetRemoteDescription(session.inbox);
        MarkPeer(d, session.(inbox := inbox, negotiationReady := session.negotiationReady || d.isAnswer));
      }
    }

    method MarkPeer(d: Describing, p: Peer)
      requires Valid() && d.key in peerSessions && d.id in marks.described && (d.isAnswer ==> mode.Publish?)
      requires var q := peerSessions[d.key];
        && p == q.(inbox := p.inbox, negotiationReady := q.negotiationReady || d.isAnswer)
        && p.inbox.Valid() && p.inbox.remoteDescriptionSet && p.inbox.Offered() == q.inbox.Offered()
      modifies this`peerSessions, this`marks
      ensures Valid() && peerSessions == old(peerSessions)[d.key := p] && marks == Marked(old(marks), p.id, d.id)
    {
      MarkTables(View(), d.key, p, d.id);
      SameGenerations(peerSessions, d.key, p);
      peerSessions := peerSessions[d.key := p];
      marks := Marked(marks, p.id, d.id);
    }

    /** A publisher makes a session of its own for whoever asks for an offer. */
    method HandleOfferRequest(uuid: string, generated: string)
      requires Valid() && generated != ""
      modifies this`peerSessions, this`sessionByUuid, this`retiredPeers, this`pendingPeerCleanup
      modifies this`pendingGlobalIce, this`owners, this`ledger
      ensures Valid()
      ensures var k := PeerKey(uuid, generated);
        if mode.Play? || uuid == "" || old(Refuses(uuid, k)) then SameTables()
        else
          && k in peerSessions && !peerSessions[k].negotiationReady
          && if k in old(peerSessions) then
               peerSessions == old(peerSessions)[k := old(peerSessions)[k].(negotiationReady := false)]
               && sessionByUuid == old(sessionByUuid) && pendingGlobalIce == old(pendingGlobalIce)
             else Created(k, uuid, generated, configuredStreamId)
    {
      if mode.Play? || uuid == "" {
        return;
      }
      var key := EnsurePeerSession(uuid, "", generated);
      if key.None? {
        return;
      }
      PeerIsOk(View(), key.value);
      UpdatePeer(key.value, peerSessions[key.value].(negotiationReady := false));
    }

    /** A signaling message over the data channel of a peer makes a session for whomever it is about. */
    method MapDataChannel(source: string, uuid: Option<string>, session: string, generated: string)
      returns (key: Option<string>)
      requires Valid() && generated != ""
      modifies this`peerSessions, this`sessionByUuid, this`retiredPeers, this`pendingPeerCleanup
      modifies this`pendingGlobalIce, this`owners, this`ledger
      ensures Valid()
      ensures if source !in old(peerSessions) || uuid == Some("") then key.None? && SameTables()
        else
          var from := old(peerSessions)[source];
          var target := if uuid.Some? then uuid.value else from.uuid;
          var hint := if session == "" then from.sessionId else session;
          target != "" ==>
          var s := if hint == "" then generated else hint;
          var k := PeerKey(target, s);
          && (key.None? <==> old(Refuses(target, k)))
          && (if key.None? || k in old(peerSessions) then SameTables()
              else key.value == k && Created(k, target, s, configuredStreamId))
    {
      if source !in peerSessions {
        return None;
      }
      var from := peerSessions[source];
      var target := if uuid.Some? then uuid.value else from.uuid;
      if target == "" {
        return None;
      }
      key := EnsurePeerSession(target, if session == "" then from.sessionId else session, generated);
    }

    // ----- Candidates -----

    /** A candidate goes to its peer's inbox, or waits with the newest hundred. */
    method HandleRemoteCandidate(uuid: string, session: string, text: Option<string>)
      requires Valid()
      modifies this`peerSessions, this`pendingGlobalIce, this`arrivals, this`ledger
      ensures Valid() && Advances(old(ledger), ledger)
      ensures var c, direct := Ice(uuid, session, text, old(arrivals)), PeerKey(uuid, session);
        if uuid == "" then
          peerSessions == old(peerSessions) && pendingGlobalIce == old(pendingGlobalIce) && ledger == old(ledger)
        else if direct !in old(peerSessions) && uuid !in old(sessionByUuid) then
          && peerSessions == old(peerSessions)
          && pendingGlobalIce == Newest(old(pendingGlobalIce) + [c], MAX_PENDING_ICE)
          && ledger == QueuedLedger(old(ledger), old(pendingGlobalIce), c)
        else
          var key := if direct in old(peerSessions) then direct else old(sessionByUuid)[uuid];
          && pendingGlobalIce == old(pendingGlobalIce) && key in old(peerSessions) && key in peerSessions
          && (key != direct ==> old(peerSessions)[key].uuid == uuid)
          && peerSessions[key].inbox.Offered()
             == old(peerSessions)[key].inbox.Offered() + (if text.Some? then [c] else [])
          && peerSessions[key].inbox.remoteDescriptionSet == old(peerSessions)[key].inbox.remoteDescriptionSet
          && peerSessions == old(peerSessions)[key := old(peerSessions)[key].(inbox := peerSessions[key].inbox)]
          && ledger == old(ledger) + [Delivered(c, old(peerSessions)[key].id)]
    {
      if uuid == "" {
        return;
      }
      assert View().Keeps(Maps) && UuidLinked(peerSessions, sessionByUuid, uuid);
      var c := Ice(uuid, session, text, arrivals);
      var key := Locate(peerSessions, sessionByUuid, uuid, session);
      if key.None? {
        QueueGlobalIce(c);
        return;
      }
      DeliverCandidate(key.value, c);
    }

    /** The oldest candidate makes room when the queue is full. */
    method QueueGlobalIce(c: Ice)
      requires Valid() && c.arrival == arrivals && c.uuid !in sessionByUuid
      modifies this`pendingGlobalIce, this`arrivals, this`ledger
      ensures Valid() && pendingGlobalIce == Newest(old(pendingGlobalIce) + [c], MAX_PENDING_ICE)
      ensures ledger == QueuedLedger(old(ledger), old(pendingGlobalIce), c) && Advances(old(ledger), ledger)
    {
      AllKept(View());
      StaysSettled(View(), c);
      QueueTables(View(), c);
      QueueGrows(pendingGlobalIce, c);
      ledger := QueuedLedger(ledger, pendingGlobalIce, c);
      arrivals := arrivals + 1;
      if |pendingGlobalIce| >= MAX_PENDING_ICE {
        pendingGlobalIce := pendingGlobalIce[1..];
      }
      pendingGlobalIce := pendingGlobalIce + [c];
    }

    method DeliverCandidate(key: string, c: Ice)
      requires Valid() && key in peerSessions && c.arrival == arrivals
      modifies this`peerSessions, this`arrivals, this`ledger
      ensures Valid() && key in peerSessions
      ensures peerSessions[key].inbox.Offered() == old(peerSessions)[key].inbox.Offered()
        + (if c.text.Some? then [c] else [])
      ensures peerSessions[key].inbox.remoteDescriptionSet == old(peerSessions)[key].inbox.remoteDescriptionSet
      ensures peerSessions == old(peerSessions)[key := old(peerSessions)[key].(inbox := peerSessions[key].inbox)]
      ensures ledger == old(ledger) + [Delivered(c, old(peerSessions)[key].id)] && Advances(old(ledger), ledger)
    {
      var session := peerSessions[key];
      PeerIsOk(View(), key);
      var inbox := ProcessCandidateMessage(session.inbox, c);
      var p := session.(inbox := inbox);
      DeliverTables(View(), key, p, c);
      SameGenerations(peerSessions, key, p);
      ledger := ledger + [Delivered(c, session.id)];
      peerSessions, arrivals := peerSessions[key := p], arrivals + 1;
    }

    // ----- Connection states, on the threads of the connections -----

    /** A connected player closes the other generations of its stream. */
    method OnConnected(key: string)
      requires Valid()
      modifies this`peerSessions, this`sessionByUuid, this`retiredPeers, this`pendingPeerCleanup
      ensures Valid()
      ensures key !in old(peerSessions) ==> peerSessions == old(peerSessions)
      ensures key in old(peerSessions) ==>
        var p := old(peerSessions)[key];
        peerSessions
          == old(peerSessions)[key := p.(negotiationReady := true)] - old(Superseded(peerSessions, key, mode))
      ensures forall k :: k in old(peerSessions) ==>
        (k !in peerSessions <==>
           && mode.Play? && key in old(peerSessions) && k != key
           && old(peerSessions)[key].streamId == old(peerSessions)[k].streamId != "")
    {
      if key !in peerSessions {
        return;
      }
      var p := peerSessions[key];
      PeerIsOk(View(), key);
      OnlyGeneration(peerSessions, key);
      SupersededWhenReady(peerSessions, key, mode);
      UpdatePeer(key, p.(negotiationReady := true));
      CloseAll(Superseded(peerSessions, key, mode));
    }

    method CloseAll(keys: set<string>)
      requires Core()
      modifies this`peerSessions, this`sessionByUuid, this`retiredPeers, this`pendingPeerCleanup
      ensures Core() && peerSessions == old(peerSessions) - keys && (old(View().Settled()) ==> View().Settled())
    {
      var superseded := keys;
      while superseded != {}
        invariant Core() && superseded <= keys && peerSessions == old(peerSessions) - (keys - superseded)
        decreases superseded
      {
        var k :| k in superseded;
        OneFewer(old(peerSessions), keys, superseded, k);
        ClosePeerSession(k);
        superseded := superseded - {k};
      }
    }

    method OnDisconnected(key: string)
      requires Valid()
      modifies this`peerSessions
      ensures Valid() && (key !in old(peerSessions) ==> peerSessions == old(peerSessions))
      ensures key in old(peerSessions) ==>
        peerSessions == old(peerSessions)[key := old(peerSessions)[key].(negotiationReady := false)]
    {
      if key in peerSessions {
        PeerIsOk(View(), key);
        UpdatePeer(key, peerSessions[key].(negotiationReady := false));
      }
    }

    method OnFailedOrClosed(key: string)
      requires Valid()
      modifies this`peerSessions, this`sessionByUuid, this`retiredPeers, this`pendingPeerCleanup
      ensures Valid() && peerSessions == old(peerSessions) - {key}
    {
      ghost var before := peerSessions;
      OnDisconnected(key);
      FewerGenerations(peerSessions, key);
      ClosePeerSession(key);
      assert peerSessions == before - {key};
    }

    /** Closes all peers, and forgets the candidates. */
    method ResetAllPeerConnections()
      requires Valid()
      modifies this`peerSessions, this`sessionByUuid, this`retiredPeers, this`pendingPeerCleanup
      modifies this`pendingGlobalIce, this`ledger
      ensures Valid() && peerSessions == map[] && sessionByUuid == map[] && pendingGlobalIce == []
      ensures |View().Departed()| == |owners| && ledger == Refated(old(ledger), ClearsAll())
    {
      CloseEverything();
      ResetTables(View());
      sessionByUuid := map[];
      pendingGlobalIce := [];
      ledger := Refated(ledger, ClearsAll());
      AllKept(View());
    }

    method CloseEverything()
      requires Core()
      modifies this`peerSessions, this`sessionByUuid, this`retiredPeers, this`pendingPeerCleanup
      ensures Core() && peerSessions == map[]
    {
      while peerSessions != map[]
        invariant Core()
        decreases |peerSessions|
      {
        var k :| k in peerSessions;
        CardinalityWithout(peerSessions, k);
        ClosePeerSession(k);
      }
    }

    // ----- The cleanup thread -----

    method TakeRetired()
      requires Valid() && inFlight.None? && retiredPeers != []
      modifies this`retiredPeers, this`inFlight
      ensures Valid() && inFlight == Some(old(retiredPeers)[0]) && retiredPeers == old(retiredPeers)[1..]
    {
      TakeTables(View());
      inFlight := Some(retiredPeers[0]);
      retiredPeers := retiredPeers[1..];
    }

    /** A peer that has been released was never released before. */
    method Release()
      requires Valid() && inFlight.Some?
      modifies this`inFlight, this`pendingPeerCleanup, this`released
      ensures Valid() && inFlight.None? && pendingPeerCleanup == old(pendingPeerCleanup) - 1
      ensures released == old(released) + [old(inFlight).value.id] && old(inFlight).value.id !in old(released)
    {
      ReleaseTables(View());
      released := released + [inFlight.value.id];
      inFlight := None;
      pendingPeerCleanup := pendingPeerCleanup - 1;
    }
  }

  // ----- A run in which the session under a key is not the one that was described -----

  /** The peer V is there, and a session of U while an offer is applied to the first connection for U and S. */
  ghost predicate Replacing(r: Registry, session: string, id: nat, cleanup: nat)
    reads r
  {
    var v, u := PeerKey("V", "T"), PeerKey("U", session);
    && r.Valid() && r.mode.Play? && r.pendingPeerCleanup == cleanup && |r.owners| == id + 1 && r.arrivals == 0
    && r.peerSessions.Keys == {v, u} && v != u && r.sessionByUuid == map["V" := v, "U" := u] && r.pendingGlobalIce == []
    && r.peerSessions[u].id == id && r.peerSessions[u].inbox.Offered() == []
    && r.describing == map[0 := Describing(PeerKey("U", "S"), 1, false, true)] && r.marks == Marks({1}, {})
  }

  lemma KeysDiffer(session: string, other: string)
    requires session != other && session != "" && other != ""
    ensures PeerKey("U", session) != PeerKey("U", other) && PeerKey("U", session) != PeerKey("V", "T")
  {
    assert PeerKey("U", session)[2..] == session && PeerKey("U", other)[2..] == other;
    assert PeerKey("U", session)[0] == 'U' && PeerKey("V", "T")[0] == 'V';
  }

  method StartOffer() returns (r: Registry)
    ensures fresh(r) && Replacing(r, "S", 1, 0)
  {
    r := FirstPeer();
    OfferFirst(r);
    r.ApplyDescription(0, true, false);
  }

  method OfferFirst(r: Registry)
    requires r.Valid() && r.mode.Play? && r.pendingPeerCleanup == 0 && |r.owners| == 1 && r.arrivals == 0
    requires r.peerSessions.Keys == {PeerKey("V", "T")} && r.sessionByUuid == map["V" := PeerKey("V", "T")]
    requires r.pendingGlobalIce == [] && r.describing == map[]
    modifies r
    ensures r.Valid() && r.pendingPeerCleanup == 0 && |r.owners| == 2 && r.arrivals == 0 && r.marks == old(r.marks)
    ensures var v, u := PeerKey("V", "T"), PeerKey("U", "S");
      && r.peerSessions.Keys == {v, u} && v != u && r.sessionByUuid == map["V" := v, "U" := u]
      && r.pendingGlobalIce == []
      && r.peerSessions[u].id == 1 && r.peerSessions[u].inbox.Offered() == []
      && r.describing == map[0 := Describing(u, 1, false, false)]
  {
    KeysDiffer("S", "S2");
    r.BeginOffer(0, "U", "S", None, "generated");
  }

  method FirstPeer() returns (r: Registry)
    ensures fresh(r) && r.Valid() && r.mode.Play? && r.pendingPeerCleanup == 0 && |r.owners| == 1 && r.arrivals == 0
    ensures r.peerSessions.Keys == {PeerKey("V", "T")} && r.sessionByUuid == map["V" := PeerKey("V", "T")]
    ensures r.pendingGlobalIce == [] && r.describing == map[] && r.marks == Marks({}, {})
  {
    r := new Registry(Play, "stream");
    var key := r.EnsurePeerSession("V", "T", "generated");
  }

  /** A message over the data channel of V is about another session of U. */
  method ReplaceSession(r: Registry, session: string, next: string, ghost id: nat, ghost cleanup: nat)
    requires Replacing(r, session, id, cleanup) && cleanup < MAX_PEER_SESSIONS && session != "" && next != ""
      && session != next
    modifies r`peerSessions, r`sessionByUuid, r`retiredPeers, r`pendingPeerCleanup, r`pendingGlobalIce, r`owners,
      r`ledger
    ensures Replacing(r, next, id + 1, cleanup + 1)
  {
    KeysDiffer(next, session);
    var key := r.MapDataChannel(PeerKey("V", "T"), Some("U"), next, "generated");
  }

  /**
    * Between the two critical sections of an offer its session is replaced, and made again with another connection.
    * That connection is then given a candidate without ever having had a remote description.
    */
  method AnotherConnection() returns (r: Registry)
    ensures fresh(r) && r.Valid()
    ensures var k := PeerKey("U", "S");
      && k in r.peerSessions && r.peerSessions[k].id in r.marks.mistaken && r.peerSessions[k].id !in r.marks.described
      && r.peerSessions[k].inbox.applied == [Ice("U", "S", Some("candidate"), 0)]
  {
    r := StartOffer();
    ReplaceSession(r, "S", "S2", 1, 0);
    ReplaceSession(r, "S2", "S", 2, 1);
    CandidateForAnother(r);
  }

  method CandidateForAnother(r: Registry)
    requires Replacing(r, "S", 3, 2)
    modifies r
    ensures r.Valid()
    ensures var k := PeerKey("U", "S");
      && k in r.peerSessions && r.peerSessions[k].id in r.marks.mistaken && r.peerSessions[k].id !in r.marks.described
      && r.peerSessions[k].inbox.applied == [Ice("U", "S", Some("candidate"), 0)]
  {
    ghost var k, c := PeerKey("U", "S"), Ice("U", "S", Some("candidate"), 0);
    r.HandleRemoteCandidate("U", "S", Some("candidate"));
    r.FinishDescription(0);
    assert r.marks == Marks({1}, {3});
    PeerIsOk(r.View(), k);
    FewCandidates(r.peerSessions[k].inbox);
    NonEmptyAppend([], c);
    assert [] + [c] == [c];
  }

  /** The session that a message is for: by its key, or else by its UUID. */
  function Locate(peers: map<string, Peer>, byUuid: map<string, string>, uuid: string,
      session: string): (key: Option<string>)
    ensures key.Some? ==> key.value in peers
  {
    if PeerKey(uuid, session) in peers then Some(PeerKey(uuid, session))
    else if uuid in byUuid && byUuid[uuid] in peers then Some(byUuid[uuid])
    else None
  }

  /** Without colons in UUIDs, the key tells UUID and session name. */
  lemma KeyIsName(uuid: string, session: string, other: string, otherSession: string)
    requires ':' !in uuid && ':' !in other
    ensures PeerKey(uuid, session) == PeerKey(other, otherSession) <==> uuid == other && session == otherSession
  {
    if |uuid| < |other| {
      ShorterDiffers(uuid, session, other, otherSession);
    } else if |uuid| > |other| {
      ShorterDiffers(other, otherSession, uuid, session);
    } else {
      var k, l := PeerKey(uuid, session), PeerKey(other, otherSession);
      assert k[..|uuid|] == uuid && l[..|other|] == other;
      assert session != "" ==> k[|uuid| + 1..] == session;
      assert otherSession != "" ==> l[|other| + 1..] == otherSession;
    }
  }

  lemma ShorterDiffers(uuid: string, session: string, other: string, otherSession: string)
    requires ':' !in other && |uuid| < |other|
    ensures PeerKey(uuid, session) != PeerKey(other, otherSession)
  {
    var k, l := PeerKey(uuid, session), PeerKey(other, otherSession);
    if session == "" {
      assert |k| < |l|;
    } else {
      assert k[|uuid|] == ':' && l[|uuid|] == other[|uuid|];
    }
  }

  /** With colons, other names can make the same key. */
  lemma KeysCollide()
    ensures PeerKey("U", "A:B") == PeerKey("U:A", "B")
  {}

  /** Without colons in UUIDs, a message is for the live peer of its UUID, whatever its session name. */
  lemma LocatedByUuid(t: Tables, uuid: string, session: string)
    requires t.Ok() && ':' !in uuid && forall k :: k in t.peers ==> ':' !in t.peers[k].uuid
    ensures match Locate(t.peers, t.byUuid, uuid, session)
            case None => forall k :: k in t.peers ==> t.peers[k].uuid != uuid
            case Some(k) => k in t.peers && t.peers[k].uuid == uuid
  {
    AllKept(t);
    assert UuidLinked(t.peers, t.byUuid, uuid);
    var direct := PeerKey(uuid, session);
    if direct in t.peers {
      PeerIsOk(t, direct);
      KeyIsName(uuid, session, t.peers[direct].uuid, t.peers[direct].sessionId);
    } else {
      forall k | k in t.peers ensures KeyLinked(t.peers, t.byUuid, k) {}
    }
  }

  /** An offer may change the stream of a session. */
  function Offered(p: Peer, streamId: Option<string>): Peer {
    p.(streamId := if streamId.Some? then streamId.value else p.streamId, negotiationReady := false)
  }

  /** The other sessions with the stream of a player's session. */
  function Superseded(peers: map<string, Peer>, key: string, mode: Mode): set<string>
    requires key in peers
  {
    if mode.Play? && peers[key].streamId != ""
    then set k | k in peers && k != key && peers[k].streamId == peers[key].streamId
    else {}
  }

  lemma OnePeerForEachUuid(peers: map<string, Peer>, byUuid: map<string, string>, k: string, l: string)
    requires Inverse(peers, byUuid) && k in peers && l in peers && peers[k].uuid == peers[l].uuid
    ensures k == l
  {
    assert KeyLinked(peers, byUuid, k) && KeyLinked(peers, byUuid, l);
  }

  lemma SupersededWhenReady(peers: map<string, Peer>, key: string, mode: Mode)
    requires key in peers
    ensures Superseded(peers[key := peers[key].(negotiationReady := true)], key, mode) == Superseded(peers, key, mode)
  {}

  lemma OneFewer(peers: map<string, Peer>, keys: set<string>, left: set<string>, k: string)
    requires k in left && left <= keys
    ensures peers - (keys - left) - {k} == peers - (keys - (left - {k}))
  {}

  lemma OnlyGeneration(peers: map<string, Peer>, key: string)
    requires key in peers
    ensures OneGeneration(peers) ==>
      OneGeneration(peers[key := peers[key].(negotiationReady := true)] - Superseded(peers, key, Play))
  {
    if !OneGeneration(peers) { return; }
    var after := peers[key := peers[key].(negotiationReady := true)] - Superseded(peers, key, Play);
    forall k, l ensures OneOf(after, k, l) {
      assert OneOf(peers, k, l);
    }
  }

  lemma MoreDescribed(peers: map<string, Peer>, arrivals: nat, marks: Marks, id: nat)
    requires PeersOk(peers, arrivals, marks)
    ensures PeersOk(peers, arrivals, marks.(described := marks.described + {id}))
  {
    forall k ensures PeerOk(peers, arrivals, marks.(described := marks.described + {id}), k) {
      assert PeerOk(peers, arrivals, marks, k);
    }
  }

  lemma MarkKeeps(peers: map<string, Peer>, key: string, p: Peer, arrivals: nat, marks: Marks, id: nat)
    requires PeersOk(peers, arrivals, marks) && key in peers && (forall k :: OtherId(peers, key, k))
      && id in marks.described
    requires p.id == peers[key].id && p.uuid == peers[key].uuid && p.sessionId == peers[key].sessionId
    requires p.inbox.Valid() && p.inbox.remoteDescriptionSet && p.inbox.Offered() == peers[key].inbox.Offered()
    ensures PeersOk(peers[key := p], arrivals,
                    if p.id == id then marks else marks.(mistaken := marks.mistaken + {p.id}))
  {
    var after := if p.id == id then marks else marks.(mistaken := marks.mistaken + {p.id});
    var changed := peers[key := p];
    forall k ensures PeerOk(changed, arrivals, after, k) {
      assert PeerOk(peers, arrivals, marks, k) && PeerOk(peers, arrivals, marks, key) && OtherId(peers, key, k);
    }
  }

  lemma LaterArrivals(peers: map<string, Peer>, arrivals: nat, n: nat, marks: Marks)
    requires PeersOk(peers, arrivals, marks) && arrivals <= n
    ensures PeersOk(peers, n, marks)
  {
    forall k ensures PeerOk(peers, n, marks, k) {
      assert PeerOk(peers, arrivals, marks, k);
    }
  }

  lemma NothingLinked(peers: map<string, Peer>, byUuid: map<string, string>)
    requires Inverse(peers, byUuid) && peers == map[]
    ensures byUuid == map[]
  {
    forall u ensures u !in byUuid {
      assert UuidLinked(peers, byUuid, u);
    }
  }

  lemma RetiredInOrder(released: seq<nat>, retired: seq<Peer>)
    requires retired != []
    ensures DepartedOf(released, Some(retired[0]), retired[1..]) == DepartedOf(released, None, retired)
  {
    assert Ids(retired) == [retired[0].id] + Ids(retired[1..]);
  }

  lemma ReleasedOnce(departed: seq<nat>, n: nat)
    requires (forall i, j :: DepartedOnce(departed, i, j)) && n < |departed|
    ensures departed[n] !in departed[..n]
  {
    forall i | 0 <= i < n ensures departed[i] != departed[n] {
      assert DepartedOnce(departed, i, n);
    }
  }
}
