/** What becomes of every remote candidate: the queue for peers to come, and the inboxes of those there are. */
module CandidateLedger {
  import opened Candidates
  import opened Sequences

  const MAX_PENDING_ICE: nat := 100

  /**
    * Waits for its peer, was offered to a connection, made room for
    * a newer one, was forgotten in a reset, or was no candidate.
    */
  datatype Fate = Waits | Held(id: nat) | Dropped | Cleared | Blank

  /** One candidate message that arrived; its place in the ledger is its arrival number. */
  datatype Entry = Entry(ice: Ice, fate: Fate)

  ghost predicate EntryOk(ledger: seq<Entry>, connections: nat, a: int) {
    0 <= a < |ledger| ==>
      && ledger[a].ice.arrival == a
      && (ledger[a].fate.Held? ==> ledger[a].fate.id < connections && ledger[a].ice.text.Some?)
      && (ledger[a].fate.Blank? ==> ledger[a].ice.text.None?)
  }

  ghost predicate WellKept(ledger: seq<Entry>, connections: nat) {
    forall a :: EntryOk(ledger, connections, a)
  }

  ghost predicate Recorded(ledger: seq<Entry>, c: Ice, f: Fate) {
    c.arrival < |ledger| && ledger[c.arrival] == Entry(c, f)
  }

  /** The candidates are exactly those with the given fate. */
  ghost predicate Holds(ledger: seq<Entry>, s: seq<Ice>, f: Fate) {
    && (forall c :: c in s ==> Recorded(ledger, c, f))
    && (forall a :: 0 <= a < |ledger| && ledger[a].fate == f ==> ledger[a].ice in s)
  }

  ghost predicate Unused(ledger: seq<Entry>, f: Fate) {
    forall a :: 0 <= a < |ledger| ==> ledger[a].fate != f
  }

  /** No candidate changes, and only waiting ones change their fate. */
  ghost predicate Advances(before: seq<Entry>, after: seq<Entry>) {
    && |before| <= |after|
    && forall a :: 0 <= a < |before| ==>
         after[a].ice == before[a].ice && (after[a].fate == before[a].fate || before[a].fate.Waits?)
  }

  lemma AdvancesTwice(a: seq<Entry>, b: seq<Entry>, c: seq<Entry>)
    requires Advances(a, b) && Advances(b, c)
    ensures Advances(a, c)
  {}

  // ----- A message arrives -----

  lemma Arrives(ledger: seq<Entry>, connections: nat, e: Entry)
    requires WellKept(ledger, connections) && EntryOk(ledger + [e], connections, |ledger|)
    ensures WellKept(ledger + [e], connections) && Advances(ledger, ledger + [e])
  {
    forall a ensures EntryOk(ledger + [e], connections, a) {
      assert EntryOk(ledger, connections, a);
    }
  }

  lemma ArrivesIn(ledger: seq<Entry>, s: seq<Ice>, f: Fate, e: Entry)
    requires Holds(ledger, s, f) && e.ice.arrival == |ledger|
    ensures Holds(ledger + [e], if e.fate == f then s + [e.ice] else s, f)
  {
    var more, t := ledger + [e], if e.fate == f then s + [e.ice] else s;
    forall c | c in t ensures Recorded(more, c, f) {
      assert c in s ==> Recorded(ledger, c, f);
    }
  }

  // ----- Waiting candidates get another fate -----

  ghost function Refated(ledger: seq<Entry>, fate: Ice -> Fate): (after: seq<Entry>)
    ensures |after| == |ledger|
  {
    seq(|ledger|, a requires 0 <= a < |ledger| =>
      if ledger[a].fate.Waits? then Entry(ledger[a].ice, fate(ledger[a].ice)) else ledger[a])
  }

  ghost predicate IsFate(fate: Ice -> Fate, c: Ice, connections: nat) {
    (fate(c).Held? ==> fate(c).id < connections && c.text.Some?) && (fate(c).Blank? ==> c.text.None?)
  }

  lemma RefatedWellKept(ledger: seq<Entry>, fate: Ice -> Fate, connections: nat)
    requires WellKept(ledger, connections) && forall c :: IsFate(fate, c, connections)
    ensures WellKept(Refated(ledger, fate), connections) && Advances(ledger, Refated(ledger, fate))
  {
    var after := Refated(ledger, fate);
    forall a ensures EntryOk(after, connections, a) {
      assert EntryOk(ledger, connections, a);
      if 0 <= a < |ledger| { assert IsFate(fate, ledger[a].ice, connections); }
    }
  }

  /** Of those that were waiting, some go to a list that was empty before, or stay. */
  lemma RefatedHolds(ledger: seq<Entry>, waiting: seq<Ice>, fate: Ice -> Fate, part: seq<Ice>, f: Fate)
    requires Holds(ledger, waiting, Waits) && (forall c :: c in part <==> c in waiting && fate(c) == f)
    requires f.Waits? || Unused(ledger, f)
    ensures Holds(Refated(ledger, fate), part, f)
  {
    var after := Refated(ledger, fate);
    forall c | c in part ensures Recorded(after, c, f) {
      assert Recorded(ledger, c, Waits);
    }
  }

  lemma RefatedElsewhere(ledger: seq<Entry>, fate: Ice -> Fate, s: seq<Ice>, f: Fate)
    requires Holds(ledger, s, f) && !f.Waits? && forall c :: fate(c) != f
    ensures Holds(Refated(ledger, fate), s, f)
  {
    var after := Refated(ledger, fate);
    forall c | c in s ensures Recorded(after, c, f) {
      assert Recorded(ledger, c, f);
    }
  }

  /** A connection that does not exist yet has been offered nothing. */
  lemma NothingHeld(ledger: seq<Entry>, connections: nat, id: nat)
    requires WellKept(ledger, connections) && id >= connections
    ensures Unused(ledger, Held(id))
  {
    forall a | 0 <= a < |ledger| ensures ledger[a].fate != Held(id) {
      assert EntryOk(ledger, connections, a);
    }
  }

  lemma NotYetHeld(ledger: seq<Entry>, f: Fate)
    requires Holds(ledger, [], f)
    ensures Unused(ledger, f)
  {}

  lemma MoreConnections(ledger: seq<Entry>, n: nat, m: nat)
    requires WellKept(ledger, n) && n <= m
    ensures WellKept(ledger, m)
  {
    forall a ensures EntryOk(ledger, m, a) {
      assert EntryOk(ledger, n, a);
    }
  }

  // ----- The oldest makes room -----

  function DropsUntil(arrival: nat): Ice -> Fate {
    (c: Ice) => if c.arrival == arrival then Dropped else Waits
  }

  // ----- Candidates for a new peer -----

  function Matching(s: seq<Ice>, uuid: string, session: string): seq<Ice> {
    if s == [] then []
    else
      var last := s[|s| - 1];
      Matching(s[..|s| - 1], uuid, session) + if last.IsFor(uuid, session) && last.text.Some? then [last] else []
  }

  function Others(s: seq<Ice>, uuid: string, session: string): seq<Ice> {
    if s == [] then []
    else
      var last := s[|s| - 1];
      Others(s[..|s| - 1], uuid, session) + if last.IsFor(uuid, session) then [] else [last]
  }

  lemma {:induction false} PartHas(s: seq<Ice>, uuid: string, session: string, c: Ice)
    ensures c in Matching(s, uuid, session) <==> c in s && c.IsFor(uuid, session) && c.text.Some?
    ensures c in Others(s, uuid, session) <==> c in s && !c.IsFor(uuid, session)
  {
    if s != [] {
      PartHas(s[..|s| - 1], uuid, session, c);
      assert s == s[..|s| - 1] + [s[|s| - 1]];
    }
  }

  /** Both parts of the candidates keep their order. */
  lemma {:induction false} PartIncreasing(s: seq<Ice>, uuid: string, session: string, n: nat)
    requires Increasing(s) && ArrivedBefore(s, n)
    ensures Increasing(Matching(s, uuid, session)) && ArrivedBefore(Matching(s, uuid, session), n)
    ensures Increasing(Others(s, uuid, session)) && ArrivedBefore(Others(s, uuid, session), n)
    ensures |Others(s, uuid, session)| <= |s|
  {
    if s != [] {
      var last := s[|s| - 1];
      PartIncreasing(s[..|s| - 1], uuid, session, last.arrival);
      Extend(Matching(s[..|s| - 1], uuid, session), last, n);
      Extend(Others(s[..|s| - 1], uuid, session), last, n);
    }
  }

  lemma Extend(s: seq<Ice>, c: Ice, n: nat)
    requires Increasing(s) && ArrivedBefore(s, c.arrival) && c.arrival < n
    ensures Increasing(s + [c]) && ArrivedBefore(s + [c], n)
    ensures Increasing(s + []) && ArrivedBefore(s + [], n)
  {}

  lemma SortNext(pending: seq<Ice>, i: nat, uuid: string, session: string)
    requires Increasing(pending) && i < |pending|
    ensures ArrivedBefore(Matching(pending[..i], uuid, session), pending[i].arrival)
    ensures Matching(pending[..i + 1], uuid, session)
         == Matching(pending[..i], uuid, session) + if pending[i].IsFor(uuid, session)
           && pending[i].text.Some? then [pending[i]] else []
    ensures Others(pending[..i + 1], uuid, session)
         == Others(pending[..i], uuid, session) + if pending[i].IsFor(uuid, session) then [] else [pending[i]]
  {
    assert pending[..i + 1][..i] == pending[..i];
    PartIncreasing(pending[..i], uuid, session, pending[i].arrival);
  }

  function Sorting(uuid: string, session: string, id: nat): Ice -> Fate {
    (c: Ice) => if !c.IsFor(uuid, session) then Waits else if c.text.Some? then Held(id) else Blank
  }

  /** The waiting candidates for a new connection are offered to it, the others go on waiting. */
  lemma SortedLedger(ledger: seq<Entry>, connections: nat, pending: seq<Ice>, uuid: string, session: string, id: nat)
    requires WellKept(ledger, connections) && Holds(ledger, pending, Waits) && Unused(ledger, Held(id))
      && id < connections
    ensures var after := Refated(ledger, Sorting(uuid, session, id));
      && WellKept(after, connections) && Advances(ledger, after)
      && Holds(after, Matching(pending, uuid, session), Held(id))
      && Holds(after, Others(pending, uuid, session), Waits)
  {
    var fate := Sorting(uuid, session, id);
    forall c ensures c in Matching(pending, uuid, session) <==> c in pending && fate(c) == Held(id) {
      PartHas(pending, uuid, session, c);
    }
    forall c ensures c in Others(pending, uuid, session) <==> c in pending && fate(c) == Waits {
      PartHas(pending, uuid, session, c);
    }
    forall c ensures IsFate(fate, c, connections) {}
    RefatedWellKept(ledger, fate, connections);
    RefatedHolds(ledger, pending, fate, Matching(pending, uuid, session), Held(id));
    RefatedHolds(ledger, pending, fate, Others(pending, uuid, session), Waits);
  }

  /** Without room the oldest is dropped. */
  ghost function MadeRoom(ledger: seq<Entry>, pending: seq<Ice>): seq<Entry> {
    if |pending| < MAX_PENDING_ICE then ledger else Refated(ledger, DropsUntil(pending[0].arrival))
  }

  lemma RoomLedger(ledger: seq<Entry>, connections: nat, pending: seq<Ice>)
    requires WellKept(ledger, connections) && Holds(ledger, pending, Waits) && Increasing(pending)
    ensures WellKept(MadeRoom(ledger, pending), connections) && Advances(ledger, MadeRoom(ledger, pending))
    ensures Holds(MadeRoom(ledger, pending), if |pending| < MAX_PENDING_ICE then pending else pending[1..], Waits)
  {
    if |pending| >= MAX_PENDING_ICE {
      var fate := DropsUntil(pending[0].arrival);
      forall c ensures c in pending[1..] <==> c in pending && fate(c) == Waits {
        OldestIsFirst(pending, c);
      }
      forall c ensures IsFate(fate, c, connections) {}
      RefatedWellKept(ledger, fate, connections);
      RefatedHolds(ledger, pending, fate, pending[1..], Waits);
    }
  }

  lemma OldestIsFirst(pending: seq<Ice>, c: Ice)
    requires Increasing(pending) && pending != []
    ensures c in pending[1..] <==> c in pending && c.arrival != pending[0].arrival
  {
    assert pending == [pending[0]] + pending[1..];
  }

  function ClearsAll(): Ice -> Fate {
    (c: Ice) => Cleared
  }

  lemma ClearedLedger(ledger: seq<Entry>, connections: nat, pending: seq<Ice>)
    requires WellKept(ledger, connections) && Holds(ledger, pending, Waits)
    ensures var after := Refated(ledger, ClearsAll());
      WellKept(after, connections) && Advances(ledger, after) && Holds(after, [], Waits)
  {
    var fate := ClearsAll();
    forall c ensures IsFate(fate, c, connections) {}
    RefatedWellKept(ledger, fate, connections);
    RefatedHolds(ledger, pending, fate, [], Waits);
  }
}
