/** Remote ICE candidates on their way to the connection of a peer. */
module Candidates {
  import opened Results

  const MAX_PEER_ICE: nat := 256

  /**
    * A candidate message: whom it is for, its text unless it has
    * neither a string nor an object, and its place in arrival order.
    */
  datatype Ice = Ice(uuid: string, session: string, text: Option<string>, arrival: nat) {
    predicate IsFor(peerUuid: string, sessionId: string) {
      uuid == peerUuid && (session == "" || session == sessionId)
    }
  }

  /**
    * What a peer session holds of them. The connection has been given the applied candidates; all candidates that were
    * offered before the remote description was set, and after that, are remembered as history.
    */
  datatype Inbox = Inbox(remoteDescriptionSet: bool, pending: seq<Ice>, applied: seq<Ice>, early: seq<Ice>,
    late: seq<Ice>)
  {
    ghost predicate Valid() {
      && Increasing(early + late)
      && HaveText(early) && HaveText(late)
      && if remoteDescriptionSet then pending == [] && applied == NonEmpty(Oldest(early) + late)
         else pending == Oldest(early) && applied == [] && late == []
    }

    function Offered(): seq<Ice> {
      early + late
    }
  }

  const EMPTY_INBOX := Inbox(false, [], [], [], [])

  ghost predicate Increasing(s: seq<Ice>) {
    forall i, j :: 0 <= i < j < |s| ==> s[i].arrival < s[j].arrival
  }

  ghost predicate ArrivedBefore(s: seq<Ice>, n: nat) {
    forall i :: 0 <= i < |s| ==> s[i].arrival < n
  }

  ghost predicate HaveText(s: seq<Ice>) {
    forall i :: 0 <= i < |s| ==> s[i].text.Some?
  }

  /** The candidates that there is room for before the remote description. */
  function Oldest(s: seq<Ice>): seq<Ice> {
    if |s| <= MAX_PEER_ICE then s else s[..MAX_PEER_ICE]
  }

  /** Candidates without text are not given to the connection. */
  function NonEmpty(s: seq<Ice>): seq<Ice> {
    if s == [] then []
    else NonEmpty(s[..|s| - 1]) + (if s[|s| - 1].text == Some("") then [] else [s[|s| - 1]])
  }

  // ----- Queueing and applying -----

  method QueueOrApplyCandidate(x: Inbox, c: Ice) returns (y: Inbox)
    requires x.Valid() && c.text.Some? && ArrivedBefore(x.Offered(), c.arrival)
    ensures y.Valid() && y.remoteDescriptionSet == x.remoteDescriptionSet && y.Offered() == x.Offered() + [c]
  {
    OneMore(x.Offered(), c);
    if !x.remoteDescriptionSet {
      var full := |x.pending| >= MAX_PEER_ICE;
      y := x.(early := x.early + [c], pending := if full then x.pending else x.pending + [c]);
      assert y.early + [] == y.early && x.early + [] == x.early;
      return;
    }
    y := x.(late := x.late + [c], applied := if c.text.value == "" then x.applied else x.applied + [c]);
    assert y.Offered() == x.Offered() + [c];
    assert Oldest(x.early) + y.late == Oldest(x.early) + x.late + [c];
    NonEmptyAppend(Oldest(x.early) + x.late, c);
  }

  lemma OneMore(s: seq<Ice>, c: Ice)
    requires Increasing(s) && ArrivedBefore(s, c.arrival)
    ensures Increasing(s + [c])
  {}

  lemma NonEmptyAppend(s: seq<Ice>, c: Ice)
    ensures NonEmpty(s + [c]) == NonEmpty(s) + if c.text == Some("") then [] else [c]
  {
    assert (s + [c])[..|s|] == s;
  }

  method ProcessCandidateMessage(x: Inbox, c: Ice) returns (y: Inbox)
    requires x.Valid() && ArrivedBefore(x.Offered(), c.arrival)
    ensures y.Valid() && y.remoteDescriptionSet == x.remoteDescriptionSet
    ensures y.Offered() == x.Offered() + if c.text.Some? then [c] else []
  {
    y := x;
    if c.text.Some? {
      y := QueueOrApplyCandidate(x, c);
    }
  }

  /** The remote description is set: what was waiting is given to the connection. */
  method SetRemoteDescription(x: Inbox) returns (y: Inbox)
    requires x.Valid()
    ensures y.Valid() && y.remoteDescriptionSet && y.Offered() == x.Offered()
  {
    var applied := x.applied;
    for i := 0 to |x.pending|
      invariant applied == x.applied + NonEmpty(x.pending[..i])
    {
      var c := x.pending[i];
      assert x.pending[..i + 1][..i] == x.pending[..i];
      if c.text != Some("") {
        applied := applied + [c];
      }
    }
    assert x.pending[..|x.pending|] == x.pending && Oldest(x.early) + [] == Oldest(x.early);
    y := x.(remoteDescriptionSet := true, pending := [], applied := applied);
  }

  // ----- What the connection is given -----

  lemma {:induction false} NonEmptyIncreasing(s: seq<Ice>)
    requires Increasing(s)
    ensures Increasing(NonEmpty(s))
  {
    if s != [] {
      var init, last := s[..|s| - 1], s[|s| - 1];
      NonEmptyIncreasing(init);
      forall i | 0 <= i < |NonEmpty(init)| ensures NonEmpty(init)[i].arrival < last.arrival {
        NonEmptyHas(init, NonEmpty(init)[i]);
      }
    }
  }

  lemma {:induction false} NonEmptyHas(s: seq<Ice>, c: Ice)
    ensures c in NonEmpty(s) <==> c in s && c.text != Some("")
  {
    if s != [] {
      NonEmptyHas(s[..|s| - 1], c);
      assert s == s[..|s| - 1] + [s[|s| - 1]];
    }
  }

  /** The candidates that a connection gets if it lives to have its remote description set. */
  lemma KeptIncreasing(x: Inbox)
    requires x.Valid()
    ensures Increasing(Oldest(x.early) + x.late)
  {
    var n, kept := |Oldest(x.early)|, Oldest(x.early) + x.late;
    forall i | 0 <= i < |kept| ensures kept[i] == x.Offered()[if i < n then i else i - n + |x.early|] {}
  }

  /** A connection is given candidates in arrival order, none twice, and none before its remote description is set. */
  lemma AppliedInOrder(x: Inbox)
    requires x.Valid()
    ensures Increasing(x.applied)
    ensures !x.remoteDescriptionSet ==> x.applied == []
    ensures forall c :: c in x.applied ==> c in x.Offered() && c.text != Some("")
  {
    if x.remoteDescriptionSet {
      var kept := Oldest(x.early) + x.late;
      KeptIncreasing(x);
      NonEmptyIncreasing(kept);
      forall c | c in x.applied ensures c in x.Offered() && c.text != Some("") {
        NonEmptyHas(kept, c);
      }
    }
  }

  /** Up to 256 candidates are all given to a connection that has its description. */
  lemma FewCandidates(x: Inbox)
    requires x.Valid() && x.remoteDescriptionSet && |x.Offered()| <= MAX_PEER_ICE
    ensures x.applied == NonEmpty(x.Offered())
  {}

  /**
    * While the peer lives, a candidate with text is missing exactly
    * when it is beyond the first 256 before the description.
    */
  lemma OnlyTheCapLoses(x: Inbox, k: nat)
    requires x.Valid() && k < |x.Offered()| && x.Offered()[k].text != Some("")
    ensures x.Offered()[k] in x.pending + x.applied <==> !(MAX_PEER_ICE <= k < |x.early|)
  {
    var c, kept := x.Offered()[k], Oldest(x.early) + x.late;
    NonEmptyHas(kept, c);
    if MAX_PEER_ICE <= k < |x.early| {
      AbsentBeyond(x, k);
    } else {
      var n := |Oldest(x.early)|;
      assert c == kept[if k < |x.early| then k else k - |x.early| + n];
    }
  }

  lemma AbsentBeyond(x: Inbox, k: nat)
    requires x.Valid() && MAX_PEER_ICE <= k < |x.early|
    ensures x.Offered()[k] !in Oldest(x.early) + x.late
  {
    var n, kept := |Oldest(x.early)|, Oldest(x.early) + x.late;
    forall i | 0 <= i < |kept| ensures kept[i] != x.Offered()[k] {
      assert kept[i] == x.Offered()[if i < n then i else i - n + |x.early|];
    }
  }
}
