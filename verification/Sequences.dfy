/** Facts about sequences that the other modules share. */
module Sequences {

  lemma Associate<T>(a: seq<T>, b: seq<T>, c: seq<T>)
    ensures a + b + c == a + (b + c)
  {}

  lemma WithoutLast<T>(s: seq<T>) returns (init: seq<T>, last: T)
    requires s != []
    ensures s == init + [last] && |init| < |s|
  {
    init, last := s[..|s| - 1], s[|s| - 1];
  }

  lemma TakeNext<T>(s: seq<T>, n: nat)
    requires n < |s|
    ensures s[..n + 1] == s[..n] + [s[n]]
  {}

  lemma FirstAndOthers<T>(s: seq<T>)
    requires s != []
    ensures [s[0]] + s[1..] == s
  {}

  /** All elements of some sequences, in order. */
  function Concat<T>(blocks: seq<seq<T>>): seq<T> {
    if blocks == [] then [] else Concat(blocks[..|blocks| - 1]) + blocks[|blocks| - 1]
  }

  function Repeated<T>(x: T, n: nat): (s: seq<T>)
    ensures |s| == n
  {
    seq(n, _ => x)
  }

  ghost predicate AllBelow(s: seq<nat>, bound: nat) {
    forall i :: 0 <= i < |s| ==> s[i] < bound
  }

  ghost predicate AreBytes(s: seq<nat>) {
    AllBelow(s, 0x100)
  }

  /** The newest n elements. */
  function Newest<T>(s: seq<T>, n: nat): seq<T> {
    if |s| <= n then s else s[|s| - n..]
  }
}
