/** Reading an IPv6 address and writing it in its canonical form. */
module Ipv6Canonical {
  import opened Results
  import opened Sequences
  import opened Ipv6Text

  // ----- Which texts are accepted -----

  predicate GapAt(s: string, i: int) {
    0 <= i && i + 1 < |s| && s[i] == ':' && s[i + 1] == ':'
  }

  ghost predicate HasGap(s: string) {
    exists i :: GapAt(s, i)
  }

  ghost predicate OneGapAtMost(s: string) {
    forall i, j :: GapAt(s, i) && GapAt(s, j) ==> i == j
  }

  /** The text begins and ends with words or double colons. */
  predicate EndsWell(s: string)
    requires s != ""
  {
    (s[0] == ':' ==> GapAt(s, 0)) && (s[|s| - 1] == ':' ==> GapAt(s, |s| - 2))
  }

  ghost predicate Accepted(s: string) {
    && s != "" && ':' in s && OneGapAtMost(s) && EndsWell(s)
    && AreWords(Tokens(s)) && if HasGap(s) then Words(Tokens(s)) < 8 else Words(Tokens(s)) == 8
  }

  lemma {:induction false} GapsAfter(s: string, pos: nat)
    requires pos <= |s| && forall j :: pos <= j ==> !GapAt(s, j)
    ensures Gaps(Tokens(s[pos..])) == 0
    decreases |s| - pos
  {
    if pos < |s| {
      assert !GapAt(s, pos);
      TokensNext(s, pos);
      GapsAfter(s, NextToken(s, pos));
    }
  }

  /** Where the token after the one at a position begins. */
  function NextToken(s: string, pos: nat): (n: nat)
    requires pos < |s|
    ensures pos < n <= |s|
  {
    if StartsWithGap(s[pos..]) then pos + 2
    else if s[pos] == ':' then pos + 1
    else pos + WordEnd(s[pos..])
  }

  lemma TokensNext(s: string, pos: nat)
    requires pos < |s|
    ensures StartsWithGap(s[pos..]) <==> GapAt(s, pos)
    ensures var n := NextToken(s, pos);
      Tokens(s[pos..]) ==
        (if GapAt(s, pos) then [Gap] else if s[pos] == ':' then [] else [Word(s[pos..n])]) + Tokens(s[n..])
  {
    var n, t := NextToken(s, pos), s[pos..];
    assert t[n - pos..] == s[n..] && t[..n - pos] == s[pos..n];
  }

  lemma {:induction false} ColonEndsWord(s: string, k: nat)
    requires k < |s| && s[k] == ':'
    ensures WordEnd(s) <= k
  {
    if k > 0 && s[0] != ':' {
      ColonEndsWord(s[1..], k - 1);
    }
  }

  lemma {:induction false} GapsBefore(s: string, pos: nat, c: nat)
    requires pos <= c && GapAt(s, c) && OneGapAtMost(s)
    ensures Gaps(Tokens(s[pos..])) == 1
    decreases |s| - pos
  {
    TokensNext(s, pos);
    if pos == c {
      forall j | c + 2 <= j ensures !GapAt(s, j) {}
      GapsAfter(s, c + 2);
    } else {
      ColonEndsWord(s[pos..], c - pos);
      GapsBefore(s, NextToken(s, pos), c);
    }
  }

  /** What is accepted is the text of an address. */
  lemma AcceptedIsAddress(s: string)
    requires Accepted(s)
    ensures IsAddress(s)
  {
    assert s[0..] == s;
    if HasGap(s) {
      var c :| GapAt(s, c);
      GapsBefore(s, 0, c);
    } else {
      GapsAfter(s, 0);
    }
  }

  // ----- What is printed is accepted -----

  lemma {:induction false} JoinHasNoGap(words: seq<nat>)
    requires words != []
    ensures Join(words) != "" && Join(words)[0] != ':' && Join(words)[|Join(words)| - 1] != ':'
    ensures !HasGap(Join(words)) && (|words| >= 2 ==> ':' in Join(words))
    decreases |words|
  {
    var w := Hex(words[0]);
    if |words| == 1 {
      assert Join(words) == w;
    } else {
      JoinHasNoGap(words[1..]);
      var rest := Join(words[1..]);
      assert Join(words) == w + ":" + rest;
      assert Join(words)[|w|] == ':';
      forall i ensures !GapAt(Join(words), i) {
        assert !GapAt(rest, i - |w| - 1);
      }
    }
  }

  lemma PrintIsAccepted(words: seq<nat>, best: nat, length: nat)
    requires |words| == 8 && AreShort(words)
    requires best == 8 || (best < 8 && length > 0 && ZeroRun(words, best, length))
    ensures Accepted(Print(words, best, length))
  {
    PrintDenotes(words, best, length);
    if best == 8 {
      JoinHasNoGap(words);
      AcceptedWithoutGap(Join(words));
    } else {
      var left, right := words[..best], words[best + length..];
      GapIsAccepted(Join(left), Join(right), left, right);
      AcceptedWithGap(Print(words, best, length), |Join(left)|);
    }
  }

  lemma AcceptedWithoutGap(s: string)
    requires IsAddress(s) && s != "" && ':' in s && EndsWell(s) && !HasGap(s)
    ensures Accepted(s)
  {
    assert s[0..] == s;
    GapsAfter(s, 0);
  }

  lemma AcceptedWithGap(s: string, c: nat)
    requires IsAddress(s) && s != "" && ':' in s && EndsWell(s) && GapAt(s, c) && OneGapAtMost(s)
    ensures Accepted(s)
  {
    assert s[0..] == s;
    GapsBefore(s, 0, c);
  }

  lemma GapIsAccepted(l: string, r: string, left: seq<nat>, right: seq<nat>)
    requires l == Join(left) && r == Join(right)
    ensures var s := l + "::" + r;
      && ':' in s && GapAt(s, |l|) && OneGapAtMost(s) && EndsWell(s)
  {
    var s := l + "::" + r;
    if left != [] { JoinHasNoGap(left); }
    if right != [] { JoinHasNoGap(right); }
    assert s[|l|] == ':' && s[|l| + 1] == ':';
    forall i | GapAt(s, i) ensures i == |l| {
      assert !GapAt(l, i) && !GapAt(r, i - |l| - 2);
    }
  }

  // ----- Reading -----

  /** Where the first double colon is, if there is one. */
  method FindGap(s: string) returns (c: Option<nat>)
    ensures c.None? ==> !HasGap(s)
    ensures c.Some? ==> GapAt(s, c.value) && forall j :: 0 <= j < c.value ==> !GapAt(s, j)
  {
    for i := 0 to |s|
      invariant forall j :: 0 <= j < i ==> !GapAt(s, j)
    {
      if GapAt(s, i) {
        return Some(i);
      }
    }
    return None;
  }

  /** Another double colon behind the first one, overlapping it or not. */
  method HasSecondGap(s: string, c: nat) returns (second: bool)
    requires GapAt(s, c) && forall j :: 0 <= j < c ==> !GapAt(s, j)
    ensures second <==> !OneGapAtMost(s)
  {
    second := false;
    for i := c + 1 to |s|
      invariant second <==> exists j :: c < j < i && GapAt(s, j)
    {
      if GapAt(s, i) {
        second := true;
      }
    }
    if second {
      var j :| c < j < |s| && GapAt(s, j);
    }
  }

  /** The words from a position on are those after a colon there. */
  lemma {:induction false} TextsSkipColon(s: string, pos: nat)
    requires pos < |s| && s[pos] == ':'
    ensures Texts(Tokens(s[pos..])) == Texts(Tokens(s[pos + 1..]))
    decreases |s| - pos
  {
    TokensNext(s, pos);
    if GapAt(s, pos) {
      TextsGap(Tokens(s[pos + 2..]));
      TextsSkipColon(s, pos + 1);
    } else {
      assert [] + Tokens(s[pos + 1..]) == Tokens(s[pos + 1..]);
    }
  }

  lemma TextsGap(t: seq<Token>)
    ensures Texts([Gap] + t) == Texts(t)
  {
    assert ([Gap] + t)[1..] == t;
    assert [] + Texts(t) == Texts(t);
  }

  lemma TextsWord(w: string, t: seq<Token>)
    ensures Texts([Word(w)] + t) == [w] + Texts(t)
  {
    assert ([Word(w)] + t)[1..] == t;
  }

  ghost predicate GoodTexts(texts: seq<string>) {
    forall i :: 0 <= i < |texts| ==> AllHex(texts[i]) && 1 <= |texts[i]| <= 4
  }

  lemma {:induction false} TextsCount(t: seq<Token>)
    ensures |Texts(t)| == Words(t) && (AreWords(t) <==> GoodTexts(Texts(t)))
  {
    if t != [] {
      TextsCount(t[1..]);
      FirstTexts(t[0], t[1..]);
      assert t == [t[0]] + t[1..];
    }
  }

  lemma FirstTexts(a: Token, t: seq<Token>)
    ensures AreWords([a] + t) <==> (a.Word? ==> AllHex(a.text) && 1 <= |a.text| <= 4) && AreWords(t)
    ensures Texts([a] + t) == (if a.Word? then [a.text] else []) + Texts(t)
    ensures GoodTexts(Texts([a] + t)) <==> (a.Word? ==> AllHex(a.text) && 1 <= |a.text| <= 4) && GoodTexts(Texts(t))
  {
    var all := [a] + t;
    assert all[0] == a && all[1..] == t;
    assert forall i :: 0 <= i < |t| ==> t[i] == all[i + 1];
    if a.Word? {
      GoodFirst(a.text, Texts(t));
    } else {
      assert [] + Texts(t) == Texts(t);
    }
  }

  lemma GoodFirst(x: string, texts: seq<string>)
    ensures GoodTexts([x] + texts) <==> (AllHex(x) && 1 <= |x| <= 4) && GoodTexts(texts)
  {
    var all := [x] + texts;
    assert all[0] == x && forall i :: 0 <= i < |texts| ==> texts[i] == all[i + 1];
  }

  // ----- The checks and loops of the normaliser -----

  /** The words before a position have been counted. */
  ghost predicate Counting(address: string, start: nat, counted: seq<string>) {
    start <= |address| && GoodTexts(counted) && Texts(Tokens(address)) == counted + Texts(Tokens(address[start..]))
  }

  /** Looks at the group from a position on: where the next one begins, and whether this one is a word. */
  method NextGroup(address: string, start: nat, ghost counted: seq<string>)
    returns (ok: bool, words: nat, after: nat, ghost more: seq<string>)
    requires HasAddressChars(address)
    requires start < |address| && Counting(address, start, counted)
    ensures ok ==> start < after && Counting(address, after, more) && |more| == |counted| + words
    ensures !ok ==> !AreWords(Tokens(address))
  {
    var count := WordEnd(address[start..]);
    var next := start + count;
    more := if count > 0 then counted + [address[start..next]] else counted;
    after := if next < |address| then next + 1 else next;
    GroupStep(address, start, next, counted, after, more);
    ok := count <= 4;
    words := if count > 0 then 1 else 0;
  }

  /** Counts the words, unless one is too long. */
  method CountGroups(address: string) returns (ok: bool, groups: nat)
    requires HasAddressChars(address)
    ensures ok <==> AreWords(Tokens(address))
    ensures ok ==> groups == Words(Tokens(address))
  {
    groups := 0;
    var start := 0;
    ghost var counted: seq<string> := [];
    CountingBegins(address);
    while start < |address|
      invariant |counted| == groups && Counting(address, start, counted)
      decreases |address| - start
    {
      var words;
      ok, words, start, counted := NextGroup(address, start, counted);
      if !ok {
        return;
      }
      groups := groups + words;
    }
    CountingEnds(address, counted);
    ok := true;
  }

  lemma CountingBegins(address: string)
    ensures Counting(address, 0, [])
  {
    assert address[0..] == address && [] + Texts(Tokens(address)) == Texts(Tokens(address));
  }

  lemma CountingEnds(address: string, counted: seq<string>)
    requires Counting(address, |address|, counted)
    ensures AreWords(Tokens(address)) && Words(Tokens(address)) == |counted|
  {
    TextsCount(Tokens(address));
    assert counted + [] == counted;
  }

  /** A group up to the next colon is a word, unless it is empty. */
  lemma GroupStep(address: string, start: nat, next: nat, counted: seq<string>, after: nat, more: seq<string>)
    requires after == (if next < |address| then next + 1 else next)
    requires start <= next <= |address| && more == if next > start then counted + [address[start..next]] else counted
    requires start < |address| && next == start + WordEnd(address[start..]) && Counting(address, start, counted)
    requires HasAddressChars(address)
    ensures next - start > 4 ==> !AreWords(Tokens(address))
    ensures next - start <= 4 ==> Counting(address, after, more)
  {
    if next > start {
      FirstWord(address, start, next, counted);
      if next - start > 4 {
        TextsCount(Tokens(address));
      } else if next < |address| {
        TextsSkipColon(address, next);
      }
    } else {
      TextsSkipColon(address, next);
    }
  }

  lemma FirstWord(address: string, start: nat, next: nat, counted: seq<string>)
    requires start < next <= |address| && next == start + WordEnd(address[start..]) && GoodTexts(counted)
    requires HasAddressChars(address)
    ensures var word, all := address[start..next], counted + Texts(Tokens(address[start..]));
      && all == counted + [word] + Texts(Tokens(address[next..]))
      && (|word| > 4 ==> !GoodTexts(all)) && (|word| <= 4 ==> GoodTexts(counted + [word]))
  {
    var word := address[start..next];
    WordAt(address, start);
    TokensNext(address, start);
    TextsWord(word, Tokens(address[next..]));
    WordCounted(counted, word, Texts(Tokens(address[next..])));
  }

  lemma WordCounted(counted: seq<string>, word: string, rest: seq<string>)
    requires GoodTexts(counted) && AllHex(word) && word != ""
    ensures var all := counted + ([word] + rest);
      && all == counted + [word] + rest
      && (|word| > 4 ==> !GoodTexts(all)) && (|word| <= 4 ==> GoodTexts(counted + [word]))
  {
    assert (counted + ([word] + rest))[|counted|] == word;
  }

  // ----- The words of an accepted address -----

  ghost predicate HasAddressChars(s: string) {
    forall i :: 0 <= i < |s| ==> IsHex(s[i]) || s[i] == ':'
  }

  lemma WordAt(address: string, pos: nat)
    requires pos < |address| && address[pos] != ':' && HasAddressChars(address)
    ensures NextToken(address, pos) == pos + WordEnd(address[pos..]) && AllHex(address[pos..NextToken(address, pos)])
    ensures !GapAt(address, pos)
  {
    var next := NextToken(address, pos);
    assert forall i :: 0 <= i < next - pos ==> address[pos..next][i] == address[pos..][i];
  }

  /** The numbers of the words from a position on, with zeros for the gap. */
  ghost function Upcoming(address: string, pos: nat, zeros: nat): seq<nat>
    requires HasAddressChars(address)
    decreases |address| - pos
  {
    if pos >= |address| then []
    else if GapAt(address, pos) then Repeated(0, zeros) + Upcoming(address, pos + 2, zeros)
    else if address[pos] == ':' then Upcoming(address, pos + 1, zeros)
    else
      WordAt(address, pos);
      var next := NextToken(address, pos);
      [HexValue(address[pos..next])] + Upcoming(address, next, zeros)
  }

  lemma {:induction false} UpcomingIsFilled(address: string, pos: nat, zeros: nat)
    requires HasAddressChars(address) && pos <= |address| && AreWords(Tokens(address[pos..]))
    ensures Upcoming(address, pos, zeros) == Filled(Tokens(address[pos..]), zeros)
    decreases |address| - pos
  {
    if pos < |address| {
      TokensNext(address, pos);
      var next := NextToken(address, pos);
      if address[pos] != ':' { WordAt(address, pos); }
      var t := if GapAt(address, pos) then [Gap] else if address[pos] == ':' then [] else [Word(address[pos..next])];
      FilledSplit(Tokens(address[pos..]), t, Tokens(address[next..]), zeros);
      UpcomingIsFilled(address, next, zeros);
    }
  }

  lemma FilledSplit(all: seq<Token>, t: seq<Token>, rest: seq<Token>, zeros: nat)
    requires all == t + rest && AreWords(all) && |t| <= 1
    requires t != [] && t[0].Word? ==> AllHex(t[0].text)
    ensures AreWords(rest) && Filled(all, zeros) == (if t == [] then [] else FilledToken(t[0], zeros))
      + Filled(rest, zeros)
  {
    assert forall i :: 0 <= i < |rest| ==> rest[i] == all[|t| + i];
    if t != [] {
      assert all[0] == t[0] && all[1..] == rest;
    } else {
      assert all == rest && [] + Filled(rest, zeros) == Filled(rest, zeros);
    }
  }

  /** The first numbers of the buffer are the ones done; the others are still zero. */
  ghost predicate Holds(buffer: seq<nat>, index: int, done: seq<nat>) {
    && |buffer| == 8 && index == |done| <= 8
    && forall k :: 0 <= k < 8 ==> buffer[k] == if k < index then done[k] else 0
  }

  /** The numbers done are the ones before a position. */
  ghost predicate Reading(address: string, pos: nat, zeros: nat, done: seq<nat>, all: seq<nat>) {
    HasAddressChars(address) && |all| == 8 && pos <= |address| && all == done + Upcoming(address, pos, zeros)
  }

  lemma SkipGap(address: string, pos: nat, zeros: nat, done: seq<nat>, all: seq<nat>)
    requires Reading(address, pos, zeros, done, all) && GapAt(address, pos)
    ensures Reading(address, pos + 2, zeros, done + Repeated(0, zeros), all)
  {
    Associate(done, Repeated(0, zeros), Upcoming(address, pos + 2, zeros));
  }

  /** Fills in the word at a position. */
  method ReadWord(address: string, pos: nat, buffer: array<nat>, index: nat, ghost zeros: nat, ghost done: seq<nat>,
                  ghost all: seq<nat>)
    returns (end: nat, ghost more: seq<nat>)
    requires pos < |address| && address[pos] != ':' && Reading(address, pos, zeros, done, all)
      && Holds(buffer[..], index, done)
    modifies buffer
    ensures pos < end && Reading(address, end, zeros, more, all) && Holds(buffer[..], index + 1, more)
  {
    WordAt(address, pos);
    end := pos + WordEnd(address[pos..]);
    var word := HexValue(address[pos..end]);
    Associate(done, [word], Upcoming(address, end, zeros));
    buffer[index] := word;
    more := done + [word];
  }

  /** Fills in the words; no index reaches eight. */
  method ReadWords(address: string, compression: Option<nat>, groups: nat) returns (words: seq<nat>)
    requires HasAddressChars(address) && Accepted(address) && groups == Words(Tokens(address))
    requires if compression.Some? then GapAt(address, compression.value) else !HasGap(address)
    ensures IsAddress(address) && words == Denoted(address) && |words| == 8 && AreShort(words)
  {
    AcceptedIsAddress(address);
    FilledLength(Tokens(address), 8 - groups);
    ReadingBegins(address, 8 - groups);
    words := FillWords(address, compression, 8 - groups, Denoted(address));
  }

  method FillWords(address: string, compression: Option<nat>, missing: nat, ghost all: seq<nat>)
    returns (words: seq<nat>)
    requires Reading(address, 0, missing, [], all) && OneGapAtMost(address)
    requires if compression.Some? then GapAt(address, compression.value) else !HasGap(address)
    ensures words == all
  {
    var buffer := new nat[8](_ => 0);
    var index, pos := 0, 0;
    ghost var done: seq<nat> := [];
    while pos < |address|
      invariant Reading(address, pos, missing, done, all) && Holds(buffer[..], index, done)
      decreases |address| - pos
    {
      if compression.Some? && pos == compression.value {
        SkipGap(address, pos, missing, done, all);
        done := done + Repeated(0, missing);
        index := index + missing;
        pos := pos + 2;
      } else if address[pos] == ':' {
        pos := pos + 1;
      } else {
        pos, done := ReadWord(address, pos, buffer, index, missing, done, all);
        index := index + 1;
      }
    }
    words := buffer[..];
    assert done + [] == done;
  }

  lemma ReadingBegins(address: string, zeros: nat)
    requires HasAddressChars(address) && AreWords(Tokens(address)) && |Filled(Tokens(address), zeros)| == 8
    ensures Reading(address, 0, zeros, [], Filled(Tokens(address), zeros))
  {
    assert address[0..] == address;
    UpcomingIsFilled(address, 0, zeros);
    assert [] + Upcoming(address, 0, zeros) == Upcoming(address, 0, zeros);
  }

  // ----- The longest run of zeros -----

  /** No run of zeros goes on across a position. */
  ghost predicate Boundary(words: seq<nat>, i: nat) {
    i <= |words| && (i == 0 || i == |words| || words[i - 1] != 0 || words[i] != 0)
  }

  /** The choice is the first longest of the runs of two or more zeros before a position. */
  ghost predicate BestBefore(words: seq<nat>, i: nat, best: nat, length: nat) {
    && (if best == |words| then length == 0
        else best < |words| && 2 <= length && best + length <= i && ZeroRun(words, best, length))
    && forall a: nat, n: nat ::
         2 <= n && ZeroRun(words, a, n) && a + n <= i ==> n <= length && (n == length ==> best <= a)
  }

  lemma RunsStop(words: seq<nat>, i: nat, a: nat, n: nat)
    requires Boundary(words, i) && ZeroRun(words, a, n) && n > 0
    ensures a + n <= i || i <= a
  {}

  lemma RunStopsAt(words: seq<nat>, i: nat, a: nat, n: nat)
    requires i < |words| && words[i] != 0 && ZeroRun(words, a, n) && n > 0
    ensures a + n <= i || i < a
  {}

  /** A nonzero word ends no run. */
  lemma BestAfterWord(words: seq<nat>, i: nat, best: nat, length: nat)
    requires BestBefore(words, i, best, length) && i < |words| && words[i] != 0
    ensures BestBefore(words, i + 1, best, length) && Boundary(words, i + 1)
  {
    forall a: nat, n: nat | 2 <= n && ZeroRun(words, a, n) && a + n <= i + 1
      ensures n <= length && (n == length ==> best <= a)
    {
      RunStopsAt(words, i, a, n);
    }
  }

  /** A whole run is chosen when it is longer than all before it. */
  lemma BestAfterRun(words: seq<nat>, i: nat, stop: nat, best: nat, length: nat, b: nat, l: nat)
    requires BestBefore(words, i, best, length) && Boundary(words, i) && i < stop && ZeroRun(words, i, stop - i)
    requires if stop - i > length && stop - i >= 2 then b == i && l == stop - i else b == best && l == length
    ensures BestBefore(words, stop, b, l)
  {
    forall a: nat, n: nat | 2 <= n && ZeroRun(words, a, n) && a + n <= stop
      ensures n <= l && (n == l ==> b <= a)
    {
      RunsStop(words, i, a, n);
    }
  }

  method FindZeroRun(words: seq<nat>) returns (best: nat, length: nat)
    requires |words| == 8
    ensures best + length <= 8 && IsFirstLongest(words, best, length)
  {
    best, length := 8, 0;
    var i := 0;
    while i < 8
      invariant i <= 8 && Boundary(words, i) && BestBefore(words, i, best, length)
      decreases 8 - i
    {
      if words[i] != 0 {
        BestAfterWord(words, i, best, length);
        i := i + 1;
      } else {
        var stop := i;
        while stop < 8 && words[stop] == 0
          invariant i <= stop <= 8 && ZeroRun(words, i, stop - i)
        {
          stop := stop + 1;
        }
        ghost var b, l := best, length;
        if stop - i > length && stop - i >= 2 {
          best, length := i, stop - i;
        }
        BestAfterRun(words, i, stop, b, l, best, length);
        i := stop;
      }
    }
    AllRunsBefore(words, best, length);
  }

  lemma AllRunsBefore(words: seq<nat>, best: nat, length: nat)
    requires BestBefore(words, |words|, best, length)
    ensures IsFirstLongest(words, best, length)
  {
    if best == |words| {
      forall i: nat ensures !ZeroRun(words, i, 2) {}
    }
  }

  // ----- Writing -----

  method WriteHex(value: nat) returns (word: string)
    ensures word == Hex(value)
  {
    var n := value;
    word := [DigitOf(n % 16)];
    n := n / 16;
    while n != 0
      invariant Hex(value) == HexBefore(n, word)
    {
      HexStep(n, word);
      word := [DigitOf(n % 16)] + word;
      n := n / 16;
    }
  }

  /** The digits of n, if it is not zero, and then the others. */
  function HexBefore(n: nat, word: string): string {
    if n == 0 then word else Hex(n) + word
  }

  lemma HexStep(n: nat, word: string)
    requires n != 0
    ensures HexBefore(n, word) == HexBefore(n / 16, [DigitOf(n % 16)] + word)
  {
    if n >= 16 { Associate(Hex(n / 16), [DigitOf(n % 16)], word); }
  }

  lemma JoinFirst(first: nat, rest: seq<nat>)
    ensures Join([first] + rest) == if rest == [] then Hex(first) else Hex(first) + (":" + Join(rest))
  {
    var words := [first] + rest;
    assert words[1..] == rest;
    if rest == [] { assert Hex(first) + "" == Hex(first); }
  }

  lemma {:induction false} JoinAppend(words: seq<nat>, w: nat)
    ensures Join(words + [w]) == if words == [] then Hex(w) else Join(words) + (":" + Hex(w))
  {
    if words == [] {
      JoinFirst(w, []);
    } else {
      var first, rest := words[0], words[1..];
      assert words == [first] + rest && words + [w] == [first] + (rest + [w]);
      JoinAppend(rest, w);
      JoinFirst(first, rest);
      JoinFirst(first, rest + [w]);
      if rest != [] { Regroup(Hex(first), Join(rest), Hex(w)); }
    }
  }

  lemma Regroup(a: string, b: string, c: string)
    ensures a + (":" + (b + (":" + c))) == a + (":" + b) + (":" + c)
  {}

  /** What has been written before word i. */
  ghost predicate WrittenTo(words: seq<nat>, best: nat, length: nat, i: nat, canonical: string) {
    && i <= 8 == |words| && best + length <= 8
    && if i <= best then canonical == Join(words[..i])
       else best + length <= i && canonical == Join(words[..best]) + "::" + Join(words[best + length..i])
  }

  /** A colon goes before a word unless it is the first one, or follows the double colon. */
  function Separated(canonical: string, word: string): string {
    canonical + (if canonical != "" && canonical[|canonical| - 1] != ':' then ":" else "") + word
  }

  lemma SeparatedAppend(before: string, done: seq<nat>, w: nat)
    requires before == "" || before[|before| - 1] == ':'
    ensures Separated(before + Join(done), Hex(w)) == before + Join(done + [w])
  {
    JoinAppend(done, w);
    if done == [] {
      assert before + Join(done) == before && before + "" + Hex(w) == before + Hex(w);
    } else {
      JoinHasNoGap(done);
      var canonical := before + Join(done);
      assert canonical[|canonical| - 1] == Join(done)[|Join(done)| - 1];
      assert before + (Join(done) + (":" + Hex(w))) == canonical + ":" + Hex(w);
    }
  }

  lemma SeparatedJoin(before: string, words: seq<nat>, from: nat, i: nat)
    requires from <= i < |words| && (before == "" || before[|before| - 1] == ':')
    ensures Separated(before + Join(words[from..i]), Hex(words[i])) == before + Join(words[from..i + 1])
  {
    assert words[from..i + 1] == words[from..i] + [words[i]];
    SeparatedAppend(before, words[from..i], words[i]);
  }

  lemma WriteStep(words: seq<nat>, best: nat, length: nat, i: nat, canonical: string)
    requires WrittenTo(words, best, length, i, canonical) && i < 8 && i != best
    ensures WrittenTo(words, best, length, i + 1, Separated(canonical, Hex(words[i])))
  {
    if i < best {
      SeparatedJoin("", words, 0, i);
      assert words[0..i] == words[..i] && words[0..i + 1] == words[..i + 1];
      assert "" + Join(words[..i]) == Join(words[..i]) && "" + Join(words[..i + 1]) == Join(words[..i + 1]);
    } else {
      SeparatedJoin(Join(words[..best]) + "::", words, best + length, i);
    }
  }

  lemma WriteGap(words: seq<nat>, best: nat, length: nat, canonical: string)
    requires WrittenTo(words, best, length, best, canonical) && best < 8 && length > 0
    ensures WrittenTo(words, best, length, best + length, canonical + "::")
  {
    assert words[best + length..best + length] == [] && canonical + "::" + "" == canonical + "::";
  }

  method WriteCanonical(words: seq<nat>, best: nat, length: nat) returns (canonical: string)
    requires |words| == 8 && best + length <= 8 && (best < 8 ==> length > 0)
    ensures canonical == Print(words, best, length)
  {
    canonical := "";
    var i := 0;
    while i < 8
      invariant WrittenTo(words, best, length, i, canonical)
      decreases 8 - i
    {
      if i == best {
        WriteGap(words, best, length, canonical);
        canonical := canonical + "::";
        i := i + length;
      } else {
        WriteStep(words, best, length, i, canonical);
        var word := WriteHex(words[i]);
        canonical := Separated(canonical, word);
        i := i + 1;
      }
    }
    assert words[..8] == words;
  }

  /** The canonical form of an address, or nothing for a text that is none. */
  method CanonicalAddress(address: string) returns (r: Option<string>)
    requires HasAddressChars(address) && address != ""
    ensures r.Some? <==> Accepted(address)
    ensures r.Some? ==> IsAddress(address) && IsCanonical(r.value, Denoted(address))
  {
    if ':' !in address {
      return None;
    }
    var compression := FindGap(address);
    if compression.Some? {
      var second := HasSecondGap(address, compression.value);
      if second {
        return None;
      }
    }
    if !EndsWell(address) {
      return None;
    }
    var ok, groups := CountGroups(address);
    if !ok || (if compression.None? then groups != 8 else groups >= 8) {
      return None;
    }
    var words := ReadWords(address, compression, groups);
    var best, length := FindZeroRun(words);
    var canonical := WriteCanonical(words, best, length);
    return Some(canonical);
  }

  // ----- The canonical form is a fixed point -----

  lemma CanonicalIsFixed(s: string, words: seq<nat>)
    requires |words| == 8 && AreShort(words) && IsCanonical(s, words)
    ensures Accepted(s) && IsAddress(s) && Denoted(s) == words && HasAddressChars(s)
    ensures forall i :: 0 <= i < |s| ==> IsLowerHex(s[i]) || s[i] == ':'
    ensures forall t :: IsCanonical(t, words) ==> t == s
  {
    var best: nat, length: nat :| best + length <= |words| && IsFirstLongest(words, best, length)
      && s == Print(words, best, length);
    PrintIsAccepted(words, best, length);
    PrintDenotes(words, best, length);
    PrintChars(words, best, length);
    forall t | IsCanonical(t, words) ensures t == s {
      var b: nat, l: nat :| b + l <= |words| && IsFirstLongest(words, b, l) && t == Print(words, b, l);
      FirstLongestIsUnique(words, best, length, b, l);
    }
  }

  lemma {:induction false} JoinChars(words: seq<nat>)
    ensures forall i :: 0 <= i < |Join(words)| ==> IsLowerHex(Join(words)[i]) || Join(words)[i] == ':'
  {
    if words != [] {
      JoinChars(words[1..]);
    }
  }

  lemma PrintChars(words: seq<nat>, best: nat, length: nat)
    requires best + length <= |words| || best == |words|
    ensures var s := Print(words, best, length); forall i :: 0 <= i < |s| ==> IsLowerHex(s[i]) || s[i] == ':'
  {
    JoinChars(words);
    if best < |words| {
      JoinChars(words[..best]);
      JoinChars(words[best + length..]);
    }
  }
}
