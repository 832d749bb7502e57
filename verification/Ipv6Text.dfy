/** Text forms of IPv6 addresses: what they denote, and the one that section 4 of RFC 5952 recommends. */
module Ipv6Text {
  import opened Results
  import opened Sequences

  // ----- Hexadecimal numbers -----

  predicate IsLowerHex(c: char) {
    '0' <= c <= '9' || 'a' <= c <= 'f'
  }

  predicate IsHex(c: char) {
    IsLowerHex(c) || 'A' <= c <= 'F'
  }

  function DigitOf(n: nat): (c: char)
    requires n < 16
    ensures IsLowerHex(c) && DigitValue(c) == n
  {
    "0123456789abcdef"[n]
  }

  function DigitValue(c: char): (n: nat)
    requires IsHex(c)
    ensures n < 16
  {
    if c <= '9' then (c - '0') as nat else if c <= 'F' then (c - 'A') as nat + 10 else (c - 'a') as nat + 10
  }

  predicate AllHex(s: string) {
    forall i :: 0 <= i < |s| ==> IsHex(s[i])
  }

  function HexValue(s: string): nat
    requires AllHex(s)
  {
    if s == "" then 0 else HexValue(s[..|s| - 1]) * 16 + DigitValue(s[|s| - 1])
  }

  /** The least digits of a number: lower-case, without leading zeros. */
  function Hex(n: nat): (s: string)
    ensures s != "" && AllHex(s) && (forall i :: 0 <= i < |s| ==> IsLowerHex(s[i]))
    ensures s[0] == '0' ==> n == 0 && |s| == 1
  {
    if n < 16 then [DigitOf(n)] else Hex(n / 16) + [DigitOf(n % 16)]
  }

  lemma {:induction false} HexIsRead(n: nat)
    ensures HexValue(Hex(n)) == n
  {
    if n >= 16 {
      HexIsRead(n / 16);
      assert Hex(n)[..|Hex(n)| - 1] == Hex(n / 16);
    } else {
      assert Hex(n)[..0] == "";
    }
  }

  lemma {:induction false} HexShort(n: nat, k: nat)
    requires 1 <= k <= 4 && n < Power16(k)
    ensures |Hex(n)| <= k
  {
    if n >= 16 {
      HexShort(n / 16, k - 1);
    }
  }

  lemma {:induction false} HexBound(s: string)
    requires AllHex(s) && |s| <= 4
    ensures HexValue(s) < Power16(|s|) <= 0x10000
  {
    if s != "" {
      HexBound(s[..|s| - 1]);
    }
  }

  function Power16(n: nat): nat
    requires n <= 4
  {
    if n == 0 then 1 else if n == 1 then 0x10 else if n == 2 then 0x100 else if n == 3 then 0x1000 else 0x10000
  }

  // ----- What a text denotes -----

  datatype Token = Word(text: string) | Gap

  /** Where the first colon is. */
  function WordEnd(s: string): (n: nat)
    ensures n <= |s| && (n < |s| ==> s[n] == ':') && forall i :: 0 <= i < n ==> s[i] != ':'
  {
    if s == "" || s[0] == ':' then 0 else 1 + WordEnd(s[1..])
  }

  predicate StartsWithGap(s: string) {
    |s| >= 2 && s[0] == ':' && s[1] == ':'
  }

  /** The words of a text, and the places of double colons. */
  function Tokens(s: string): seq<Token>
    decreases |s|
  {
    if s == "" then []
    else if StartsWithGap(s) then [Gap] + Tokens(s[2..])
    else if s[0] == ':' then Tokens(s[1..])
    else [Word(s[..WordEnd(s)])] + Tokens(s[WordEnd(s)..])
  }

  function Words(t: seq<Token>): nat {
    if t == [] then 0 else (if t[0].Word? then 1 else 0) + Words(t[1..])
  }

  function Gaps(t: seq<Token>): nat {
    if t == [] then 0 else (if t[0].Gap? then 1 else 0) + Gaps(t[1..])
  }

  /** Every word is one to four hexadecimal digits. */
  predicate AreWords(t: seq<Token>) {
    forall i :: 0 <= i < |t| && t[i].Word? ==> AllHex(t[i].text) && 1 <= |t[i].text| <= 4
  }

  /** The numbers that some words stand for, with zeros in the gap. */
  function Filled(t: seq<Token>, zeros: nat): seq<nat>
    requires AreWords(t)
  {
    if t == [] then []
    else FilledToken(t[0], zeros) + Filled(t[1..], zeros)
  }

  /** The words alone. */
  function Texts(t: seq<Token>): seq<string> {
    if t == [] then [] else (if t[0].Word? then [t[0].text] else []) + Texts(t[1..])
  }

  /** Section 2.2 of RFC 4291: eight words, or fewer words and one gap that stands for the missing ones. */
  predicate IsAddress(s: string) {
    var t := Tokens(s);
    AreWords(t) && if Gaps(t) == 0 then Words(t) == 8 else Gaps(t) == 1 && Words(t) < 8
  }

  function Denoted(s: string): seq<nat>
    requires IsAddress(s)
  {
    Filled(Tokens(s), 8 - Words(Tokens(s)))
  }

  lemma {:induction false} FilledLength(t: seq<Token>, zeros: nat)
    requires AreWords(t) && Gaps(t) <= 1
    ensures |Filled(t, zeros)| == Words(t) + if Gaps(t) == 1 then zeros else 0
    ensures forall i :: 0 <= i < |Filled(t, zeros)| ==> Filled(t, zeros)[i] < 0x10000
  {
    if t != [] {
      FilledLength(t[1..], zeros);
      if t[0].Word? { HexBound(t[0].text); }
    }
  }

  function FilledToken(t: Token, zeros: nat): seq<nat>
    requires t.Word? ==> AllHex(t.text)
  {
    if t.Word? then [HexValue(t.text)] else Repeated(0, zeros)
  }

  lemma {:induction false} FilledAppend(t: seq<Token>, u: seq<Token>, zeros: nat)
    requires AreWords(t) && AreWords(u)
    ensures AreWords(t + u) && Filled(t + u, zeros) == Filled(t, zeros) + Filled(u, zeros)
  {
    if t == [] {
      assert t + u == u;
    } else {
      FilledAppend(t[1..], u, zeros);
      assert t + u == [t[0]] + (t[1..] + u);
      Associate(FilledToken(t[0], zeros), Filled(t[1..], zeros), Filled(u, zeros));
    }
  }

  // ----- Printing -----

  /** Words with colons between them. */
  function Join(words: seq<nat>): string {
    if words == [] then ""
    else Hex(words[0]) + (if |words| == 1 then "" else ":" + Join(words[1..]))
  }

  /** The words with a double colon in place of length zeros from position best on, if best is one. */
  function Print(words: seq<nat>, best: nat, length: nat): string
    requires best + length <= |words| || best == |words|
  {
    if best == |words| then Join(words) else Join(words[..best]) + "::" + Join(words[best + length..])
  }

  function WordTokens(words: seq<nat>): (t: seq<Token>)
    ensures |t| == |words|
  {
    seq(|words|, i requires 0 <= i < |words| => Word(Hex(words[i])))
  }

  lemma {:induction false} EndOfWord(w: string, t: string)
    requires AllHex(w) && (t == "" || t[0] == ':')
    ensures WordEnd(w + t) == |w|
  {
    if w == "" {
      assert w + t == t;
    } else {
      EndOfWord(w[1..], t);
      assert (w + t)[0] == w[0] && (w + t)[1..] == w[1..] + t;
    }
  }

  lemma WordFirst(w: string, t: string)
    requires w != "" && AllHex(w) && (t == "" || t[0] == ':')
    ensures Tokens(w + t) == [Word(w)] + Tokens(t)
  {
    var s := w + t;
    EndOfWord(w, t);
    assert s[0] == w[0] && s[..|w|] == w && s[|w|..] == t;
  }

  /** A single colon only separates. */
  lemma ColonSkipped(rest: string)
    requires rest != "" && rest[0] != ':'
    ensures Tokens(":" + rest) == Tokens(rest)
  {
    assert (":" + rest)[1..] == rest;
  }

  lemma {:induction false} TokensOfJoin(words: seq<nat>, t: string)
    requires words != [] && (t == "" || t[0] == ':')
    ensures Tokens(Join(words) + t) == WordTokens(words) + Tokens(t)
    decreases |words|
  {
    if |words| == 1 {
      WordFirst(Hex(words[0]), t);
      assert Join(words) + t == Hex(words[0]) + t;
    } else {
      TokensOfJoin(words[1..], t);
      JoinedFirst(words, t);
    }
    FirstToken(words, t);
  }

  lemma FirstToken(words: seq<nat>, t: string)
    requires words != []
    ensures WordTokens(words) + Tokens(t) == [Word(Hex(words[0]))] + (WordTokens(words[1..]) + Tokens(t))
  {
    assert WordTokens(words) == [Word(Hex(words[0]))] + WordTokens(words[1..]);
  }

  lemma JoinedFirst(words: seq<nat>, t: string)
    requires |words| >= 2
    ensures Tokens(Join(words) + t) == [Word(Hex(words[0]))] + Tokens(Join(words[1..]) + t)
  {
    var w, rest := Hex(words[0]), Join(words[1..]) + t;
    assert Join(words) + t == w + (":" + rest);
    WordFirst(w, ":" + rest);
    assert rest[0] == Hex(words[1])[0];
    ColonSkipped(rest);
  }

  // ----- The printed form -----

  lemma TokensOfWords(words: seq<nat>)
    ensures Tokens(Join(words)) == WordTokens(words)
  {
    if words != [] {
      TokensOfJoin(words, "");
      assert Join(words) + "" == Join(words) && WordTokens(words) + [] == WordTokens(words);
    }
  }

  lemma TokensOfPrint(words: seq<nat>, best: nat, length: nat)
    requires best + length <= |words|
    ensures Tokens(Join(words[..best]) + "::" + Join(words[best + length..]))
         == WordTokens(words[..best]) + [Gap] + WordTokens(words[best + length..])
  {
    var left, right := words[..best], words[best + length..];
    var t := "::" + Join(right);
    assert t[2..] == Join(right);
    TokensOfWords(right);
    if left != [] {
      TokensOfJoin(left, t);
      Associate(WordTokens(left), [Gap], WordTokens(right));
    } else {
      assert Join(left) + "::" + Join(right) == t;
      assert WordTokens(left) + [Gap] == [Gap];
    }
    assert Join(left) + "::" + Join(right) == Join(left) + t;
  }

  lemma {:induction false} CountsAppend(t: seq<Token>, u: seq<Token>)
    ensures Words(t + u) == Words(t) + Words(u) && Gaps(t + u) == Gaps(t) + Gaps(u)
  {
    if t == [] {
      assert t + u == u;
    } else {
      CountsAppend(t[1..], u);
      assert (t + u)[1..] == t[1..] + u;
    }
  }

  ghost predicate AreShort(words: seq<nat>) {
    forall i :: 0 <= i < |words| ==> words[i] < 0x10000
  }

  lemma {:induction false} WordTokensDenote(words: seq<nat>, zeros: nat)
    requires AreShort(words)
    ensures Words(WordTokens(words)) == |words| && Gaps(WordTokens(words)) == 0
    ensures AreWords(WordTokens(words)) && Filled(WordTokens(words), zeros) == words
  {
    forall i | 0 <= i < |words| ensures |Hex(words[i])| <= 4 {
      HexShort(words[i], 4);
    }
    if words != [] {
      var t := WordTokens(words);
      WordTokensDenote(words[1..], zeros);
      assert t[1..] == WordTokens(words[1..]);
      HexIsRead(words[0]);
      assert [words[0]] + words[1..] == words;
    }
  }

  ghost predicate ZeroRun(words: seq<nat>, i: nat, n: nat) {
    i + n <= |words| && forall k :: i <= k < i + n ==> words[k] == 0
  }

  /** A printed text denotes the words that were printed. */
  lemma PrintDenotes(words: seq<nat>, best: nat, length: nat)
    requires |words| == 8 && AreShort(words)
    requires best == 8 || (length > 0 && ZeroRun(words, best, length))
    ensures IsAddress(Print(words, best, length)) && Denoted(Print(words, best, length)) == words
  {
    if best == 8 {
      TokensOfWords(words);
      WordTokensDenote(words, 0);
    } else {
      GapDenotes(words, best, length);
    }
  }

  lemma GapDenotes(words: seq<nat>, best: nat, length: nat)
    requires |words| == 8 && AreShort(words) && length > 0 && ZeroRun(words, best, length) && best < 8
    ensures IsAddress(Print(words, best, length)) && Denoted(Print(words, best, length)) == words
  {
    var left, right := words[..best], words[best + length..];
    TokensOfPrint(words, best, length);
    GapFilled(left, right, length);
    RunSplits(words, best, length);
  }

  lemma RunSplits(words: seq<nat>, best: nat, length: nat)
    requires ZeroRun(words, best, length)
    ensures words == words[..best] + Repeated(0, length) + words[best + length..]
  {}

  lemma GapFilled(left: seq<nat>, right: seq<nat>, zeros: nat)
    requires AreShort(left) && AreShort(right)
    ensures var t := WordTokens(left) + [Gap] + WordTokens(right);
      && AreWords(t) && Gaps(t) == 1 && Words(t) == |left| + |right|
      && Filled(t, zeros) == left + Repeated(0, zeros) + right
  {
    var l, r := WordTokens(left), WordTokens(right);
    WordTokensDenote(left, zeros);
    WordTokensDenote(right, zeros);
    GapCounts();
    CountsAppend(l + [Gap], r);
    CountsAppend(l, [Gap]);
    OneGap(zeros);
    FilledAppend(l, [Gap], zeros);
    FilledAppend(l + [Gap], r, zeros);
  }

  lemma GapCounts()
    ensures Words([Gap]) == 0 && Gaps([Gap]) == 1
  {
    assert [Gap][1..] == [];
  }

  lemma OneGap(zeros: nat)
    ensures Filled([Gap], zeros) == Repeated(0, zeros)
  {
    assert Filled([Gap][1..], zeros) == [];
  }

  /** Section 4.2 of RFC 5952: the first of the longest runs of at least two zeros, if there is one. */
  ghost predicate IsFirstLongest(words: seq<nat>, best: nat, length: nat) {
    if best == |words| then length == 0 && forall i: nat :: !ZeroRun(words, i, 2)
    else
      && 2 <= length && ZeroRun(words, best, length)
      && forall i: nat, n: nat :: ZeroRun(words, i, n) ==> n <= length && (n == length ==> best <= i)
  }

  /** The recommended form of the address with the given words. */
  ghost predicate IsCanonical(s: string, words: seq<nat>) {
    exists best: nat, length: nat :: best + length <= |words| && IsFirstLongest(words, best, length)
      && s == Print(words, best, length)
  }

  lemma FirstLongestIsUnique(words: seq<nat>, best: nat, length: nat, b: nat, l: nat)
    requires best <= |words| && b <= |words|
    requires IsFirstLongest(words, best, length) && IsFirstLongest(words, b, l)
    ensures best == b && length == l
  {
    if best < |words| && b == |words| {
      assert ZeroRun(words, best, 2);
    } else if b < |words| && best == |words| {
      assert ZeroRun(words, b, 2);
    } else if best < |words| {
      assert ZeroRun(words, best, length) && ZeroRun(words, b, l);
    }
  }
}
