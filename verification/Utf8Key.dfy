/** Key bytes of a passphrase: the low byte of each UTF-16 code unit of a text that is given in UTF-8. */
module Utf8Key {
  import opened Results
  import opened Sequences

  // ----- The encodings of section 3 of RFC 3629 and of UTF-16 -----

  predicate IsScalar(p: nat) {
    p < 0xd800 || 0xe000 <= p < 0x110000
  }

  predicate AreScalars(ps: seq<nat>) {
    forall k :: 0 <= k < |ps| ==> IsScalar(ps[k])
  }

  function EncodePoint(p: nat): (s: seq<nat>)
    ensures 1 <= |s| <= 4
  {
    if p < 0x80 then [p]
    else if p < 0x800 then [0xc0 + p / 0x40, 0x80 + p % 0x40]
    else if p < 0x10000 then [0xe0 + p / 0x1000, 0x80 + p / 0x40 % 0x40, 0x80 + p % 0x40]
    else [0xf0 + p / 0x40000, 0x80 + p / 0x1000 % 0x40, 0x80 + p / 0x40 % 0x40, 0x80 + p % 0x40]
  }

  function Utf8(ps: seq<nat>): seq<nat> {
    if ps == [] then [] else EncodePoint(ps[0]) + Utf8(ps[1..])
  }

  function Units(p: nat): seq<nat> {
    if p < 0x10000 then [p]
    else [0xd800 + (p - 0x10000) / 0x400, 0xdc00 + (p - 0x10000) % 0x400]
  }

  function Utf16(ps: seq<nat>): seq<nat> {
    if ps == [] then [] else Units(ps[0]) + Utf16(ps[1..])
  }

  function LowBytes(units: seq<nat>): (s: seq<nat>)
    ensures |s| == |units|
  {
    seq(|units|, k requires 0 <= k < |units| => units[k] % 0x100)
  }

  // ----- Reading one point -----

  datatype Point = Point(value: nat, length: nat)

  predicate IsContinuation(c: nat) {
    0x80 <= c < 0xc0
  }

  /** The value that continuation bytes lead to. */
  function Continue(s: seq<nat>, point: nat, remaining: nat): Option<nat> {
    if remaining == 0 then Some(point)
    else if s == [] || !IsContinuation(s[0]) then None
    else Continue(s[1..], point * 0x40 + s[0] % 0x40, remaining - 1)
  }

  /** What the first byte says: its part of the value, how many bytes follow, and the least value that needs them. */
  datatype Lead = Lead(payload: nat, remaining: nat, minimum: nat)

  function LeadOf(first: nat): Option<Lead> {
    if 0xc2 <= first <= 0xdf then Some(Lead(first % 0x20, 1, 0x80))
    else if 0xe0 <= first <= 0xef then Some(Lead(first % 0x10, 2, 0x800))
    else if 0xf0 <= first <= 0xf4 then Some(Lead(first % 0x08, 3, 0x10000))
    else if first >= 0x80 then None
    else Some(Lead(first, 0, 0))
  }

  function ReadPoint(s: seq<nat>): Option<Point>
    requires s != []
  {
    var lead := LeadOf(s[0]);
    if lead.None? then None
    else
      var value := Continue(s[1..], lead.value.payload, lead.value.remaining);
      if value.None? || value.value < lead.value.minimum || !IsScalar(value.value) then None
      else Some(Point(value.value, 1 + lead.value.remaining))
  }

  function Bits6(c: nat): int {
    c - 0x80
  }

  lemma ContinueOne(s: seq<nat>, point: nat)
    requires |s| >= 1
    ensures Continue(s, point, 1) == if IsContinuation(s[0]) then Some(point * 0x40 + Bits6(s[0])) else None
  {
    assert IsContinuation(s[0]) ==> Continue(s[1..], point * 0x40 + s[0] % 0x40, 0) == Some(point * 0x40 + Bits6(s[0]));
  }

  lemma ContinueTwo(s: seq<nat>, point: nat)
    requires |s| >= 2
    ensures Continue(s, point, 2) ==
      if IsContinuation(s[0]) && IsContinuation(s[1]) then Some(point * 0x1000 + Bits6(s[0]) * 0x40 + Bits6(s[1]))
        else None
  {
    if IsContinuation(s[0]) { ContinueOne(s[1..], point * 0x40 + Bits6(s[0])); }
  }

  lemma ContinueThree(s: seq<nat>, point: nat)
    requires |s| >= 3
    ensures Continue(s, point, 3) ==
      if IsContinuation(s[0]) && IsContinuation(s[1]) && IsContinuation(s[2])
      then Some(point * 0x40000 + Bits6(s[0]) * 0x1000 + Bits6(s[1]) * 0x40 + Bits6(s[2])) else None
  {
    if IsContinuation(s[0]) { ContinueTwo(s[1..], point * 0x40 + Bits6(s[0])); }
  }

  lemma DigitsBack(a: nat, b: nat, c: nat, d: nat)
    requires b < 0x40 && c < 0x40 && d < 0x40
    ensures var p := a * 0x40000 + b * 0x1000 + c * 0x40 + d;
      p / 0x40000 == a && p / 0x1000 == a * 0x40 + b && p / 0x40 == a * 0x1000 + b * 0x40 + c
      && p / 0x1000 % 0x40 == b && p / 0x40 % 0x40 == c && p % 0x40 == d
  {}

  /** The six-bit digits of a value. */
  lemma Digits(p: nat)
    ensures p == p / 0x40 * 0x40 + p % 0x40
    ensures p == p / 0x1000 * 0x1000 + p / 0x40 % 0x40 * 0x40 + p % 0x40
    ensures p == p / 0x40000 * 0x40000 + p / 0x1000 % 0x40 * 0x1000 + p / 0x40 % 0x40 * 0x40 + p % 0x40
  {
    var a, d := p / 0x40, p % 0x40;
    var b, c := a / 0x40, a % 0x40;
    var e, f := b / 0x40, b % 0x40;
    DigitsBack(e, f, c, d);
  }

  /** An encoded scalar value is read back, whatever follows. */
  lemma ReadEncoded(p: nat, rest: seq<nat>)
    requires IsScalar(p)
    ensures ReadPoint(EncodePoint(p) + rest) == Some(Point(p, |EncodePoint(p)|))
  {
    var s := EncodePoint(p) + rest;
    Digits(p);
    if p < 0x80 {
    } else if p < 0x800 {
      assert s == [0xc0 + p / 0x40, 0x80 + p % 0x40] + rest;
      ContinueOne(s[1..], p / 0x40);
    } else if p < 0x10000 {
      ReadEncodedThree(p, s);
    } else {
      ReadEncodedFour(p, s);
    }
  }

  lemma ReadEncodedThree(p: nat, s: seq<nat>)
    requires IsScalar(p) && 0x800 <= p < 0x10000 && |s| >= 3 && s[..3] == EncodePoint(p)
    ensures ReadPoint(s) == Some(Point(p, 3))
  {
    Digits(p);
    assert s[0] == s[..3][0] && s[1] == s[..3][1] && s[2] == s[..3][2];
    ContinueTwo(s[1..], p / 0x1000);
  }

  lemma ReadEncodedFour(p: nat, s: seq<nat>)
    requires IsScalar(p) && 0x10000 <= p && |s| >= 4 && s[..4] == EncodePoint(p)
    ensures ReadPoint(s) == Some(Point(p, 4))
  {
    Digits(p);
    assert s[0] == s[..4][0] && s[1] == s[..4][1] && s[2] == s[..4][2] && s[3] == s[..4][3];
    ContinueThree(s[1..], p / 0x40000);
  }

  lemma {:induction false} ContinueLonger(s: seq<nat>, point: nat, remaining: nat)
    requires Continue(s, point, remaining).Some?
    ensures remaining <= |s|
  {
    if remaining > 0 {
      ContinueLonger(s[1..], point * 0x40 + s[0] % 0x40, remaining - 1);
    }
  }

  /** What is read is the encoding of a scalar value. */
  lemma EncodeRead(s: seq<nat>)
    requires s != [] && ReadPoint(s).Some?
    ensures var r := ReadPoint(s).value;
      IsScalar(r.value) && r.length <= |s| && EncodePoint(r.value) == s[..r.length]
  {
    var lead := LeadOf(s[0]).value;
    ContinueLonger(s[1..], lead.payload, lead.remaining);
    if lead.remaining == 1 {
      ContinueOne(s[1..], lead.payload);
      DigitsBack(0, 0, lead.payload, Bits6(s[1]));
      assert s[..2] == [s[0], s[1]];
    } else if lead.remaining == 2 {
      EncodeReadThree(s, lead);
    } else if lead.remaining == 3 {
      EncodeReadFour(s, lead);
    }
  }

  lemma EncodeReadThree(s: seq<nat>, lead: Lead)
    requires |s| >= 3 && LeadOf(s[0]) == Some(lead) && lead.remaining == 2 && ReadPoint(s).Some?
    ensures EncodePoint(ReadPoint(s).value.value) == s[..3]
  {
    ContinueTwo(s[1..], lead.payload);
    DigitsBack(0, lead.payload, Bits6(s[1]), Bits6(s[2]));
    assert s[..3] == [s[0], s[1], s[2]];
  }

  lemma EncodeReadFour(s: seq<nat>, lead: Lead)
    requires |s| >= 4 && LeadOf(s[0]) == Some(lead) && lead.remaining == 3 && ReadPoint(s).Some?
    ensures EncodePoint(ReadPoint(s).value.value) == s[..4]
  {
    ContinueThree(s[1..], lead.payload);
    DigitsBack(lead.payload, Bits6(s[1]), Bits6(s[2]), Bits6(s[3]));
    assert s[..4] == [s[0], s[1], s[2], s[3]];
  }

  // ----- Reading a text -----

  /** The scalar values of a byte string, if it is UTF-8. */
  function Decode(s: seq<nat>): Option<seq<nat>>
    decreases |s|
  {
    if s == [] then Some([])
    else
      var point := ReadPoint(s);
      if point.None? || point.value.length == 0 || |s| < point.value.length then None
      else
        var rest := Decode(s[point.value.length..]);
        if rest.None? then None else Some([point.value.value] + rest.value)
  }

  lemma {:induction false} DecodeEncoded(ps: seq<nat>)
    requires AreScalars(ps)
    ensures Decode(Utf8(ps)) == Some(ps)
  {
    if ps != [] {
      ReadEncoded(ps[0], Utf8(ps[1..]));
      DecodeEncoded(ps[1..]);
      var code, rest := EncodePoint(ps[0]), Utf8(ps[1..]);
      assert (code + rest)[|code|..] == rest;
      DecodeFirst(code + rest, Point(ps[0], |code|));
      FirstAndOthers(ps);
    }
  }

  lemma DecodeFirst(s: seq<nat>, p: Point)
    requires s != [] && ReadPoint(s) == Some(p) && 0 < p.length <= |s|
    ensures Decode(s) == Before([p.value], Decode(s[p.length..]))
  {}

  function Before(done: seq<nat>, rest: Option<seq<nat>>): Option<seq<nat>> {
    if rest.None? then None else Some(done + rest.value)
  }

  lemma {:induction false} EncodeDecoded(s: seq<nat>)
    requires Decode(s).Some?
    ensures AreScalars(Decode(s).value) && Utf8(Decode(s).value) == s
    decreases |s|
  {
    if s != [] {
      var point := ReadPoint(s).value;
      EncodeRead(s);
      EncodeDecoded(s[point.length..]);
      EncodeFirst(s, point, Decode(s[point.length..]).value);
    }
  }

  lemma EncodeFirst(s: seq<nat>, p: Point, rest: seq<nat>)
    requires p.length <= |s| && IsScalar(p.value) && AreScalars(rest)
    requires EncodePoint(p.value) == s[..p.length] && Utf8(rest) == s[p.length..]
    ensures AreScalars([p.value] + rest) && Utf8([p.value] + rest) == s
  {
    assert ([p.value] + rest)[1..] == rest;
    assert s[..p.length] + s[p.length..] == s;
  }

  /** A byte string is UTF-8 exactly when it can be decoded. */
  lemma DecodesUtf8(s: seq<nat>)
    ensures Decode(s).Some? <==> exists ps :: AreScalars(ps) && Utf8(ps) == s
  {
    if Decode(s).Some? {
      EncodeDecoded(s);
    }
    forall ps | AreScalars(ps) && Utf8(ps) == s ensures Decode(s) == Some(ps) {
      DecodeEncoded(ps);
    }
  }

  /** The key of a text. */
  function KeyOf(ps: seq<nat>): seq<nat> {
    LowBytes(Utf16(ps))
  }

  lemma {:induction false} UnitsAfter(ps: seq<nat>, p: nat)
    ensures Utf16(ps + [p]) == Utf16(ps) + Units(p)
  {
    if ps == [] {
      assert ps + [p] == [p] && Units(p) + [] == Units(p);
    } else {
      UnitsAfter(ps[1..], p);
      assert (ps + [p])[1..] == ps[1..] + [p];
    }
  }

  /** Units denote their point (section 2.1 of RFC 2781), and the key has the low byte of each. */
  lemma UnitsDenote(p: nat)
    requires IsScalar(p)
    ensures var u := Units(p);
      if p < 0x10000 then u == [p]
      else |u| == 2 && 0xd800 <= u[0] < 0xdc00 <= u[1] < 0xe000
           && p == 0x10000 + (u[0] - 0xd800) * 0x400 + (u[1] - 0xdc00)
  {}

  lemma KeyBytes(ps: seq<nat>, k: nat)
    requires k < |Utf16(ps)|
    ensures |KeyOf(ps)| == |Utf16(ps)| && KeyOf(ps)[k] == Utf16(ps)[k] % 256
  {}

  lemma KeyAppend(ps: seq<nat>, p: nat)
    ensures KeyOf(ps + [p]) == KeyOf(ps) + LowBytes(Units(p))
  {
    UnitsAfter(ps, p);
  }

  /** One point, read byte by byte. */
  method NextPoint(utf8: seq<nat>, start: nat) returns (r: Option<Point>)
    requires start < |utf8|
    ensures r == ReadPoint(utf8[start..])
    ensures r.Some? ==> 0 < r.value.length && start + r.value.length <= |utf8|
  {
    var i := start;
    var first := utf8[i];
    i := i + 1;
    var point, remaining, minimum := first, 0, 0;
    if first >= 0xc2 && first <= 0xdf {
      point, remaining, minimum := first % 0x20, 1, 0x80;
    } else if first >= 0xe0 && first <= 0xef {
      point, remaining, minimum := first % 0x10, 2, 0x800;
    } else if first >= 0xf0 && first <= 0xf4 {
      point, remaining, minimum := first % 0x08, 3, 0x10000;
    } else if first >= 0x80 {
      return None;
    }
    ghost var rest := utf8[start..][1..];
    ghost var expected := Continue(rest, point, remaining);
    assert rest == utf8[i..];
    for n := 0 to remaining
      invariant i == start + 1 + n <= |utf8|
      invariant Continue(utf8[i..], point, remaining - n) == expected
    {
      if i == |utf8| {
        return None;
      }
      var c := utf8[i];
      assert utf8[i..][0] == c && utf8[i..][1..] == utf8[i + 1..];
      i := i + 1;
      if !(0x80 <= c < 0xc0) {
        return None;
      }
      point := point * 0x40 + c % 0x40;
    }
    if point < minimum || point > 0x10ffff || (point >= 0xd800 && point <= 0xdfff) {
      return None;
    }
    return Some(Point(point, 1 + remaining));
  }

  /** The low bytes of the code units of one point. */
  method AppendPoint(bytes: seq<nat>, point: nat) returns (longer: seq<nat>)
    ensures longer == bytes + LowBytes(Units(point))
  {
    if point >= 0x10000 {
      var rest := point - 0x10000;
      longer := bytes + [(0xd800 + rest / 0x400) % 0x100, (0xdc00 + rest % 0x400) % 0x100];
    } else {
      longer := bytes + [point % 0x100];
    }
  }

  /** The points done lead to the given key, and the bytes from i on are still to be read. */
  ghost predicate KeySoFar(utf8: seq<nat>, i: nat, bytes: seq<nat>, done: seq<nat>) {
    i <= |utf8| && bytes == KeyOf(done) && Decode(utf8) == Before(done, Decode(utf8[i..]))
  }

  lemma KeyNext(utf8: seq<nat>, i: nat, bytes: seq<nat>, done: seq<nat>, p: Point)
    requires KeySoFar(utf8, i, bytes, done) && i < |utf8|
    requires ReadPoint(utf8[i..]) == Some(p) && 0 < p.length && i + p.length <= |utf8|
    ensures KeySoFar(utf8, i + p.length, bytes + LowBytes(Units(p.value)), done + [p.value])
  {
    DecodeNext(utf8, i, done, p);
    KeyAppend(done, p.value);
  }

  method AppendNext(utf8: seq<nat>, i: nat, bytes: seq<nat>, ghost done: seq<nat>)
    returns (ok: bool, next: nat, longer: seq<nat>, ghost more: seq<nat>)
    requires KeySoFar(utf8, i, bytes, done) && i < |utf8|
    ensures ok ==> i < next && KeySoFar(utf8, next, longer, more)
    ensures !ok ==> Decode(utf8).None?
  {
    var point := NextPoint(utf8, i);
    if point.None? {
      return false, i, bytes, done;
    }
    KeyNext(utf8, i, bytes, done, point.value);
    longer := AppendPoint(bytes, point.value.value);
    ok, next, more := true, i + point.value.length, done + [point.value.value];
  }

  /** Accepts exactly UTF-8, and gives the low bytes of the UTF-16 code units. */
  method BrowserAesKeyBytes(utf8: seq<nat>) returns (r: Result<seq<nat>>)
    ensures r.Ok? <==> exists ps :: AreScalars(ps) && Utf8(ps) == utf8
    ensures forall ps :: AreScalars(ps) && Utf8(ps) == utf8 ==> r == Ok(KeyOf(ps))
  {
    OnlyDecoding(utf8);
    BeforeNothing(utf8);
    var bytes, i := [], 0;
    ghost var done: seq<nat> := [];
    while i < |utf8|
      invariant KeySoFar(utf8, i, bytes, done)
      decreases |utf8| - i
    {
      var ok;
      ok, i, bytes, done := AppendNext(utf8, i, bytes, done);
      if !ok {
        return Err("Invalid UTF-8");
      }
    }
    assert done + [] == done;
    return Ok(bytes);
  }

  lemma OnlyDecoding(utf8: seq<nat>)
    ensures Decode(utf8).Some? <==> exists ps :: AreScalars(ps) && Utf8(ps) == utf8
    ensures forall ps :: AreScalars(ps) && Utf8(ps) == utf8 ==> Decode(utf8) == Some(ps)
  {
    DecodesUtf8(utf8);
    forall ps | AreScalars(ps) && Utf8(ps) == utf8 ensures Decode(utf8) == Some(ps) {
      DecodeEncoded(ps);
    }
  }

  lemma DecodeNext(utf8: seq<nat>, i: nat, done: seq<nat>, p: Point)
    requires i < |utf8| && ReadPoint(utf8[i..]) == Some(p) && 0 < p.length && i + p.length <= |utf8|
    ensures Before(done, Decode(utf8[i..])) == Before(done + [p.value], Decode(utf8[i + p.length..]))
  {
    DecodeFirst(utf8[i..], p);
    assert utf8[i..][p.length..] == utf8[i + p.length..];
    BeforeAppend(done, p.value, Decode(utf8[i + p.length..]));
  }

  lemma BeforeNothing(s: seq<nat>)
    ensures Decode(s) == Before([], Decode(s[0..]))
  {
    assert s[0..] == s;
    if Decode(s).Some? { assert [] + Decode(s).value == Decode(s).value; }
  }

  lemma BeforeAppend(done: seq<nat>, p: nat, rest: Option<seq<nat>>)
    ensures Before(done, Before([p], rest)) == Before(done + [p], rest)
  {
    if rest.Some? { assert done + ([p] + rest.value) == done + [p] + rest.value; }
  }

  // ----- The number of code units -----

  /** The units of a text, counted from its bytes. */
  method CountUnits(utf8: seq<nat>) returns (units: nat)
    ensures forall ps :: AreScalars(ps) && Utf8(ps) == utf8 ==> units == |KeyOf(ps)|
  {
    units := 0;
    for i := 0 to |utf8|
      invariant units == UnitsOf(utf8[..i])
    {
      var c := utf8[i];
      assert utf8[..i + 1][..i] == utf8[..i];
      if !(0x80 <= c < 0xc0) {
        units := units + if c >= 0xf0 then 2 else 1;
      }
    }
    assert utf8[..|utf8|] == utf8;
    forall ps | AreScalars(ps) && Utf8(ps) == utf8 ensures units == |KeyOf(ps)| {
      UnitsCounted(ps);
    }
  }

  function UnitsOf(s: seq<nat>): nat {
    if s == [] then 0
    else
      var c := s[|s| - 1];
      UnitsOf(s[..|s| - 1]) + if 0x80 <= c < 0xc0 then 0 else if c >= 0xf0 then 2 else 1
  }

  lemma {:induction false} UnitsAppend(s: seq<nat>, t: seq<nat>)
    ensures UnitsOf(s + t) == UnitsOf(s) + UnitsOf(t)
  {
    if t == [] {
      assert s + t == s;
    } else {
      UnitsAppend(s, t[..|t| - 1]);
      assert (s + t)[..|s + t| - 1] == s + t[..|t| - 1];
    }
  }

  lemma UnitsOfPoint(p: nat)
    requires IsScalar(p)
    ensures UnitsOf(EncodePoint(p)) == |Units(p)|
  {
    var s := EncodePoint(p);
    if |s| == 1 {
      assert s[..0] == [];
    } else {
      LeadUnits(s);
    }
  }

  lemma LeadUnits(s: seq<nat>)
    requires s != [] && !IsContinuation(s[0]) && forall k :: 1 <= k < |s| ==> IsContinuation(s[k])
    ensures UnitsOf(s) == if s[0] >= 0xf0 then 2 else 1
    decreases |s|
  {
    if |s| == 1 {
      assert s[..0] == [];
    } else {
      LeadUnits(s[..|s| - 1]);
    }
  }

  lemma {:induction false} UnitsCounted(ps: seq<nat>)
    requires AreScalars(ps)
    ensures UnitsOf(Utf8(ps)) == |Utf16(ps)|
  {
    if ps != [] {
      UnitsCounted(ps[1..]);
      UnitsOfPoint(ps[0]);
      UnitsAppend(EncodePoint(ps[0]), Utf8(ps[1..]));
    }
  }

  // ----- Passwords in a URL -----

  /** Bytes that stand for themselves. */
  predicate IsPlain(c: nat) {
    0x61 <= c <= 0x7a || 0x41 <= c <= 0x5a || 0x30 <= c <= 0x39
    || c == 0x2d || c == 0x5f || c == 0x2e || c == 0x21 || c == 0x7e || c == 0x2a || c == 0x27 || c == 0x28 || c == 0x29
  }

  /** What encodeURIComponent leaves alone: letters, digits, and nine other characters. */
  lemma PlainAreListed(c: nat)
    requires c < 0x100
    ensures IsPlain(c) <==>
      var ch := c as char;
      'a' <= ch <= 'z' || 'A' <= ch <= 'Z' || '0' <= ch <= '9' || ch in "-_.!~*'()"
  {}

  const PERCENT: nat := 0x25

  function HexDigit(n: nat): nat
    requires n < 0x10
  {
    if n < 10 then 0x30 + n else 0x41 + (n - 10)
  }

  function HexValue(c: nat): Option<nat> {
    if 0x30 <= c <= 0x39 then Some(c - 0x30) else if 0x41 <= c <= 0x46 then Some(c - 0x41 + 10) else None
  }

  /** What a reader of the encoded password gets. */
  function DecodePercent(s: seq<nat>): Option<seq<nat>> {
    if s == [] then Some([])
    else if s[0] != PERCENT then Before([s[0]], DecodePercent(s[1..]))
    else if |s| < 3 || HexValue(s[1]).None? || HexValue(s[2]).None? then None
    else Before([HexValue(s[1]).value * 0x10 + HexValue(s[2]).value], DecodePercent(s[3..]))
  }

  function EncodedByte(c: nat): seq<nat>
    requires c < 0x100
  {
    if IsPlain(c) then [c] else [PERCENT, HexDigit(c / 0x10), HexDigit(c % 0x10)]
  }

  lemma DecodeByte(c: nat, rest: seq<nat>)
    requires c < 0x100
    ensures DecodePercent(EncodedByte(c) + rest) == Before([c], DecodePercent(rest))
  {
    var s := EncodedByte(c) + rest;
    if IsPlain(c) {
      assert s[1..] == rest;
    } else {
      assert s[3..] == rest;
    }
  }

  function EncodedText(text: seq<nat>): seq<nat>
    requires AreBytes(text)
  {
    if text == [] then [] else EncodedByte(text[0]) + EncodedText(text[1..])
  }

  /** A plain byte stands alone, any other is a percent sign and two digits, the letters among them upper-case. */
  lemma EncodedByteIs(c: nat)
    requires c < 0x100
    ensures var s := EncodedByte(c);
      if IsPlain(c) then s == [c]
      else |s| == 3 && s[0] == 0x25 && forall i :: 1 <= i < 3 ==>
             (0x30 <= s[i] <= 0x39 || 0x41 <= s[i] <= 0x46)
  {}

  lemma {:induction false} EncodedTextDecodes(text: seq<nat>)
    requires AreBytes(text)
    ensures DecodePercent(EncodedText(text)) == Some(text)
  {
    if text != [] {
      EncodedTextDecodes(text[1..]);
      DecodeByte(text[0], EncodedText(text[1..]));
      assert [text[0]] + text[1..] == text;
    }
  }

  /** The encoding has only plain characters and percent signs, and stands for the password. */
  method EncodeBrowserPassword(text: seq<nat>) returns (encoded: seq<nat>)
    requires AreBytes(text)
    ensures DecodePercent(encoded) == Some(text) && encoded == EncodedText(text)
    ensures forall k :: 0 <= k < |encoded| ==> IsPlain(encoded[k]) || encoded[k] == PERCENT
  {
    encoded := [];
    for i := 0 to |text|
      invariant encoded + EncodedText(text[i..]) == EncodedText(text)
      invariant forall k :: 0 <= k < |encoded| ==> IsPlain(encoded[k]) || encoded[k] == PERCENT
    {
      ghost var before := encoded;
      var c := text[i];
      if IsPlain(c) {
        encoded := encoded + [c];
      } else {
        encoded := encoded + [PERCENT, HexDigit(c / 0x10), HexDigit(c % 0x10)];
      }
      assert text[i..][1..] == text[i + 1..];
      Associate(before, EncodedByte(c), EncodedText(text[i + 1..]));
    }
    EncodedTextDecodes(text);
    assert encoded + [] == encoded;
  }
}
