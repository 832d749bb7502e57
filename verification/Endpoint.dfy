/** The normal form of a server endpoint. */
module Endpoint {
  import opened Results
  import opened Sequences
  import opened Ipv6Text
  import opened Ipv6Canonical

  const MAX_LENGTH := 127

  // The names in the default endpoints, https://vdo.ninja/ and wss://wss.vdo.ninja.
  const NINJA: string := "ninja"
  const VDO: string := "vdo"
  const WSS: string := "wss"

  // ----- Characters -----

  predicate IsDigit(c: char) {
    '0' <= c <= '9'
  }

  predicate IsAlnum(c: char) {
    IsDigit(c) || 'a' <= c <= 'z' || 'A' <= c <= 'Z'
  }

  function ToLower(c: char): char {
    if 'A' <= c <= 'Z' then c - 'A' + 'a' else c
  }

  function Lower(s: string): (r: string)
    ensures |r| == |s| && forall i :: 0 <= i < |s| ==> r[i] == ToLower(s[i])
  {
    seq(|s|, i requires 0 <= i < |s| => ToLower(s[i]))
  }

  predicate IsBlank(c: char) {
    c == ' ' || c == '\t' || c == '\r' || c == '\n'
  }

  /** The text without blanks around it. */
  function TrimSetting(s: string): (r: string)
    ensures r != "" ==> !IsBlank(r[0]) && !IsBlank(r[|r| - 1])
    decreases |s|
  {
    if s == "" then ""
    else if IsBlank(s[0]) then TrimSetting(s[1..])
    else if IsBlank(s[|s| - 1]) then TrimSetting(s[..|s| - 1])
    else s
  }

  /** Characters that may stand in an endpoint. */
  predicate IsPlain(c: char) {
    ' ' < c <= '~' && c != '\\' && c != '"' && c != '<' && c != '>' && c != '#'
  }

  predicate AllPlain(s: string) {
    forall i :: 0 <= i < |s| ==> IsPlain(s[i])
  }

  // ----- Hosts and ports -----

  predicate AllDigits(s: string) {
    forall i :: 0 <= i < |s| ==> IsDigit(s[i])
  }

  function Decimal(s: string): nat
    requires AllDigits(s)
  {
    if s == "" then 0 else Decimal(s[..|s| - 1]) * 10 + (s[|s| - 1] - '0') as nat
  }

  function DotEnd(s: string): (n: nat)
    ensures n <= |s|
  {
    if s == "" || s[0] == '.' then 0 else 1 + DotEnd(s[1..])
  }

  function Labels(host: string): (l: seq<string>)
    ensures l != []
    decreases |host|
  {
    var n := DotEnd(host);
    if n == |host| then [host] else [host[..n]] + Labels(host[n + 1..])
  }

  predicate LabelOk(l: string) {
    1 <= |l| <= 63 && l[0] != '-' && l[|l| - 1] != '-'
  }

  /** A last first that a browser would read as a number. */
  predicate IsNumeric(l: string) {
    AllDigits(l) || (|l| > 2 && l[0] == '0' && (l[1] == 'x' || l[1] == 'X'))
  }

  predicate ByteOk(l: string) {
    AllDigits(l) && 1 <= |l| <= 3 && (l[0] == '0' ==> |l| == 1) && Decimal(l) <= 255
  }

  /** Only an address in the usual form may look like a number. */
  predicate LabelsOk(labels: seq<string>) {
    && labels != []
    && (IsNumeric(labels[|labels| - 1]) ==> |labels| == 4 && forall i :: 0 <= i < 4 ==> ByteOk(labels[i]))
    && forall i :: 0 <= i < |labels| ==> LabelOk(labels[i])
  }

  predicate HostOk(host: string) {
    LabelsOk(Labels(host))
  }

  predicate PortOk(port: string) {
    port == "" ||
    (port[0] == ':' && 2 <= |port| <= 6 && AllDigits(port[1..]) && 1 <= Decimal(port[1..]) <= 65535)
  }

  /** Where the first closing bracket is. */
  function BracketEnd(s: string): (n: nat)
    ensures n <= |s| && (n < |s| ==> s[n] == ']') && forall i :: 0 <= i < n ==> s[i] != ']'
  {
    if s == "" || s[0] == ']' then 0 else 1 + BracketEnd(s[1..])
  }

  predicate HostChars(host: string) {
    && host != "" && IsAlnum(host[0]) && IsAlnum(host[|host| - 1])
    && forall i :: 0 <= i < |host| ==> IsAlnum(host[i]) || host[i] == '.' || host[i] == '-'
  }

  /** An address has a canonical form. */
  ghost predicate AddressTo(address: string, c: string) {
    HasAddressChars(address) && Accepted(address) && IsAddress(address) && IsCanonical(c, Denoted(address))
  }

  /** A form of addresses, applied to one in brackets before a port. */
  ghost predicate BracketTo(to: (string, string) -> bool, a: string, r: string) {
    var b := BracketEnd(a);
    2 <= b < |a| && PortOk(a[b + 1..]) && exists c :: to(a[1..b], c) && r == "[" + c + "]" + a[b + 1..]
  }

  /** Any other host stays as it is. */
  predicate HostTo(a: string) {
    var n := WordEnd(a);
    HostChars(a[..n]) && HostOk(a[..n]) && PortOk(a[n..])
  }

  /** What an authority becomes. */
  ghost predicate AuthorityTo(a: string, r: string) {
    a != "" && if a[0] == '[' then BracketTo(AddressTo, a, r) else HostTo(a) && r == a
  }

  // ----- Endpoints -----

  predicate SchemeAt(s: string, i: nat) {
    i + 3 <= |s| && s[i] == ':' && s[i + 1] == '/' && s[i + 2] == '/'
  }

  /** Where the separator behind the scheme is. */
  function SchemeEnd(s: string): (n: nat)
    ensures n <= |s|
    ensures n < |s| ==> SchemeAt(s, n)
  {
    if s == "" || SchemeAt(s, 0) then 0 else
      var n := SchemeEnd(s[1..]);
      n + 1
  }

  predicate IsScheme(scheme: string, web: bool) {
    if web then scheme == "https" || scheme == "http" else scheme == "wss" || scheme == "ws"
  }

  function AuthorityEnd(s: string): (n: nat)
    ensures n <= |s| && (n < |s| ==> s[n] == '/' || s[n] == '?')
  {
    if s == "" || s[0] == '/' || s[0] == '?' then 0 else 1 + AuthorityEnd(s[1..])
  }

  function WithScheme(value: string, web: bool): string {
    if SchemeEnd(value) < |value| then value else (if web then "https://" else "wss://") + value
  }

  function Default(web: bool): string {
    if web then "https" + "://" + (VDO + "." + NINJA) + "/" else WSS + "://" + (WSS + "." + (VDO + "." + NINJA)) + ""
  }

  /** The endpoint put together again. */
  function Assembled(scheme: string, authority: string, rest: string, web: bool): string {
    scheme + "://" + Lower(authority) + if web && rest == "" then "/" else rest
  }

  /** An endpoint with its scheme, and its normal form. */
  ghost predicate UrlTo(value: string, web: bool, r: string) {
    var e := SchemeEnd(value);
    e + 3 <= |value| && TailTo(Lower(value[..e]), value[e + 3..], web, r)
  }

  /** What follows the scheme, and the normal form of the whole. */
  ghost predicate TailTo(scheme: string, tail: string, web: bool, r: string) {
    var n := AuthorityEnd(tail);
    && IsScheme(scheme, web) && AllPlain(tail) && !(web && '?' in tail)
    && |r| <= MAX_LENGTH
    && exists a :: AuthorityTo(tail[..n], a) && r == Assembled(scheme, a, tail[n..], web)
  }

  /** An input and its normal form. */
  ghost predicate NormalTo(input: string, web: bool, r: string) {
    var value := TrimSetting(input);
    |value| <= MAX_LENGTH &&
    if value == "" then r == Default(web) else UrlTo(WithScheme(value, web), web, r)
  }

  // ----- Normalising -----

  lemma DenotedWords(s: string)
    requires IsAddress(s)
    ensures |Denoted(s)| == 8 && AreShort(Denoted(s))
  {
    FilledLength(Tokens(s), 8 - Words(Tokens(s)));
  }

  method NormalizeAuthority(a: string) returns (r: Option<string>)
    ensures r.Some? ==> AuthorityTo(a, r.value)
    ensures r.None? ==> forall s :: !AuthorityTo(a, s)
  {
    if a == "" {
      return None;
    }
    if a[0] == '[' {
      r := NormalizeAddress(a);
    } else {
      r := if HostTo(a) then Some(a) else None;
    }
  }

  method NormalizeAddress(a: string) returns (r: Option<string>)
    requires a != "" && a[0] == '['
    ensures r.Some? ==> BracketTo(AddressTo, a, r.value)
    ensures r.None? ==> forall s :: !BracketTo(AddressTo, a, s)
  {
    var b := BracketEnd(a);
    if b < 2 || b == |a| || !(forall i :: 1 <= i < b ==> IsHex(a[i]) || a[i] == ':') {
      NotAddress(a, b);
      return None;
    }
    var c := CanonicalAddress(a[1..b]);
    if c.None? || !PortOk(a[b + 1..]) {
      return None;
    }
    r := Some("[" + c.value + "]" + a[b + 1..]);
    InBrackets(AddressTo, a, c.value);
  }

  lemma InBrackets(to: (string, string) -> bool, a: string, c: string)
    requires var b := BracketEnd(a); 2 <= b < |a| && PortOk(a[b + 1..]) && to(a[1..b], c)
    ensures BracketTo(to, a, "[" + c + "]" + a[BracketEnd(a) + 1..])
  {
    var b := BracketEnd(a);
    var host, port := a[1..b], a[b + 1..];
    assert to(host, c) && "[" + c + "]" + port == "[" + c + "]" + port;
  }

  lemma NotAddress(a: string, b: nat)
    requires a != "" && a[0] == '[' && b == BracketEnd(a)
    requires b < 2 || b == |a| || !(forall i :: 1 <= i < b ==> IsHex(a[i]) || a[i] == ':')
    ensures forall s :: !BracketTo(AddressTo, a, s)
  {
    if 2 <= b < |a| {
      var i :| 1 <= i < b && !(IsHex(a[i]) || a[i] == ':');
      assert a[1..b][i - 1] == a[i];
    }
  }

  /** Normalises an endpoint, or refuses what has no normal form. */
  method NormalizeEndpoint(input: string, web: bool) returns (r: Option<string>)
    ensures r.Some? ==> NormalTo(input, web, r.value)
    ensures r.None? ==> forall s :: !NormalTo(input, web, s)
  {
    var value := TrimSetting(input);
    if |value| > MAX_LENGTH {
      return None;
    }
    if value == "" {
      return Some(Default(web));
    }
    r := NormalizeUrl(WithScheme(value, web), web);
  }

  method NormalizeUrl(value: string, web: bool) returns (r: Option<string>)
    ensures r.Some? ==> UrlTo(value, web, r.value)
    ensures r.None? ==> forall s :: !UrlTo(value, web, s)
  {
    var e := SchemeEnd(value);
    if e + 3 > |value| {
      return None;
    }
    var scheme, tail := Lower(value[..e]), value[e + 3..];
    if !IsScheme(scheme, web) || !AllPlain(tail) || (web && '?' in tail) {
      return None;
    }
    var n := AuthorityEnd(tail);
    var a := NormalizeAuthority(tail[..n]);
    if a.None? {
      return None;
    }
    var out := Assembled(scheme, a.value, tail[n..], web);
    OnlyAuthority(tail[..n], a.value);
    if |out| > MAX_LENGTH {
      return None;
    }
    return Some(out);
  }

  /** A canonical form is its own, and the only one. */
  lemma AddressFixed(address: string, c: string)
    requires AddressTo(address, c)
    ensures AddressTo(c, c) && forall d :: AddressTo(address, d) ==> d == c
    ensures c != "" && forall i :: 0 <= i < |c| ==> IsLowerHex(c[i]) || c[i] == ':'
  {
    DenotedWords(address);
    CanonicalIsFixed(c, Denoted(address));
  }

  /** A form has lower-case digits and colons, is unique, and is its own form. */
  ghost predicate IsForm(to: (string, string) -> bool) {
    forall s, c :: to(s, c) ==>
      c != "" && (forall i :: 0 <= i < |c| ==> IsLowerHex(c[i]) || c[i] == ':') && to(c, c)
        && forall d :: to(s, d) ==> d == c
  }

  lemma AddressesHaveForm()
    ensures IsForm(AddressTo)
  {
    forall s, c | AddressTo(s, c)
      ensures c != "" && (forall i :: 0 <= i < |c| ==> IsLowerHex(c[i]) || c[i] == ':')
      ensures AddressTo(c, c) && forall d :: AddressTo(s, d) ==> d == c
    {
      AddressFixed(s, c);
    }
  }

  /** An authority becomes only one thing. */
  lemma OnlyAuthority(a: string, r: string)
    requires AuthorityTo(a, r)
    ensures forall s :: AuthorityTo(a, s) ==> s == r
  {
    if a[0] == '[' {
      AddressesHaveForm();
      OnlyBracket(AddressTo, a, r);
    }
  }

  lemma OnlyBracket(to: (string, string) -> bool, a: string, r: string)
    requires IsForm(to) && BracketTo(to, a, r)
    ensures forall s :: BracketTo(to, a, s) ==> s == r
  {}

  // ----- Lower case changes no decision -----

  lemma LowerSplits(s: string, n: nat)
    requires n <= |s|
    ensures Lower(s)[..n] == Lower(s[..n]) && Lower(s)[n..] == Lower(s[n..])
  {}

  lemma LowerAppend(s: string, t: string)
    ensures Lower(s + t) == Lower(s) + Lower(t)
  {}

  lemma LowerDigits(s: string)
    ensures AllDigits(s) <==> AllDigits(Lower(s))
    ensures AllDigits(s) ==> Lower(s) == s
  {
    assert forall i :: 0 <= i < |s| ==> Lower(s)[i] == ToLower(s[i]);
  }

  lemma {:induction false} DotEndLower(s: string)
    ensures DotEnd(Lower(s)) == DotEnd(s)
  {
    if s != "" && s[0] != '.' {
      DotEndLower(s[1..]);
      LowerSplits(s, 1);
    }
  }

  /** Each label in lower case. */
  ghost predicate AreLower(labels: seq<string>, lower: seq<string>) {
    |lower| == |labels| && forall i :: 0 <= i < |labels| ==> lower[i] == Lower(labels[i])
  }

  lemma LowerFirst(first: string, labels: seq<string>, lower: seq<string>)
    requires AreLower(labels, lower)
    ensures AreLower([first] + labels, [Lower(first)] + lower)
  {}

  lemma {:induction false} LabelsLower(host: string)
    ensures AreLower(Labels(host), Labels(Lower(host)))
    decreases |host|
  {
    var n := DotEnd(host);
    DotEndLower(host);
    if n < |host| {
      LowerSplits(host, n);
      LowerSplits(host, n + 1);
      LabelsLower(host[n + 1..]);
      LowerFirst(host[..n], Labels(host[n + 1..]), Labels(Lower(host[n + 1..])));
      assert Labels(host) == [host[..n]] + Labels(host[n + 1..]);
      assert Labels(Lower(host)) == [Lower(host[..n])] + Labels(Lower(host[n + 1..]));
    }
  }

  lemma LabelLower(l: string)
    ensures LabelOk(Lower(l)) <==> LabelOk(l)
    ensures IsNumeric(Lower(l)) <==> IsNumeric(l)
    ensures ByteOk(Lower(l)) <==> ByteOk(l)
  {
    LowerDigits(l);
  }

  lemma HostLower(host: string)
    requires HostChars(host) && HostOk(host)
    ensures HostChars(Lower(host)) && HostOk(Lower(host))
  {
    HostCharsLower(host);
    LabelsLower(host);
    LabelsOkLower(Labels(host), Labels(Lower(host)));
  }

  lemma HostCharsLower(host: string)
    requires HostChars(host)
    ensures HostChars(Lower(host))
  {
    forall i | 0 <= i < |host| ensures IsAlnum(host[i]) ==> IsAlnum(Lower(host)[i]) {
      assert Lower(host)[i] == ToLower(host[i]);
    }
  }

  lemma LabelsOkLower(labels: seq<string>, lower: seq<string>)
    requires LabelsOk(labels) && AreLower(labels, lower)
    ensures LabelsOk(lower)
  {
    LabelLower(labels[|labels| - 1]);
    forall i | 0 <= i < |lower| ensures LabelOk(lower[i]) && (ByteOk(labels[i]) ==> ByteOk(lower[i])) {
      LabelLower(labels[i]);
    }
  }

  lemma PortLower(port: string)
    requires PortOk(port)
    ensures Lower(port) == port
  {
    if port != "" {
      LowerDigits(port[1..]);
      LowerSplits(port, 1);
      assert port == port[..1] + port[1..];
    }
  }

  // ----- The normal form is its own -----

  lemma {:induction false} EndOfHost(host: string, port: string)
    requires (forall i :: 0 <= i < |host| ==> host[i] != ':') && (port == "" || port[0] == ':')
    ensures WordEnd(host + port) == |host|
  {
    if host == "" {
      assert host + port == port;
    } else {
      EndOfHost(host[1..], port);
      assert (host + port)[0] == host[0] && (host + port)[1..] == host[1..] + port;
    }
  }

  lemma {:induction false} EndOfBracket(inner: string, rest: string)
    requires forall i :: 0 <= i < |inner| ==> inner[i] != ']'
    ensures BracketEnd(inner + "]" + rest) == |inner|
  {
    var s := inner + "]" + rest;
    if inner != "" {
      EndOfBracket(inner[1..], rest);
      assert s[0] == inner[0] && s[1..] == inner[1..] + "]" + rest;
    }
  }

  lemma HostIsNormal(a: string)
    requires HostTo(a)
    ensures HostTo(Lower(a)) && a != "" && Lower(a)[0] != '['
  {
    var n := WordEnd(a);
    var host, port := a[..n], a[n..];
    HostLower(host);
    PortLower(port);
    LowerSplits(a, n);
    EndOfHost(Lower(host), port);
    assert Lower(a) == Lower(host) + port;
  }

  lemma BracketsLower(c: string, port: string)
    requires (forall i :: 0 <= i < |c| ==> IsLowerHex(c[i]) || c[i] == ':') && PortOk(port)
    ensures Lower("[" + c + "]" + port) == "[" + c + "]" + port
  {
    PortLower(port);
    CanonicalLower(c);
    LowerAppend("[" + c + "]", port);
    LowerAppend("[" + c, "]");
    LowerAppend("[", c);
  }

  lemma FormIsNormal(to: (string, string) -> bool, c: string, port: string)
    requires to(c, c) && PortOk(port) && c != "" && forall i :: 0 <= i < |c| ==> IsLowerHex(c[i]) || c[i] == ':'
    ensures var r := "[" + c + "]" + port; Lower(r) == r && BracketTo(to, r, r)
  {
    BracketsLower(c, port);
    BracketParts(c, port);
  }

  lemma BracketParts(c: string, port: string)
    requires forall i :: 0 <= i < |c| ==> IsLowerHex(c[i]) || c[i] == ':'
    ensures var r := "[" + c + "]" + port; BracketEnd(r) == |c| + 1 && r[1..|c| + 1] == c && r[|c| + 2..] == port
  {
    EndOfBracket("[" + c, port);
  }

  lemma CanonicalLower(c: string)
    requires forall i :: 0 <= i < |c| ==> IsLowerHex(c[i]) || c[i] == ':'
    ensures Lower(c) == c
  {}

  lemma BracketIsNormal(to: (string, string) -> bool, a: string, r: string)
    requires IsForm(to) && BracketTo(to, a, r)
    ensures Lower(r) == r && BracketTo(to, r, r) && r[0] == '['
  {
    var b := BracketEnd(a);
    var c :| to(a[1..b], c) && r == "[" + c + "]" + a[b + 1..];
    FormIsNormal(to, c, a[b + 1..]);
  }

  lemma AuthorityIsNormal(a: string, r: string)
    requires AuthorityTo(a, r)
    ensures AuthorityTo(Lower(r), Lower(r))
  {
    if a[0] == '[' {
      AddressesHaveForm();
      BracketIsNormal(AddressTo, a, r);
    } else {
      HostIsNormal(a);
    }
  }

  ghost predicate MayPrecedeRest(a: string) {
    forall i :: 0 <= i < |a| ==> IsPlain(a[i]) && a[i] != '/' && a[i] != '?'
  }

  /** No character of a normal authority ends it, or is refused in an endpoint. */
  lemma AuthorityChars(a: string)
    requires AuthorityTo(a, a)
    ensures MayPrecedeRest(a)
  {
    if a[0] == '[' {
      BracketChars(a, BracketEnd(a));
    } else {
      HostPortChars(a);
    }
  }

  lemma HostPortChars(a: string)
    requires HostTo(a)
    ensures MayPrecedeRest(a)
  {
    var n := WordEnd(a);
    PortChars(a[n..]);
    forall i | 0 <= i < |a| ensures IsPlain(a[i]) && a[i] != '/' && a[i] != '?' {
      assert a[i] == if i < n then a[..n][i] else a[n..][i - n];
    }
  }

  lemma PortChars(port: string)
    requires PortOk(port)
    ensures forall i :: 0 <= i < |port| ==> IsDigit(port[i]) || port[i] == ':'
  {
    if port != "" {
      assert forall i :: 1 <= i < |port| ==> port[i] == port[1..][i - 1];
    }
  }

  lemma BracketChars(a: string, b: nat)
    requires 2 <= b < |a| && a[0] == '[' && a[b] == ']' && HasAddressChars(a[1..b]) && PortOk(a[b + 1..])
    ensures MayPrecedeRest(a)
  {
    PortChars(a[b + 1..]);
    forall i | 0 <= i < |a| ensures IsPlain(a[i]) && a[i] != '/' && a[i] != '?' {
      if 1 <= i < b {
        assert a[i] == a[1..b][i - 1];
      } else if i > b {
        assert a[i] == a[b + 1..][i - b - 1];
      }
    }
  }

  lemma {:induction false} EndOfAuthority(a: string, rest: string)
    requires forall i :: 0 <= i < |a| ==> a[i] != '/' && a[i] != '?'
    requires rest == "" || rest[0] == '/' || rest[0] == '?'
    ensures AuthorityEnd(a + rest) == |a|
  {
    if a == "" {
      assert a + rest == rest;
    } else {
      EndOfAuthority(a[1..], rest);
      assert (a + rest)[0] == a[0] && (a + rest)[1..] == a[1..] + rest;
    }
  }

  lemma {:induction false} EndOfScheme(scheme: string, tail: string)
    requires forall i :: 0 <= i < |scheme| ==> scheme[i] != ':'
    ensures SchemeEnd(scheme + "://" + tail) == |scheme|
  {
    var s := scheme + "://" + tail;
    if scheme != "" {
      EndOfScheme(scheme[1..], tail);
      assert s[0] == scheme[0] && s[1..] == scheme[1..] + "://" + tail;
    }
  }

  lemma SchemeIsLower(scheme: string, web: bool)
    requires IsScheme(scheme, web)
    ensures Lower(scheme) == scheme && (forall i :: 0 <= i < |scheme| ==> scheme[i] != ':' && !IsBlank(scheme[i]))
      && |scheme| >= 2
  {}

  lemma AssembledForm(scheme: string, authority: string, rest: string, web: bool)
    ensures var tail := if web && rest == "" then "/" else rest;
      Assembled(scheme, authority, rest, web) == scheme + "://" + (Lower(authority) + tail)
  {}

  lemma AssembledParts(scheme: string, a: string, rest: string, web: bool)
    requires IsScheme(scheme, web) && MayPrecedeRest(a) && (rest == "" || rest[0] == '/' || rest[0] == '?')
    ensures var r := scheme + "://" + (a + rest);
      && SchemeEnd(r) == |scheme| && Lower(r[..|scheme|]) == scheme && r[|scheme| + 3..] == a + rest
      && AuthorityEnd(a + rest) == |a| && (a + rest)[..|a|] == a && (a + rest)[|a|..] == rest
  {
    SchemeIsLower(scheme, web);
    EndOfScheme(scheme, a + rest);
    EndOfAuthority(a, rest);
    assert (scheme + "://" + (a + rest))[..|scheme|] == scheme;
  }

  /** A normal endpoint is normal as it stands. */
  lemma AssembledIsNormal(scheme: string, authority: string, rest: string, web: bool)
    requires IsScheme(scheme, web) && AuthorityTo(Lower(authority), Lower(authority))
    requires AllPlain(rest) && !(web && '?' in rest) && (rest == "" || rest[0] == '/' || rest[0] == '?')
    requires |Assembled(scheme, authority, rest, web)| <= MAX_LENGTH
    ensures var r := Assembled(scheme, authority, rest, web); UrlTo(r, web, r)
  {
    var a, rest2 := Lower(authority), if web && rest == "" then "/" else rest;
    AuthorityChars(a);
    LowerTwice(authority);
    AssembledForm(scheme, authority, rest, web);
    assert Assembled(scheme, authority, rest, web) == Assembled(scheme, a, rest2, web);
    AssembledParts(scheme, a, rest2, web);
    PlainTail(a, rest2, web);
  }

  lemma PlainTail(a: string, rest: string, web: bool)
    requires MayPrecedeRest(a) && AllPlain(rest) && !(web && '?' in rest)
    ensures AllPlain(a + rest) && !(web && '?' in a + rest)
  {}

  lemma LowerTwice(s: string)
    ensures Lower(Lower(s)) == Lower(s)
  {}

  /** A normal endpoint has its scheme, and no blanks around it. */
  ghost predicate HasEnds(r: string) {
    r != "" && !IsBlank(r[0]) && !IsBlank(r[|r| - 1]) && SchemeEnd(r) < |r|
  }

  lemma AssembledEnds(scheme: string, authority: string, rest: string, web: bool)
    requires IsScheme(scheme, web) && MayPrecedeRest(Lower(authority)) && authority != "" && AllPlain(rest)
    requires rest == "" || rest[0] == '/' || rest[0] == '?'
    ensures HasEnds(Assembled(scheme, authority, rest, web))
  {
    var a, rest2 := Lower(authority), if web && rest == "" then "/" else rest;
    AssembledForm(scheme, authority, rest, web);
    AssembledParts(scheme, a, rest2, web);
    SchemeIsLower(scheme, web);
    PlainTail(a, rest2, false);
    TextEnds(scheme, a + rest2);
  }

  lemma TextEnds(scheme: string, tail: string)
    requires scheme != "" && tail != "" && !IsBlank(scheme[0]) && IsPlain(tail[|tail| - 1])
    ensures var r := scheme + "://" + tail; !IsBlank(r[0]) && !IsBlank(r[|r| - 1])
  {}

  lemma UrlIsNormal(value: string, web: bool, r: string)
    requires UrlTo(value, web, r)
    ensures UrlTo(r, web, r) && HasEnds(r)
  {
    var e := SchemeEnd(value);
    TailIsNormal(Lower(value[..e]), value[e + 3..], web, r);
  }

  lemma TailIsNormal(scheme: string, tail: string, web: bool, r: string)
    requires TailTo(scheme, tail, web, r)
    ensures UrlTo(r, web, r) && HasEnds(r)
  {
    var n := AuthorityEnd(tail);
    var a :| AuthorityTo(tail[..n], a) && r == Assembled(scheme, a, tail[n..], web);
    RestIsPlain(tail, web, n);
    UrlIsNormalFor(scheme, tail[..n], tail[n..], web, a);
  }

  lemma RestIsPlain(tail: string, web: bool, n: nat)
    requires n == AuthorityEnd(tail) && AllPlain(tail) && !(web && '?' in tail)
    ensures var rest := tail[n..];
      AllPlain(rest) && !(web && '?' in rest) && (rest == "" || rest[0] == '/' || rest[0] == '?')
  {}

  lemma UrlIsNormalFor(scheme: string, authority: string, rest: string, web: bool, a: string)
    requires IsScheme(scheme, web) && AuthorityTo(authority, a)
    requires AllPlain(rest) && !(web && '?' in rest) && (rest == "" || rest[0] == '/' || rest[0] == '?')
    requires |Assembled(scheme, a, rest, web)| <= MAX_LENGTH
    ensures var r := Assembled(scheme, a, rest, web); UrlTo(r, web, r) && HasEnds(r)
  {
    AuthorityIsNormal(authority, a);
    BecomesNormal(scheme, a, rest, web);
  }

  lemma BecomesNormal(scheme: string, authority: string, rest: string, web: bool)
    requires IsScheme(scheme, web) && AuthorityTo(Lower(authority), Lower(authority))
    requires AllPlain(rest) && !(web && '?' in rest) && (rest == "" || rest[0] == '/' || rest[0] == '?')
    requires |Assembled(scheme, authority, rest, web)| <= MAX_LENGTH
    ensures var r := Assembled(scheme, authority, rest, web); UrlTo(r, web, r) && HasEnds(r)
  {
    AuthorityChars(Lower(authority));
    AssembledIsNormal(scheme, authority, rest, web);
    AssembledEnds(scheme, authority, rest, web);
  }

  lemma OnlyUrl(value: string, web: bool, r: string)
    requires UrlTo(value, web, r)
    ensures forall s :: UrlTo(value, web, s) ==> s == r
  {
    forall s | UrlTo(value, web, s) ensures s == r {
      SameUrl(value, web, r, s);
    }
  }

  lemma SameUrl(value: string, web: bool, r: string, s: string)
    requires UrlTo(value, web, r) && UrlTo(value, web, s)
    ensures s == r
  {
    var e := SchemeEnd(value);
    SameTail(Lower(value[..e]), value[e + 3..], web, r, s);
  }

  lemma SameTail(scheme: string, tail: string, web: bool, r: string, s: string)
    requires TailTo(scheme, tail, web, r) && TailTo(scheme, tail, web, s)
    ensures s == r
  {
    OnlyTail(scheme, tail, web, r);
  }

  lemma OnlyTail(scheme: string, tail: string, web: bool, r: string)
    requires TailTo(scheme, tail, web, r)
    ensures forall s :: TailTo(scheme, tail, web, s) ==> s == r
  {
    var n := AuthorityEnd(tail);
    var a :| AuthorityTo(tail[..n], a) && r == Assembled(scheme, a, tail[n..], web);
    OnlyAuthority(tail[..n], a);
  }

  /** A host whose last label is no number. */
  ghost predicate NamedHost(host: string) {
    var labels := Labels(host);
    HostChars(host) && HostOk(host) && !IsNumeric(labels[|labels| - 1])
      && forall i :: 0 <= i < |host| ==> host[i] != ':'
  }

  predicate IsName(first: string) {
    1 <= |first| <= 63 && forall i :: 0 <= i < |first| ==> 'a' <= first[i] <= 'z'
  }

  lemma NameIsHost(first: string)
    requires IsName(first)
    ensures NamedHost(first)
  {
    LabelsOf(first, "");
    assert !IsDigit(first[0]);
  }

  lemma LongerHost(first: string, host: string)
    requires IsName(first) && NamedHost(host)
    ensures NamedHost(first + "." + host)
  {
    LabelsOf(first, host);
    MoreLabels(first, Labels(host));
    NameChars(first, host);
  }

  lemma NameChars(first: string, host: string)
    requires IsName(first) && HostChars(host) && forall i :: 0 <= i < |host| ==> host[i] != ':'
    ensures var r := first + "." + host; HostChars(r) && forall i :: 0 <= i < |r| ==> r[i] != ':'
  {
    var r := first + "." + host;
    forall i | 0 <= i < |r| ensures (IsAlnum(r[i]) || r[i] == '.' || r[i] == '-') && r[i] != ':' {
      assert r[i] == if i < |first| then first[i] else if i == |first| then '.' else host[i - |first| - 1];
    }
    assert r[0] == first[0] && r[|r| - 1] == host[|host| - 1];
  }

  lemma MoreLabels(first: string, labels: seq<string>)
    requires IsName(first) && labels != [] && !IsNumeric(labels[|labels| - 1])
    requires forall i :: 0 <= i < |labels| ==> LabelOk(labels[i])
    ensures var all := [first] + labels;
      all[|all| - 1] == labels[|labels| - 1] && forall i :: 0 <= i < |all| ==> LabelOk(all[i])
  {}

  lemma NamedHostIsHost(host: string)
    requires NamedHost(host)
    ensures HostTo(host)
  {
    EndOfHost(host, "");
    assert host + "" == host && host[..|host|] == host;
  }

  lemma TwoNames(x: string, y: string)
    requires IsName(x) && IsName(y)
    ensures NamedHost(x + "." + y) && HostTo(x + "." + y) && Lower(x + "." + y) == x + "." + y
  {
    NameIsHost(y);
    LongerHost(x, y);
    NamedHostIsHost(x + "." + y);
  }

  lemma ThreeNames(x: string, y: string, z: string)
    requires IsName(x) && IsName(y) && IsName(z)
    ensures var host := x + "." + (y + "." + z); HostTo(host) && Lower(host) == host
  {
    TwoNames(y, z);
    LongerHost(x, y + "." + z);
    NamedHostIsHost(x + "." + (y + "." + z));
  }

  lemma {:induction false} LabelsOf(first: string, rest: string)
    requires forall i :: 0 <= i < |first| ==> first[i] != '.'
    ensures Labels(first) == [first] && Labels(first + "." + rest) == [first] + Labels(rest)
  {
    DotEndOf(first, "");
    DotEndOf(first, "." + rest);
    assert first + "" == first && first + ("." + rest) == first + "." + rest;
    assert (first + "." + rest)[|first| + 1..] == rest;
  }

  lemma {:induction false} DotEndOf(first: string, rest: string)
    requires (forall i :: 0 <= i < |first| ==> first[i] != '.') && (rest == "" || rest[0] == '.')
    ensures DotEnd(first + rest) == |first|
  {
    if first == "" {
      assert first + rest == rest;
    } else {
      DotEndOf(first[1..], rest);
      assert (first + rest)[0] == first[0] && (first + rest)[1..] == first[1..] + rest;
    }
  }

  lemma DefaultIsNormal(web: bool)
    ensures UrlTo(Default(web), web, Default(web)) && HasEnds(Default(web))
  {
    assert IsName(NINJA) && IsName(VDO) && IsName(WSS);
    if web {
      TwoNames(VDO, NINJA);
      AssembledHost("https", VDO + "." + NINJA, "/", web);
    } else {
      ThreeNames(WSS, VDO, NINJA);
      AssembledHost(WSS, WSS + "." + (VDO + "." + NINJA), "", web);
    }
  }

  lemma AssembledHost(scheme: string, host: string, rest: string, web: bool)
    requires IsScheme(scheme, web) && HostTo(host) && host != "" && host[0] != '[' && Lower(host) == host
    requires AllPlain(rest) && '?' !in rest && (rest == "" || rest[0] == '/') && (web ==> rest != "")
    requires |scheme| + 3 + |host| + |rest| <= MAX_LENGTH
    ensures var r := scheme + "://" + host + rest; UrlTo(r, web, r) && HasEnds(r)
  {
    assert Assembled(scheme, host, rest, web) == scheme + "://" + host + rest;
    BecomesNormal(scheme, host, rest, web);
  }

  /** What has been normalised once is normal: normalising it again gives the same. */
  lemma NormaliseTwice(input: string, web: bool, r: string)
    requires NormalTo(input, web, r)
    ensures NormalTo(r, web, r) && forall s :: NormalTo(r, web, s) ==> s == r
  {
    if TrimSetting(input) == "" {
      DefaultIsNormal(web);
    } else {
      UrlIsNormal(WithScheme(TrimSetting(input), web), web, r);
    }
    EndsStay(r, web);
    OnlyUrl(r, web, r);
  }

  lemma EndsStay(r: string, web: bool)
    requires HasEnds(r)
    ensures TrimSetting(r) == r && WithScheme(r, web) == r
  {}

  // ----- What can be in a normal form -----

  /** One of the schemes, a host with perhaps a port, and a path; no credentials, and nothing to break out with. */
  ghost predicate IsSafe(r: string, web: bool, scheme: string, authority: string, rest: string) {
    && |r| <= 127 && r == scheme + "://" + authority + rest && authority != ""
    && (if web then scheme == "https" || scheme == "http" else scheme == "wss" || scheme == "ws")
    && (forall i :: 0 <= i < |authority| ==>
          'a' <= authority[i] <= 'z' || '0' <= authority[i] <= '9' || authority[i] in ".-:[]")
    && (rest == "" || rest[0] == '/' || rest[0] == '?')
    && (web ==> rest != "" && '?' !in rest)
    && (forall i :: 0 <= i < |rest| ==> '!' <= rest[i] <= '~' && rest[i] !in "\\\"<>#")
  }

  ghost predicate SafeAuthority(a: string) {
    a != "" && forall i :: 0 <= i < |a| ==> IsAlnum(a[i]) || a[i] in ".-:[]"
  }

  lemma AuthorityIsSafe(x: string, a: string)
    requires AuthorityTo(x, a)
    ensures SafeAuthority(a)
  {
    if x[0] == '[' {
      BracketedIsSafe(x, a);
    } else {
      HostIsSafe(a);
    }
  }

  lemma BracketedIsSafe(x: string, a: string)
    requires x != "" && x[0] == '[' && AuthorityTo(x, a)
    ensures SafeAuthority(a)
  {
    var c := AddressOf(x, a);
    AddressIsSafe(x[1..BracketEnd(x)], c, x[BracketEnd(x) + 1..]);
  }

  lemma AddressIsSafe(address: string, c: string, port: string)
    requires AddressTo(address, c) && PortOk(port)
    ensures SafeAuthority("[" + c + "]" + port)
  {
    AddressDenotes(address, c);
    BracketIsSafe(c, port);
  }

  lemma HostIsSafe(a: string)
    requires HostTo(a)
    ensures SafeAuthority(a)
  {
    var n := WordEnd(a);
    assert a == a[..n] + a[n..];
  }

  /** The address that an authority in brackets becomes. */
  lemma AddressOf(x: string, a: string) returns (c: string)
    requires x != "" && x[0] == '[' && AuthorityTo(x, a)
    ensures var b := BracketEnd(x);
      && 2 <= b < |x| && PortOk(x[b + 1..]) && AddressTo(x[1..b], c) && a == "[" + c + "]" + x[b + 1..]
  {
    c := Bracketed(AddressTo, x, a);
  }

  lemma Bracketed(to: (string, string) -> bool, x: string, a: string) returns (c: string)
    requires BracketTo(to, x, a)
    ensures var b := BracketEnd(x);
      && 2 <= b < |x| && PortOk(x[b + 1..]) && to(x[1..b], c) && a == "[" + c + "]" + x[b + 1..]
  {
    var b := BracketEnd(x);
    c :| to(x[1..b], c) && a == "[" + c + "]" + x[b + 1..];
  }

  lemma BracketIsSafe(c: string, port: string)
    requires (forall i :: 0 <= i < |c| ==> IsLowerHex(c[i]) || c[i] == ':') && PortOk(port)
    ensures SafeAuthority("[" + c + "]" + port)
  {}

  lemma SafeWhenLower(a: string)
    requires SafeAuthority(a)
    ensures forall i :: 0 <= i < |a| ==>
      'a' <= Lower(a)[i] <= 'z' || '0' <= Lower(a)[i] <= '9' || Lower(a)[i] in ".-:[]"
  {}

  lemma TailIsSafe(scheme: string, tail: string, web: bool, r: string)
    requires TailTo(scheme, tail, web, r)
    ensures exists authority, rest :: IsSafe(r, web, scheme, authority, rest)
  {
    var n := AuthorityEnd(tail);
    var a :| AuthorityTo(tail[..n], a) && r == Assembled(scheme, a, tail[n..], web);
    AuthorityIsSafe(tail[..n], a);
    SafeWhenLower(a);
    RestIsPlain(tail, web, n);
    AssembledIsSafe(scheme, a, tail[n..], web, r);
  }

  lemma AssembledIsSafe(scheme: string, a: string, rest: string, web: bool, r: string)
    requires r == Assembled(scheme, a, rest, web) && |r| <= MAX_LENGTH && IsScheme(scheme, web) && SafeAuthority(a)
    requires AllPlain(rest) && !(web && '?' in rest) && (rest == "" || rest[0] == '/' || rest[0] == '?')
    ensures exists authority, rest :: IsSafe(r, web, scheme, authority, rest)
  {
    var rest2 := if web && rest == "" then "/" else rest;
    SafeWhenLower(a);
    assert IsSafe(r, web, scheme, Lower(a), rest2);
  }

  /** Every normal form is safe to be used in a command, and to be put before generated parameters. */
  lemma NormalIsSafe(input: string, web: bool, r: string)
    requires NormalTo(input, web, r)
    ensures exists scheme, authority, rest :: IsSafe(r, web, scheme, authority, rest)
  {
    NormaliseTwice(input, web, r);
    UrlOfNormal(r, web);
    var e := SchemeEnd(r);
    TailIsSafe(Lower(r[..e]), r[e + 3..], web, r);
    var authority, rest :| IsSafe(r, web, Lower(r[..e]), authority, rest);
  }

  lemma UrlOfNormal(r: string, web: bool)
    requires NormalTo(r, web, r)
    ensures UrlTo(r, web, r)
  {
    if TrimSetting(r) == "" {
      DefaultIsNormal(web);
    } else {
      UrlIsNormal(WithScheme(TrimSetting(r), web), web, r);
    }
  }

  /** The address in the normal form denotes the words of the one in the input, and is its canonical form. */
  lemma SameAddress(a: string, r: string)
    requires a != "" && a[0] == '[' && AuthorityTo(a, r)
    ensures var c := r[1..BracketEnd(r)];
      1 < BracketEnd(r) && IsAddress(a[1..BracketEnd(a)]) && IsAddress(c)
      && Denoted(c) == Denoted(a[1..BracketEnd(a)]) && IsCanonical(c, Denoted(c))
  {
    var c := AddressOf(a, r);
    SameBetween(a[1..BracketEnd(a)], c, a[BracketEnd(a) + 1..], r);
  }

  lemma SameBetween(address: string, c: string, port: string, r: string)
    requires AddressTo(address, c) && r == "[" + c + "]" + port
    ensures var d := r[1..BracketEnd(r)];
      1 < BracketEnd(r) && IsAddress(address) && IsAddress(d)
      && Denoted(d) == Denoted(address) && IsCanonical(d, Denoted(d))
  {
    AddressDenotes(address, c);
    BetweenBrackets(r, c, port);
  }

  lemma BetweenBrackets(r: string, c: string, port: string)
    requires r == "[" + c + "]" + port && IsAddress(c)
    requires forall i :: 0 <= i < |c| ==> IsLowerHex(c[i]) || c[i] == ':'
    ensures BracketEnd(r) > 1 && r[1..BracketEnd(r)] == c
  {
    BracketParts(c, port);
  }

  lemma AddressDenotes(address: string, c: string)
    requires AddressTo(address, c)
    ensures IsAddress(address) && IsAddress(c) && Denoted(c) == Denoted(address) && IsCanonical(c, Denoted(c))
    ensures forall i :: 0 <= i < |c| ==> IsLowerHex(c[i]) || c[i] == ':'
  {
    DenotedWords(address);
    CanonicalIsFixed(c, Denoted(address));
  }
}
