/** The `%rwhois` banner (section 3.1.9 of RFC 2167; src/wire/banner.rs). */
module Banner {
  import opened Text
  import opened Numerals

  datatype Capability = Capability(responseId: nat, extraId: nat)

  datatype Version = Version(major: nat, minor: nat, capability: Option<Capability>)

  datatype Banner = Banner(versions: seq<Version>, hostname: string, implementation: Option<string>)

  // ---- Printing -----------------------------------------------------------

  function CapabilityText(c: Capability): string {
    Hex(c.responseId % 0x100_0000, 6) + ([':'] + Hex(c.extraId, 2))
  }

  function NumberText(v: Version): string {
    Decimal(v.major) + (['.'] + Decimal(v.minor))
  }

  function VersionText(v: Version): string {
    "V-" + if v.capability.Some? then NumberText(v) + ([':'] + CapabilityText(v.capability.value)) else NumberText(v)
  }

  function VersionTexts(versions: seq<Version>): (r: seq<string>)
    ensures |r| == |versions|
    ensures forall i :: 0 <= i < |r| ==> r[i] == VersionText(versions[i])
  {
    seq(|versions|, i requires 0 <= i < |versions| => VersionText(versions[i]))
  }

  function HostText(b: Banner): string {
    if b.implementation.Some? then b.hostname + ([' '] + b.implementation.value) else b.hostname
  }

  function ToLine(b: Banner): string {
    "%rwhois " + (JoinWith(VersionTexts(b.versions), ',') + ([' '] + HostText(b)))
  }

  // ---- Parsing ------------------------------------------------------------

  function ParseCapability(s: string): Option<Capability> {
    var halves := SplitOnce(s, ':');
    if halves.None? || |halves.value.0| != 6 || |halves.value.1| != 2 then None
    else
      var r, e := ParseHex(halves.value.0, MAX_U32), ParseHex(halves.value.1, 255);
      if r.None? || e.None? then None else Some(Capability(r.value, e.value))
  }

  function ParseNumber(s: string): Option<(nat, nat)> {
    var halves := SplitOnce(s, '.');
    if halves.None? then None
    else
      var major, minor := ParseDecimal(halves.value.0, MAX_U32), ParseDecimal(halves.value.1, MAX_U32);
      if major.None? || minor.None? then None else Some((major.value, minor.value))
  }

  function ParseVersion(s: string): Option<Version> {
    if StripPrefix("V-", s).None? then None
    else
      var rest := StripPrefix("V-", s).value;
      var halves := SplitOnce(rest, ':');
      var number := ParseNumber(if halves.Some? then halves.value.0 else rest);
      if number.None? then None
      else if halves.None? then Some(Version(number.value.0, number.value.1, None))
      else
        var c := ParseCapability(halves.value.1);
        if c.None? then None else Some(Version(number.value.0, number.value.1, c))
  }

  function ParseVersions(texts: seq<string>): Option<seq<Version>> {
    if texts == [] then Some([])
    else
      var v, rest := ParseVersion(texts[0]), ParseVersions(texts[1..]);
      if v.None? || rest.None? then None else Some([v.value] + rest.value)
  }

  /** The host name and the implementation behind it. */
  function ParseHost(s: string): (string, Option<string>) {
    var halves := SplitOnce(s, ' ');
    if halves.None? then (s, None)
    else (halves.value.0, if halves.value.1 == "" then None else Some(halves.value.1))
  }

  function Parse(line: string): Option<Banner> {
    if StripPrefix("%rwhois ", line).None? then None
    else
      var halves := SplitOnce(StripPrefix("%rwhois ", line).value, ' ');
      if halves.None? then None
      else
        var versions := ParseVersions(SplitAll(halves.value.0, ','));
        if versions.None? then None
        else
          var (hostname, implementation) := ParseHost(halves.value.1);
          Some(Banner(versions.value, hostname, implementation))
  }

  function Preceded(read: seq<Version>, rest: Option<seq<Version>>): Option<seq<Version>> {
    if rest.None? then None else Some(read + rest.value)
  }

  lemma {:induction false} OneVersion(texts: seq<string>, i: nat, v: Option<Version>, read: seq<Version>)
    requires i < |texts| && v == ParseVersion(texts[i])
    ensures Preceded(read, ParseVersions(texts[i..]))
            == if v.None? then None else Preceded(read + [v.value], ParseVersions(texts[i + 1..]))
  {
    assert texts[i..][0] == texts[i] && texts[i..][1..] == texts[i + 1..];
    var rest := ParseVersions(texts[i + 1..]);
    if v.Some? && rest.Some? {
      SumOfSums(read, [v.value], rest.value);
    }
  }

  /** The loop over the version list, which stops at the first bad token. */
  method ReadVersions(list: string) returns (versions: Option<seq<Version>>)
    ensures versions == ParseVersions(SplitAll(list, ','))
  {
    var texts := SplitAll(list, ',');
    ghost var whole := ParseVersions(texts);
    var read: seq<Version> := [];
    assert texts[0..] == texts;
    assert whole.Some? ==> [] + whole.value == whole.value;
    for i := 0 to |texts|
      invariant Preceded(read, ParseVersions(texts[i..])) == whole
    {
      var v := ParseVersion(texts[i]);
      OneVersion(texts, i, v, read);
      if v.None? {
        return None;
      }
      read := read + [v.value];
    }
    assert read + [] == read;
    return Some(read);
  }

  // ---- Printing and parsing are inverse -----------------------------------

  predicate IsCapability(c: Capability) {
    c.responseId < 0x100_0000 && c.extraId < 256
  }

  predicate IsVersion(v: Version) {
    v.major <= MAX_U32 && v.minor <= MAX_U32 && (v.capability.Some? ==> IsCapability(v.capability.value))
  }

  /** What a banner line can carry. */
  predicate IsPrintable(b: Banner) {
    && b.versions != [] && (forall i :: 0 <= i < |b.versions| ==> IsVersion(b.versions[i]))
    && Lacks(b.hostname, ' ')
    && b.implementation != Some("")
  }

  lemma {:induction false} HexWidths()
    ensures Power16(6) == 0x100_0000 && Power16(2) == 256
  {
    assert Power16(2) == 16 * Power16(1) && Power16(1) == 16 * Power16(0);
    assert Power16(4) == 16 * Power16(3) && Power16(3) == 16 * Power16(2);
    assert Power16(6) == 16 * Power16(5) && Power16(5) == 16 * Power16(4);
  }

  lemma {:induction false} HexLacks(s: string, c: char)
    requires AllHex(s) && !IsHex(c)
    ensures Lacks(s, c)
  {
  }

  lemma {:induction false} DigitsLack(s: string, c: char)
    requires AllDigits(s) && !IsDigit(c)
    ensures Lacks(s, c)
  {
  }

  lemma {:induction false} LacksSum(a: string, b: string, c: char)
    ensures Lacks(a + b, c) <==> Lacks(a, c) && Lacks(b, c)
  {
    assert forall i :: 0 <= i < |a| ==> (a + b)[i] == a[i];
    assert forall i :: 0 <= i < |b| ==> (a + b)[|a| + i] == b[i];
  }

  lemma {:induction false} CapabilityParts(r: string, e: string, c: Capability)
    requires |r| == 6 && |e| == 2 && Lacks(r, ':')
    requires ParseHex(r, MAX_U32) == Some(c.responseId) && ParseHex(e, 255) == Some(c.extraId)
    ensures ParseCapability(r + ([':'] + e)) == Some(c)
  {
    SplitOnceIs(r, ':', e);
  }

  lemma {:induction false} CapabilityTextIs(c: Capability)
    requires c.responseId < 0x100_0000
    ensures CapabilityText(c) == Hex(c.responseId, 6) + ([':'] + Hex(c.extraId, 2))
  {
    assert c.responseId % 0x100_0000 == c.responseId;
  }

  lemma {:induction false} CapabilityReads(c: Capability)
    requires IsCapability(c)
    ensures ParseCapability(CapabilityText(c)) == Some(c)
  {
    HexWidths();
    HexLacks(Hex(c.responseId, 6), ':');
    ParseHexIs(c.responseId, 6, MAX_U32);
    ParseHexIs(c.extraId, 2, 255);
    CapabilityTextIs(c);
    CapabilityParts(Hex(c.responseId, 6), Hex(c.extraId, 2), c);
  }

  lemma {:induction false} NumberReads(v: Version)
    requires IsVersion(v)
    ensures ParseNumber(NumberText(v)) == Some((v.major, v.minor))
  {
    DigitsLack(Decimal(v.major), '.');
    SplitOnceIs(Decimal(v.major), '.', Decimal(v.minor));
    ParseDecimalIs(v.major, MAX_U32);
    ParseDecimalIs(v.minor, MAX_U32);
  }

  lemma {:induction false} NumberLacks(v: Version, c: char)
    requires !IsDigit(c) && c != '.'
    ensures Lacks(NumberText(v), c)
  {
    DigitsLack(Decimal(v.major), c);
    DigitsLack(Decimal(v.minor), c);
    LacksSum(['.'], Decimal(v.minor), c);
    LacksSum(Decimal(v.major), ['.'] + Decimal(v.minor), c);
  }

  lemma {:induction false} CapabilityLacks(c: Capability, x: char)
    requires !IsHex(x) && x != ':'
    ensures Lacks(CapabilityText(c), x)
  {
    var a, b := Hex(c.responseId % 0x100_0000, 6), Hex(c.extraId, 2);
    HexLacks(a, x);
    HexLacks(b, x);
    LacksSum([':'], b, x);
    LacksSum(a, [':'] + b, x);
  }

  lemma {:induction false} VersionReads(v: Version)
    requires IsVersion(v)
    ensures ParseVersion(VersionText(v)) == Some(v)
  {
    NumberReads(v);
    NumberLacks(v, ':');
    if v.capability.Some? {
      var c := v.capability.value;
      StripPrefixIs("V-", NumberText(v) + ([':'] + CapabilityText(c)));
      SplitOnceIs(NumberText(v), ':', CapabilityText(c));
      CapabilityReads(c);
    } else {
      StripPrefixIs("V-", NumberText(v));
      SplitOnceNone(NumberText(v), ':');
    }
  }

  lemma {:induction false} VersionLacks(v: Version, x: char)
    requires x == ',' || x == ' '
    ensures Lacks(VersionText(v), x)
  {
    NumberLacks(v, x);
    if v.capability.Some? {
      CapabilityLacks(v.capability.value, x);
      LacksSum([':'], CapabilityText(v.capability.value), x);
      LacksSum(NumberText(v), [':'] + CapabilityText(v.capability.value), x);
      LacksSum("V-", NumberText(v) + ([':'] + CapabilityText(v.capability.value)), x);
    } else {
      LacksSum("V-", NumberText(v), x);
    }
  }

  lemma {:induction false} VersionsRead(versions: seq<Version>)
    requires forall i :: 0 <= i < |versions| ==> IsVersion(versions[i])
    ensures ParseVersions(VersionTexts(versions)) == Some(versions)
    decreases |versions|
  {
    hide ParseVersion, VersionText;
    if versions != [] {
      VersionReads(versions[0]);
      VersionsRead(versions[1..]);
      assert VersionTexts(versions)[1..] == VersionTexts(versions[1..]);
      assert [versions[0]] + versions[1..] == versions;
    }
  }

  lemma {:induction false} JoinLacks(parts: seq<string>, c: char, x: char)
    requires x != c && forall i :: 0 <= i < |parts| ==> Lacks(parts[i], x)
    ensures Lacks(JoinWith(parts, c), x)
    decreases |parts|
  {
    if |parts| > 1 {
      JoinLacks(parts[1..], c, x);
      LacksSum([c], JoinWith(parts[1..], c), x);
      LacksSum(parts[0], [c] + JoinWith(parts[1..], c), x);
    }
  }

  lemma {:induction false} HostReads(b: Banner)
    requires Lacks(b.hostname, ' ') && b.implementation != Some("")
    ensures ParseHost(HostText(b)) == (b.hostname, b.implementation)
  {
    if b.implementation.Some? {
      SplitOnceIs(b.hostname, ' ', b.implementation.value);
    } else {
      SplitOnceNone(b.hostname, ' ');
    }
  }

  /** A printed banner parses back to itself. */
  lemma {:induction false} PrintThenParse(b: Banner)
    requires IsPrintable(b)
    ensures Parse(ToLine(b)) == Some(b)
  {
    var texts := VersionTexts(b.versions);
    forall i | 0 <= i < |texts|
      ensures Lacks(texts[i], ',') && Lacks(texts[i], ' ')
    {
      VersionLacks(b.versions[i], ',');
      VersionLacks(b.versions[i], ' ');
    }
    var list := JoinWith(texts, ',');
    StripPrefixIs("%rwhois ", list + ([' '] + HostText(b)));
    JoinLacks(texts, ',', ' ');
    SplitOnceIs(list, ' ', HostText(b));
    SplitJoined(texts, ',');
    VersionsRead(b.versions);
    HostReads(b);
  }

  // ---- Only printable banners are parsed ----------------------------------

  lemma {:induction false} ParsedHexIsSmall(s: string, max: nat)
    requires ParseHex(s, max).Some?
    ensures ParseHex(s, max).value <= max && ParseHex(s, max).value < Power16(|s|)
  {
    var t := if "+" <= s then s[1..] else s;
    HexIsSmall(t);
    Power16Grows(|t|, |s|);
  }

  lemma {:induction false} ParsedVersionIsVersion(s: string)
    requires ParseVersion(s).Some?
    ensures IsVersion(ParseVersion(s).value)
  {
    var rest := StripPrefix("V-", s).value;
    var halves := SplitOnce(rest, ':');
    if halves.Some? {
      var parts := SplitOnce(halves.value.1, ':').value;
      HexWidths();
      ParsedHexIsSmall(parts.0, MAX_U32);
      ParsedHexIsSmall(parts.1, 255);
    }
  }

  lemma {:induction false} ParsedVersionsAreVersions(texts: seq<string>)
    requires ParseVersions(texts).Some?
    ensures |ParseVersions(texts).value| == |texts|
    ensures forall i :: 0 <= i < |texts| ==> IsVersion(ParseVersions(texts).value[i])
    decreases |texts|
  {
    if texts != [] {
      ParsedVersionIsVersion(texts[0]);
      ParsedVersionsAreVersions(texts[1..]);
    }
  }

  lemma {:induction false} ParsedIsPrintable(line: string)
    requires Parse(line).Some?
    ensures IsPrintable(Parse(line).value)
  {
    var halves := SplitOnce(StripPrefix("%rwhois ", line).value, ' ').value;
    ParsedVersionsAreVersions(SplitAll(halves.0, ','));
  }

  /** Printing and parsing are inverse on exactly the printable banners; for the
      others the parser returns something else or nothing. */
  lemma {:induction false} RoundTripExactly(b: Banner)
    ensures Parse(ToLine(b)) == Some(b) <==> IsPrintable(b)
  {
    if IsPrintable(b) {
      PrintThenParse(b);
    }
    if Parse(ToLine(b)) == Some(b) {
      ParsedIsPrintable(ToLine(b));
    }
  }
}
