/** Character and string vocabulary shared by every component.

    A byte is modelled as the character with its code, so files, buffers and
    protocol lines are all of type `string`. */
module Text {

  datatype Option<+T> = None | Some(value: T)

  /** `i` is the first place at or after `from` that holds `c`, or the end. */
  predicate IsFirst(s: string, c: char, from: nat, i: nat) {
    && from <= i <= |s|
    && (i < |s| ==> s[i] == c)
    && (forall k :: from <= k < i ==> s[k] != c)
  }

  lemma {:induction false} FirstExists(s: string, c: char, from: nat) returns (i: nat)
    requires from <= |s|
    ensures IsFirst(s, c, from, i)
    decreases |s| - from
  {
    if from == |s| || s[from] == c {
      i := from;
    } else {
      i := FirstExists(s, c, from + 1);
    }
  }

  /** Index of the first `c` in `s` at or after `from`; `|s|` when there is none. */
  function Find(s: string, c: char, from: nat): (i: nat)
    requires from <= |s|
    ensures IsFirst(s, c, from, i)
  {
    assert exists i: nat :: IsFirst(s, c, from, i) by {
      var i := FirstExists(s, c, from);
    }
    var i: nat :| IsFirst(s, c, from, i);
    i
  }

  /** The contract of `Find` pins its result down. */
  lemma {:induction false} FindIs(s: string, c: char, from: nat, i: nat)
    requires IsFirst(s, c, from, i)
    ensures Find(s, c, from) == i
  {
  }

  /** A rest of a rest. */
  lemma {:induction false} RestOfRest(s: string, from: nat, n: nat)
    requires from <= |s| && n <= |s| - from
    ensures s[from..][n..] == s[from + n..]
  {
  }

  /** The rest of `s` behind `p`. */
  function StripPrefix(p: string, s: string): (r: Option<string>)
    ensures r.Some? <==> p <= s
    ensures r.Some? ==> s == p + r.value
  {
    if p <= s then Some(s[|p|..]) else None
  }

  lemma {:induction false} StripPrefixIs(p: string, r: string)
    ensures StripPrefix(p, p + r) == Some(r)
  {
  }

  /** Texts that start differently. */
  lemma {:induction false} StripPrefixDiffers(p: string, q: string, r: string, i: nat)
    requires i < |p| && i < |q| && p[i] != q[i]
    ensures StripPrefix(p, q + r).None?
  {
    assert (q + r)[i] == q[i];
  }

  predicate Lacks(s: string, c: char) {
    forall i :: 0 <= i < |s| ==> s[i] != c
  }

  /** The parts of `s` before and behind the first `c`. */
  function SplitOnce(s: string, c: char): (r: Option<(string, string)>)
    ensures r.Some? <==> exists i :: 0 <= i < |s| && s[i] == c
  {
    var k := Find(s, c, 0);
    if k < |s| then Some((s[..k], s[k + 1..])) else None
  }

  lemma {:induction false} SplitOnceIs(a: string, c: char, b: string)
    requires forall i :: 0 <= i < |a| ==> a[i] != c
    ensures SplitOnce(a + ([c] + b), c) == Some((a, b))
  {
    var s := a + ([c] + b);
    FindIs(s, c, 0, |a|);
    assert s[..|a|] == a && s[|a| + 1..] == b;
  }

  lemma {:induction false} SplitOnceNone(s: string, c: char)
    requires forall i :: 0 <= i < |s| ==> s[i] != c
    ensures SplitOnce(s, c) == None
  {
  }

  /** `i` is the last place of `c` in `s`. */
  predicate IsLast(s: string, c: char, i: nat) {
    i < |s| && s[i] == c && forall k :: i < k < |s| ==> s[k] != c
  }

  lemma {:induction false} LastExists(s: string, c: char) returns (i: nat)
    requires exists k :: 0 <= k < |s| && s[k] == c
    ensures IsLast(s, c, i)
  {
    var n := |s| - 1;
    if s[n] == c {
      i := n;
    } else {
      assert forall k :: 0 <= k < n ==> s[..n][k] == s[k];
      i := LastExists(s[..n], c);
    }
  }

  /** The parts of `s` before and behind the last `c`. */
  function SplitLast(s: string, c: char): (r: Option<(string, string)>)
    ensures r.Some? <==> exists i :: 0 <= i < |s| && s[i] == c
  {
    if exists k :: 0 <= k < |s| && s[k] == c then
      assert exists i: nat :: IsLast(s, c, i) by {
        var i := LastExists(s, c);
      }
      var i: nat :| IsLast(s, c, i);
      Some((s[..i], s[i + 1..]))
    else None
  }

  lemma {:induction false} SplitLastIs(a: string, c: char, b: string)
    requires forall i :: 0 <= i < |b| ==> b[i] != c
    ensures SplitLast(a + ([c] + b), c) == Some((a, b))
  {
    var s := a + ([c] + b);
    assert s[|a|] == c;
    assert forall k :: |a| < k < |s| ==> s[k] == b[k - |a| - 1];
    assert IsLast(s, c, |a|);
    assert s[..|a|] == a && s[|a| + 1..] == b;
  }

  predicate IsDigit(c: char) {
    '0' <= c <= '9'
  }

  predicate IsAlpha(c: char) {
    'a' <= c <= 'z' || 'A' <= c <= 'Z'
  }

  /** `isspace` of the C locale, and Rust's ASCII whitespace plus vertical tab. */
  predicate IsSpace(c: char) {
    c == ' ' || 9 as char <= c <= 13 as char
  }

  predicate IsBlank(c: char) {
    c == ' ' || c == '\t'
  }

  /** `iscntrl` of the C locale. */
  predicate IsControl(c: char) {
    c < ' ' || c == 127 as char
  }

  function LowerChar(c: char): char {
    if 'A' <= c <= 'Z' then (c as int + 32) as char else c
  }

  function UpperChar(c: char): char {
    if 'a' <= c <= 'z' then (c as int - 32) as char else c
  }

  function Lower(s: string): (r: string)
    ensures |r| == |s|
    ensures forall i :: 0 <= i < |s| ==> r[i] == LowerChar(s[i])
  {
    seq(|s|, i requires 0 <= i < |s| => LowerChar(s[i]))
  }

  function Upper(s: string): (r: string)
    ensures |r| == |s|
    ensures forall i :: 0 <= i < |s| ==> r[i] == UpperChar(s[i])
  {
    seq(|s|, i requires 0 <= i < |s| => UpperChar(s[i]))
  }

  predicate EqualIgnoringCase(a: string, b: string) {
    Lower(a) == Lower(b)
  }

  /** The same character, or the same of the 26 letters in another case. */
  predicate IsSameLetter(c: char, d: char) {
    || c == d
    || ('a' <= c <= 'z' && d as int == c as int - 'a' as int + 'A' as int)
    || ('a' <= d <= 'z' && c as int == d as int - 'a' as int + 'A' as int)
  }

  predicate HasSameLetters(a: string, b: string) {
    |a| == |b| && forall i :: 0 <= i < |a| ==> IsSameLetter(a[i], b[i])
  }

  lemma {:induction false} IgnoringCaseMeans(a: string, b: string)
    ensures EqualIgnoringCase(a, b) <==> HasSameLetters(a, b)
  {
    if EqualIgnoringCase(a, b) {
      assert forall i :: 0 <= i < |a| ==> Lower(a)[i] == Lower(b)[i];
    }
  }

  /** Upper case is the same letters, none of them lower-case. */
  lemma {:induction false} UpperMeans(s: string)
    ensures HasSameLetters(Upper(s), s) && forall i :: 0 <= i < |s| ==> !('a' <= Upper(s)[i] <= 'z')
  {
  }

  /** The longest prefix of characters that satisfy `p` has length `k`. */
  predicate IsRun(s: string, p: char -> bool, k: nat) {
    && k <= |s|
    && (forall i :: 0 <= i < k ==> p(s[i]))
    && (k < |s| ==> !p(s[k]))
  }

  lemma {:induction false} RunExists(s: string, p: char -> bool, from: nat) returns (k: nat)
    requires from <= |s| && forall i :: 0 <= i < from ==> p(s[i])
    ensures IsRun(s, p, k)
    decreases |s| - from
  {
    if from == |s| || !p(s[from]) {
      k := from;
    } else {
      k := RunExists(s, p, from + 1);
    }
  }

  /** Length of the longest prefix of characters that satisfy `p`. */
  function Run(s: string, p: char -> bool): (k: nat)
    ensures IsRun(s, p, k)
  {
    assert exists k: nat :: IsRun(s, p, k) by {
      var k := RunExists(s, p, 0);
    }
    var k: nat :| IsRun(s, p, k);
    k
  }

  /** The contract of `Run` pins its result down. */
  lemma {:induction false} RunIs(s: string, p: char -> bool, k: nat)
    requires IsRun(s, p, k)
    ensures Run(s, p) == k
  {
  }

  /** The pieces of `s` between the `c`s. */
  function SplitAll(s: string, c: char): (parts: seq<string>)
    ensures parts != []
  {
    var k := Find(s, c, 0);
    if k < |s| then [s[..k]] + SplitAll(s[k + 1..], c) else [s]
  }

  function JoinWith(parts: seq<string>, c: char): string {
    if parts == [] then "" else if |parts| == 1 then parts[0] else parts[0] + ([c] + JoinWith(parts[1..], c))
  }

  lemma {:induction false} SplitJoined(parts: seq<string>, c: char)
    requires parts != [] && forall i :: 0 <= i < |parts| ==> Lacks(parts[i], c)
    ensures SplitAll(JoinWith(parts, c), c) == parts
    decreases |parts|
  {
    if |parts| == 1 {
      assert parts == [parts[0]];
    } else {
      var rest := JoinWith(parts[1..], c);
      var s := parts[0] + ([c] + rest);
      FindIs(s, c, 0, |parts[0]|);
      assert s[..|parts[0]|] == parts[0] && s[|parts[0]| + 1..] == rest;
      SplitJoined(parts[1..], c);
    }
  }

  /** Removes leading characters that satisfy `p`. */
  function TrimStart(s: string, p: char -> bool): string {
    s[Run(s, p)..]
  }

  /** What is left of `s` without the longest suffix that satisfies `p` has
      length `k`. */
  predicate IsStem(s: string, p: char -> bool, k: nat) {
    && k <= |s|
    && (forall i :: k <= i < |s| ==> p(s[i]))
    && (0 < k ==> !p(s[k - 1]))
  }

  lemma {:induction false} StemExists(s: string, p: char -> bool, to: nat) returns (k: nat)
    requires to <= |s| && forall i :: to <= i < |s| ==> p(s[i])
    ensures IsStem(s, p, k)
  {
    if to == 0 || !p(s[to - 1]) {
      k := to;
    } else {
      k := StemExists(s, p, to - 1);
    }
  }

  function Stem(s: string, p: char -> bool): (k: nat)
    ensures IsStem(s, p, k)
  {
    assert exists k: nat :: IsStem(s, p, k) by {
      var k := StemExists(s, p, |s|);
    }
    var k: nat :| IsStem(s, p, k);
    k
  }

  /** Removes trailing characters that satisfy `p`. */
  function TrimEnd(s: string, p: char -> bool): string {
    s[..Stem(s, p)]
  }

  function Trim(s: string, p: char -> bool): (r: string)
    ensures |r| <= |s|
    ensures r != "" ==> !p(r[0]) && !p(r[|r| - 1])
  {
    TrimStart(TrimEnd(s, p), p)
  }

  /** Nothing is removed from a string whose two ends do not satisfy `p`. */
  lemma {:induction false} TrimKeeps(s: string, p: char -> bool)
    requires s != "" ==> !p(s[0]) && !p(s[|s| - 1])
    ensures Trim(s, p) == s
  {
  }

  function Filter(s: string, p: char -> bool): (r: string)
    ensures |r| <= |s|
    ensures forall i :: 0 <= i < |r| ==> p(r[i])
  {
    if s == "" then "" else (if p(s[0]) then [s[0]] else "") + Filter(s[1..], p)
  }

  lemma {:induction false} FilterKeeps(s: string, p: char -> bool)
    requires forall i :: 0 <= i < |s| ==> p(s[i])
    ensures Filter(s, p) == s
  {
    if s != "" {
      FilterKeeps(s[1..], p);
    }
  }

  lemma {:induction false} RestOfSum<T>(a: seq<T>, b: seq<T>)
    requires a != []
    ensures (a + b)[0] == a[0] && (a + b)[1..] == a[1..] + b
  {
  }

  lemma {:induction false} SumOfSums<T>(a: seq<T>, b: seq<T>, c: seq<T>)
    ensures (a + b) + c == a + (b + c)
  {
  }

  lemma {:induction false} FilterConcat(a: string, b: string, p: char -> bool)
    ensures Filter(a + b, p) == Filter(a, p) + Filter(b, p)
  {
    if a == "" {
      assert a + b == b;
    } else {
      FilterConcat(a[1..], b, p);
      RestOfSum(a, b);
      SumOfSums(if p(a[0]) then [a[0]] else "", Filter(a[1..], p), Filter(b, p));
    }
  }

  /** Concatenation of a list of strings. */
  function Concat(parts: seq<string>): string {
    if parts == [] then "" else parts[0] + Concat(parts[1..])
  }

  lemma {:induction false} ConcatAppend(a: seq<string>, b: seq<string>)
    ensures Concat(a + b) == Concat(a) + Concat(b)
  {
    if a == [] {
      assert a + b == b;
    } else {
      ConcatAppend(a[1..], b);
      RestOfSum(a, b);
      SumOfSums(a[0], Concat(a[1..]), Concat(b));
    }
  }

  lemma {:induction false} FilterOne(c: char, p: char -> bool)
    ensures Filter([c], p) == if p(c) then [c] else ""
  {
    assert [c][1..] == "";
  }

  lemma {:induction false} FilterComesFrom(s: string, p: char -> bool)
    ensures forall i :: 0 <= i < |Filter(s, p)| ==> Filter(s, p)[i] in s
    decreases |s|
  {
    if s != "" {
      FilterComesFrom(s[1..], p);
    }
  }

  lemma {:induction false} TrimComesFrom(s: string, p: char -> bool)
    ensures forall i :: 0 <= i < |Trim(s, p)| ==> Trim(s, p)[i] in s
  {
    var stem, r := TrimEnd(s, p), Trim(s, p);
    forall i | 0 <= i < |r| ensures r[i] in s {
      assert r[i] == stem[|stem| - |r| + i] == s[|stem| - |r| + i];
    }
  }

  /** A character that is trimmed at the end. */
  lemma {:induction false} TrimDrops(s: string, c: char, p: char -> bool)
    requires p(c)
    ensures Trim(s + [c], p) == Trim(s, p)
  {
    var k := Stem(s, p);
    assert IsStem(s + [c], p, k);
    assert (s + [c])[..k] == s[..k];
  }

  /** A character that is trimmed in front. */
  lemma {:induction false} TrimSkips(c: char, s: string, p: char -> bool)
    requires p(c)
    ensures Trim([c] + s, p) == Trim(s, p)
  {
    var w, k := [c] + s, Stem(s, p);
    if k == 0 {
      assert IsStem(w, p, 0);
      assert w[..0] == "" == s[..0];
    } else {
      assert IsStem(w, p, k + 1);
      var stem := s[..k];
      assert w[..k + 1] == [c] + stem;
      var n := Run(stem, p);
      RunIs([c] + stem, p, n + 1);
      assert ([c] + stem)[n + 1..] == stem[n..];
    }
  }
}

/** Decimal and hexadecimal numerals. */
module Numerals {
  import opened Text

  const MAX_U16 := 0xffff
  const MAX_U32 := 0xffff_ffff
  const MAX_USIZE := 0xffff_ffff_ffff_ffff

  function Digit(d: nat): (c: char)
    requires d < 10
    ensures IsDigit(c) && DigitValue(c) == d
  {
    (d + '0' as int) as char
  }

  function DigitValue(c: char): (d: nat)
    requires IsDigit(c)
    ensures d < 10
  {
    c as int - '0' as int
  }

  /** Shortest decimal numeral of `n`. */
  function Decimal(n: nat): (s: string)
    ensures s != "" && AllDigits(s)
    ensures |s| > 1 ==> s[0] != '0'
  {
    if n < 10 then [Digit(n)] else Decimal(n / 10) + [Digit(n % 10)]
  }

  function DecimalInt(n: int): (s: string)
    ensures s != "" && forall i :: 0 <= i < |s| ==> IsDigit(s[i]) || s[i] == '-'
  {
    if n < 0 then "-" + Decimal(-n) else Decimal(n)
  }

  predicate AllDigits(s: string) {
    forall i :: 0 <= i < |s| ==> IsDigit(s[i])
  }

  /** Value of a string of decimal digits. */
  function DecimalValue(s: string): nat
    requires AllDigits(s)
  {
    if s == "" then 0 else 10 * DecimalValue(s[..|s| - 1]) + DigitValue(s[|s| - 1])
  }

  lemma {:induction false} DecimalRoundTrip(n: nat)
    ensures DecimalValue(Decimal(n)) == n
  {
    if n >= 10 {
      DecimalRoundTrip(n / 10);
      assert Decimal(n)[..|Decimal(n)| - 1] == Decimal(n / 10);
    }
  }

  /** A number as Rust parses one: an optional plus sign, digits, at most `max`. */
  function ParseDecimal(s: string, max: nat): Option<nat> {
    var t := if "+" <= s then s[1..] else s;
    if t != "" && AllDigits(t) && DecimalValue(t) <= max then Some(DecimalValue(t)) else None
  }

  lemma {:induction false} ParseDecimalIs(n: nat, max: nat)
    requires n <= max
    ensures ParseDecimal(Decimal(n), max) == Some(n)
  {
    DecimalRoundTrip(n);
    assert IsDigit(Decimal(n)[0]);
  }

  /** A decimal numeral of at least three digits. */
  function Padded(n: nat): (s: string)
    ensures s != "" && AllDigits(s)
  {
    (if n < 10 then "00" else if n < 100 then "0" else "") + Decimal(n)
  }

  lemma {:induction false} LeadingZero(s: string)
    requires AllDigits(s)
    ensures AllDigits("0" + s) && DecimalValue("0" + s) == DecimalValue(s)
  {
    var z := "0" + s;
    if s != "" {
      var n := |s|;
      LeadingZero(s[..n - 1]);
      assert z[..n] == "0" + s[..n - 1] && z[n] == s[n - 1];
    } else {
      assert z[..0] == "";
    }
  }

  lemma {:induction false} ParsePaddedIs(n: nat, max: nat)
    requires n <= max
    ensures ParseDecimal(Padded(n), max) == Some(n)
  {
    hide Decimal;
    DecimalRoundTrip(n);
    LeadingZero(Decimal(n));
    LeadingZero("0" + Decimal(n));
    assert "0" + ("0" + Decimal(n)) == "00" + Decimal(n);
    assert "" + Decimal(n) == Decimal(n);
    assert IsDigit(Padded(n)[0]);
  }

  function HexDigit(d: nat): (c: char)
    requires d < 16
    ensures IsHex(c) && HexDigitValue(c) == d
  {
    if d < 10 then (d + '0' as int) as char else (d - 10 + 'a' as int) as char
  }

  predicate IsHex(c: char) {
    IsDigit(c) || 'a' <= c <= 'f' || 'A' <= c <= 'F'
  }

  function HexDigitValue(c: char): (d: nat)
    requires IsHex(c)
    ensures d < 16
  {
    if IsDigit(c) then c as int - '0' as int
    else if 'a' <= c then c as int - 'a' as int + 10
    else c as int - 'A' as int + 10
  }

  predicate AllHex(s: string) {
    forall i :: 0 <= i < |s| ==> IsHex(s[i])
  }

  /** The lowest `width` hexadecimal digits of `n`. */
  function Hex(n: nat, width: nat): (s: string)
    ensures |s| == width && AllHex(s)
  {
    if width == 0 then "" else Hex(n / 16, width - 1) + [HexDigit(n % 16)]
  }

  function HexValue(s: string): nat
    requires AllHex(s)
  {
    if s == "" then 0 else 16 * HexValue(s[..|s| - 1]) + HexDigitValue(s[|s| - 1])
  }

  function Power16(n: nat): nat {
    if n == 0 then 1 else 16 * Power16(n - 1)
  }

  lemma {:induction false} HexRoundTrip(n: nat, width: nat)
    requires n < Power16(width)
    ensures HexValue(Hex(n, width)) == n
  {
    if width > 0 {
      HexRoundTrip(n / 16, width - 1);
      assert Hex(n, width)[..width - 1] == Hex(n / 16, width - 1);
    }
  }

  lemma {:induction false} HexIsSmall(s: string)
    requires AllHex(s)
    ensures HexValue(s) < Power16(|s|)
  {
    if s != "" {
      HexIsSmall(s[..|s| - 1]);
    }
  }

  lemma {:induction false} Power16Grows(n: nat, m: nat)
    requires n <= m
    ensures Power16(n) <= Power16(m)
  {
    if n < m {
      Power16Grows(n, m - 1);
    }
  }

  /** Hexadecimal as Rust parses it. */
  function ParseHex(s: string, max: nat): Option<nat> {
    var t := if "+" <= s then s[1..] else s;
    if t != "" && AllHex(t) && HexValue(t) <= max then Some(HexValue(t)) else None
  }

  lemma {:induction false} ParseHexIs(n: nat, width: nat, max: nat)
    requires width > 0 && n < Power16(width) && n <= max
    ensures ParseHex(Hex(n, width), max) == Some(n)
  {
    HexRoundTrip(n, width);
    assert IsHex(Hex(n, width)[0]);
  }
}
