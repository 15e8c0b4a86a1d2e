/** IP networks (ip_network.c): masking, containment, and the key strings under
    which networks are indexed. */
module Network {
  import opened Text
  import opened Numerals

  datatype Family = Inet | Inet6

  function Width(af: Family): nat {
    if af == Inet then 4 else 16
  }

  /** `struct netinfo`. */
  datatype NetInfo = NetInfo(af: Family, prefix: seq<bv8>, masklen: int)

  predicate IsNetwork(n: NetInfo) {
    |n.prefix| == Width(n.af) && 0 <= n.masklen <= 8 * Width(n.af)
  }

  /** What masking to `len` bits leaves of a byte. */
  function MaskByte(b: bv8, len: int): bv8 {
    if len <= 0 then 0 else if len < 8 then b & (0xff << (8 - len)) else b
  }

  function Mask(prefix: seq<bv8>, len: int): (r: seq<bv8>)
    ensures |r| == |prefix|
    ensures forall i :: 0 <= i < |prefix| ==> r[i] == MaskByte(prefix[i], len - 8 * i)
  {
    seq(|prefix|, i requires 0 <= i < |prefix| => MaskByte(prefix[i], len - 8 * i))
  }

  /** `mask_addr_to_len`, on the prefix bytes in place. */
  method MaskAddrToLen(prefix: array<bv8>, len: int)
    modifies prefix
    ensures prefix[..] == Mask(old(prefix[..]), len)
  {
    var numbytes := prefix.Length;
    if numbytes * 8 == len {
      return;
    }
    var i, left := 0, len;
    while i < numbytes
      invariant 0 <= i <= numbytes && left == len - 8 * i
      invariant forall k :: 0 <= k < i ==> prefix[k] == MaskByte(old(prefix[k]), len - 8 * k)
      invariant forall k :: i <= k < numbytes ==> prefix[k] == old(prefix[k])
    {
      if left <= 0 {
        prefix[i] := 0;
      } else if left < 8 {
        prefix[i] := prefix[i] & (0xff << (8 - left));
      }
      i, left := i + 1, left - 8;
    }
  }

  /** Bit `j` of a byte, the most significant first. */
  predicate BitOfByte(b: bv8, j: nat)
    requires j < 8
  {
    b & (0x80 >> j) != 0
  }

  /** Bit `i` of an address. */
  predicate Bit(prefix: seq<bv8>, i: nat)
    requires i < 8 * |prefix|
  {
    BitOfByte(prefix[i / 8], i % 8)
  }

  lemma {:induction false} MaskByteBit(b: bv8, len: int, j: nat)
    requires j < 8
    ensures BitOfByte(MaskByte(b, len), j) <==> j < len && BitOfByte(b, j)
  {
    if 0 < len < 8 {
      var l: nat := len;
      assert l == 1 || l == 2 || l == 3 || l == 4 || l == 5 || l == 6 || l == 7;
      assert j == 0 || j == 1 || j == 2 || j == 3 || j == 4 || j == 5 || j == 6 || j == 7;
    }
  }

  lemma {:induction false} ByteBits(a: bv8, b: bv8)
    requires forall j: nat :: j < 8 ==> (BitOfByte(a, j) <==> BitOfByte(b, j))
    ensures a == b
  {
    assert BitOfByte(a, 0) <==> BitOfByte(b, 0);
    assert BitOfByte(a, 1) <==> BitOfByte(b, 1);
    assert BitOfByte(a, 2) <==> BitOfByte(b, 2);
    assert BitOfByte(a, 3) <==> BitOfByte(b, 3);
    assert BitOfByte(a, 4) <==> BitOfByte(b, 4);
    assert BitOfByte(a, 5) <==> BitOfByte(b, 5);
    assert BitOfByte(a, 6) <==> BitOfByte(b, 6);
    assert BitOfByte(a, 7) <==> BitOfByte(b, 7);
  }

  lemma {:induction false} MaskBit(prefix: seq<bv8>, len: int, i: nat)
    requires i < 8 * |prefix|
    ensures Bit(Mask(prefix, len), i) <==> i < len && Bit(prefix, i)
  {
    MaskByteBit(prefix[i / 8], len - 8 * (i / 8), i % 8);
  }

  lemma {:induction false} AddressBits(a: seq<bv8>, b: seq<bv8>)
    requires |a| == |b| && forall i: nat :: i < 8 * |a| ==> (Bit(a, i) <==> Bit(b, i))
    ensures a == b
  {
    forall k | 0 <= k < |a| ensures a[k] == b[k] {
      forall j: nat | j < 8 ensures BitOfByte(a[k], j) <==> BitOfByte(b[k], j) {
        assert (8 * k + j) / 8 == k && (8 * k + j) % 8 == j;
        assert Bit(a, 8 * k + j) <==> Bit(b, 8 * k + j);
      }
      ByteBits(a[k], b[k]);
    }
  }

  /** Masking again to fewer bits is masking to fewer bits. */
  lemma {:induction false} MaskComposes(prefix: seq<bv8>, l: int, m: int)
    requires m <= l
    ensures Mask(Mask(prefix, l), m) == Mask(prefix, m)
  {
    forall i: nat | i < 8 * |prefix| ensures Bit(Mask(Mask(prefix, l), m), i) <==> Bit(Mask(prefix, m), i) {
      MaskBit(Mask(prefix, l), m, i);
      MaskBit(prefix, l, i);
      MaskBit(prefix, m, i);
    }
    AddressBits(Mask(Mask(prefix, l), m), Mask(prefix, m));
  }

  /** No bit is set behind the prefix length. */
  predicate IsCanonical(n: NetInfo) {
    IsNetwork(n) && Mask(n.prefix, n.masklen) == n.prefix
  }

  /** Network `n` contains network `q`: same family, a prefix that is no longer,
      and agreement on the bits of that prefix. */
  ghost predicate Covers(n: NetInfo, q: NetInfo)
    requires IsNetwork(n) && IsNetwork(q)
  {
    && n.af == q.af && n.masklen <= q.masklen
    && forall i: nat :: i < n.masklen ==> (Bit(n.prefix, i) <==> Bit(q.prefix, i))
  }

  /** `q` widened to a prefix length of `len`. */
  function Widened(q: NetInfo, len: int): NetInfo {
    NetInfo(q.af, Mask(q.prefix, len), len)
  }

  /** The canonical networks that contain `q` are exactly its widenings: one for
      each prefix length up to its own. */
  lemma {:induction false} CoversIsWidened(n: NetInfo, q: NetInfo)
    requires IsCanonical(n) && IsNetwork(q)
    ensures Covers(n, q) <==> n.masklen <= q.masklen && n == Widened(q, n.masklen)
  {
    var w := Mask(q.prefix, n.masklen);
    if Covers(n, q) {
      forall i: nat | i < 8 * |n.prefix| ensures Bit(n.prefix, i) <==> Bit(w, i) {
        MaskBit(n.prefix, n.masklen, i);
        MaskBit(q.prefix, n.masklen, i);
      }
      AddressBits(n.prefix, w);
    }
    if n.masklen <= q.masklen && n == Widened(q, n.masklen) {
      forall i: nat | i < n.masklen ensures Bit(n.prefix, i) <==> Bit(q.prefix, i) {
        MaskBit(q.prefix, n.masklen, i);
      }
    }
  }

  // Key strings

  /** `%03hu`. */
  function Decimal3(n: nat): string
    requires n < 1000
  {
    [Digit(n / 100), Digit(n / 10 % 10), Digit(n % 10)]
  }

  /** The characters written for byte `i` of an address, its separator included. */
  function Piece(af: Family, b: bv8, i: nat): (s: string)
    ensures |s| == if af == Inet then (if i < 3 then 4 else 3) else if i % 2 == 1 && i < 15 then 3 else 2
  {
    if af == Inet then Decimal3(b as int) + (if i < 3 then "." else "")
    else Hex(b as int, 2) + (if i % 2 == 1 && i < 15 then ":" else "")
  }

  function Address(af: Family, prefix: seq<bv8>, i: nat): string
    decreases |prefix| - i
  {
    if i >= |prefix| then "" else Piece(af, prefix[i], i) + Address(af, prefix, i + 1)
  }

  /** `write_network`. */
  function Key(n: NetInfo): string {
    Address(n.af, n.prefix, 0) + "/" + DecimalInt(n.masklen)
  }

  /** `ni_to_addrstring`. */
  method NiToAddrstring(af: Family, prefix: seq<bv8>) returns (str: string)
    requires |prefix| == Width(af)
    ensures str == Address(af, prefix, 0)
  {
    hide Piece;
    str := "";
    var i := 0;
    while i < |prefix|
      invariant 0 <= i <= |prefix|
      invariant str + Address(af, prefix, i) == Address(af, prefix, 0)
    {
      SumOfSums(str, Piece(af, prefix[i], i), Address(af, prefix, i + 1));
      str := str + Piece(af, prefix[i], i);
      i := i + 1;
    }
    assert str + "" == str;
  }

  lemma {:induction false} ThreeDigits(n: nat)
    requires n < 1000
    ensures n == 100 * (n / 100) + 10 * (n / 10 % 10) + n % 10
  {
    var tens := n / 10;
    assert n == 10 * tens + n % 10 && tens == 10 * (tens / 10) + tens % 10;
    assert tens / 10 == n / 100;
  }

  lemma {:induction false} Decimal3Injective(x: nat, y: nat)
    requires x < 1000 && y < 1000 && Decimal3(x) == Decimal3(y)
    ensures x == y
  {
    ThreeDigits(x);
    ThreeDigits(y);
    SameDigit(x / 100, y / 100, Decimal3(x)[0]);
    SameDigit(x / 10 % 10, y / 10 % 10, Decimal3(x)[1]);
    SameDigit(x % 10, y % 10, Decimal3(x)[2]);
  }

  lemma {:induction false} SameDigit(d: nat, e: nat, c: char)
    requires d < 10 && e < 10 && c == Digit(d) == Digit(e)
    ensures d == e
  {
  }

  lemma {:induction false} Hex2Injective(x: nat, y: nat)
    requires x < 256 && y < 256 && Hex(x, 2) == Hex(y, 2)
    ensures x == y
  {
    assert Power16(2) == 16 * Power16(1) && Power16(1) == 16 * Power16(0);
    HexRoundTrip(x, 2);
    HexRoundTrip(y, 2);
  }

  lemma {:induction false} PieceInjective(af: Family, a: bv8, b: bv8, i: nat)
    requires Piece(af, a, i) == Piece(af, b, i)
    ensures a as int == b as int
  {
    var x, y := a as int, b as int;
    if af == Inet {
      assert Decimal3(x) == Piece(af, a, i)[..3] && Decimal3(y) == Piece(af, b, i)[..3];
      Decimal3Injective(x, y);
    } else {
      assert Hex(x, 2) == Piece(af, a, i)[..2] && Hex(y, 2) == Piece(af, b, i)[..2];
      Hex2Injective(x, y);
    }
  }

  lemma {:induction false} ByteIsItsNumber(a: bv8, b: bv8)
    requires a as int == b as int
    ensures a == b
  {
  }

  lemma {:induction false} AddressInjective(af: Family, a: seq<bv8>, b: seq<bv8>, i: nat)
    requires |a| == |b| && i <= |a|
    ensures |Address(af, a, i)| == |Address(af, b, i)|
    ensures Address(af, a, i) == Address(af, b, i) ==> a[i..] == b[i..]
    decreases |a| - i
  {
    if i < |a| {
      AddressInjective(af, a, b, i + 1);
      var x, y, p, q := Piece(af, a[i], i), Piece(af, b[i], i), Address(af, a, i + 1), Address(af, b, i + 1);
      if x + p == y + q {
        assert x == (x + p)[..|x|] == (y + q)[..|y|] == y;
        assert p == (x + p)[|x|..] == (y + q)[|y|..] == q;
        PieceInjective(af, a[i], b[i], i);
        ByteIsItsNumber(a[i], b[i]);
        assert a[i..] == [a[i]] + a[i + 1..] && b[i..] == [b[i]] + b[i + 1..];
      }
    }
  }

  lemma {:induction false} AddressLength(af: Family, prefix: seq<bv8>)
    requires |prefix| == Width(af)
    ensures |Address(af, prefix, 0)| >= 4
    ensures IsHex(Address(af, prefix, 0)[3]) <==> af == Inet6
  {
    var s := Address(af, prefix, 0);
    assert Address(af, prefix, 1) == Piece(af, prefix[1], 1) + Address(af, prefix, 2);
    assert s == Piece(af, prefix[0], 0) + (Piece(af, prefix[1], 1) + Address(af, prefix, 2));
  }

  /** Where byte `i` of an address is written. */
  function Place(af: Family, i: nat): nat {
    if af == Inet then 4 * i else 2 * i + i / 2
  }

  lemma {:induction false} AddressFrom(af: Family, prefix: seq<bv8>, i: nat)
    requires |prefix| == Width(af) && i < |prefix|
    ensures Place(af, i) + |Piece(af, prefix[i], i)| <= |Address(af, prefix, 0)|
    ensures Address(af, prefix, 0)[Place(af, i)..] == Piece(af, prefix[i], i) + Address(af, prefix, i + 1)
  {
    hide Piece;
    var s := Address(af, prefix, 0);
    if i == 0 {
      assert s[0..] == s;
    } else {
      AddressFrom(af, prefix, i - 1);
      var p := Place(af, i - 1);
      var piece, rest := Piece(af, prefix[i - 1], i - 1), Address(af, prefix, i);
      assert Place(af, i) == p + |piece|;
      assert s[p..][|piece|..] == rest && s[p..][|piece|..] == s[p + |piece|..];
    }
  }

  /** The address text. Of an IPv4 address: three digits for each byte, with dots between
      them. Of an IPv6 address: two hexadecimal digits for each byte, with a colon behind
      every second. */
  lemma {:induction false} AddressShape(af: Family, prefix: seq<bv8>, i: nat)
    requires |prefix| == Width(af) && i < |prefix|
    ensures var s, p, b := Address(af, prefix, 0), Place(af, i), prefix[i] as int;
            if af == Inet then
              && p + 3 <= |s| && AllDigits(s[p..p + 3]) && DecimalValue(s[p..p + 3]) == b
              && (i < 3 ==> p + 3 < |s| && s[p + 3] == '.')
            else
              && p + 2 <= |s| && AllHex(s[p..p + 2]) && HexValue(s[p..p + 2]) == b
              && (i % 2 == 1 && i < 15 ==> p + 2 < |s| && s[p + 2] == ':')
  {
    hide Address, Piece;
    var s, p := Address(af, prefix, 0), Place(af, i);
    AddressFrom(af, prefix, i);
    PieceShape(af, prefix[i], i);
    SliceOfPiece(s, p, Piece(af, prefix[i], i));
  }

  lemma {:induction false} SliceOfPiece(s: string, p: nat, piece: string)
    requires p + |piece| <= |s| && piece <= s[p..]
    ensures forall n :: 0 <= n <= |piece| ==> s[p..p + n] == piece[..n]
    ensures forall k :: 0 <= k < |piece| ==> s[p + k] == piece[k]
  {
  }

  lemma {:induction false} PieceShape(af: Family, byte: bv8, i: nat)
    ensures var piece, b := Piece(af, byte, i), byte as int;
            if af == Inet then
              && 3 <= |piece| && AllDigits(piece[..3]) && DecimalValue(piece[..3]) == b
              && (i < 3 ==> |piece| == 4 && piece[3] == '.')
            else
              && 2 <= |piece| && AllHex(piece[..2]) && HexValue(piece[..2]) == b
              && (i % 2 == 1 && i < 15 ==> |piece| == 3 && piece[2] == ':')
  {
    var piece, b := Piece(af, byte, i), byte as int;
    if af == Inet {
      assert piece[..3] == Decimal3(b);
      Decimal3Reads(b);
    } else {
      assert piece[..2] == Hex(b, 2);
      assert Power16(2) == 16 * Power16(1) && Power16(1) == 16 * Power16(0);
      HexRoundTrip(b, 2);
    }
  }

  lemma {:induction false} Decimal3Reads(n: nat)
    requires n < 1000
    ensures AllDigits(Decimal3(n)) && DecimalValue(Decimal3(n)) == n
  {
    var d := Decimal3(n);
    ThreeDigits(n);
    assert d[..2][..1] == d[..1] && d[..1][..0] == "";
    assert DecimalValue(d[..1]) == n / 100;
    assert DecimalValue(d[..2]) == 10 * (n / 100) + n / 10 % 10;
  }

  /** Different networks have different keys. */
  lemma {:induction false} KeyInjective(a: NetInfo, b: NetInfo)
    requires IsNetwork(a) && IsNetwork(b)
    ensures Key(a) == Key(b) <==> a == b
  {
    if Key(a) == Key(b) {
      var x, y := Address(a.af, a.prefix, 0), Address(b.af, b.prefix, 0);
      AddressLength(a.af, a.prefix);
      AddressLength(b.af, b.prefix);
      assert x[3] == Key(a)[3] == Key(b)[3] == y[3];
      AddressInjective(a.af, a.prefix, b.prefix, 0);
      assert x == Key(a)[..|x|] == Key(b)[..|y|] == y;
      assert DecimalInt(a.masklen) == Key(a)[|x| + 1..] == Key(b)[|y| + 1..] == DecimalInt(b.masklen);
      DecimalRoundTrip(a.masklen);
      DecimalRoundTrip(b.masklen);
    }
  }

  /** Number an address stands for, most significant byte first. */
  ghost function AddressValue(prefix: seq<bv8>): nat {
    if prefix == [] then 0 else 256 * AddressValue(prefix[..|prefix| - 1]) + prefix[|prefix| - 1] as int
  }

  lemma {:induction false} AddressOrder(a: seq<bv8>, b: seq<bv8>, i: nat)
    requires |a| == |b| && i < |a| && a[..i] == b[..i] && a[i] as int < b[i] as int
    ensures AddressValue(a) < AddressValue(b)
  {
    var n := |a| - 1;
    if i == n {
    } else {
      AddressOrder(a[..n], b[..n], i);
    }
  }

  /** `compare_addr`: -2 for different families, otherwise the order of the two
      addresses as numbers. */
  method CompareAddr(a: NetInfo, b: NetInfo) returns (r: int)
    requires IsNetwork(a) && IsNetwork(b)
    ensures a.af != b.af ==> r == -2
    ensures a.af == b.af ==>
      var x, y := AddressValue(a.prefix), AddressValue(b.prefix);
      r == (if x < y then -1 else if x > y then 1 else 0) && (r == 0 ==> a.prefix == b.prefix)
  {
    if a.af != b.af {
      return -2;
    }
    var i := 0;
    while i < |a.prefix|
      invariant 0 <= i <= |a.prefix| && a.prefix[..i] == b.prefix[..i]
    {
      if (a.prefix[i] as int) < (b.prefix[i] as int) {
        AddressOrder(a.prefix, b.prefix, i);
        return -1;
      }
      if (a.prefix[i] as int) > (b.prefix[i] as int) {
        AddressOrder(b.prefix, a.prefix, i);
        return 1;
      }
      ByteIsItsNumber(a.prefix[i], b.prefix[i]);
      i := i + 1;
    }
    assert a.prefix == b.prefix;
    return 0;
  }
}
