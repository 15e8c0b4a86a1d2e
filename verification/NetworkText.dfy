/** Reading a network from a query (`get_network_prefix_and_len` of ip_network.c),
    around a library that reads addresses. */
module NetworkText {
  import opened Text
  import opened Numerals
  import opened CStrings
  import opened Network

  datatype IpAddress = IpAddress(af: Family, bytes: seq<bv8>)

  /** `addrstring_to_ni`: the address of either family that a text stands for. */
  type AddressReader = string -> Option<IpAddress>

  ghost predicate ReadsWhole(read: AddressReader) {
    forall s :: read(s).Some? ==> |read(s).value.bytes| == Width(read(s).value.af)
  }

  /** `strrchr`: where the last `c` stands, or the end. */
  function FindLast(s: string, c: char): (i: nat)
    ensures i <= |s|
    ensures i < |s| ==> s[i] == c && Lacks(s[i + 1..], c)
    ensures i == |s| ==> Lacks(s, c)
  {
    if s == "" then 0
    else
      var n := |s| - 1;
      if s[n] == c then n
      else
        var i := FindLast(s[..n], c);
        assert s == s[..n] + [s[n]];
        assert i < n ==> s[i + 1..] == s[..n][i + 1..] + [s[n]];
        if i == n then |s| else i
  }

  /** The network a text stands for: an address and, behind the last slash, a prefix
      length. Without one, or with a negative one, it is the address alone. Bits behind
      the prefix are cleared. */
  function ParseNetwork(read: AddressReader, s: string): (r: Option<NetInfo>)
    requires ReadsWhole(read)
    ensures r.Some? ==> IsCanonical(r.value)
  {
    if s == "" then None
    else
      var slash := FindLast(s, '/');
      var len := if slash < |s| then Atoi(s[slash + 1..]) else -1;
      var address := read(s[..slash]);
      if address.None? then None
      else
        var IpAddress(af, bytes) := address.value;
        var max := 8 * Width(af);
        if len > max then None
        else
          var masklen := if len >= 0 then len else max;
          MaskComposes(bytes, masklen, masklen);
          Some(NetInfo(af, Mask(bytes, masklen), masklen))
  }

  lemma {:induction false} SlashIsLast(a: string, b: string)
    requires Lacks(b, '/')
    ensures FindLast(a + "/" + b, '/') == |a|
  {
    if b != "" {
      var n := |b| - 1;
      assert (a + "/" + b)[..|a| + 1 + n] == a + "/" + b[..n];
      SlashIsLast(a, b[..n]);
    }
  }

  lemma {:induction false} WholeMask(bytes: seq<bv8>)
    ensures Mask(bytes, 8 * |bytes|) == bytes
  {
  }

  /** A text without a slash: the address it is read as, with all its bits, or nothing
      if it is empty or no address. */
  lemma {:induction false} AddressAlone(read: AddressReader, s: string)
    requires ReadsWhole(read) && Lacks(s, '/')
    ensures ParseNetwork(read, s)
            == if s == "" || read(s).None? then None
               else Some(NetInfo(read(s).value.af, read(s).value.bytes, 8 * Width(read(s).value.af)))
  {
    assert s[..|s|] == s;
    if s != "" && read(s).Some? {
      WholeMask(read(s).value.bytes);
    }
  }

  /** A text with a slash, `len` being the number behind the last one: nothing if what
      stands before is no address or the length is too large; the whole address if it
      is negative; and else the network of that length that contains the address. */
  lemma {:induction false} AddressAndLength(read: AddressReader, text: string, number: string, len: int)
    requires ReadsWhole(read) && Lacks(number, '/') && len == Atoi(number)
    ensures var a, r := read(text), ParseNetwork(read, text + "/" + number);
            && (r.None? <==> a.None? || len > 8 * Width(a.value.af))
            && (r.Some? && len < 0 ==> r.value == NetInfo(a.value.af, a.value.bytes, 8 * Width(a.value.af)))
            && (r.Some? && len >= 0 ==>
                  IsCanonical(r.value) && r.value.masklen == len
                  && Covers(r.value, NetInfo(a.value.af, a.value.bytes, 8 * Width(a.value.af))))
  {
    hide Atoi, FindLast, MaskByte;
    var s := text + "/" + number;
    SlashIsLast(text, number);
    assert s[..|text|] == text && s[|text| + 1..] == number;
    var a, r := read(text), ParseNetwork(read, s);
    if r.Some? {
      WholeMask(a.value.bytes);
      if len >= 0 {
        CoversIsWidened(r.value, NetInfo(a.value.af, a.value.bytes, 8 * Width(a.value.af)));
      }
    }
  }

  /** The length as a number. */
  lemma {:induction false} ParsedContains(read: AddressReader, text: string, len: int)
    requires ReadsWhole(read) && read(text).Some?
    ensures var a, r := read(text).value, ParseNetwork(read, text + "/" + DecimalInt(len));
            var whole := NetInfo(a.af, a.bytes, 8 * Width(a.af));
            && (r.None? <==> len > 8 * Width(a.af))
            && (len < 0 ==> r == Some(whole))
            && (0 <= len <= 8 * Width(a.af) ==> r.value.masklen == len && Covers(r.value, whole))
  {
    hide Atoi, ParseNetwork, DecimalInt;
    AtoiReadsDecimal(len);
    NumberHasNoSlash(len);
    AddressAndLength(read, text, DecimalInt(len), len);
  }

  lemma {:induction false} NumberHasNoSlash(n: int)
    ensures Lacks(DecimalInt(n), '/')
  {
  }

  /** A network is read back from its key, if the address in it is. */
  lemma {:induction false} KeyReadsBack(read: AddressReader, n: NetInfo)
    requires ReadsWhole(read) && IsCanonical(n)
    requires read(Address(n.af, n.prefix, 0)) == Some(IpAddress(n.af, n.prefix))
    ensures ParseNetwork(read, Key(n)) == Some(n)
  {
    hide Address, Atoi, FindLast, MaskByte;
    var text, len := Address(n.af, n.prefix, 0), DecimalInt(n.masklen);
    var s := Key(n);
    SlashIsLast(text, len);
    assert s[..|text|] == text && s[|text| + 1..] == len;
    AtoiReadsDecimal(n.masklen);
  }
}
