/** A search for a network that reaches its hit limit and does not say so. Two live
    records are indexed under the network asked for; the limit is one. The index also
    holds a deleted entry for the whole address space, whose scan comes last and ends
    well. */
module CidrLimit {
  import opened Text
  import opened Numerals
  import opened CStrings
  import opened IndexLine
  import opened IndexBuild
  import opened LineFile
  import opened Bisection
  import opened DataFile
  import opened Walking
  import opened IndexScan
  import opened SearchEngine
  import opened Network
  import opened CidrSearch
  import opened DeletionFailures

  // ---- The example --------------------------------------------------------

  const NET := NetInfo(Inet, [128, 0, 0, 0], 1)
  const WHOLE := NetInfo(Inet, [0, 0, 0, 0], 0)

  const DATA := FIRST + (DASHES + SECOND)

  const SCOPE := Scope("area", "class", 1, {}, map[1 := DATA], (raw: seq<Attribute>) => [], 1)

  const QUERY := Conjunction(IndexScan.Term(ANY, Full, ""), [])

  function Items(): (items: seq<IndexItem>)
    ensures |items| == 3
  {
    [IndexItem(0, 1, 1, 1, Key(WHOLE)), IndexItem(0, 1, 0, 1, Key(NET)), IndexItem(9, 1, 0, 1, Key(NET))]
  }

  function File(): string {
    Written(IndexTexts(Items()))
  }

  // ---- The keys -----------------------------------------------------------

  lemma {:induction false} AddressText(b: bv8)
    ensures |Address(Inet, [b, 0, 0, 0], 0)| == 15
    ensures AllKept(Address(Inet, [b, 0, 0, 0], 0))
    ensures Address(Inet, [b, 0, 0, 0], 0)[0] == Digit(b as int / 100)
  {
    var prefix: seq<bv8> := [b, 0, 0, 0];
    assert Address(Inet, prefix, 4) == "";
    assert Address(Inet, prefix, 3) == Piece(Inet, 0, 3) + "";
    assert Address(Inet, prefix, 2) == Piece(Inet, 0, 2) + Address(Inet, prefix, 3);
    assert Address(Inet, prefix, 1) == Piece(Inet, 0, 1) + Address(Inet, prefix, 2);
    assert Address(Inet, prefix, 0) == Piece(Inet, b, 0) + Address(Inet, prefix, 1);
    PieceIsKept(0, 1);
    PieceIsKept(0, 2);
    PieceIsKept(0, 3);
    PieceIsKept(b, 0);
  }

  lemma {:induction false} PieceIsKept(b: bv8, i: nat)
    ensures AllKept(Piece(Inet, b, i)) && Piece(Inet, b, i)[0] == Digit(b as int / 100)
  {
  }

  lemma {:induction false} KeyText(n: NetInfo, b: bv8, d: nat)
    requires n == NetInfo(Inet, [b, 0, 0, 0], d) && d < 10
    ensures |Key(n)| == 17 && AllKept(Key(n)) && IsDigit(Key(n)[16]) && Key(n)[0] == Digit(b as int / 100)
  {
    hide Address;
    AddressText(b);
    assert DecimalInt(d) == [Digit(d)];
    assert Key(n) == Address(Inet, [b, 0, 0, 0], 0) + "/" + [Digit(d)];
  }

  lemma {:induction false} Keys()
    ensures |Key(NET)| == 17 && AllKept(Key(NET)) && IsDigit(Key(NET)[16]) && Key(NET)[0] == '1'
    ensures |Key(WHOLE)| == 17 && AllKept(Key(WHOLE)) && IsDigit(Key(WHOLE)[16]) && Key(WHOLE)[0] == '0'
  {
    hide Key;
    KeyText(NET, 128, 1);
    KeyText(WHOLE, 0, 0);
    assert 128 as bv8 as int == 128;
  }

  lemma {:induction false} ItemText(item: IndexItem)
    requires item.offset in {0, 9} && item.dataFileNo == 1 && item.deletedFlag in {0, 1} && item.attributeId == 1
    requires |item.value| == 17 && AllKept(item.value) && IsDigit(item.value[16])
    ensures IsIndexable(item) && |Encode(item)| == 25
  {
    assert DecimalInt(0) == "0" && DecimalInt(1) == "1" && DecimalInt(9) == "9";
  }

  lemma {:induction false} ItemsAreIndexable()
    ensures InOrder(Items()) && forall k :: 0 <= k < 3 ==> IsIndexable(Items()[k]) && |Encode(Items()[k])| == 25
  {
    hide Key, IsIndexable, Encode;
    Keys();
    var items := Items();
    ItemText(items[0]);
    ItemText(items[1]);
    ItemText(items[2]);
    KeysInOrder();
  }

  lemma {:induction false} KeysInOrder()
    ensures Strcmp(Key(WHOLE), Key(NET)) == -1 && Strcmp(Key(NET), Key(NET)) == 0 && Strcmp(Key(WHOLE), Key(WHOLE)) == 0
  {
    hide Key;
    Keys();
  }

  /** The file is an index that `binary_search` can be used on. */
  lemma {:induction false} IsSearchable()
    ensures IsIndex(File()) && HasShortLines(File()) && HasWholeLines(File())
    ensures forall k :: 0 <= k < 3 ==> StandsAt(Items(), k, 26 * k)
    ensures |File()| == 78
  {
    hide Key, IsIndexable, Encode, InOrder, Written, Decode, LineAt;
    var items := Items();
    ItemsAreIndexable();
    WrittenIsIndex(items);
    WrittenLengths(items, SHORT);
    LengthsOf(IndexTexts(items));
    assert IndexTexts(items)[..3] == IndexTexts(items);
  }

  lemma {:induction false} LengthsOf(texts: seq<string>)
    requires |texts| == 3 && |texts[0]| == |texts[1]| == |texts[2]| == 25
    ensures |Written(texts[..0])| == 0 && |Written(texts[..1])| == 26 && |Written(texts[..2])| == 52
        && |Written(texts[..3])| == 78
  {
    assert texts[..1][..0] == texts[..0] && texts[..2][..1] == texts[..1] && texts[..3][..2] == texts[..2];
    assert Written(texts[..1]) == Written(texts[..0]) + (texts[0] + "\n");
    assert Written(texts[..2]) == Written(texts[..1]) + (texts[1] + "\n");
    assert Written(texts[..3]) == Written(texts[..2]) + (texts[2] + "\n");
  }

  lemma {:induction false} ItemAt(k: nat)
    requires k < 3
    ensures IsLine(File(), 26 * k) && LineItem(File(), 26 * k) == Items()[k]
    ensures FgetsEnd(File(), 26 * k, MAX_LINE) == 26 * (k + 1)
  {
    hide Key, Encode, Written, Decode, HasWholeLines, IsIndex, HasShortLines, Items;
    IsSearchable();
    ItemsAreIndexable();
    assert StandsAt(Items(), k, 26 * k);
    SameLine(File(), 26 * k);
    NextLine(File(), 26 * k);
  }

  // ---- The records --------------------------------------------------------

  lemma {:induction false} RecordsRead()
    ensures |DATA| == 14 && ReadFrom(DATA, 0, KindOf).pairs != [] && ReadFrom(DATA, 9, KindOf).pairs != []
  {
    hide KindOf, ReadFrom;
    AttributeLines();
    Starts(FIRST, DASHES + SECOND);
    ReadOne("", FIRST, DASHES + SECOND, KindOf);
    SumOfSums(FIRST, DASHES, SECOND);
    LastLine(FIRST + DASHES);
  }

  // ---- The scans ----------------------------------------------------------

  /** One line of a walk. */
  lemma {:induction false} WalkLine(f: string, p: nat, visit: (nat, Hits) -> Verdict<Hits>, s: Hits)
    requires p < |f|
    ensures Walk(f, p, visit, s)
            == match visit(p, s)
               case Continue(next) => Walk(f, FgetsEnd(f, p, MAX_LINE), visit, next)
               case Stop(last, code) => (last, code)
  {
  }

  lemma {:induction false} Visits(q: Conjunction, k: nat, s: Hits)
    requires k < 3
    ensures Visitor(SCOPE, q, File(), true)(26 * k, s) == Visit(SCOPE, q, true, Items()[k], s)
    ensures 26 * k < |File()|
  {
    hide Items, Visit, LineItem;
    ItemAt(k);
  }

  lemma {:induction false} WholeVisits(k: nat, s: Hits)
    requires k < 3
    ensures Visitor(SCOPE, ForNetwork(QUERY, WHOLE), File(), true)(26 * k, s) == Continue(s) && 26 * k < |File()|
  {
    hide Key, File, Visitor, LineItem, Walk;
    KeysInOrder();
    Visits(ForNetwork(QUERY, WHOLE), k, s);
  }

  /** The scan for the whole address space: the entry is deleted, and no other line
      matches. It ends well and leaves the list as it is. */
  lemma {:induction false} WholeScan(s: Hits)
    ensures Walk(File(), 0, Visitor(SCOPE, ForNetwork(QUERY, WHOLE), File(), true), s) == (s, SearchSuccessful)
  {
    hide Walk, Key, File, Visitor, LineItem, Visit, Items, FgetsEnd;
    var q := ForNetwork(QUERY, WHOLE);
    var visit := Visitor(SCOPE, q, File(), true);
    WholeVisits(0, s);
    WholeVisits(1, s);
    WholeVisits(2, s);
    ItemAt(0);
    ItemAt(1);
    ItemAt(2);
    WalkLine(File(), 0, visit, s);
    WalkLine(File(), 26, visit, s);
    WalkLine(File(), 52, visit, s);
    WalkEnds(visit, s);
  }

  lemma {:induction false} WalkEnds(visit: (nat, Hits) -> Verdict<Hits>, s: Hits)
    ensures |File()| == 78 && Walk(File(), 78, visit, s) == (s, SearchSuccessful)
  {
    hide File;
    IsSearchable();
  }

  function RecordAt(offset: int): Record {
    Record("area", "class", 1, offset, 1, [])
  }

  lemma {:induction false} TakeAt(q: Conjunction, item: IndexItem, s: Hits)
    requires item.dataFileNo == 1 && item.offset in {0, 9} && q.andList == []
    ensures Take(SCOPE, q, item, s)
            == if s.count < 1 then Continue(Hits(s.records + [RecordAt(item.offset)], s.count + 1, REC_OK))
               else Stop(Hits(s.records, s.count, REC_OK), HitLimitExceeded)
  {
    hide ReadFrom, KindOf;
    RecordsRead();
  }

  lemma {:induction false} NetVisits(status: RecStatus)
    ensures var q, s, s1 := ForNetwork(QUERY, NET), Hits([], 0, status), Hits([RecordAt(0)], 1, REC_OK);
            && Visit(SCOPE, q, true, Items()[0], s) == Continue(s)
            && Visit(SCOPE, q, true, Items()[1], s) == Continue(s1)
            && Visit(SCOPE, q, true, Items()[2], s1) == Stop(s1, HitLimitExceeded)
  {
    hide Key, Take;
    var q, s, s1 := ForNetwork(QUERY, NET), Hits([], 0, status), Hits([RecordAt(0)], 1, REC_OK);
    KeysInOrder();
    TakeAt(q, Items()[1], s);
    TakeAt(q, Items()[2], s1);
    assert [] + [RecordAt(0)] == [RecordAt(0)];
    assert !IsHitFor(SCOPE, Items()[2], RecordAt(0));
    assert !IsListed(SCOPE, Items()[2], [RecordAt(0)]);
  }

  /** The scan for the network itself: one record is listed, and the second goes over
      the limit. */
  lemma {:induction false} NetScan(status: RecStatus)
    ensures Walk(File(), 0, Visitor(SCOPE, ForNetwork(QUERY, NET), File(), true), Hits([], 0, status))
            == (Hits([RecordAt(0)], 1, REC_OK), HitLimitExceeded)
  {
    hide Walk, Key, File, Visitor, Visit, Items, LineItem;
    var q, s, s1 := ForNetwork(QUERY, NET), Hits([], 0, status), Hits([RecordAt(0)], 1, REC_OK);
    var visit := Visitor(SCOPE, q, File(), true);
    NetVisits(status);
    Visits(q, 0, s);
    Visits(q, 1, s);
    Visits(q, 2, s1);
    ItemAt(0);
    ItemAt(1);
    WalkLine(File(), 0, visit, s);
    WalkLine(File(), 26, visit, s);
    WalkLine(File(), 52, visit, s1);
  }

  // ---- The loss -----------------------------------------------------------

  lemma {:induction false} Widenings()
    ensures IsNetwork(NET) && Widened(NET, 1) == NET && Widened(NET, 0) == WHOLE
  {
    assert Mask([128, 0, 0, 0], 1) == [128, 0, 0, 0];
    assert Mask([128, 0, 0, 0], 0) == [0, 0, 0, 0];
  }

  lemma {:induction false} WholeMatches()
    ensures Matches(File(), ForNetwork(QUERY, WHOLE))
  {
    hide Key, File, LineItem, LineAt, Decode;
    ItemAt(0);
    KeysInOrder();
    ValueIsItems(0);
    ComparisonAt(File(), Full, Key(WHOLE), 0);
  }

  lemma {:induction false} ValueIsItems(k: nat)
    requires k < 3
    ensures 26 * k <= |File()| && ValueAt(File(), 26 * k) == Items()[k].value
  {
    hide Key, Encode, Written, Decode, HasWholeLines, IsIndex, HasShortLines, Items, LineAt;
    IsSearchable();
    assert StandsAt(Items(), k, 26 * k);
  }

  /** From an empty list and a counter at zero: the scan for the network asked for
      reaches the limit with a second record unlisted, and the search as a whole
      returns success with one record. */
  lemma {:induction false} LimitIsLost(garbage: int -> RecStatus)
    ensures var f, s := File(), Hits([], 0, REC_OK);
            && IsIndex(f) && HasShortLines(f) && IsNetwork(NET)
            && Level(SCOPE, f, QUERY, NET, 1, s, garbage(1)).1 == HitLimitExceeded
            && Levels(SCOPE, f, QUERY, NET, 1, s, SearchSuccessful, garbage)
               == (Hits([RecordAt(0)], 1, garbage(0)), SearchSuccessful)
  {
    hide Key, File, Walk, Visitor, IsIndex, HasShortLines, Matches;
    var f, s := File(), Hits([], 0, REC_OK);
    IsSearchable();
    Widenings();
    NetScan(garbage(1));
    WholeScan(Hits([RecordAt(0)], 1, garbage(0)));
    WholeMatches();
    var s1 := Hits([RecordAt(0)], 1, REC_OK);
    assert Level(SCOPE, f, QUERY, NET, 1, s, garbage(1)) == (s1, HitLimitExceeded);
    assert Level(SCOPE, f, QUERY, NET, 0, s1, garbage(0)) == (Hits([RecordAt(0)], 1, garbage(0)), SearchSuccessful);
    var code := if Matches(f, ForNetwork(QUERY, NET)) then HitLimitExceeded else SearchSuccessful;
    LevelsStep(SCOPE, f, QUERY, NET, 1, s, SearchSuccessful, garbage);
    LevelsStep(SCOPE, f, QUERY, NET, 0, s1, code, garbage);
    LevelsEnd(SCOPE, f, QUERY, NET, Hits([RecordAt(0)], 1, garbage(0)), SearchSuccessful, garbage);
  }
}
