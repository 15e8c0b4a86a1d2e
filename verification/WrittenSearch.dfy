/** Searches over files as they are written: index lines for items, data files that
    hold the records they point at. What is found is said in terms of those alone. */
module WrittenSearch {
  import opened Text
  import opened CStrings
  import opened IndexLine
  import opened IndexBuild
  import opened LineFile
  import opened Bisection
  import opened DataFile
  import opened Walking
  import opened IndexScan
  import opened SearchEngine

  // ---- The first match ----------------------------------------------------

  /** Where the line of item `k` starts. */
  function OffsetOf(items: seq<IndexItem>, k: nat): nat
    requires k <= |items|
  {
    |Written(IndexTexts(items)[..k])|
  }

  ghost predicate AreIndexable(items: seq<IndexItem>) {
    forall k :: 0 <= k < |items| ==> IsIndexable(items[k])
  }

  lemma {:induction false} ValueStands(items: seq<IndexItem>, k: nat)
    requires k < |items| && AreIndexable(items)
    ensures var f := Written(IndexTexts(items));
            IsLine(f, OffsetOf(items, k)) && ValueAt(f, OffsetOf(items, k)) == items[k].value
  {
    hide Decode, LineAt, IsIndexable, Written, Encode;
    WrittenStands(items, k);
    assert StandsAt(items, k, OffsetOf(items, k));
  }

  /** Item `k` is the first whose value the query looks for. */
  ghost predicate IsFirstItem(items: seq<IndexItem>, comp: CompareType, q: string, k: nat) {
    && k < |items| && Selects(comp, q, items[k].value)
    && forall j :: 0 <= j < k ==> !Selects(comp, q, items[j].value)
  }

  /** The bisection of a written index gives the place of the first item whose value
      the query looks for, and -1 if and only if there is none. */
  lemma {:induction false} FirstWritten(items: seq<IndexItem>, comp: CompareType, q: string, r: int)
    requires AreIndexable(items) && IsFirstSelected(Written(IndexTexts(items)), comp, q, r)
    ensures r == -1 <==> forall k :: 0 <= k < |items| ==> !Selects(comp, q, items[k].value)
    ensures forall k: nat :: IsFirstItem(items, comp, q, k) ==> r == OffsetOf(items, k)
  {
    hide Selects, ValueAt, Written, IsIndexable, Encode;
    forall k | 0 <= k < |items| && Selects(comp, q, items[k].value) ensures r != -1 && r <= OffsetOf(items, k) {
      ValueStands(items, k);
    }
    if r != -1 {
      var i := WrittenItem(items, r);
      ValueStands(items, i);
      assert Selects(comp, q, items[i].value);
      forall k: nat | IsFirstItem(items, comp, q, k) ensures r == OffsetOf(items, k) {
        if k < i {
          WrittenGrows(IndexTexts(items), k, i);
        }
      }
    }
  }

  // ---- The records --------------------------------------------------------

  /** The query wants what an index line points at: the line is live, of an attribute
      the query admits, and has a value it looks for. */
  ghost predicate IsWanted(scope: Scope, q: Term, item: IndexItem) {
    && item.deletedFlag == 0
    && (q.attributeId == 0 || q.attributeId == -2 || q.attributeId == item.attributeId)
    && (item.attributeId in scope.idAttributes ==> q.attributeId == item.attributeId)
    && Selects(q.comp, q.searchValue, item.value)
  }

  /** Every term of the AND list is satisfied. */
  ghost predicate SatisfiesAll(pairs: seq<Pair>, terms: seq<Term>) {
    forall t :: t in terms ==> Satisfies(pairs, t)
  }

  /** The query selects the record behind an index line, which is written as `lines`. */
  ghost predicate IsAnswer(scope: Scope, q: Conjunction, item: IndexItem, lines: seq<WrittenLine>) {
    && AttributesOf(lines) != [] && IsWanted(scope, q.head, item)
    && SatisfiesAll(scope.translate(AttributesOf(lines)), q.andList)
  }

  /** The record behind an index line: where it is from, and its attributes, perhaps in
      upper case. */
  ghost predicate IsRecordOf(scope: Scope, item: IndexItem, lines: seq<WrittenLine>, r: Record) {
    && r.authArea == scope.authArea && r.className == scope.className && r.indexFileNo == scope.indexFileNo
    && r.dataFileNo == item.dataFileNo && r.offset == item.offset
    && SameFolded(scope.translate(AttributesOf(lines)), r.pairs)
  }

  /** The data file a live item names holds these lines where the item says. */
  ghost predicate IsHeld(scope: Scope, item: IndexItem, lines: seq<WrittenLine>) {
    item.deletedFlag == 0 ==>
      item.dataFileNo in scope.files && HoldsRecord(scope.files[item.dataFileNo], item.offset, lines)
  }

  lemma {:induction false} FetchIs(scope: Scope, item: IndexItem, lines: seq<WrittenLine>, status: RecStatus)
    requires item.deletedFlag == 0 && IsHeld(scope, item, lines)
    ensures var found := Fetch(scope, item, status).0;
            && (found.Some? <==> AttributesOf(lines) != [])
            && (found.Some? ==>
                  IsRecordOf(scope, item, lines, found.value)
                  && found.value.pairs == scope.translate(AttributesOf(lines)))
  {
    hide ReadFrom, KindOf, AttributesOf;
    RecordReads(scope.files[item.dataFileNo], item.offset, lines);
  }

  /** The hit of an index line is the record written where it points, exactly when the
      query selects it. */
  lemma {:induction false} HitOfWritten(scope: Scope, q: Conjunction, item: IndexItem, lines: seq<WrittenLine>)
    requires IsHeld(scope, item, lines)
    ensures var hit := HitOf(scope, q, item);
            && (hit.Some? <==> IsAnswer(scope, q, item, lines))
            && (hit.Some? ==> IsRecordOf(scope, item, lines, hit.value))
  {
    hide Fetch, Selects, SearchCompare, CheckTerms, AttributesOf;
    if item.deletedFlag == 0 {
      FetchIs(scope, item, lines, REC_FATAL);
      SearchCompareMeans(q.head.comp, q.head.searchValue, item.value);
      CheckTermsMeans(scope.translate(AttributesOf(lines)), q.andList);
    }
  }

  // ---- Whole scans --------------------------------------------------------

  /** An index and what its lines point at. */
  ghost predicate IsStored(scope: Scope, items: seq<IndexItem>, records: seq<seq<WrittenLine>>) {
    && |records| == |items| && AreIndexable(items)
    && (forall k :: 0 <= k < |items| ==> |Encode(items[k])| + 1 < MAX_LINE && IsHeld(scope, items[k], records[k]))
  }

  /** Two records from the same place. */
  predicate IsSamePlace(r: Record, r': Record) {
    && HasSameLetters(r.authArea, r'.authArea) && HasSameLetters(r.className, r'.className)
    && r.dataFileNo == r'.dataFileNo && r.offset == r'.offset
  }

  /** Record `r` answers the query. */
  ghost predicate Answers(
      scope: Scope, items: seq<IndexItem>, records: seq<seq<WrittenLine>>, q: Conjunction, r: Record)
    requires |records| == |items|
  {
    exists k :: 0 <= k < |items| && IsAnswer(scope, q, items[k], records[k])
                && IsRecordOf(scope, items[k], records[k], r)
  }

  /** What a search leaves behind: the list it started with, and behind it answers of
      the query, none twice; and if it says so, all of them. */
  ghost predicate IsSearched(
      scope: Scope, items: seq<IndexItem>, records: seq<seq<WrittenLine>>, q: Conjunction, before: seq<Record>,
      after: seq<Record>, code: RetCode)
    requires |records| == |items|
  {
    && before <= after
    && (forall k :: |before| <= k < |after| ==> Answers(scope, items, records, q, after[k]))
    && (forall j, k :: 0 <= j < k < |after| && |before| <= k ==> !IsSamePlace(after[j], after[k]))
    && (code == SearchSuccessful ==>
          forall k :: 0 <= k < |items| && IsAnswer(scope, q, items[k], records[k]) ==>
            exists j :: 0 <= j < |after| && IsAt(scope, items[k], after[j]))
  }

  /** Record `r` is from the place an item names. */
  predicate IsAt(scope: Scope, item: IndexItem, r: Record) {
    && HasSameLetters(r.authArea, scope.authArea) && HasSameLetters(r.className, scope.className)
    && r.dataFileNo == item.dataFileNo && r.offset == item.offset
  }

  lemma {:induction false} HitForIsAt(scope: Scope, item: IndexItem, r: Record)
    ensures IsHitFor(scope, item, r) <==> IsAt(scope, item, r)
  {
    IgnoringCaseMeans(r.authArea, scope.authArea);
    IgnoringCaseMeans(r.className, scope.className);
  }

  /** A hit that is not listed is from another place than what is. */
  lemma {:induction false} NewIsElsewhere(scope: Scope, q: Conjunction, item: IndexItem, rs: seq<Record>, j: nat)
    requires HitOf(scope, q, item).Some? && !IsListed(scope, item, rs) && j < |rs|
    ensures !IsSamePlace(rs[j], HitOf(scope, q, item).value)
  {
    hide CheckTerms, SearchCompare, ReadFrom;
    HitForIsAt(scope, item, rs[j]);
    assert !IsHitFor(scope, item, rs[j]);
  }

  /** A scan lists nothing twice. */
  lemma {:induction false} WalkListsOnce(
      scope: Scope, q: Conjunction, f: string, p: nat, visit: (nat, Hits) -> Verdict<Hits>, s: Hits, j: nat, k: nat)
    requires HasWholeLines(f) && p <= |f| && IsBol(f, p) && visit == Visitor(scope, q, f, true)
    requires |s.records| <= k < |Walk(f, p, visit, s).0.records| && j < k
    ensures var after := Walk(f, p, visit, s).0.records; !IsSamePlace(after[j], after[k])
    decreases |f| - p
  {
    hide Visit, LineItem, HitOf, IsListed, IsSamePlace;
    if p < |f| {
      NextLine(f, p);
      var v, item, next := visit(p, s), LineItem(f, p), LineEnd(f, p);
      VisitAdds(scope, q, item, s);
      if v.Continue? {
        VisitorAddsHits(scope, q, f);
        WalkExtends(f, next, visit, HitAt(scope, q, f), ListedAt(scope, f), v.state);
        if k < |v.state.records| {
          NewIsElsewhere(scope, q, item, s.records, j);
        } else {
          WalkListsOnce(scope, q, f, next, visit, v.state, j, k);
        }
      }
    }
  }

  lemma {:induction false} WrittenIsWhole(items: seq<IndexItem>)
    requires AreIndexable(items) && forall k :: 0 <= k < |items| ==> |Encode(items[k])| + 1 < MAX_LINE
    ensures HasWholeLines(Written(IndexTexts(items)))
    ensures IsScannable(Written(IndexTexts(items)))
  {
    hide Decode, LineAt, IsIndexable, Written, Encode;
    var f := Written(IndexTexts(items));
    WrittenIsTerminated(IndexTexts(items));
    forall p | IsLine(f, p) ensures LineEnd(f, p) - p < MAX_LINE && IsDecodable(LineAt(f, p, MAX_BUF)) {
      var i := WrittenItem(items, p);
      SomeIsDecodable(LineAt(f, p, MAX_BUF));
    }
  }

  /** The item on a line of a written index. */
  lemma {:induction false} LineItemIs(items: seq<IndexItem>, p: nat) returns (i: nat)
    requires AreIndexable(items) && HasWholeLines(Written(IndexTexts(items))) && IsLine(Written(IndexTexts(items)), p)
    ensures i < |items| && p == OffsetOf(items, i) && LineItem(Written(IndexTexts(items)), p) == items[i]
  {
    hide Decode, LineAt, IsIndexable, Written, Encode;
    i := WrittenItem(items, p);
    SameLine(Written(IndexTexts(items)), p);
  }

  lemma {:induction false} ItemIsOnLine(items: seq<IndexItem>, k: nat)
    requires k < |items| && AreIndexable(items) && HasWholeLines(Written(IndexTexts(items)))
    ensures var f := Written(IndexTexts(items));
            IsLine(f, OffsetOf(items, k)) && LineItem(f, OffsetOf(items, k)) == items[k]
  {
    hide Decode, LineAt, IsIndexable, Written, Encode;
    WrittenStands(items, k);
    assert StandsAt(items, k, OffsetOf(items, k));
    SameLine(Written(IndexTexts(items)), OffsetOf(items, k));
  }

  lemma {:induction false} NewAnswers(
      scope: Scope, items: seq<IndexItem>, records: seq<seq<WrittenLine>>, q: Conjunction, f: string, r: Record)
    requires IsStored(scope, items, records) && f == Written(IndexTexts(items)) && HasWholeLines(f)
    requires IsHitAfter(f, HitAt(scope, q, f), 0, r)
    ensures Answers(scope, items, records, q, r)
  {
    hide Written, HitOf, IsAnswer, IsRecordOf, LineItem, IsHeld, IsIndexable;
    var line: nat :| IsLine(f, line) && HitAt(scope, q, f)(line) == Some(r);
    var i := LineItemIs(items, line);
    HitOfWritten(scope, q, items[i], records[i]);
  }

  lemma {:induction false} AnswerIsListed(
      scope: Scope, items: seq<IndexItem>, records: seq<seq<WrittenLine>>, q: Conjunction, f: string, k: nat,
      after: seq<Record>)
    requires IsStored(scope, items, records) && f == Written(IndexTexts(items)) && HasWholeLines(f)
    requires k < |items| && IsAnswer(scope, q, items[k], records[k])
    requires forall line: nat :: IsLine(f, line) && HitAt(scope, q, f)(line).Some? ==> ListedAt(scope, f)(line, after)
    ensures exists j :: 0 <= j < |after| && IsAt(scope, items[k], after[j])
  {
    hide Written, HitOf, IsAnswer, IsRecordOf, LineItem, IsHeld, IsIndexable, IsHitFor, IsAt;
    var line := OffsetOf(items, k);
    ItemIsOnLine(items, k);
    HitOfWritten(scope, q, items[k], records[k]);
    assert HitAt(scope, q, f)(line).Some?;
    assert ListedAt(scope, f)(line, after);
    var j :| 0 <= j < |after| && IsHitFor(scope, items[k], after[j]);
    HitForIsAt(scope, items[k], after[j]);
  }

  /** A find-all scan of a written index, from any list: it appends answers of the
      query, none from a place that is listed already, and all of them if it ends
      well. */
  lemma {:induction false} ScanOfWritten(
      scope: Scope, items: seq<IndexItem>, records: seq<seq<WrittenLine>>, q: Conjunction, s: Hits)
    requires IsStored(scope, items, records)
    ensures var f := Written(IndexTexts(items));
            var (after, code) := Walk(f, 0, Visitor(scope, q, f, true), s);
            IsSearched(scope, items, records, q, s.records, after.records, code)
  {
    hide Written, Walk, Visitor, HitAt, ListedAt, IsAnswer, Answers, IsHeld, IsIndexable, Encode, IsSamePlace, IsAt;
    var f := Written(IndexTexts(items));
    var visit := Visitor(scope, q, f, true);
    WrittenIsWhole(items);
    FullScanFinds(scope, q, f, s);
    var (after, code) := Walk(f, 0, visit, s);
    forall k | |s.records| <= k < |after.records| ensures Answers(scope, items, records, q, after.records[k]) {
      NewAnswers(scope, items, records, q, f, after.records[k]);
    }
    forall j, k | 0 <= j < k < |after.records| && |s.records| <= k
      ensures !IsSamePlace(after.records[j], after.records[k])
    {
      WalkListsOnce(scope, q, f, 0, visit, s, j, k);
    }
    if code == SearchSuccessful {
      forall k | 0 <= k < |items| && IsAnswer(scope, q, items[k], records[k])
        ensures exists j :: 0 <= j < |after.records| && IsAt(scope, items[k], after.records[j])
      {
        AnswerIsListed(scope, items, records, q, f, k, after.records);
      }
    }
  }

  /** The exact search of a written index, either way: what it lists and what it
      promises is said by the items and the records alone. */
  method SearchWritten(
      searcher: Searcher, scope: Scope, items: seq<IndexItem>, ghost records: seq<seq<WrittenLine>>, q: Conjunction,
      how: SearchType, garbage: RecStatus)
    returns (code: RetCode)
    requires IsStored(scope, items, records) && how in {FullScanType, BinarySearchType}
    requires how == BinarySearchType ==>
               InOrder(items) && q.head.comp != Substr
               && forall k :: 0 <= k < |items| ==> |Encode(items[k])| + 1 <= SHORT
    modifies searcher
    ensures IsSearched(scope, items, records, q, old(searcher.records), searcher.records, code)
    ensures searcher.hitCount - old(searcher.hitCount) == |searcher.records| - |old(searcher.records)|
  {
    hide Written, Walk, Visitor, IsHeld, IsIndexable, Encode, IsSearched, InOrder;
    var f := Written(IndexTexts(items));
    WrittenIsWhole(items);
    if how == BinarySearchType {
      WrittenIsIndex(items);
      WrittenLengths(items, SHORT);
    }
    ghost var s := Hits(searcher.records, searcher.hitCount, garbage);
    code := searcher.SearchExactIndexFile(scope, f, q, how, garbage);
    ScanOfWritten(scope, items, records, q, s);
    WalkCounts(scope, q, f, 0, s);
  }

  /** The counter counts what is listed. */
  lemma {:induction false} WalkCounts(scope: Scope, q: Conjunction, f: string, p: nat, s: Hits)
    requires HasWholeLines(f) && p <= |f| && IsBol(f, p)
    ensures var after := Walk(f, p, Visitor(scope, q, f, true), s).0;
            after.count - s.count == |after.records| - |s.records|
    decreases |f| - p
  {
    hide Visit, LineItem;
    if p < |f| {
      NextLine(f, p);
      VisitAdds(scope, q, LineItem(f, p), s);
      var v := Visit(scope, q, true, LineItem(f, p), s);
      if v.Continue? {
        WalkCounts(scope, q, f, LineEnd(f, p), v.state);
      }
    }
  }
}
