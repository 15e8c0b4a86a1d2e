/** Searching an unchanged index after a record has been deleted in its data
    file: the same hits, without that record. */
module DeletionSearch {
  import opened Text
  import opened IndexLine
  import opened LineFile
  import opened Bisection
  import opened DataFile
  import opened Walking
  import opened IndexScan
  import opened SearchEngine
  import opened HitLimit
  import opened Deletion

  /** A list without the records that `gone` picks out. */
  function Without(records: seq<Record>, gone: Record -> bool): seq<Record> {
    if records == [] then []
    else
      var last := records[|records| - 1];
      Without(records[..|records| - 1], gone) + if gone(last) then [] else [last]
  }

  lemma {:induction false} WithoutAppend(records: seq<Record>, r: Record, gone: Record -> bool)
    ensures Without(records + [r], gone) == if gone(r) then Without(records, gone) else Without(records, gone) + [r]
  {
    assert (records + [r])[..|records|] == records;
  }

  lemma {:induction false} WithoutKeeps(records: seq<Record>, gone: Record -> bool, r: Record)
    ensures r in Without(records, gone) <==> r in records && !gone(r)
  {
    if records != [] {
      var n := |records| - 1;
      WithoutKeeps(records[..n], gone, r);
      assert records == records[..n] + [records[n]];
    }
  }

  /** Two scans in step: the second has the list without the records gone, has
      counted no more, and its status says "no record" wherever the first does. */
  ghost predicate AreInStep(gone: Record -> bool, s: Hits, s': Hits) {
    && s'.records == Without(s.records, gone) && s'.count <= s.count
    && (s.status in {REC_NULL, REC_EOF} ==> s'.status in {REC_NULL, REC_EOF})
  }

  /** Where the first scan goes on, so does the second, in step; where the first
      stops, the second has lost nothing of its list. */
  ghost predicate StaysInStep(gone: Record -> bool, v: Verdict<Hits>, v': Verdict<Hits>) {
    if v.Continue? then v'.Continue? && AreInStep(gone, v.state, v'.state)
    else v.code != SearchSuccessful && Without(v.state.records, gone) <= v'.state.records
  }

  /** What the two visitors do with the line at `p`. */
  ghost predicate StepsAlike(
      f: string, visit: (nat, Hits) -> Verdict<Hits>, visit': (nat, Hits) -> Verdict<Hits>, gone: Record -> bool,
      p: nat, s: Hits, s': Hits) {
    IsLine(f, p) && AreInStep(gone, s, s') ==>
      StaysInStep(gone, visit(p, s), visit'(p, s'))
  }

  ghost predicate InStep(
      f: string, visit: (nat, Hits) -> Verdict<Hits>, visit': (nat, Hits) -> Verdict<Hits>, gone: Record -> bool) {
    && (forall p: nat, s: Hits, s': Hits {:trigger StepsAlike(f, visit, visit', gone, p, s, s')} ::
          StepsAlike(f, visit, visit', gone, p, s, s'))
    && (forall p: nat, s: Hits {:trigger visit'(p, s)} :: IsLine(f, p) ==> s.records <= visit'(p, s).state.records)
  }

  /** A walk only adds to its list. */
  lemma {:induction false} WalkGrows(f: string, p: nat, visit: (nat, Hits) -> Verdict<Hits>, s: Hits)
    requires HasWholeLines(f) && p <= |f| && IsBol(f, p)
    requires forall p: nat, s: Hits {:trigger visit(p, s)} :: IsLine(f, p) ==> s.records <= visit(p, s).state.records
    ensures s.records <= Walk(f, p, visit, s).0.records
    decreases |f| - p
  {
    if p < |f| {
      NextLine(f, p);
      var v := visit(p, s);
      if v.Continue? {
        WalkGrows(f, LineEnd(f, p), visit, v.state);
      }
    }
  }

  /** Whole walks: the second list starts with the first without the records gone,
      and when the first walk ends well it is exactly that, and the second ends well
      too. */
  lemma {:induction false} WalkInStep(
      f: string, p: nat, visit: (nat, Hits) -> Verdict<Hits>, visit': (nat, Hits) -> Verdict<Hits>,
      gone: Record -> bool,
      s: Hits, s': Hits)
    requires HasWholeLines(f) && p <= |f| && IsBol(f, p) && InStep(f, visit, visit', gone) && AreInStep(gone, s, s')
    ensures var (after, code) := Walk(f, p, visit, s);
            var (after', code') := Walk(f, p, visit', s');
            && Without(after.records, gone) <= after'.records
            && (code == SearchSuccessful ==> code' == SearchSuccessful && AreInStep(gone, after, after'))
    decreases |f| - p
  {
    if p < |f| {
      NextLine(f, p);
      assert StepsAlike(f, visit, visit', gone, p, s, s');
      var v, v' := visit(p, s), visit'(p, s');
      if v.Continue? {
        WalkInStep(f, LineEnd(f, p), visit, visit', gone, v.state, v'.state);
      } else if v'.Continue? {
        WalkGrows(f, LineEnd(f, p), visit', v'.state);
      }
    }
  }

  // ---- The search before and after a deletion -----------------------------

  /** The record at `off` of data file `no` can be deleted cleanly. */
  ghost predicate IsDeletion(scope: Scope, no: int, off: nat) {
    && no in scope.files && off <= |scope.files[no]|
    && IsDeletable(scope.files[no], off, KindOf) && HasRoom(scope.files[no], off, KindOf)
  }

  /** The scope of a search after that. */
  function AfterDeletion(scope: Scope, no: int, off: nat): Scope
    requires no in scope.files && off <= |scope.files[no]|
  {
    scope.(files := scope.files[no := Tombstoned(scope.files[no], off)])
  }

  /** The record of an index line is the deleted one or does not overlap it. */
  predicate IsApart(scope: Scope, no: int, off: nat, item: IndexItem)
    requires no in scope.files && off <= |scope.files[no]|
  {
    var data := scope.files[no];
    item.dataFileNo == no && item.offset != off && 0 <= item.offset <= |data| ==>
      ReadEnd(data, off, KindOf) <= item.offset || ReadEnd(data, item.offset, KindOf) <= off
  }

  predicate IsDeleted(item: IndexItem, no: int, off: nat) {
    item.dataFileNo == no && item.offset == off
  }

  /** Fetching after the deletion: nothing for the deleted record, the same as
      before for any other. */
  lemma {:induction false} FetchAfterDeletion(scope: Scope, no: int, off: nat, item: IndexItem, status: RecStatus)
    requires IsDeletion(scope, no, off) && IsApart(scope, no, off, item)
    ensures var after := Fetch(AfterDeletion(scope, no, off), item, status);
            if IsDeleted(item, no, off) then after.0.None? && after.1 in {REC_NULL, REC_EOF}
            else after == Fetch(scope, item, status)
  {
    hide ReadFrom, KindOf, IsDeletable, HasRoom, ReadEnd, Tombstoned;
    KindOfReadsMarks();
    if item.dataFileNo == no && 0 <= item.offset <= |scope.files[no]| {
      if item.offset == off {
        TombstoneReadsEmpty(scope.files[no], off, KindOf);
      } else {
        DeletionElsewhere(scope.files[no], off, item.offset, KindOf);
      }
    }
  }

  /** A record of the list that the deletion concerns. */
  function Gone(scope: Scope, no: int, off: nat): Record -> bool {
    (r: Record) => EqualIgnoringCase(r.authArea, scope.authArea) && EqualIgnoringCase(r.className, scope.className)
                   && r.dataFileNo == no && r.offset == off
  }

  lemma {:induction false} ListedWithout(scope: Scope, no: int, off: nat, item: IndexItem, records: seq<Record>)
    ensures IsListed(scope, item, Without(records, Gone(scope, no, off)))
            <==> !IsDeleted(item, no, off) && IsListed(scope, item, records)
  {
    var gone := Gone(scope, no, off);
    var rest := Without(records, gone);
    if IsListed(scope, item, rest) {
      var k :| 0 <= k < |rest| && IsHitFor(scope, item, rest[k]);
      WithoutKeeps(records, gone, rest[k]);
      var j :| 0 <= j < |records| && records[j] == rest[k];
    }
    if !IsDeleted(item, no, off) && IsListed(scope, item, records) {
      var k :| 0 <= k < |records| && IsHitFor(scope, item, records[k]);
      WithoutKeeps(records, gone, records[k]);
      var j :| 0 <= j < |rest| && rest[j] == records[k];
    }
  }

  /** A hit that is fetched by both scans. */
  lemma {:induction false} TakeInStep(
      scope: Scope, no: int, off: nat, q: Conjunction, item: IndexItem, s: Hits, s': Hits)
    requires IsDeletion(scope, no, off) && IsApart(scope, no, off, item) && AreInStep(Gone(scope, no, off), s, s')
    ensures StaysInStep(Gone(scope, no, off), Take(scope, q, item, s), Take(AfterDeletion(scope, no, off), q, item, s'))
  {
    hide IsDeletable, HasRoom, IsApart, Fetch, CheckTerms, Without;
    var scope', gone := AfterDeletion(scope, no, off), Gone(scope, no, off);
    FetchAfterDeletion(scope, no, off, item, s.status);
    FetchAfterDeletion(scope, no, off, item, s'.status);
    FetchIsFor(scope, item, s.status, s'.status);
    var found := Fetch(scope, item, s.status).0;
    if found.Some? {
      var r := found.value.(pairs := CheckTerms(found.value.pairs, q.andList).1);
      WithoutAppend(s.records, r, gone);
    }
    assert s'.records <= s'.records;
  }

  /** What a fetch depends on: the status matters only where nothing is read. */
  lemma {:induction false} FetchIsFor(scope: Scope, item: IndexItem, status: RecStatus, status': RecStatus)
    ensures var (found, st), (found', st') := Fetch(scope, item, status), Fetch(scope, item, status');
            && found == found' && (st == st' || (st == status && st' == status' && found.None?))
            && (found.Some? ==> IsHitFor(scope, item, found.value))
  {
    hide ReadFrom;
  }

  /** The deleted record's line, listed before and fetched in vain after. */
  lemma {:induction false} TakeDeleted(scope: Scope, no: int, off: nat, q: Conjunction, item: IndexItem, s: Hits)
    requires IsDeletion(scope, no, off) && IsDeleted(item, no, off)
    ensures var v := Take(AfterDeletion(scope, no, off), q, item, s);
            v.Continue? && v.state.records == s.records && v.state.count == s.count
                && v.state.status in {REC_NULL, REC_EOF}
  {
    hide IsDeletable, HasRoom, Fetch;
    FetchAfterDeletion(scope, no, off, item, s.status);
  }

  lemma {:induction false} VisitInStep(
      scope: Scope, no: int, off: nat, q: Conjunction, item: IndexItem, s: Hits, s': Hits)
    requires IsDeletion(scope, no, off) && IsApart(scope, no, off, item) && AreInStep(Gone(scope, no, off), s, s')
    ensures StaysInStep(Gone(scope, no, off), Visit(scope, q, true, item, s),
                        Visit(AfterDeletion(scope, no, off), q, true, item, s'))
  {
    hide IsDeletable, HasRoom, IsApart, Take, IsListed, Without;
    var scope' := AfterDeletion(scope, no, off);
    ListedWithout(scope, no, off, item, s.records);
    ListedAlike(scope, scope', item, s'.records);
    TakeInStep(scope, no, off, q, item, s, s');
    if IsDeleted(item, no, off) {
      TakeDeleted(scope, no, off, q, item, s');
    }
  }

  lemma {:induction false} ListedAlike(scope: Scope, scope': Scope, item: IndexItem, records: seq<Record>)
    requires scope'.authArea == scope.authArea && scope'.className == scope.className
    ensures IsListed(scope', item, records) == IsListed(scope, item, records)
  {
    assert forall k :: 0 <= k < |records| ==> IsHitFor(scope', item, records[k]) == IsHitFor(scope, item, records[k]);
  }

  lemma {:induction false} VisitorsInStep(
      scope: Scope, no: int, off: nat, q: Conjunction, f: string,
      visit: (nat, Hits) -> Verdict<Hits>, visit': (nat, Hits) -> Verdict<Hits>)
    requires IsDeletion(scope, no, off) && forall p: nat :: IsLine(f, p) ==> IsApart(scope, no, off, LineItem(f, p))
    requires visit == Visitor(scope, q, f, true) && visit' == Visitor(AfterDeletion(scope, no, off), q, f, true)
    ensures InStep(f, visit, visit', Gone(scope, no, off))
  {
    hide IsDeletable, HasRoom, IsApart, Without, Visit, LineItem, Gone, StaysInStep, AreInStep;
    var gone := Gone(scope, no, off);
    forall p: nat, s: Hits, s': Hits ensures StepsAlike(f, visit, visit', gone, p, s, s') {
      if IsLine(f, p) && AreInStep(gone, s, s') {
        assert IsApart(scope, no, off, LineItem(f, p));
        VisitInStep(scope, no, off, q, LineItem(f, p), s, s');
      }
    }
    forall p: nat, s: Hits {:trigger visit'(p, s)} | IsLine(f, p) ensures s.records <= visit'(p, s).state.records {
      VisitAdds(AfterDeletion(scope, no, off), q, LineItem(f, p), s);
    }
  }

  /** The find-all scan of an unchanged index after the deletion of a record, for
      every hit limit. It returns the old hits, in the old order, minus that record,
      and then perhaps hits for which there was no room before; nothing more if the
      scan before the deletion ended well, and then it ends well too. */
  lemma {:induction false} SearchAfterDeletion(scope: Scope, no: int, off: nat, q: Conjunction, f: string, s: Hits)
    requires IsDeletion(scope, no, off) && HasWholeLines(f)
    requires forall p: nat :: IsLine(f, p) ==> IsApart(scope, no, off, LineItem(f, p))
    ensures var gone := Gone(scope, no, off);
            var (before, code) := Walk(f, 0, Visitor(scope, q, f, true), s);
            var (after, code') := Walk(f, 0, Visitor(AfterDeletion(scope, no, off), q, f, true),
                                       s.(records := Without(s.records, gone)));
            && Without(before.records, gone) <= after.records
            && (code == SearchSuccessful ==>
                  code' == SearchSuccessful && after.records == Without(before.records, gone)
                      && after.count <= before.count)
  {
    hide InStep, IsDeletable, HasRoom, IsApart, Without, Walk, Visitor;
    var gone := Gone(scope, no, off);
    var visit, visit' := Visitor(scope, q, f, true), Visitor(AfterDeletion(scope, no, off), q, f, true);
    VisitorsInStep(scope, no, off, q, f, visit, visit');
    WalkInStep(f, 0, visit, visit', gone, s, s.(records := Without(s.records, gone)));
  }

  /** Without a hit limit, and with every data file present, a scan ends well. */
  lemma {:induction false} UnlimitedEndsWell(scope: Scope, q: Conjunction, f: string, p: nat, s: Hits)
    requires HasWholeLines(f) && p <= |f| && IsBol(f, p) && scope.maxHits == 0 && HasData(scope, f)
    ensures Walk(f, p, Visitor(scope, q, f, true), s).1 == SearchSuccessful
    decreases |f| - p
  {
    if p < |f| {
      NextLine(f, p);
      VisitGoesOn(scope, q, LineItem(f, p), s);
      UnlimitedEndsWell(scope, q, f, LineEnd(f, p), Visit(scope, q, true, LineItem(f, p), s).state);
    }
  }

  lemma {:induction false} VisitGoesOn(scope: Scope, q: Conjunction, item: IndexItem, s: Hits)
    requires scope.maxHits == 0 && (item.deletedFlag != 0 || (item.dataFileNo in scope.files && 0 <= item.offset))
    ensures Visit(scope, q, true, item, s).Continue?
  {
  }

  /** So without a limit the hits after the deletion are the old ones minus the
      record. */
  lemma {:induction false} UnlimitedSearchAfterDeletion(
      scope: Scope, no: int, off: nat, q: Conjunction, f: string, s: Hits)
    requires IsDeletion(scope, no, off) && HasWholeLines(f) && scope.maxHits == 0 && HasData(scope, f)
    requires forall p: nat :: IsLine(f, p) ==> IsApart(scope, no, off, LineItem(f, p))
    ensures var gone := Gone(scope, no, off);
            var (before, code) := Walk(f, 0, Visitor(scope, q, f, true), s);
            var (after, code') := Walk(f, 0, Visitor(AfterDeletion(scope, no, off), q, f, true),
                                       s.(records := Without(s.records, gone)));
            code == code' == SearchSuccessful && after.records == Without(before.records, gone)
  {
    hide IsDeletable, HasRoom, IsApart, Without, Walk, Visitor, LineItem;
    UnlimitedEndsWell(scope, q, f, 0, s);
    SearchAfterDeletion(scope, no, off, q, f, s);
  }

  /** What `SearchAfterDeletion` says of two lists and return codes. */
  ghost predicate AreHitsAfter(
      gone: Record -> bool, before: seq<Record>, code: RetCode, after: seq<Record>, code': RetCode) {
    && Without(before, gone) <= after
    && (code == SearchSuccessful ==> code' == SearchSuccessful && after == Without(before, gone))
  }

  /** A search, the deletion of a record in its data file, and the same search again
      through the index as it was, with the same counter and a list that is the same
      but for that record. Bisecting or not, the second search finds what the first
      found minus the record. */
  method SearchDeleteSearch(
      first: Searcher, store: DataStore, second: Searcher, scope: Scope, no: int, off: nat, f: string, q: Conjunction,
      how: SearchType, garbage: RecStatus)
    returns (code: RetCode, code': RetCode)
    requires no in scope.files && store.bytes == scope.files[no] && off < |store.bytes| && IsDeletion(scope, no, off)
    requires forall p: nat :: IsLine(f, p) ==> IsApart(scope, no, off, LineItem(f, p))
    requires how == FullScanType ==> IsScannable(f)
    requires how == BinarySearchType ==> IsIndex(f) && HasShortLines(f) && q.head.comp != Substr
    requires first != second && second.records == Without(first.records, Gone(scope, no, off))
    requires second.hitCount == first.hitCount
    modifies first, store, second
    ensures store.bytes == Tombstoned(old(store.bytes), off) && store.numRecs == old(store.numRecs) - 1
    ensures how != CidrSearchType ==>
      AreHitsAfter(Gone(scope, no, off), first.records, code, second.records, code')
    ensures how == CidrSearchType ==> code == code' == InvalidSearchType
  {
    hide Walk, Visitor, IsDeletable, HasRoom, IsApart, LineItem, Without, Gone, Tombstoned;
    if how == BinarySearchType {
      IndexFits(f);
    }
    ghost var s := Hits(first.records, first.hitCount, garbage);
    code := first.SearchExactIndexFile(scope, f, q, how, garbage);
    store.DeleteDataEntry(off);
    var now := scope.(files := scope.files[no := store.bytes]);
    assert now == AfterDeletion(scope, no, off);
    code' := second.SearchExactIndexFile(now, f, q, how, garbage);
    if how != CidrSearchType {
      SearchAfterDeletion(scope, no, off, q, f, s);
    }
  }
}
