/** What the hit limit of a scan cuts off, and when a scan says so (the end of the
    loop of `full_scan` in search_prim.c). */
module HitLimit {
  import opened Text
  import opened IndexLine
  import opened LineFile
  import opened Bisection
  import opened DataFile
  import opened Walking
  import opened IndexScan

  /** The same search without a hit limit. */
  function Unlimited(scope: Scope): Scope {
    scope.(maxHits := 0)
  }

  /** How many records a search may still list. */
  function Room(max: int, s: Hits): nat {
    if s.count < max then max - s.count else 0
  }

  /** Two searches from `s`, the first with room for so many records, the second with
      room for any number. The second only adds to the list. The first lists what the
      second does, as far as there is room; the two are the same unless room runs out. */
  ghost predicate IsCut(max: int, s: Hits, cut: Hits, whole: Hits) {
    && s.records <= whole.records
    && whole.count == s.count + |whole.records| - |s.records|
    && (|whole.records| - |s.records| <= Room(max, s) ==> cut == whole)
    && (|whole.records| - |s.records| > Room(max, s) ==>
          cut.records == whole.records[..|s.records| + Room(max, s)] && cut.count == s.count + Room(max, s))
  }

  /** One line: the limited scan does what the other does, except that it stops where
      the other finds something new and there is no room. */
  ghost predicate IsLimited(max: int, s: Hits, v: Verdict<Hits>, u: Verdict<Hits>) {
    && s.records <= u.state.records && u.state.count == s.count + |u.state.records| - |s.records|
    && (|u.state.records| <= |s.records| + 1) && (u.Stop? ==> |u.state.records| == |s.records|)
    && (u.Stop? ==> u.code != HitLimitExceeded)
    && if |u.state.records| > |s.records| && s.count >= max then
         v.Stop? && v.code == HitLimitExceeded && v.state.records == s.records && v.state.count == s.count
       else v == u
  }

  lemma {:induction false} VisitIsLimited(scope: Scope, q: Conjunction, item: IndexItem, s: Hits)
    requires scope.maxHits > 0
    ensures IsLimited(scope.maxHits, s, Visit(scope, q, true, item, s), Visit(Unlimited(scope), q, true, item, s))
  {
    hide CheckTerms, IsListed, SearchCompare, Fetch;
    ListedAnyway(scope, item, s.records);
    FetchAnyway(scope, item, s.status);
  }

  lemma {:induction false} ListedAnyway(scope: Scope, item: IndexItem, records: seq<Record>)
    ensures IsListed(Unlimited(scope), item, records) == IsListed(scope, item, records)
  {
    assert forall k :: 0 <= k < |records| ==>
      IsHitFor(Unlimited(scope), item, records[k]) == IsHitFor(scope, item, records[k]);
  }

  lemma {:induction false} FetchAnyway(scope: Scope, item: IndexItem, status: RecStatus)
    ensures Fetch(Unlimited(scope), item, status) == Fetch(scope, item, status)
  {
  }

  ghost predicate AreLimited(
      f: string, max: int, visit: (nat, Hits) -> Verdict<Hits>, unlimited: (nat, Hits) -> Verdict<Hits>)
  {
    forall p: nat, s: Hits {:trigger visit(p, s)} :: IsLine(f, p) ==> IsLimited(max, s, visit(p, s), unlimited(p, s))
  }

  lemma {:induction false} UnlimitedGrows(
      f: string, p: nat, max: int, visit: (nat, Hits) -> Verdict<Hits>, unlimited: (nat, Hits) -> Verdict<Hits>,
      s: Hits)
    requires HasWholeLines(f) && p <= |f| && IsBol(f, p) && AreLimited(f, max, visit, unlimited)
    ensures var (u, ret) := Walk(f, p, unlimited, s);
            s.records <= u.records && u.count == s.count + |u.records| - |s.records| && ret != HitLimitExceeded
    decreases |f| - p
  {
    if p < |f| {
      NextLine(f, p);
      var u := unlimited(p, s);
      assert IsLimited(max, s, visit(p, s), u);
      if u.Continue? {
        UnlimitedGrows(f, LineEnd(f, p), max, visit, unlimited, u.state);
      }
    }
  }

  lemma {:induction false} WalkIsCut(
      f: string, p: nat, max: int, visit: (nat, Hits) -> Verdict<Hits>, unlimited: (nat, Hits) -> Verdict<Hits>,
      s: Hits)
    requires HasWholeLines(f) && p <= |f| && IsBol(f, p) && AreLimited(f, max, visit, unlimited)
    ensures var (v, code), (u, ret) := Walk(f, p, visit, s), Walk(f, p, unlimited, s);
            && IsCut(max, s, v, u)
            && code == (if |u.records| - |s.records| > Room(max, s) then HitLimitExceeded else ret)
            && ret != HitLimitExceeded
    decreases |f| - p
  {
    UnlimitedGrows(f, p, max, visit, unlimited, s);
    if p < |f| {
      NextLine(f, p);
      var v, u := visit(p, s), unlimited(p, s);
      assert IsLimited(max, s, v, u);
      if u.Continue? {
        UnlimitedGrows(f, LineEnd(f, p), max, visit, unlimited, u.state);
        if v == u {
          WalkIsCut(f, LineEnd(f, p), max, visit, unlimited, u.state);
        }
      }
    }
  }

  /** A scan with a hit limit against the same scan without one, on every index and
      from every list: its new records are the first of the other's, as many as there
      is room for, and it reports the limit if and only if there are more. Where there
      are not, the two do not differ at all. */
  lemma {:induction false} LimitedScan(scope: Scope, q: Conjunction, f: string, s: Hits)
    requires HasWholeLines(f) && scope.maxHits > 0
    ensures var (after, code) := Walk(f, 0, Visitor(scope, q, f, true), s);
            var (whole, ret) := Walk(f, 0, Visitor(Unlimited(scope), q, f, true), s);
            && IsCut(scope.maxHits, s, after, whole)
            && (code == HitLimitExceeded <==> |whole.records| - |s.records| > Room(scope.maxHits, s))
            && (code != HitLimitExceeded ==> code == ret)
  {
    hide Visit, LineItem, IsLimited, IsCut;
    var visit, unlimited := Visitor(scope, q, f, true), Visitor(Unlimited(scope), q, f, true);
    forall p: nat, s: Hits {:trigger visit(p, s)} | IsLine(f, p)
      ensures IsLimited(scope.maxHits, s, visit(p, s), unlimited(p, s))
    {
      VisitIsLimited(scope, q, LineItem(f, p), s);
    }
    WalkIsCut(f, 0, scope.maxHits, visit, unlimited, s);
  }

  /** Every live line names a place in a data file that is there. */
  ghost predicate HasData(scope: Scope, f: string) {
    forall p: nat :: IsLine(f, p) ==>
      LineItem(f, p).deletedFlag != 0
      || (LineItem(f, p).dataFileNo in scope.files && 0 <= LineItem(f, p).offset)
  }

  lemma {:induction false} VisitWithData(scope: Scope, q: Conjunction, item: IndexItem, s: Hits)
    requires item.deletedFlag != 0 || (item.dataFileNo in scope.files && 0 <= item.offset)
    ensures var v := Visit(scope, q, true, item, s);
            v.Stop? ==> v.code == HitLimitExceeded && HitOf(scope, q, item).Some? && v.state.records == s.records
                        && !IsListed(scope, item, s.records)
  {
    hide CheckTerms, IsListed, SearchCompare, ReadFrom;
  }

  /** Some line's hit is missing from the list. */
  ghost predicate IsMissing(scope: Scope, q: Conjunction, f: string, records: seq<Record>) {
    exists p: nat :: IsLine(f, p) && HitOf(scope, q, LineItem(f, p)).Some? && !IsListed(scope, LineItem(f, p), records)
  }

  lemma {:induction false} StopsAtMissing(scope: Scope, q: Conjunction, f: string, p: nat, s: Hits)
    requires HasWholeLines(f) && p <= |f| && IsBol(f, p) && HasData(scope, f)
    ensures var (after, code) := Walk(f, p, Visitor(scope, q, f, true), s);
            code in {SearchSuccessful, HitLimitExceeded}
            && (code == HitLimitExceeded ==> IsMissing(scope, q, f, after.records))
    decreases |f| - p
  {
    hide Visit, HitOf, IsListed, LineItem;
    if p < |f| {
      NextLine(f, p);
      VisitWithData(scope, q, LineItem(f, p), s);
      var v := Visit(scope, q, true, LineItem(f, p), s);
      if v.Continue? {
        StopsAtMissing(scope, q, f, LineEnd(f, p), v.state);
      }
    }
  }

  /** With every data file present, a scan reports the limit if and only if the list
      it leaves lacks a record the query wants. */
  lemma {:induction false} ReportsMissing(scope: Scope, q: Conjunction, f: string, s: Hits)
    requires HasWholeLines(f) && HasData(scope, f)
    ensures var (after, code) := Walk(f, 0, Visitor(scope, q, f, true), s);
            && code in {SearchSuccessful, HitLimitExceeded}
            && (code == HitLimitExceeded <==> IsMissing(scope, q, f, after.records))
  {
    hide Visit, HitOf, IsListed, LineItem, Walk, Visitor;
    StopsAtMissing(scope, q, f, 0, s);
    var (after, code) := Walk(f, 0, Visitor(scope, q, f, true), s);
    if code == SearchSuccessful {
      FullScanFinds(scope, q, f, s);
      forall p: nat | IsLine(f, p) && HitOf(scope, q, LineItem(f, p)).Some?
        ensures IsListed(scope, LineItem(f, p), after.records)
      {
        assert HitAt(scope, q, f)(p).Some?;
        assert ListedAt(scope, f)(p, after.records);
      }
    }
  }
}
