/** The search functions that fill the hit list (search_prim.c, search.c). */
module SearchEngine {
  import opened Text
  import opened IndexLine
  import opened LineFile
  import opened Bisection
  import opened DataFile
  import opened Walking
  import opened IndexScan

  datatype SearchType = BinarySearchType | FullScanType | CidrSearchType

  /** Some line of the index compares equal to the query. */
  ghost predicate Matches(f: string, q: Conjunction) {
    exists p: nat :: IsLine(f, p) && Comparison(f, q.head.comp, q.head.searchValue)(p) == 0
  }

  /** A scan reads every line whole, and every line decodes. */
  ghost predicate IsScannable(f: string) {
    HasWholeLines(f) && Decodes(f)
  }

  /** The record list being filled and the static hit counter. */
  class Searcher {
    var records: seq<Record>
    var hitCount: int

    constructor ()
      ensures records == [] && hitCount == 0
    {
      records := [];
      hitCount := 0;
    }

    /** `check_hit_list_for_hit`. */
    method CheckHitListForHit(scope: Scope, item: IndexItem) returns (listed: bool)
      ensures listed == IsListed(scope, item, records)
    {
      var k := 0;
      while k < |records|
        invariant 0 <= k <= |records|
        invariant forall j :: 0 <= j < k ==> !IsHitFor(scope, item, records[j])
      {
        if IsHitFor(scope, item, records[k]) {
          return true;
        }
        k := k + 1;
      }
      return false;
    }

    /** `fill_out_record`. */
    method FillOutRecord(
        scope: Scope, item: IndexItem, status: RecStatus)
      returns (found: Option<Record>, status': RecStatus)
      ensures (found, status') == Fetch(scope, item, status)
    {
      if item.dataFileNo !in scope.files || item.offset < 0 {
        return None, status;
      }
      var data := scope.files[item.dataFileNo];
      if item.offset > |data| {
        return None, REC_EOF;
      }
      var pairs, read, _ := ReadAnonRecord(data, item.offset, KindOf);
      status' := read;
      if pairs.None? {
        return None, status';
      }
      found := Some(Record(scope.authArea, scope.className, item.dataFileNo, item.offset, scope.indexFileNo,
          scope.translate(pairs.value)));
    }

    /** The inner loop of `validate_and_list`. */
    static method ValidateTerm(pairs: seq<Pair>, t: Term) returns (ok: bool, after: seq<Pair>)
      ensures (ok, after) == CheckTerm(pairs, t, 0)
    {
      after := pairs;
      var j := 0;
      while j < |after|
        invariant 0 <= j <= |after|
        invariant CheckTerm(pairs, t, 0) == CheckTerm(after, t, j)
      {
        if Concerns(t, after[j]) {
          after := after[j := after[j].(value := Upper(after[j].value))];
          if SearchCompare(t.comp, t.searchValue, after[j].value) == 0 {
            return true, after;
          }
        }
        j := j + 1;
      }
      ok := false;
    }

    /** `validate_and_list`. */
    static method ValidateAndList(pairs: seq<Pair>, terms: seq<Term>) returns (ok: bool, after: seq<Pair>)
      ensures (ok, after) == CheckTerms(pairs, terms)
    {
      after := pairs;
      var k := 0;
      while k < |terms|
        invariant 0 <= k <= |terms|
        invariant CheckTerms(pairs, terms) == CheckTerms(after, terms[k..])
      {
        ok, after := ValidateTerm(after, terms[k]);
        if !ok {
          return;
        }
        k := k + 1;
      }
      ok := true;
    }

    /** Fetching a new hit, checking it against the AND list and the limit. */
    method TakeHit(scope: Scope, q: Conjunction, item: IndexItem, status: RecStatus)
      returns (verdict: Verdict<RecStatus>)
      modifies this
      ensures match Take(scope, q, item, Hits(old(records), old(hitCount), status))
              case Continue(s) => verdict == Continue(s.status) && records == s.records && hitCount == s.count
              case Stop(s, code) => verdict == Stop(s.status, code) && records == s.records && hitCount == s.count
    {
      var found, status' := FillOutRecord(scope, item, status);
      if found.None? {
        if status' == REC_NULL || status' == REC_EOF {
          return Continue(status');
        }
        return Stop(status', UnknownSearchError);
      }
      var ok, pairs := ValidateAndList(found.value.pairs, q.andList);
      if !ok {
        return Continue(status');
      }
      if scope.maxHits == 0 || hitCount < scope.maxHits {
        records := records + [found.value.(pairs := pairs)];
        hitCount := hitCount + 1;
        return Continue(status');
      }
      verdict := Stop(status', HitLimitExceeded);
    }

    /** The body of the loop of `full_scan`. */
    method VisitLine(scope: Scope, q: Conjunction, findAll: bool, item: IndexItem, status: RecStatus)
      returns (verdict: Verdict<RecStatus>)
      modifies this
      ensures match Visit(scope, q, findAll, item, Hits(old(records), old(hitCount), status))
              case Continue(s) => verdict == Continue(s.status) && records == s.records && hitCount == s.count
              case Stop(s, code) => verdict == Stop(s.status, code) && records == s.records && hitCount == s.count
    {
      if item.deletedFlag != 0 {
        return Continue(status);
      }
      if q.head.attributeId != 0 && q.head.attributeId != ANY && q.head.attributeId != item.attributeId {
        return Continue(status);
      }
      var y := SearchCompare(q.head.comp, q.head.searchValue, item.value);
      if y != 0 && !findAll {
        return Stop(status, SearchSuccessful);
      }
      if y != 0 || !IsValidHit(scope, q.head, item) {
        return Continue(status);
      }
      var listed := CheckHitListForHit(scope, item);
      if listed {
        return Continue(status);
      }
      verdict := TakeHit(scope, q, item, status);
    }

    /** `full_scan`. `status` is uninitialised in the source: any value. */
    method FullScan(
        scope: Scope, f: string, q: Conjunction, startPos: nat, findAll: bool, garbage: RecStatus)
      returns (code: RetCode)
      requires IsScannable(f) && startPos <= |f| && IsBol(f, startPos)
      modifies this
      ensures var r := Walk(f, startPos, Visitor(scope, q, f, findAll), Hits(old(records), old(hitCount), garbage));
              records == r.0.records && hitCount == r.0.count && code == r.1
    {
      var fp, status := startPos, garbage;
      ghost var visit := Visitor(scope, q, f, findAll);
      ghost var goal := Walk(f, startPos, visit, Hits(records, hitCount, garbage));
      while fp < |f|
        invariant fp <= |f| && IsBol(f, fp)
        invariant goal == Walk(f, fp, visit, Hits(records, hitCount, status))
        decreases |f| - fp
      {
        NextLine(f, fp);
        var item := LineItem(f, fp);
        ghost var s := Hits(records, hitCount, status);
        assert visit(fp, s) == Visit(scope, q, findAll, item, s);
        var verdict := VisitLine(scope, q, findAll, item, status);
        status := verdict.state;
        if verdict.Stop? {
          return verdict.code;
        }
        fp := FgetsEnd(f, fp, MAX_LINE);
      }
      code := SearchSuccessful;
    }

    /** `search_exact_index_file`: whichever way is asked for, the effect is that of
        the find-all scan of the whole index. */
    method SearchExactIndexFile(
        scope: Scope, f: string, q: Conjunction, how: SearchType, garbage: RecStatus)
      returns (code: RetCode)
      requires how == FullScanType ==> IsScannable(f)
      requires how == BinarySearchType ==> IsIndex(f) && HasShortLines(f) && q.head.comp != Substr
      modifies this
      ensures how != CidrSearchType ==>
        var r := Walk(f, 0, Visitor(scope, q, f, true), Hits(old(records), old(hitCount), garbage));
        records == r.0.records && hitCount == r.0.count && code == r.1
      ensures how == CidrSearchType ==>
          code == InvalidSearchType && records == old(records) && hitCount == old(hitCount)
    {
      match how
      case BinarySearchType =>
        var _, ret := BinaryScan(scope, f, q, garbage);
        code := ret;
      case FullScanType =>
        code := FullScan(scope, f, q, 0, true, garbage);
      case CidrSearchType =>
        code := InvalidSearchType;
    }

    /** Bisection followed by the scan that stops at the first mismatch. */
    method BinaryScan(scope: Scope, f: string, q: Conjunction, garbage: RecStatus) returns (found: bool, code: RetCode)
      requires IsIndex(f) && HasShortLines(f) && q.head.comp != Substr
      modifies this
      ensures found <==> Matches(f, q)
      ensures var r := Walk(f, 0, Visitor(scope, q, f, true), Hits(old(records), old(hitCount), garbage));
              records == r.0.records && hitCount == r.0.count && code == r.1
    {
      ghost var cmp := Comparison(f, q.head.comp, q.head.searchValue);
      ghost var all, fast := Visitor(scope, q, f, true), Visitor(scope, q, f, false);
      IndexFits(f);
      ComparisonFalls(f, q.head.comp, q.head.searchValue);
      VisitorsAreScans(scope, q, f);
      var fposition := BinarySearch(f, q.head.comp, q.head.searchValue);
      FastIsFull(f, cmp, all, fast, fposition, Hits(records, hitCount, garbage));
      found, code := fposition != -1, SearchSuccessful;
      if found {
        code := FullScan(scope, f, q, fposition, false, garbage);
      }
    }
  }
}
