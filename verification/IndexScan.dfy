/** `full_scan` of search_prim.c, and why stopping at the first mismatch after a
    bisection loses nothing. */
module Walking {
  import opened Text
  import opened LineFile
  import opened Bisection

  datatype RetCode = SearchSuccessful | HitLimitExceeded | UnknownSearchError | InvalidSearchType

  /** What looking at one line leads to. */
  datatype Verdict<S> = Continue(state: S) | Stop(state: S, code: RetCode)

  /** A newline-terminated file whose lines the reader's 511 bytes hold whole. */
  ghost predicate HasWholeLines(f: string) {
    && IsTerminated(f)
    && (forall p :: IsLine(f, p) ==> LineEnd(f, p) - p < MAX_LINE)
  }

  /** Reads the lines from `pos` on and shows each to `visit`, until it stops or
      the file ends. */
  function Walk<S>(f: string, pos: nat, visit: (nat, S) -> Verdict<S>, state: S): (S, RetCode)
    requires pos <= |f|
    decreases |f| - pos
  {
    if pos == |f| then (state, SearchSuccessful)
    else
      match visit(pos, state)
      case Continue(next) => Walk(f, FgetsEnd(f, pos, MAX_LINE), visit, next)
      case Stop(last, code) => (last, code)
  }

  /** The two scans of one query: `all` looks at every line, `fast` gives up at
      a mismatch. They differ nowhere else, and a mismatch changes nothing. */
  ghost predicate AreScansOf<S(!new)>(
      f: string, cmp: nat -> int, all: (nat, S) -> Verdict<S>, fast: (nat, S) -> Verdict<S>)
  {
    forall p: nat, s: S :: IsLine(f, p) ==>
      if cmp(p) == 0 then all(p, s) == fast(p, s)
      else all(p, s) == Continue(s) && fast(p, s) in {Continue(s), Stop(s, SearchSuccessful)}
  }

  /** In such a file a read ends where the line does. */
  lemma {:induction false} NextLine(f: string, p: nat)
    requires HasWholeLines(f) && IsLine(f, p)
    ensures FgetsEnd(f, p, MAX_LINE) == LineEnd(f, p) && IsBol(f, LineEnd(f, p))
    ensures forall r :: IsLine(f, r) && p < r ==> LineEnd(f, p) <= r
  {
    forall r | IsLine(f, r) && p < r ensures LineEnd(f, p) <= r {
      NothingInside(f, p, r);
    }
  }

  /** Where nothing matches, neither scan does anything. */
  lemma {:induction false} NothingToFind<S(!new)>(
      f: string, cmp: nat -> int, all: (nat, S) -> Verdict<S>, fast: (nat, S) -> Verdict<S>, p: nat, s: S)
    requires HasWholeLines(f) && p <= |f| && IsBol(f, p) && AreScansOf(f, cmp, all, fast)
    requires forall r :: IsLine(f, r) && p <= r ==> cmp(r) != 0
    ensures Walk(f, p, all, s) == Walk(f, p, fast, s) == (s, SearchSuccessful)
    decreases |f| - p
  {
    if p < |f| {
      NextLine(f, p);
      NothingToFind(f, cmp, all, fast, LineEnd(f, p), s);
    }
  }

  /** Lines before the first match leave no trace in the full scan. */
  lemma {:induction false} SkipMisses<S(!new)>(
      f: string, cmp: nat -> int, all: (nat, S) -> Verdict<S>, fast: (nat, S) -> Verdict<S>, p: nat, first: nat, s: S)
    requires HasWholeLines(f) && p <= first <= |f| && IsBol(f, p) && IsBol(f, first) && AreScansOf(f, cmp, all, fast)
    requires forall r :: IsLine(f, r) && p <= r < first ==> cmp(r) != 0
    ensures Walk(f, p, all, s) == Walk(f, first, all, s)
    decreases first - p
  {
    if p < first {
      NextLine(f, p);
      NothingInside(f, p, first);
      SkipMisses(f, cmp, all, fast, LineEnd(f, p), first, s);
    }
  }

  /** From a place on from which the query is nowhere above the lines, the
      matches are consecutive and both scans collect the same. */
  lemma {:induction false} SameFrom<S(!new)>(
      f: string, cmp: nat -> int, all: (nat, S) -> Verdict<S>, fast: (nat, S) -> Verdict<S>, p: nat, s: S)
    requires HasWholeLines(f) && Falls(f, cmp) && p <= |f| && IsBol(f, p) && AreScansOf(f, cmp, all, fast)
    requires p < |f| ==> cmp(p) <= 0
    ensures Walk(f, p, all, s) == Walk(f, p, fast, s)
    decreases |f| - p
  {
    if p < |f| {
      if cmp(p) < 0 {
        NothingToFind(f, cmp, all, fast, p, s);
      } else {
        NextLine(f, p);
        match all(p, s)
        case Continue(next) => SameFrom(f, cmp, all, fast, LineEnd(f, p), next);
        case Stop(_, _) =>
      }
    }
  }

  /** The stop-at-first-mismatch scan from the first match does exactly what the
      find-all scan of the whole file does, whatever the scans collect. */
  lemma {:induction false} FastIsFull<S(!new)>(
      f: string, cmp: nat -> int, all: (nat, S) -> Verdict<S>, fast: (nat, S) -> Verdict<S>, first: int, s: S)
    requires HasWholeLines(f) && Falls(f, cmp) && AreScansOf(f, cmp, all, fast) && IsFirstMatch(f, cmp, first)
    ensures Walk(f, 0, all, s) == if first == -1 then (s, SearchSuccessful) else Walk(f, first, fast, s)
  {
    if first == -1 {
      NothingToFind(f, cmp, all, fast, 0, s);
    } else {
      SkipMisses(f, cmp, all, fast, 0, first, s);
      SameFrom(f, cmp, all, fast, first, s);
    }
  }
}

/** What `full_scan` does with a line: filters, duplicate check, fetching the
    record, the AND list and the hit limit. */
module IndexScan {
  import opened Text
  import opened IndexLine
  import opened LineFile
  import opened Bisection
  import opened DataFile
  import opened Walking

  datatype Pair = Pair(attributeId: int, value: string)

  datatype Record = Record(authArea: string, className: string, dataFileNo: int, offset: int, indexFileNo: int,
      pairs: seq<Pair>)

  datatype Term = Term(attributeId: int, comp: CompareType, searchValue: string)

  /** A query term and the terms it is ANDed with. */
  datatype Conjunction = Conjunction(head: Term, andList: seq<Term>)

  /** Where a search looks: the class and area searched, the index file's number,
      the class's ID-typed attributes, the data files, how a class turns raw
      attributes into typed ones, and the hit limit (0: none). */
  datatype Scope = Scope(
    authArea: string, className: string, indexFileNo: int, idAttributes: set<int>,
    files: map<int, string>, translate: seq<Attribute> -> seq<Pair>, maxHits: int)

  /** The hit list, the static hit counter, and the `status` variable, which
      keeps its value from one line to the next. */
  datatype Hits = Hits(records: seq<Record>, count: int, status: RecStatus)

  /** Matches any attribute. */
  const ANY := -2

  /** `validate_search_cond`. */
  predicate IsValidHit(scope: Scope, q: Term, item: IndexItem) {
    item.attributeId in scope.idAttributes ==> q.attributeId == item.attributeId
  }

  predicate IsHitFor(scope: Scope, item: IndexItem, r: Record) {
    && EqualIgnoringCase(r.authArea, scope.authArea) && EqualIgnoringCase(r.className, scope.className)
    && r.dataFileNo == item.dataFileNo && r.offset == item.offset
  }

  predicate IsListed(scope: Scope, item: IndexItem, records: seq<Record>) {
    exists k :: 0 <= k < |records| && IsHitFor(scope, item, records[k])
  }

  /** `fill_out_record`: no file, or no such place in it, leaves `status` alone. */
  function Fetch(scope: Scope, item: IndexItem, status: RecStatus): (Option<Record>, RecStatus) {
    if item.dataFileNo !in scope.files || item.offset < 0 then (None, status)
    else
      var data := scope.files[item.dataFileNo];
      var read := if item.offset <= |data| then ReadFrom(data, item.offset, KindOf) else AnonRead([], true);
      if StatusOf(read) != REC_OK then (None, StatusOf(read))
      else (Some(Record(scope.authArea, scope.className, item.dataFileNo, item.offset, scope.indexFileNo,
          scope.translate(read.pairs))), REC_OK)
  }

  /** A pair `validate_and_list` compares with the term. */
  predicate Concerns(t: Term, pair: Pair) {
    t.attributeId == ANY || t.attributeId == pair.attributeId
  }

  /** One term against the pairs from `j` on: every pair compared is upper-cased
      in the record, and the first that matches ends the search. */
  function CheckTerm(pairs: seq<Pair>, t: Term, j: nat): (r: (bool, seq<Pair>))
    requires j <= |pairs|
    ensures |r.1| == |pairs|
    decreases |pairs| - j
  {
    if j == |pairs| then (false, pairs)
    else if !Concerns(t, pairs[j]) then CheckTerm(pairs, t, j + 1)
    else
      var upper := pairs[j].(value := Upper(pairs[j].value));
      if SearchCompare(t.comp, t.searchValue, upper.value) == 0 then (true, pairs[j := upper])
      else CheckTerm(pairs[j := upper], t, j + 1)
  }

  function CheckTerms(pairs: seq<Pair>, terms: seq<Term>): (bool, seq<Pair>)
    decreases |terms|
  {
    if terms == [] then (true, pairs)
    else
      var (ok, after) := CheckTerm(pairs, terms[0], 0);
      if ok then CheckTerms(after, terms[1..]) else (false, after)
  }

  /** What `full_scan` does with a decoded line. */
  function Visit(scope: Scope, q: Conjunction, findAll: bool, item: IndexItem, s: Hits): Verdict<Hits> {
    if item.deletedFlag != 0 then Continue(s)
    else if q.head.attributeId !in {0, ANY, item.attributeId} then Continue(s)
    else if SearchCompare(q.head.comp, q.head.searchValue, item.value) != 0 then
      if findAll then Continue(s) else Stop(s, SearchSuccessful)
    else if !IsValidHit(scope, q.head, item) || IsListed(scope, item, s.records) then Continue(s)
    else Take(scope, q, item, s)
  }

  /** The second half: a new hit is fetched, checked and kept. */
  function Take(scope: Scope, q: Conjunction, item: IndexItem, s: Hits): Verdict<Hits> {
    var (found, status) := Fetch(scope, item, s.status);
    var s := s.(status := status);
    if found.None? then
      if status in {REC_NULL, REC_EOF} then Continue(s) else Stop(s, UnknownSearchError)
    else
      var (ok, pairs) := CheckTerms(found.value.pairs, q.andList);
      if !ok then Continue(s)
      else if scope.maxHits == 0 || s.count < scope.maxHits then
        Continue(s.(records := s.records + [found.value.(pairs := pairs)], count := s.count + 1))
      else Stop(s, HitLimitExceeded)
  }

  /** The line at `p` as `full_scan` reads it. */
  function LineItem(f: string, p: nat): IndexItem
    requires p <= |f|
  {
    var item := Decode(LineAt(f, p, MAX_LINE));
    if item.Some? then item.value else IndexItem(0, 0, 0, 0, "")
  }

  function Visitor(scope: Scope, q: Conjunction, f: string, findAll: bool): (nat, Hits) -> Verdict<Hits> {
    (p: nat, s: Hits) => if p <= |f| then Visit(scope, q, findAll, LineItem(f, p), s) else Continue(s)
  }

  lemma {:induction false} SameLine(f: string, p: nat)
    requires HasWholeLines(f) && IsLine(f, p)
    ensures LineAt(f, p, MAX_LINE) == LineAt(f, p, MAX_BUF)
  {
  }

  lemma {:induction false} VisitorsAreScans(scope: Scope, q: Conjunction, f: string)
    requires HasWholeLines(f) && Decodes(f)
    ensures AreScansOf(f, Comparison(f, q.head.comp, q.head.searchValue), Visitor(scope, q, f, true),
        Visitor(scope, q, f, false))
  {
    var cmp := Comparison(f, q.head.comp, q.head.searchValue);
    var all, fast := Visitor(scope, q, f, true), Visitor(scope, q, f, false);
    forall p: nat, s: Hits | IsLine(f, p)
      ensures if cmp(p) == 0 then all(p, s) == fast(p, s)
              else all(p, s) == Continue(s) && fast(p, s) in {Continue(s), Stop(s, SearchSuccessful)}
    {
      SameLine(f, p);
      ComparisonAt(f, q.head.comp, q.head.searchValue, p);
      VisitMismatch(scope, q, LineItem(f, p), s);
    }
  }

  lemma {:induction false} VisitMismatch(scope: Scope, q: Conjunction, item: IndexItem, s: Hits)
    ensures var all, fast := Visit(scope, q, true, item, s), Visit(scope, q, false, item, s);
            if SearchCompare(q.head.comp, q.head.searchValue, item.value) == 0 then all == fast
            else all == Continue(s) && fast in {Continue(s), Stop(s, SearchSuccessful)}
  {
  }

  /** Some pair the term concerns matches it, case folded to upper. */
  ghost predicate Satisfies(pairs: seq<Pair>, t: Term) {
    exists j :: 0 <= j < |pairs| && PairSatisfies(pairs[j], t)
  }

  ghost predicate PairSatisfies(pair: Pair, t: Term) {
    (t.attributeId == -2 || t.attributeId == pair.attributeId) && Selects(t.comp, t.searchValue, Upper(pair.value))
  }

  /** Pairs that differ at most in having been upper-cased. */
  ghost predicate SameFolded(a: seq<Pair>, b: seq<Pair>) {
    && |a| == |b|
    && forall j :: 0 <= j < |a| ==> a[j].attributeId == b[j].attributeId && Upper(a[j].value) == Upper(b[j].value)
  }

  lemma {:induction false} UpperTwice(s: string)
    ensures Upper(Upper(s)) == Upper(s)
  {
  }

  lemma {:induction false} FoldedSatisfies(a: seq<Pair>, b: seq<Pair>, t: Term)
    requires SameFolded(a, b)
    ensures Satisfies(a, t) <==> Satisfies(b, t)
  {
    assert forall j :: 0 <= j < |a| ==> (PairSatisfies(a[j], t) <==> PairSatisfies(b[j], t));
  }

  /** Upper-casing one pair in place keeps the rest and the folded text. */
  lemma {:induction false} FoldOne(pairs: seq<Pair>, j: nat, upper: Pair)
    requires j < |pairs| && upper == pairs[j].(value := Upper(pairs[j].value))
    ensures SameFolded(pairs, pairs[j := upper])
  {
    UpperTwice(pairs[j].value);
  }

  lemma {:induction false} CheckTermMeans(pairs: seq<Pair>, t: Term, j: nat)
    requires j <= |pairs| && forall i :: 0 <= i < j ==> !PairSatisfies(pairs[i], t)
    ensures CheckTerm(pairs, t, j).0 <==> Satisfies(pairs, t)
    ensures SameFolded(pairs, CheckTerm(pairs, t, j).1)
    decreases |pairs| - j
  {
    hide SearchCompare, Selects;
    if j < |pairs| {
      SearchCompareMeans(t.comp, t.searchValue, Upper(pairs[j].value));
      if !Concerns(t, pairs[j]) {
        CheckTermMeans(pairs, t, j + 1);
      } else {
        var upper := pairs[j].(value := Upper(pairs[j].value));
        var after := pairs[j := upper];
        FoldOne(pairs, j, upper);
        if SearchCompare(t.comp, t.searchValue, upper.value) == 0 {
          assert PairSatisfies(pairs[j], t);
        } else {
          UpperTwice(pairs[j].value);
          CheckTermMeans(after, t, j + 1);
          FoldedSatisfies(pairs, after, t);
        }
      }
    }
  }

  /** `validate_and_list` accepts a record exactly when every term of the AND list
      is satisfied by some pair; the upper-casing it does on the way changes no
      later answer. */
  lemma {:induction false} CheckTermsMeans(pairs: seq<Pair>, terms: seq<Term>)
    ensures CheckTerms(pairs, terms).0 <==> forall t :: t in terms ==> Satisfies(pairs, t)
    ensures SameFolded(pairs, CheckTerms(pairs, terms).1)
    decreases |terms|
  {
    if terms != [] {
      CheckTermMeans(pairs, terms[0], 0);
      var (ok, after) := CheckTerm(pairs, terms[0], 0);
      if ok {
        CheckTermsMeans(after, terms[1..]);
        forall t ensures Satisfies(pairs, t) <==> Satisfies(after, t) {
          FoldedSatisfies(pairs, after, t);
        }
        assert forall t :: t in terms <==> t == terms[0] || t in terms[1..];
      }
    }
  }

  /** The record a line stands for, if the query wants it: live, of the right
      attribute, matching, readable, and satisfying the AND list. */
  function HitOf(scope: Scope, q: Conjunction, item: IndexItem): Option<Record> {
    if item.deletedFlag != 0 || q.head.attributeId !in {0, ANY, item.attributeId}
       || SearchCompare(q.head.comp, q.head.searchValue, item.value) != 0 || !IsValidHit(scope, q.head, item) then None
    else
      var (found, _) := Fetch(scope, item, REC_FATAL);
      if found.None? then None
      else
        var (ok, pairs) := CheckTerms(found.value.pairs, q.andList);
        if ok then Some(found.value.(pairs := pairs)) else None
  }

  /** A find-all visit adds the line's hit unless it is listed already, and adds
      nothing else. */
  lemma {:induction false} VisitAdds(scope: Scope, q: Conjunction, item: IndexItem, s: Hits)
    ensures var v, hit := Visit(scope, q, true, item, s), HitOf(scope, q, item);
            && v.state.records ==
                (if v.Continue? && hit.Some? && !IsListed(scope, item, s.records) then s.records + [hit.value]
                else s.records)
            && v.state.count - s.count == |v.state.records| - |s.records|
            && (v.Continue? && scope.maxHits > 0 && s.count <= scope.maxHits ==> v.state.count <= scope.maxHits)
            && (v.Stop? ==> v.code != SearchSuccessful && v.state.count == s.count)
            && (hit.Some? ==> IsHitFor(scope, item, hit.value))
  {
    if item.deletedFlag == 0 && q.head.attributeId in {0, ANY, item.attributeId}
       && SearchCompare(q.head.comp, q.head.searchValue, item.value) == 0 && IsValidHit(scope, q.head, item) {
      TakeAdds(scope, q, item, s);
    }
  }

  lemma {:induction false} TakeAdds(scope: Scope, q: Conjunction, item: IndexItem, s: Hits)
    requires item.deletedFlag == 0 && q.head.attributeId in {0, ANY, item.attributeId}
    requires SearchCompare(q.head.comp, q.head.searchValue, item.value) == 0 && IsValidHit(scope, q.head, item)
    ensures var v, hit := Take(scope, q, item, s), HitOf(scope, q, item);
            && v.state.records == (if v.Continue? && hit.Some? then s.records + [hit.value] else s.records)
            && v.state.count - s.count == |v.state.records| - |s.records|
            && (v.Continue? && scope.maxHits > 0 && s.count <= scope.maxHits ==> v.state.count <= scope.maxHits)
            && (v.Stop? ==> v.code != SearchSuccessful && v.state.count == s.count)
            && (hit.Some? ==> IsHitFor(scope, item, hit.value))
  {
  }

  /** A visitor that adds to the hit list exactly the hit of the line it sees,
      unless it is listed, and never stops with success. */
  ghost predicate AddsHits(
      f: string, visit: (nat, Hits) -> Verdict<Hits>, hit: nat -> Option<Record>, listed: (nat, seq<Record>) -> bool)
  {
    forall p: nat, s: Hits :: IsLine(f, p) ==>
      var v := visit(p, s);
      && v.state.records == (if v.Continue? && hit(p).Some? && !listed(p, s.records) then s.records + [hit(p).value]
          else s.records)
      && (v.Stop? ==> v.code != SearchSuccessful)
  }

  /** Being listed is not lost as the list grows, and a line's own hit lists it. */
  ghost predicate IsListing(f: string, hit: nat -> Option<Record>, listed: (nat, seq<Record>) -> bool) {
    && (forall p: nat, rs: seq<Record>, rs': seq<Record> {:trigger listed(p, rs), listed(p, rs')} ::
        listed(p, rs) && rs <= rs' ==> listed(p, rs'))
    && (forall p: nat, rs: seq<Record> {:trigger rs + [hit(p).value]} :: hit(p).Some? ==>
        listed(p, rs + [hit(p).value]))
  }

  /** Record `r` is the hit of some line at or after `p`. */
  ghost predicate IsHitAfter(f: string, hit: nat -> Option<Record>, p: nat, r: Record) {
    exists line: nat :: IsLine(f, line) && p <= line && hit(line) == Some(r)
  }

  lemma {:induction false} WalkExtends(
      f: string, p: nat, visit: (nat, Hits) -> Verdict<Hits>, hit: nat -> Option<Record>,
      listed: (nat, seq<Record>) -> bool, s: Hits)
    requires HasWholeLines(f) && p <= |f| && IsBol(f, p) && AddsHits(f, visit, hit, listed)
    ensures s.records <= Walk(f, p, visit, s).0.records
    decreases |f| - p
  {
    if p < |f| {
      NextLine(f, p);
      var v := visit(p, s);
      if v.Continue? {
        WalkExtends(f, LineEnd(f, p), visit, hit, listed, v.state);
      }
    }
  }

  /** However a walk ends, it has appended nothing but hits. */
  lemma {:induction false} WalkIsSound(
      f: string, p: nat, visit: (nat, Hits) -> Verdict<Hits>, hit: nat -> Option<Record>,
      listed: (nat, seq<Record>) -> bool, s: Hits, k: nat)
    requires HasWholeLines(f) && p <= |f| && IsBol(f, p) && AddsHits(f, visit, hit, listed)
    requires |s.records| <= k < |Walk(f, p, visit, s).0.records|
    ensures IsHitAfter(f, hit, p, Walk(f, p, visit, s).0.records[k])
    decreases |f| - p
  {
    if p < |f| {
      NextLine(f, p);
      var v := visit(p, s);
      var next := LineEnd(f, p);
      if v.Continue? {
        var after := Walk(f, next, visit, v.state).0;
        WalkExtends(f, next, visit, hit, listed, v.state);
        if k < |v.state.records| {
          assert after.records[k] == v.state.records[k];
          assert IsLine(f, p) && hit(p) == Some(after.records[k]);
        } else {
          WalkIsSound(f, next, visit, hit, listed, v.state, k);
          var line: nat :| IsLine(f, line) && next <= line && hit(line) == Some(after.records[k]);
        }
      }
    }
  }

  /** A walk that ends well has listed every hit from `p` on. */
  lemma {:induction false} WalkIsComplete(
      f: string, p: nat, visit: (nat, Hits) -> Verdict<Hits>, hit: nat -> Option<Record>,
      listed: (nat, seq<Record>) -> bool, s: Hits, line: nat)
    requires HasWholeLines(f) && p <= |f| && IsBol(f, p) && AddsHits(f, visit, hit, listed) && IsListing(f, hit, listed)
    requires Walk(f, p, visit, s).1 == SearchSuccessful
    requires IsLine(f, line) && p <= line && hit(line).Some?
    ensures listed(line, Walk(f, p, visit, s).0.records)
    decreases |f| - p
  {
    hide IsBol, HasWholeLines;
    NextLine(f, p);
    var v := visit(p, s);
    var next := LineEnd(f, p);
    if line == p {
      assert listed(p, v.state.records);
      WalkExtends(f, next, visit, hit, listed, v.state);
    } else {
      WalkIsComplete(f, next, visit, hit, listed, v.state, line);
    }
  }

  /** The hits of a query, and whether a line's hit is in a list, as values. */
  function HitAt(scope: Scope, q: Conjunction, f: string): nat -> Option<Record> {
    (p: nat) => if p <= |f| then HitOf(scope, q, LineItem(f, p)) else None
  }

  function ListedAt(scope: Scope, f: string): (nat, seq<Record>) -> bool {
    (p: nat, rs: seq<Record>) => p <= |f| && IsListed(scope, LineItem(f, p), rs)
  }

  lemma {:induction false} ListedStays(scope: Scope, item: IndexItem, rs: seq<Record>, rs': seq<Record>)
    requires IsListed(scope, item, rs) && rs <= rs'
    ensures IsListed(scope, item, rs')
  {
    var k :| 0 <= k < |rs| && IsHitFor(scope, item, rs[k]);
    assert rs'[k] == rs[k];
  }

  lemma {:induction false} OwnHitIsListed(scope: Scope, q: Conjunction, item: IndexItem, rs: seq<Record>)
    requires HitOf(scope, q, item).Some?
    ensures IsListed(scope, item, rs + [HitOf(scope, q, item).value])
  {
    VisitAdds(scope, q, item, Hits([], 0, REC_OK));
    var hit := HitOf(scope, q, item).value;
    assert (rs + [hit])[|rs|] == hit;
  }

  lemma {:induction false} VisitorAddsHits(scope: Scope, q: Conjunction, f: string)
    ensures AddsHits(f, Visitor(scope, q, f, true), HitAt(scope, q, f), ListedAt(scope, f))
  {
    var visit, hit, listed := Visitor(scope, q, f, true), HitAt(scope, q, f), ListedAt(scope, f);
    forall p: nat, s: Hits | IsLine(f, p)
      ensures var v := visit(p, s);
              && v.state.records ==
                  (if v.Continue? && hit(p).Some? && !listed(p, s.records) then s.records + [hit(p).value]
                  else s.records)
              && (v.Stop? ==> v.code != SearchSuccessful)
    {
      VisitAdds(scope, q, LineItem(f, p), s);
    }
  }

  lemma {:induction false} HitsAreListing(scope: Scope, q: Conjunction, f: string)
    ensures IsListing(f, HitAt(scope, q, f), ListedAt(scope, f))
  {
    var hit, listed := HitAt(scope, q, f), ListedAt(scope, f);
    forall p: nat, rs: seq<Record>, rs': seq<Record> {:trigger listed(p, rs), listed(p, rs')}
        | listed(p, rs) && rs <= rs'
      ensures listed(p, rs')
    {
      ListedStays(scope, LineItem(f, p), rs, rs');
    }
    forall p: nat, rs: seq<Record> {:trigger rs + [hit(p).value]} | hit(p).Some?
        ensures listed(p, rs + [hit(p).value]) {
      OwnHitIsListed(scope, q, LineItem(f, p), rs);
    }
  }

  /** What a find-all scan of the whole file amounts to: the old list, followed by
      nothing but records the query wants, and, if it ends well, every record
      the query wants is in the list. */
  lemma {:induction false} FullScanFinds(scope: Scope, q: Conjunction, f: string, s: Hits)
    requires HasWholeLines(f)
    ensures var (after, code) := Walk(f, 0, Visitor(scope, q, f, true), s);
            && s.records <= after.records
            && (forall k :: |s.records| <= k < |after.records| ==>
                IsHitAfter(f, HitAt(scope, q, f), 0, after.records[k]))
            && (code == SearchSuccessful ==>
                forall line: nat :: IsLine(f, line) && HitAt(scope, q, f)(line).Some? ==>
                    ListedAt(scope, f)(line, after.records))
  {
    var visit, hit, listed := Visitor(scope, q, f, true), HitAt(scope, q, f), ListedAt(scope, f);
    var (after, code) := Walk(f, 0, visit, s);
    VisitorAddsHits(scope, q, f);
    HitsAreListing(scope, q, f);
    WalkExtends(f, 0, visit, hit, listed, s);
    forall k | |s.records| <= k < |after.records| ensures IsHitAfter(f, hit, 0, after.records[k]) {
      WalkIsSound(f, 0, visit, hit, listed, s, k);
    }
    if code == SearchSuccessful {
      forall line: nat | IsLine(f, line) && hit(line).Some? ensures listed(line, after.records) {
        WalkIsComplete(f, 0, visit, hit, listed, s, line);
      }
    }
  }
}
