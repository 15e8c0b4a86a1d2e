/** `search_cidr_index_file` of search.c: from the network asked for up to the
    whole address space, one exact search for each prefix length. */
module CidrSearch {
  import opened Text
  import opened Numerals
  import opened IndexLine
  import opened LineFile
  import opened Bisection
  import opened DataFile
  import opened Walking
  import opened IndexScan
  import opened SearchEngine
  import opened HitLimit
  import opened Network
  import opened NetworkText

  /** The query with another search value. */
  function WithValue(q: Conjunction, value: string): Conjunction {
    q.(head := q.head.(searchValue := value))
  }

  /** The query with its search value swapped for the key of a network. */
  function ForNetwork(q: Conjunction, n: NetInfo): Conjunction {
    WithValue(q, Key(n))
  }

  /** The scan for one prefix length. */
  function Level(
      scope: Scope, f: string, q: Conjunction, net: NetInfo, len: int, s: Hits, garbage: RecStatus): (Hits, RetCode)
  {
    Walk(f, 0, Visitor(scope, ForNetwork(q, Widened(net, len)), f, true), s.(status := garbage))
  }

  /** A scan for each prefix length from `len` down to 0. A length at which no
      line matches leaves the return code as it was. */
  ghost function Descend(
      level: (int, Hits) -> (Hits, RetCode), matches: int -> bool, len: int, s: Hits, code: RetCode): (Hits, RetCode)
    decreases len + 1
  {
    if len < 0 then (s, code)
    else
      var (after, ret) := level(len, s);
      Descend(level, matches, len - 1, after, if matches(len) then ret else code)
  }

  ghost function LevelOf(
      scope: Scope, f: string, q: Conjunction, net: NetInfo, garbage: int -> RecStatus): (int, Hits) -> (Hits, RetCode)
  {
    (len: int, s: Hits) => Level(scope, f, q, net, len, s, garbage(len))
  }

  ghost function MatchesOf(f: string, q: Conjunction, net: NetInfo): int -> bool {
    (len: int) => Matches(f, ForNetwork(q, Widened(net, len)))
  }

  ghost function Levels(
      scope: Scope, f: string, q: Conjunction, net: NetInfo, len: int, s: Hits, code: RetCode,
      garbage: int -> RecStatus): (Hits, RetCode)
  {
    Descend(LevelOf(scope, f, q, net, garbage), MatchesOf(f, q, net), len, s, code)
  }

  /** One length at a time. */
  lemma {:induction false} LevelsStep(
      scope: Scope, f: string, q: Conjunction, net: NetInfo, len: int, s: Hits, code: RetCode,
      garbage: int -> RecStatus)
    requires 0 <= len
    ensures var (after, ret) := Level(scope, f, q, net, len, s, garbage(len));
            Levels(scope, f, q, net, len, s, code, garbage) ==
            Levels(scope, f, q, net, len - 1, after,
                if Matches(f, ForNetwork(q, Widened(net, len))) then ret else code, garbage)
  {
  }

  lemma {:induction false} LevelsEnd(
      scope: Scope, f: string, q: Conjunction, net: NetInfo, s: Hits, code: RetCode, garbage: int -> RecStatus)
    ensures Levels(scope, f, q, net, -1, s, code, garbage) == (s, code)
  {
  }

  /** A query term whose search value is swapped for a key while it is searched. */
  class QueryTree {
    var terms: Conjunction

    constructor (terms: Conjunction)
      ensures this.terms == terms
    {
      this.terms := terms;
    }
  }

  /** `search_cidr_index_file`, given how addresses are read. The search value is put
      back, except after an invalid search type, which leaves the key of the network
      asked for in the query. */
  method SearchCidrIndexFile(
      searcher: Searcher, tree: QueryTree, scope: Scope, f: string, how: SearchType, read: AddressReader,
      garbage: int -> RecStatus)
    returns (code: RetCode)
    requires how == BinarySearchType ==> IsIndex(f) && HasShortLines(f) && tree.terms.head.comp != Substr
    requires ReadsWhole(read)
    modifies searcher, tree
    ensures var net := ParseNetwork(read, old(tree.terms.head.searchValue));
      && (net.None? || how != BinarySearchType ==>
          searcher.records == old(searcher.records) && searcher.hitCount == old(searcher.hitCount))
      && (net.None? ==> code == SearchSuccessful && tree.terms == old(tree.terms))
      && (net.Some? && how != BinarySearchType ==>
          code == InvalidSearchType && tree.terms == ForNetwork(old(tree.terms), net.value))
      && (net.Some? && how == BinarySearchType ==>
          var s := Hits(old(searcher.records), old(searcher.hitCount), REC_OK);
          var r := Levels(scope, f, old(tree.terms), net.value, net.value.masklen, s, SearchSuccessful, garbage);
          && searcher.records == r.0.records && searcher.hitCount == r.0.count && code == r.1
          && tree.terms == old(tree.terms))
  {
    hide Levels, ParseNetwork, Key;
    code := SearchSuccessful;
    var orig := tree.terms;
    var net := ParseNetwork(read, orig.head.searchValue);
    if net.None? {
      return;
    }
    if how != BinarySearchType {
      var prefix := CopyPrefix(net.value);
      var key := NarrowKey(net.value, prefix, net.value.masklen);
      tree.terms := tree.terms.(head := tree.terms.head.(searchValue := key));
      return InvalidSearchType;
    }
    code := WalkUp(searcher, tree, scope, f, net.value, garbage);
    tree.terms := tree.terms.(head := tree.terms.head.(searchValue := orig.head.searchValue));
  }

  /** The top of the loop: mask the address off further and write its key. */
  method NarrowKey(net: NetInfo, prefix: array<bv8>, masklen: nat) returns (key: string)
    requires IsNetwork(net) && prefix.Length == |net.prefix| && Mask(prefix[..], masklen) == Mask(net.prefix, masklen)
    modifies prefix
    ensures prefix[..] == Mask(net.prefix, masklen) && key == Key(Widened(net, masklen))
  {
    MaskAddrToLen(prefix, masklen);
    var address := NiToAddrstring(net.af, prefix[..]);
    key := address + "/" + DecimalInt(masklen);
  }

  /** The rest of the loop: the exact search for the key in the query. */
  method SearchLevel(
      searcher: Searcher, scope: Scope, f: string, q: Conjunction, ghost orig: Conjunction, net: NetInfo, masklen: int,
      before: RetCode, garbage: RecStatus, ghost s: Hits)
    returns (code: RetCode, ghost s': Hits)
    requires IsIndex(f) && HasShortLines(f) && q.head.comp != Substr && q == ForNetwork(orig, Widened(net, masklen))
    requires s.records == searcher.records && s.count == searcher.hitCount
    modifies searcher
    ensures s' == Level(scope, f, orig, net, masklen, s, garbage).0
    ensures searcher.records == s'.records && searcher.hitCount == s'.count
    ensures code == if Matches(f, q) then Level(scope, f, orig, net, masklen, s, garbage).1 else before
  {
    var found, ret := searcher.BinaryScan(scope, f, q, garbage);
    code := if found then ret else before;
    s' := Level(scope, f, orig, net, masklen, s, garbage).0;
  }

  /** The address bytes the loop works on. */
  method CopyPrefix(net: NetInfo) returns (prefix: array<bv8>)
    ensures fresh(prefix) && prefix[..] == net.prefix
  {
    prefix := new bv8[|net.prefix|](i requires 0 <= i < |net.prefix| => net.prefix[i]);
    assert prefix[..] == net.prefix;
  }

  /** The loop over prefix lengths. Only the search value of the query changes. */
  method WalkUp(searcher: Searcher, tree: QueryTree, scope: Scope, f: string, net: NetInfo, garbage: int -> RecStatus)
    returns (code: RetCode)
    requires IsIndex(f) && HasShortLines(f) && tree.terms.head.comp != Substr && IsNetwork(net)
    modifies searcher, tree
    ensures var s := Hits(old(searcher.records), old(searcher.hitCount), REC_OK);
            var r := Levels(scope, f, old(tree.terms), net, net.masklen, s, SearchSuccessful, garbage);
            searcher.records == r.0.records && searcher.hitCount == r.0.count && code == r.1
    ensures exists key :: tree.terms == WithValue(old(tree.terms), key)
  {
    hide Levels, Level, Widened, MaskByte, Mask;
    code := SearchSuccessful;
    ghost var q := tree.terms;
    assert q == WithValue(q, q.head.searchValue);
    var prefix := CopyPrefix(net);
    var masklen := net.masklen;
    ghost var s := Hits(searcher.records, searcher.hitCount, REC_OK);
    ghost var goal := Levels(scope, f, q, net, masklen, s, code, garbage);
    while masklen >= 0
      invariant -1 <= masklen && prefix.Length == |net.prefix|
      invariant Mask(prefix[..], masklen) == Mask(net.prefix, masklen)
      invariant s.records == searcher.records && s.count == searcher.hitCount
      invariant goal == Levels(scope, f, q, net, masklen, s, code, garbage)
      invariant exists key :: tree.terms == WithValue(q, key)
      decreases masklen
    {
      LevelsStep(scope, f, q, net, masklen, s, code, garbage);
      var key := NarrowKey(net, prefix, masklen);
      MaskComposes(net.prefix, masklen, masklen - 1);
      tree.terms := tree.terms.(head := tree.terms.head.(searchValue := key));
      assert tree.terms == WithValue(q, key);
      code, s := SearchLevel(searcher, scope, f, tree.terms, q, net, masklen, code, garbage(masklen), s);
      masklen := masklen - 1;
    }
    LevelsEnd(scope, f, q, net, s, code, garbage);
  }

  /** The hit list on reaching length `m` from `len`. */
  ghost function Reach(level: (int, Hits) -> (Hits, RetCode), len: int, m: int, s: Hits): Hits
    requires m <= len
    decreases len - m
  {
    if len == m then s else Reach(level, len - 1, m, level(len, s).0)
  }

  /** A descent goes through length `m`. */
  lemma {:induction false} DescendThrough(
      level: (int, Hits) -> (Hits, RetCode), matches: int -> bool, len: int, m: int, s: Hits, code: RetCode)
    requires 0 <= m <= len && matches(m)
    ensures var (after, ret) := level(m, Reach(level, len, m, s));
            Descend(level, matches, len, s, code) == Descend(level, matches, m - 1, after, ret)
    decreases len
  {
    if m < len {
      var (after, ret) := level(len, s);
      DescendThrough(level, matches, len - 1, m, after, if matches(len) then ret else code);
    }
  }

  /** The return code is that of the shortest prefix length at which a line matches;
      what longer ones returned, a hit limit or an error included, is forgotten. */
  lemma {:induction false} LastCodeWins(
      level: (int, Hits) -> (Hits, RetCode), matches: int -> bool, len: int, m: int, s: Hits, code: RetCode)
    requires 0 <= m <= len && matches(m) && forall k :: 0 <= k < m ==> !matches(k)
    ensures Descend(level, matches, len, s, code).1 == level(m, Reach(level, len, m, s)).1
  {
    DescendThrough(level, matches, len, m, s, code);
    var (after, ret) := level(m, Reach(level, len, m, s));
    NoMatchKeepsCode(level, matches, m - 1, after, ret);
  }

  lemma {:induction false} NoMatchKeepsCode(
      level: (int, Hits) -> (Hits, RetCode), matches: int -> bool, len: int, s: Hits, code: RetCode)
    requires forall k :: 0 <= k <= len ==> !matches(k)
    ensures Descend(level, matches, len, s, code).1 == code
    decreases len + 1
  {
    if len >= 0 {
      NoMatchKeepsCode(level, matches, len - 1, level(len, s).0, code);
    }
  }

  /** Record `r` is what a line for the network of length `len` stands for. */
  ghost predicate FromLevel(scope: Scope, f: string, q: Conjunction, net: NetInfo, len: int, r: Record) {
    IsHitAfter(f, HitAt(scope, ForNetwork(q, Widened(net, len)), f), 0, r)
  }

  /** A level appends nothing but records found at its length. */
  ghost predicate Appends(level: (int, Hits) -> (Hits, RetCode), found: (int, Record) -> bool) {
    forall len: int, s: Hits ::
      var after := level(len, s).0.records;
      s.records <= after && forall k :: |s.records| <= k < |after| ==> found(len, after[k])
  }

  /** The records from `from` on were found at the given lengths, which lie
      between 0 and `top` and never rise. */
  ghost predicate FoundAt(found: (int, Record) -> bool, records: seq<Record>, from: nat, lens: seq<int>, top: int) {
    && |records| == from + |lens|
    && (forall k :: 0 <= k < |lens| ==> 0 <= lens[k] <= top && found(lens[k], records[from + k]))
    && (forall j, k :: 0 <= j < k < |lens| ==> lens[j] >= lens[k])
  }

  lemma {:induction false} DescendOrder(
      level: (int, Hits) -> (Hits, RetCode), matches: int -> bool, found: (int, Record) -> bool, len: int, s: Hits,
      code: RetCode)
    returns (lens: seq<int>)
    requires Appends(level, found)
    ensures var after := Descend(level, matches, len, s, code).0.records;
            s.records <= after && FoundAt(found, after, |s.records|, lens, len)
    decreases len + 1
  {
    lens := [];
    if len >= 0 {
      var (mid, ret) := level(len, s);
      var rest := DescendOrder(level, matches, found, len - 1, mid, if matches(len) then ret else code);
      lens := seq(|mid.records| - |s.records|, _ => len) + rest;
    }
  }

  ghost function FoundOf(scope: Scope, f: string, q: Conjunction, net: NetInfo): (int, Record) -> bool {
    (len: int, r: Record) => FromLevel(scope, f, q, net, len, r)
  }

  lemma {:induction false} LevelsAppend(
      scope: Scope, f: string, q: Conjunction, net: NetInfo, garbage: int -> RecStatus)
    requires HasWholeLines(f)
    ensures Appends(LevelOf(scope, f, q, net, garbage), FoundOf(scope, f, q, net))
  {
    var level, found := LevelOf(scope, f, q, net, garbage), FoundOf(scope, f, q, net);
    forall len: int, s: Hits
      ensures var after := level(len, s).0.records;
              s.records <= after && forall k :: |s.records| <= k < |after| ==> found(len, after[k])
    {
      FullScanFinds(scope, ForNetwork(q, Widened(net, len)), f, s.(status := garbage(len)));
    }
  }

  /** The list is only appended to, and the prefix lengths under which the new
      records were found never rise: the most specific networks come first. */
  lemma {:induction false} SpecificFirst(
      scope: Scope, f: string, q: Conjunction, net: NetInfo, len: int, s: Hits, code: RetCode,
      garbage: int -> RecStatus)
    returns (lens: seq<int>)
    requires HasWholeLines(f)
    ensures var after := Levels(scope, f, q, net, len, s, code, garbage).0.records;
            s.records <= after && FoundAt(FoundOf(scope, f, q, net), after, |s.records|, lens, len)
  {
    LevelsAppend(scope, f, q, net, garbage);
    lens := DescendOrder(LevelOf(scope, f, q, net, garbage), MatchesOf(f, q, net), FoundOf(scope, f, q, net),
        len, s, code);
  }

  /** The line at `p` indexes network `n`, as `cidr_index` writes it. */
  ghost predicate Indexes(f: string, p: nat, n: NetInfo) {
    p <= |f| && IsCanonical(n) && LineItem(f, p).value == Key(n)
  }

  /** A line matches at prefix length `len` exactly when the network it indexes is
      the query's widening to `len`. */
  lemma {:induction false} MatchesAtLength(f: string, q: Conjunction, net: NetInfo, p: nat, n: NetInfo, len: int)
    requires IsNetwork(net) && Indexes(f, p, n) && q.head.comp == Full && 0 <= len <= net.masklen
    ensures SearchCompare(Full, Key(Widened(net, len)), LineItem(f, p).value) == 0
        <==> n.masklen == len && Covers(n, net)
  {
    KeyInjective(Widened(net, len), n);
    CoversIsWidened(n, net);
  }

  /** Soundness: a record found at some length is the record of a line whose
      network contains the one asked for. */
  lemma {:induction false} FoundIsCovering(
      scope: Scope, f: string, q: Conjunction, net: NetInfo, len: int, r: Record)
    returns (p: nat, n: NetInfo)
    requires IsNetwork(net) && q.head.comp == Full && 0 <= len <= net.masklen
    requires forall p: nat :: IsLine(f, p) ==> exists n :: Indexes(f, p, n)
    requires FromLevel(scope, f, q, net, len, r)
    ensures IsLine(f, p) && Indexes(f, p, n) && Covers(n, net) && n.masklen == len
    ensures HitOf(scope, ForNetwork(q, n), LineItem(f, p)) == Some(r)
  {
    var hit := HitAt(scope, ForNetwork(q, Widened(net, len)), f);
    p :| IsLine(f, p) && hit(p) == Some(r);
    n :| Indexes(f, p, n);
    MatchesAtLength(f, q, net, p, n, len);
    CoversIsWidened(n, net);
  }

  /** Every scan from `len` down to 0 ends well. */
  ghost predicate AllSucceed(level: (int, Hits) -> (Hits, RetCode), len: int, s: Hits)
    decreases len + 1
  {
    len < 0 || (level(len, s).1 == SearchSuccessful && AllSucceed(level, len - 1, level(len, s).0))
  }

  /** What a well-ended scan at length `at` lists stays listed to the end. */
  lemma {:induction false} DescendKeeps(
      level: (int, Hits) -> (Hits, RetCode), matches: int -> bool, found: (int, Record) -> bool,
      listed: seq<Record> -> bool, len: int, at: int, s: Hits, code: RetCode)
    requires Appends(level, found) && 0 <= at <= len && AllSucceed(level, len, s)
    requires forall rs, more :: listed(rs) ==> listed(rs + more)
    requires forall s :: level(at, s).1 == SearchSuccessful ==> listed(level(at, s).0.records)
    ensures listed(Descend(level, matches, len, s, code).0.records)
    decreases len
  {
    var (mid, ret) := level(len, s);
    var code' := if matches(len) then ret else code;
    if at == len {
      var lens := DescendOrder(level, matches, found, len - 1, mid, code');
      var after := Descend(level, matches, len - 1, mid, code').0.records;
      assert after == mid.records + after[|mid.records|..];
    } else {
      DescendKeeps(level, matches, found, listed, len - 1, at, mid, code');
    }
  }

  /** Completeness: if every scan ends well, each line whose network contains the
      one asked for has its record listed. */
  lemma {:induction false} CoveringIsFound(
      scope: Scope, f: string, q: Conjunction, net: NetInfo, s: Hits, garbage: int -> RecStatus, p: nat, n: NetInfo)
    requires HasWholeLines(f) && IsNetwork(net) && AllSucceed(LevelOf(scope, f, q, net, garbage), net.masklen, s)
    requires IsLine(f, p) && Indexes(f, p, n) && Covers(n, net) && HitOf(scope, ForNetwork(q, n), LineItem(f, p)).Some?
    ensures IsListed(scope, LineItem(f, p),
        Levels(scope, f, q, net, net.masklen, s, SearchSuccessful, garbage).0.records)
  {
    hide HitOf, LineItem;
    CoversIsWidened(n, net);
    var level, listed := LevelOf(scope, f, q, net, garbage), (rs: seq<Record>) => IsListed(scope, LineItem(f, p), rs);
    LevelsAppend(scope, f, q, net, garbage);
    forall rs, more | listed(rs) ensures listed(rs + more) {
      ListedStays(scope, LineItem(f, p), rs, rs + more);
    }
    forall s | level(n.masklen, s).1 == SearchSuccessful ensures listed(level(n.masklen, s).0.records) {
      LevelLists(scope, f, ForNetwork(q, n), s.(status := garbage(n.masklen)), p);
    }
    DescendKeeps(level, MatchesOf(f, q, net), FoundOf(scope, f, q, net), listed,
        net.masklen, n.masklen, s, SearchSuccessful);
  }

  lemma {:induction false} LevelLists(scope: Scope, f: string, q: Conjunction, s: Hits, p: nat)
    requires HasWholeLines(f) && IsLine(f, p) && HitOf(scope, q, LineItem(f, p)).Some?
    requires Walk(f, 0, Visitor(scope, q, f, true), s).1 == SearchSuccessful
    ensures IsListed(scope, LineItem(f, p), Walk(f, 0, Visitor(scope, q, f, true), s).0.records)
  {
    FullScanFinds(scope, q, f, s);
    assert HitAt(scope, q, f)(p).Some?;
    assert ListedAt(scope, f)(p, Walk(f, 0, Visitor(scope, q, f, true), s).0.records);
  }

  // ---- The hit limit ------------------------------------------------------

  /** Each level of the first search is that of the second as far as there is room. */
  ghost predicate LevelsAreCut(
      max: int, level: (int, Hits) -> (Hits, RetCode), unlimited: (int, Hits) -> (Hits, RetCode))
  {
    forall len: int, s: Hits {:trigger level(len, s)} :: IsCut(max, s, level(len, s).0, unlimited(len, s).0)
  }

  /** Without room no level adds anything. */
  lemma {:induction false} FullStays(
      max: int, level: (int, Hits) -> (Hits, RetCode), unlimited: (int, Hits) -> (Hits, RetCode),
      matches: int -> bool, len: int, s: Hits, code: RetCode)
    requires LevelsAreCut(max, level, unlimited) && Room(max, s) == 0
    ensures var after := Descend(level, matches, len, s, code).0; after.records == s.records && after.count == s.count
    decreases len + 1
  {
    if len >= 0 {
      var (next, ret) := level(len, s);
      assert IsCut(max, s, next, unlimited(len, s).0);
      FullStays(max, level, unlimited, matches, len - 1, next, if matches(len) then ret else code);
    }
  }

  lemma {:induction false} DescendIsCut(
      max: int, level: (int, Hits) -> (Hits, RetCode), unlimited: (int, Hits) -> (Hits, RetCode),
      matches: int -> bool, len: int, s: Hits, code: RetCode, code': RetCode)
    requires LevelsAreCut(max, level, unlimited)
    ensures IsCut(max, s, Descend(level, matches, len, s, code).0, Descend(unlimited, matches, len, s, code').0)
    decreases len + 1
  {
    if len >= 0 {
      var (next, ret) := level(len, s);
      var (next', ret') := unlimited(len, s);
      var now, now' := if matches(len) then ret else code, if matches(len) then ret' else code';
      assert IsCut(max, s, next, next');
      DescendIsCut(max, level, unlimited, matches, len - 1, next', now, now');
      if next != next' {
        FullStays(max, level, unlimited, matches, len - 1, next, now);
      }
    }
  }

  lemma {:induction false} SomeFound(
      found: (int, Record) -> bool, records: seq<Record>, from: nat, lens: seq<int>, top: int)
    requires FoundAt(found, records, from, lens, top) && lens != []
    ensures exists k, r {:trigger found(k, r)} :: 0 <= k <= top && found(k, r)
  {
    assert found(lens[0], records[from + 0]);
  }

  lemma {:induction false} NothingFound(
      level: (int, Hits) -> (Hits, RetCode), matches: int -> bool, found: (int, Record) -> bool, len: int, s: Hits,
      code: RetCode)
    requires Appends(level, found) && forall k, r {:trigger found(k, r)} :: 0 <= k <= len ==> !found(k, r)
    ensures Descend(level, matches, len, s, code).0.records == s.records
  {
    var lens := DescendOrder(level, matches, found, len, s, code);
    if lens != [] {
      SomeFound(found, Descend(level, matches, len, s, code).0.records, |s.records|, lens, len);
    }
  }

  /** What is found at a length comes from a line that matches there. */
  lemma {:induction false} FoundMatches(scope: Scope, f: string, q: Conjunction, net: NetInfo, len: int, r: Record)
    requires IsScannable(f) && FromLevel(scope, f, q, net, len, r)
    ensures Matches(f, ForNetwork(q, Widened(net, len)))
  {
    hide SearchCompare, Key, Widened, Fetch, CheckTerms;
    var q' := ForNetwork(q, Widened(net, len));
    var line: nat :| IsLine(f, line) && HitAt(scope, q', f)(line) == Some(r);
    SameLine(f, line);
    ComparisonAt(f, q'.head.comp, q'.head.searchValue, line);
  }

  /** The list a search for a network ends with, from the one it would end with if
      there were no hit limit. */
  ghost function Shortened(max: int, s: Hits, whole: seq<Record>): seq<Record>
    requires s.records <= whole
  {
    if |whole| - |s.records| <= Room(max, s) then whole else whole[..|s.records| + Room(max, s)]
  }

  /** The hit limit of the whole search: it lists the first records of the search
      without a limit, as many as there is room for. */
  lemma {:induction false} LimitedSearch(
      scope: Scope, f: string, q: Conjunction, net: NetInfo, s: Hits, code: RetCode, garbage: int -> RecStatus)
    requires HasWholeLines(f) && scope.maxHits > 0
    ensures var whole := Levels(Unlimited(scope), f, q, net, net.masklen, s, code, garbage).0;
            IsCut(scope.maxHits, s, Levels(scope, f, q, net, net.masklen, s, code, garbage).0, whole)
  {
    hide IsCut, Walk, Visitor, Key, Widened;
    var level, unlimited := LevelOf(scope, f, q, net, garbage), LevelOf(Unlimited(scope), f, q, net, garbage);
    forall len: int, s: Hits {:trigger level(len, s)}
      ensures IsCut(scope.maxHits, s, level(len, s).0, unlimited(len, s).0)
    {
      var s' := s.(status := garbage(len));
      LimitedScan(scope, ForNetwork(q, Widened(net, len)), f, s');
      CutAnyway(scope.maxHits, s, s', level(len, s).0, unlimited(len, s).0);
    }
    DescendIsCut(scope.maxHits, level, unlimited, MatchesOf(f, q, net), net.masklen, s, code, code);
  }

  lemma {:induction false} CutAnyway(max: int, s: Hits, s': Hits, cut: Hits, whole: Hits)
    requires s'.records == s.records && s'.count == s.count && IsCut(max, s', cut, whole)
    ensures IsCut(max, s, cut, whole)
  {
  }

  /** When the search for a network reports its hit limit. Its list is that of the
      search without a limit, shortened to the room there is. It returns the limit if
      and only if, of the network with the shortest matching prefix, some record is
      missing from that list, and success otherwise: that records of longer prefixes
      were cut off does not count. */
  lemma {:induction false} LimitIsReported(
      scope: Scope, f: string, q: Conjunction, net: NetInfo, m: int, s: Hits, code: RetCode, garbage: int -> RecStatus)
    requires IsScannable(f) && HasData(scope, f) && scope.maxHits > 0
    requires 0 <= m <= net.masklen && Matches(f, ForNetwork(q, Widened(net, m)))
    requires forall k :: 0 <= k < m ==> !Matches(f, ForNetwork(q, Widened(net, k)))
    ensures var whole := Levels(Unlimited(scope), f, q, net, net.masklen, s, code, garbage).0.records;
            var (after, ret) := Levels(scope, f, q, net, net.masklen, s, code, garbage);
            && s.records <= whole && after.records == Shortened(scope.maxHits, s, whole)
            && ret in {SearchSuccessful, HitLimitExceeded}
            && (ret == HitLimitExceeded
                <==> IsMissing(scope, ForNetwork(q, Widened(net, m)), f, Shortened(scope.maxHits, s, whole)))
  {
    hide Walk, Visitor, Key, Widened, Matches, HasData, FromLevel, IsMissing, IsScannable;
    assert HasWholeLines(f) by { WholeLines(f); }
    LimitedSearch(scope, f, q, net, s, code, garbage);
    var level, matches, found := LevelOf(scope, f, q, net, garbage), MatchesOf(f, q, net), FoundOf(scope, f, q, net);
    var reached := Reach(level, net.masklen, m, s);
    var (last, ret) := level(m, reached);
    DescendThrough(level, matches, net.masklen, m, s, code);
    LastCodeWins(level, matches, net.masklen, m, s, code);
    ReportsMissing(scope, ForNetwork(q, Widened(net, m)), f, reached.(status := garbage(m)));
    LevelsAppend(scope, f, q, net, garbage);
    forall k, r {:trigger found(k, r)} | 0 <= k <= m - 1 ensures !found(k, r) {
      if found(k, r) {
        FoundMatches(scope, f, q, net, k, r);
      }
    }
    NothingFound(level, matches, found, m - 1, last, ret);
  }

  lemma {:induction false} WholeLines(f: string)
    requires IsScannable(f)
    ensures HasWholeLines(f)
  {
  }
}
