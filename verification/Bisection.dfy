/** A file as its bytes: line starts, `fgets`, and the backward search for the
    start of a line (`scan_for_bol` of search_prim.c). */
module LineFile {
  import opened Text

  const MAX_LINE := 512
  const MAX_BUF := 4096

  /** `p` is where a line starts, or the end of a newline-terminated file. */
  ghost predicate IsBol(f: string, p: int) {
    0 <= p <= |f| && (p == 0 || f[p - 1] == '\n')
  }

  /** Position behind the newline that ends the line `p` lies in. */
  function LineEnd(f: string, p: nat): (e: nat)
    requires p <= |f|
    ensures p <= e <= |f|
    ensures p < |f| ==> p < e
    ensures forall k :: p <= k < e - 1 ==> f[k] != '\n'
    ensures e < |f| ==> f[e - 1] == '\n'
  {
    var k := Find(f, '\n', p);
    if k < |f| then k + 1 else k
  }

  /** No line starts strictly inside a line. */
  lemma {:induction false} NothingInside(f: string, p: nat, r: nat)
    requires p <= r <= |f| && p < |f| && IsBol(f, r)
    ensures r == p || LineEnd(f, p) <= r
  {
  }

  /** Where `fgets(buffer, size, fp)` leaves the file position. */
  function FgetsEnd(f: string, pos: nat, size: nat): (e: nat)
    requires pos <= |f| && size >= 2
    ensures pos <= e <= LineEnd(f, pos)
    ensures pos < |f| ==> pos < e
  {
    var e := LineEnd(f, pos);
    if e <= pos + size - 1 then e else pos + size - 1
  }

  /** Index of the last newline at or before `off`; -1 when there is none. */
  function LastNewline(f: string, off: int): (n: int)
    requires off < |f|
    ensures -1 <= n < |f| && (0 <= off ==> n <= off)
    ensures 0 <= n ==> f[n] == '\n'
    ensures forall k :: n < k <= off && 0 <= k ==> f[k] != '\n'
    decreases off + 1
  {
    if off < 0 then -1
    else if f[off] == '\n' then off else LastNewline(f, off - 1)
  }
}

module LineStart {
  import opened Text
  import opened LineFile

  const BLOCK := 512  // MAX_BACKUP_BUFFER
  const HALF := 256   // BUF_MID

  datatype Scan = Bol(pos: nat) | NotFound

  function ReadBlock(f: string, start: nat): string
    requires start <= |f|
  {
    f[start..if start + BLOCK <= |f| then start + BLOCK else |f|]
  }

  /** Forward half of the scan: the first newline in `[p, high)`. */
  function Forward(f: string, p: nat, high: nat): (r: Scan)
    ensures r.Bol? ==> p < r.pos <= high && r.pos <= |f| && f[r.pos - 1] == '\n'
    decreases |f| - p
  {
    if p >= high || p >= |f| then NotFound
    else if f[p] == '\n' then Bol(p + 1)
    else Forward(f, p + 1, high)
  }

  /** Backward half, at position `i` of the block read from `b`: a refill steps
      back a whole block but resumes in its middle, unless the block would
      start before the file; below `low` the scan turns round. */
  function Back(f: string, low: nat, off: nat, high: nat, b: nat, i: int): (r: Scan)
    requires -1 <= i && b + i <= off < |f| && b <= off && (b == 0 ==> 0 <= i)
    ensures r.Bol? ==> r.pos <= |f| && (off < high ==> r.pos <= high)
    decreases b, i + 1
  {
    if i < 0 then
      if b < BLOCK then Back(f, low, off, high, 0, b) else Back(f, low, off, high, b - BLOCK, HALF)
    else if f[b + i] == '\n' then Bol(b + i + 1)
    else if b + i == 0 then Bol(0)
    else if b + i < low then Forward(f, off + 1, high)
    else Back(f, low, off, high, b, i - 1)
  }

  /** First block of the scan: it starts half a block before `off`. */
  function FirstBlock(off: nat): nat {
    if off < HALF then 0 else off - HALF
  }

  function ScanResult(f: string, low: nat, off: nat, high: nat): Scan
    requires off < |f|
  {
    if off == 0 then Bol(0) else Back(f, low, off, high, FirstBlock(off), off - FirstBlock(off))
  }

  /** A scan in progress: `inc` is its direction, `b` the block it holds, and
      `i` the place in the block, one step outside it at most. */
  ghost predicate InBlock(f: string, off: nat, inc: int, b: int, i: int) {
    && 0 <= b < |f| && off < |f|
    && (inc == -1 ==> -1 <= i < |ReadBlock(f, b)| && b + i <= off && b <= off && (b == 0 ==> 0 <= i))
    && (inc == 1 ==> 0 <= i <= |ReadBlock(f, b)| && off < b + i)
    && (inc == -1 || inc == 1)
  }

  /** What such a scan will answer. */
  ghost function Pending(f: string, low: nat, off: nat, high: nat, inc: int, b: int, i: int): Scan
    requires InBlock(f, off, inc, b, i)
  {
    if inc == -1 then Back(f, low, off, high, b, i) else Forward(f, b + i, high)
  }

  lemma {:induction false} BlockAt(f: string, b: nat, i: nat)
    requires b < |f| && i < |ReadBlock(f, b)|
    ensures b + i < |f| && ReadBlock(f, b)[i] == f[b + i]
  {
  }

  /** What the character at hand settles: a newline or the start of the file
      ends the scan, anything else turns it round below `low` and lets it step
      on otherwise. */
  lemma {:induction false} PendingStep(f: string, low: nat, off: nat, high: nat, inc: int, b: int, i: int)
    requires low <= off && InBlock(f, off, inc, b, i) && 0 <= i < |ReadBlock(f, b)| && b + i < high
    ensures b + i < |f| && ReadBlock(f, b)[i] == f[b + i]
    ensures var pending := Pending(f, low, off, high, inc, b, i);
            if f[b + i] == '\n' then pending == Bol(b + i + 1)
            else if b + i == 0 then pending == Bol(0)
            else
              var (inc', b', i') := if b + i < low then (1, FirstBlock(off), off - FirstBlock(off) + 1)
                  else (inc, b, i + inc);
              InBlock(f, off, inc', b', i') && pending == Pending(f, low, off, high, inc', b', i')
  {
    BlockAt(f, b, i);
    if inc == -1 && b + i < low {
      TurnsRound(f, off);
    }
  }

  /** The block read on turning round holds the place to resume at. */
  lemma {:induction false} TurnsRound(f: string, off: nat)
    requires off < |f|
    ensures InBlock(f, off, 1, FirstBlock(off), off - FirstBlock(off) + 1)
  {
  }

  /** The two refills of the loop: off the front of the block, off its back. */
  method Refill(f: string, low: nat, off: nat, high: nat, inc: int, b: nat, i: int, buf: string)
    returns (more: bool, b': nat, i': int, buf': string)
    requires InBlock(f, off, inc, b, i) && buf == ReadBlock(f, b)
    ensures more ==> InBlock(f, off, inc, b', i') && buf' == ReadBlock(f, b') && 0 <= i' < |buf'|
    ensures more ==> Pending(f, low, off, high, inc, b', i') == Pending(f, low, off, high, inc, b, i)
    ensures more && inc == -1 ==> if i < 0 then b' < b else b' == b && i' == i
    ensures more && inc == 1 ==> b' + i' == b + i
    ensures !more ==> Pending(f, low, off, high, inc, b, i) == NotFound
  {
    more, b', i', buf' := true, b, i, buf;
    if i < 0 {
      if b < BLOCK {
        b', i' := 0, b;
      } else {
        b', i' := b - BLOCK, HALF;
      }
      buf' := ReadBlock(f, b');
    }
    if i' >= |buf'| {
      if |buf'| < BLOCK {
        return false, b', i', buf';
      }
      b', i' := b' + BLOCK, 0;
      buf' := ReadBlock(f, b');
      more := |buf'| != 0;
    }
  }

  /** Rank of a scan in progress; every round of the loop lowers it. */
  ghost predicate Closer(high: int, inc: int, b: int, i: int, inc': int, b': int, i': int) {
    if inc == -1 then inc' == 1 || (inc' == -1 && (b' < b || (b' == b && i' < i)))
    else inc' == 1 && b + i < b' + i' <= high
  }

  /** One round of the loop of `scan_for_bol`: an answer, or the next place. */
  method Examine(f: string, low: nat, off: nat, high: nat, inc: int, b: nat, i: int, buf: string)
    returns (answer: Option<Scan>, inc': int, b': nat, i': int, buf': string)
    requires low <= off < high && InBlock(f, off, inc, b, i) && buf == ReadBlock(f, b) && b + i < high
    ensures answer.Some? ==> answer.value == Pending(f, low, off, high, inc, b, i)
    ensures answer.None? ==>
      && InBlock(f, off, inc', b', i') && buf' == ReadBlock(f, b')
      && Pending(f, low, off, high, inc', b', i') == Pending(f, low, off, high, inc, b, i)
      && Closer(high, inc, b, i, inc', b', i')
  {
    hide Back, Forward, ReadBlock;
    var more;
    inc' := inc;
    more, b', i', buf' := Refill(f, low, off, high, inc, b, i, buf);
    if !more {
      return Some(NotFound), inc', b', i', buf';
    }
    PendingStep(f, low, off, high, inc, b', i');
    if buf'[i'] == '\n' {
      return Some(Bol(b' + i' + 1)), inc', b', i', buf';
    }
    if i' == 0 && b' == 0 {
      return Some(Bol(0)), inc', b', i', buf';
    }
    if b' + i' < low {
      inc', b', i' := 1, FirstBlock(off), off - FirstBlock(off);
      buf' := ReadBlock(f, b');
    }
    i' := i' + inc';
    answer := None;
  }

  /** `scan_for_bol`. The position is left at the line start, except that an
      offset of zero returns before any seek. */
  method ScanForBol(f: string, fp: nat, low: nat, offset: nat, high: nat) returns (r: Scan, fp': nat)
    requires low <= offset < high && offset < |f|
    ensures r == ScanResult(f, low, offset, high)
    ensures offset == 0 ==> fp' == fp
    ensures offset > 0 && r.Bol? ==> fp' == r.pos
  {
    if offset == 0 {
      return Bol(0), fp;
    }
    var inc, bufStart, internal := -1, FirstBlock(offset), offset - FirstBlock(offset);
    var buf := ReadBlock(f, bufStart);
    var answer := None;
    ghost var goal := ScanResult(f, low, offset, high);
    while internal + bufStart < high
      invariant InBlock(f, offset, inc, bufStart, internal) && buf == ReadBlock(f, bufStart)
      invariant goal == Pending(f, low, offset, high, inc, bufStart, internal)
      decreases -inc, if inc == -1 then bufStart else high - bufStart - internal, internal
    {
      answer, inc, bufStart, internal, buf := Examine(f, low, offset, high, inc, bufStart, internal, buf);
      if answer.Some? {
        return answer.value, if answer.value.Bol? then answer.value.pos else fp;
      }
    }
    return NotFound, fp;
  }

  /** Whether the scan that has read the block at `b`, and found no newline in
      the part it looked at, comes past position `n`: after `k` whole blocks it
      does unless `n` lies in the half block the refill jumps over. */
  predicate Reached(b: nat, n: int) {
    n >= b ||
    var k := (b - n - 1) / BLOCK;
    b - BLOCK * k < BLOCK || b - BLOCK * k - n >= HALF
  }

  /** `scan_for_bol` answers with the start of the line `off` lies in (the next
      line, if `off` is a newline) exactly when its block arithmetic does not
      jump over the newline before it. */
  lemma {:induction false} ScanIsExact(f: string, low: nat, off: nat, high: nat)
    requires low <= off < high && off < |f| && IsBol(f, low)
    ensures var n := LastNewline(f, off);
            ScanResult(f, low, off, high) == Bol(n + 1) <==> Reached(FirstBlock(off), n) && !(off == 0 && f[0] == '\n')
  {
    if off > 0 {
      BackIsExact(f, low, off, high, FirstBlock(off), off - FirstBlock(off));
    }
  }

  /** How the reach changes with a refill. */
  lemma {:induction false} ReachedStep(b: nat, n: int)
    requires -1 <= n
    ensures n >= b ==> Reached(b, n)
    ensures n < b < BLOCK ==> Reached(b, n) && Reached(0, n)
    ensures b >= BLOCK && n <= b - HALF ==> (Reached(b, n) <==> Reached(b - BLOCK, n))
    ensures b >= BLOCK && b - HALF < n < b ==> !Reached(b, n)
  {
  }

  lemma {:induction false} BackIsExact(f: string, low: nat, off: nat, high: nat, b: nat, i: int)
    requires low <= off < high && off < |f| && IsBol(f, low)
    requires -1 <= i && b + i <= off && b <= off && (b == 0 ==> 0 <= i)
    requires LastNewline(f, off) <= b + i
    ensures var n := LastNewline(f, off);
            Back(f, low, off, high, b, i) == Bol(n + 1) <==> Reached(b, n)
    decreases b, i + 1
  {
    hide Reached;
    var n := LastNewline(f, off);
    ReachedStep(b, n);
    if i < 0 {
      if b < BLOCK {
        BackIsExact(f, low, off, high, 0, b);
      } else if n <= b - HALF {
        BackIsExact(f, low, off, high, b - BLOCK, HALF);
      } else {
        BackMisses(f, low, off, high, b - BLOCK, HALF);
      }
    } else if b + i > n && b + i > 0 {
      BackIsExact(f, low, off, high, b, i - 1);
    }
  }

  /** Once past the newline, the scan cannot come back to it. */
  lemma {:induction false} BackMisses(f: string, low: nat, off: nat, high: nat, b: nat, i: int)
    requires off < |f| && -1 <= i && b + i < LastNewline(f, off) && b < LastNewline(f, off) && (b == 0 ==> 0 <= i)
    ensures Back(f, low, off, high, b, i) != Bol(LastNewline(f, off) + 1)
    decreases b, i + 1
  {
    if i < 0 {
      if b < BLOCK {
        BackMisses(f, low, off, high, 0, b);
      } else {
        BackMisses(f, low, off, high, b - BLOCK, HALF);
      }
    } else if b + i >= low && b + i > 0 && f[b + i] != '\n' {
      BackMisses(f, low, off, high, b, i - 1);
    }
  }
}

/** `binary_search` of search_prim.c over a sorted index file. */
module Bisection {
  import opened Text
  import opened CStrings
  import opened IndexLine
  import opened LineFile
  import opened LineStart

  /** `mkdb_compare_type`; the negated comparisons are all rejected alike. */
  datatype CompareType = Full | Partial | Substr | Negated

  /** `strSTR`: a non-empty needle occurs in `s`, case ignored. */
  predicate OccursIn(s: string, needle: string) {
    && needle != "" && |needle| <= |s|
    && (EqualIgnoringCase(s[..|needle|], needle) || OccursIn(s[1..], needle))
  }

  /** `search_compare`. */
  function SearchCompare(comp: CompareType, searchValue: string, indexValue: string): int {
    match comp
    case Full => Strcmp(searchValue, indexValue)
    case Partial => Strncmp(searchValue, indexValue)
    case Substr => if OccursIn(indexValue, searchValue) then 0 else 1
    case Negated => -2
  }

  /** What a query looks for: the value itself, values that start with it, values that
      hold it somewhere in whatever case, or nothing at all. */
  ghost predicate Selects(comp: CompareType, q: string, v: string) {
    match comp
    case Full => v == q
    case Partial => |q| <= |v| && v[..|q|] == q
    case Substr => q != "" && exists i: nat :: HoldsAt(v, i, q)
    case Negated => false
  }

  predicate HoldsAt(v: string, i: nat, q: string) {
    i + |q| <= |v| && HasSameLetters(v[i..i + |q|], q)
  }

  lemma {:induction false} OccursMeans(s: string, needle: string)
    ensures OccursIn(s, needle) <==> needle != "" && exists i: nat :: HoldsAt(s, i, needle)
  {
    if needle != "" && |needle| <= |s| {
      var n := |needle|;
      IgnoringCaseMeans(s[..n], needle);
      assert s[0..0 + n] == s[..n];
      OccursMeans(s[1..], needle);
      forall i: nat ensures HoldsAt(s[1..], i, needle) <==> HoldsAt(s, i + 1, needle) {
        assert i + n < |s| ==> s[1..][i..i + n] == s[i + 1..i + 1 + n];
      }
      if exists i: nat :: HoldsAt(s, i, needle) {
        var i: nat :| HoldsAt(s, i, needle);
        assert i == 0 || HoldsAt(s[1..], i - 1, needle);
      }
      assert HoldsAt(s, 0, needle) <==> EqualIgnoringCase(s[..n], needle);
    }
  }

  /** A comparison is zero exactly for the values the query looks for, and below zero
      for those that come behind them. */
  lemma {:induction false} SearchCompareMeans(comp: CompareType, q: string, v: string)
    ensures SearchCompare(comp, q, v) == 0 <==> Selects(comp, q, v)
    ensures comp in {Full, Partial} && IsBefore(v, q) && !Selects(comp, q, v) ==> SearchCompare(comp, q, v) > 0
    ensures comp in {Full, Partial} && IsBefore(q, v) && !Selects(comp, q, v) ==> SearchCompare(comp, q, v) < 0
  {
    OccursMeans(v, q);
    StrcmpMeans(q, v);
    assert q <= v <==> |q| <= |v| && v[..|q|] == q;
    StrncmpIsStrcmp(q, v);
  }

  lemma {:induction false} StrncmpIsStrcmp(q: string, v: string)
    ensures !(q <= v) ==> Strncmp(q, v) == Strcmp(q, v)
  {
    if q != "" && v != "" && q[0] == v[0] {
      assert q <= v <==> q[1..] <= v[1..];
      StrncmpIsStrcmp(q[1..], v[1..]);
    }
  }

  /** Text of the line `readline` delivers at `p` into a buffer of `size`. */
  function LineAt(f: string, p: nat, size: nat): string
    requires p <= |f| && size >= 2
  {
    Clean(f[p..FgetsEnd(f, p, size)])
  }

  /** Value of the index line at `p`; of no interest when it does not decode. */
  function ValueAt(f: string, p: nat): string
    requires p <= |f|
  {
    var item := Decode(LineAt(f, p, MAX_BUF));
    if item.Some? then item.value.value else ""
  }

  /** Position `p` starts a line (and is not the end of the file). */
  ghost predicate IsLine(f: string, p: int) {
    p < |f| && IsBol(f, p)
  }

  ghost predicate IsTerminated(f: string) {
    f != "" ==> f[|f| - 1] == '\n'
  }

  ghost predicate Decodes(f: string) {
    forall p :: IsLine(f, p) ==> IsDecodable(LineAt(f, p, MAX_BUF))
  }

  /** Lines appear in `strcmp` order of their values. */
  ghost predicate IsSorted(f: string) {
    forall p, r :: IsLine(f, p) && IsLine(f, r) && p <= r ==> Strcmp(ValueAt(f, p), ValueAt(f, r)) <= 0
  }

  ghost predicate IsIndex(f: string) {
    IsTerminated(f) && Decodes(f) && IsSorted(f)
  }

  /** Longest line, newline included, that a half block always covers. */
  const SHORT := 257

  /** No line is longer than `max` bytes, its newline included. */
  ghost predicate HasLinesUpTo(f: string, max: int) {
    forall p :: IsLine(f, p) ==> LineEnd(f, p) - p <= max
  }

  ghost predicate HasShortLines(f: string) {
    HasLinesUpTo(f, SHORT)
  }

  /** How the query compares with the line at `p`. */
  function CompareAt(f: string, comp: CompareType, q: string, p: nat): int
    requires p <= |f|
  {
    SearchCompare(comp, q, ValueAt(f, p))
  }

  /** The same as a value: what the bisection sees of the query. */
  function Comparison(f: string, comp: CompareType, q: string): nat -> int {
    (p: nat) => if p <= |f| then CompareAt(f, comp, q, p) else 0
  }

  /** Down the file the comparison never rises. */
  ghost predicate Falls(f: string, cmp: nat -> int) {
    forall p, r :: IsLine(f, p) && IsLine(f, r) && p <= r ==> cmp(p) >= cmp(r)
  }

  lemma {:induction false} SearchCompareFalls(comp: CompareType, q: string, v: string, w: string)
    requires comp != Substr && Strcmp(v, w) <= 0
    ensures SearchCompare(comp, q, v) >= SearchCompare(comp, q, w)
  {
    CompareIsMonotone(q, v, w);
  }

  lemma {:induction false} ComparisonAt(f: string, comp: CompareType, q: string, p: nat)
    requires p <= |f|
    ensures Comparison(f, comp, q)(p) == SearchCompare(comp, q, ValueAt(f, p))
  {
  }

  lemma {:induction false} ComparisonFalls(f: string, comp: CompareType, q: string)
    requires IsSorted(f) && comp != Substr
    ensures Falls(f, Comparison(f, comp, q))
  {
    var cmp := Comparison(f, comp, q);
    forall p, r | IsLine(f, p) && IsLine(f, r) && p <= r ensures cmp(p) >= cmp(r) {
      ComparisonAt(f, comp, q, p);
      ComparisonAt(f, comp, q, r);
      SearchCompareFalls(comp, q, ValueAt(f, p), ValueAt(f, r));
    }
  }

  /** A newline-terminated file whose lines are neither too short to hold a
      midpoint off their newline nor too long for half a block. */
  ghost predicate Fits(f: string) {
    && IsTerminated(f)
    && (forall p :: IsLine(f, p) ==> 3 <= LineEnd(f, p) - p <= SHORT)
  }

  lemma {:induction false} LineIsLong(f: string, p: nat)
    requires p < |f| && IsDecodable(LineAt(f, p, MAX_BUF))
    ensures LineEnd(f, p) - p >= 5
  {
    var raw := f[p..FgetsEnd(f, p, MAX_BUF)];
    CleanIsCString(raw);
    DecodableIsLong(Clean(raw));
  }

  lemma {:induction false} IndexFits(f: string)
    requires IsTerminated(f) && Decodes(f) && HasShortLines(f)
    ensures Fits(f)
  {
    forall p | IsLine(f, p) ensures 3 <= LineEnd(f, p) - p {
      LineIsLong(f, p);
    }
  }

  /** State of the bisection loop. `beg` is the line examined last, `save` the
      match found last; both start at -1. */
  datatype Search = Running(low: nat, high: nat, beg: int, save: int, fp: nat) | Done(result: int)

  /** One round of the loop. */
  function Round(f: string, cmp: nat -> int, s: Search): (t: Search)
    requires s.Running? ==> s.fp <= |f| && s.high <= |f|
    ensures t.Running? ==> t.fp <= |f| && t.high <= |f|
  {
    if s.Done? then s
    else if s.low >= s.high then Done(s.save)
    else
      var mid := s.low + (s.high - s.low) / 2;
      var scan := ScanResult(f, s.low, mid, s.high);
      if scan.NotFound? || s.beg == scan.pos || scan.pos == s.high then Done(s.save)
      else
        var fp := if mid == 0 then s.fp else scan.pos;
        var end := FgetsEnd(f, fp, MAX_BUF);
        if cmp(fp) == 0 then Running(s.low, scan.pos, scan.pos, scan.pos, end)
        else if cmp(fp) < 0 then Running(s.low, scan.pos, scan.pos, s.save, end)
        else Running(end, s.high, scan.pos, s.save, end)
  }

  function Rounds(f: string, cmp: nat -> int, n: nat): (s: Search)
    ensures s.Running? ==> s.fp <= |f| && s.high <= |f|
  {
    if n == 0 then Running(0, |f|, -1, -1, 0) else Round(f, cmp, Rounds(f, cmp, n - 1))
  }

  /** What holds whenever the loop starts a round: the bounds are line starts,
      the query lies above every line before `low`, and from `high` on it lies
      below, or `high` itself is a match. */
  ghost predicate Narrowed(f: string, cmp: nat -> int, s: Search) {
    && s.Running? && s.low <= s.high <= |f| && s.fp <= |f|
    && IsBol(f, s.low) && IsBol(f, s.high)
    && (s.beg < s.low || s.beg == s.high)
    && (forall p :: IsLine(f, p) && p < s.low ==> cmp(p) > 0)
    && (s.save == -1 ==> forall p :: IsLine(f, p) && s.high <= p ==> cmp(p) < 0)
    && (s.save != -1 ==> s.save == s.high < |f| && cmp(s.high) == 0)
  }

  /** The scan lands on the line that holds the midpoint, inside the bounds. */
  lemma {:induction false} MidpointLine(f: string, low: nat, high: nat) returns (line: nat)
    requires Fits(f) && low < high <= |f| && IsBol(f, low) && IsBol(f, high)
    ensures var mid := low + (high - low) / 2;
            && mid > 0 && ScanResult(f, low, mid, high) == Bol(line)
            && low <= line < high && IsLine(f, line)
            && FgetsEnd(f, line, MAX_BUF) == LineEnd(f, line) <= high && IsBol(f, LineEnd(f, line))
  {
    var mid := low + (high - low) / 2;
    var n := LastNewline(f, mid);
    line := n + 1;
    assert IsLine(f, low);
    NothingInside(f, low, high);
    assert low - 1 <= n;
    assert IsLine(f, line);
    NothingInside(f, line, high);
    assert n < mid ==> mid + 1 < LineEnd(f, line);
    ScanIsExact(f, low, mid, high);
  }

  /** A round that starts with room left examines a line between the bounds,
      keeps the bounds truthful and narrows them. */
  lemma {:induction false} RoundNarrows(f: string, cmp: nat -> int, s: Search, mid: nat) returns (line: nat)
    requires Fits(f) && Falls(f, cmp) && Narrowed(f, cmp, s) && s.low < s.high && mid == s.low + (s.high - s.low) / 2
    ensures 0 < mid < |f| && ScanResult(f, s.low, mid, s.high) == Bol(line) && s.low <= line < s.high
    ensures var t, end := Round(f, cmp, s), FgetsEnd(f, line, MAX_BUF);
            && t == (if cmp(line) == 0 then Running(s.low, line, line, line, end)
                     else if cmp(line) < 0 then Running(s.low, line, line, s.save, end)
                     else Running(end, s.high, line, s.save, end))
            && Narrowed(f, cmp, t) && t.high - t.low < s.high - s.low
  {
    line := MidpointLine(f, s.low, s.high);
    forall p | IsLine(f, p) && line < p ensures LineEnd(f, line) <= p {
      NothingInside(f, line, p);
    }
  }

  /** First match of a comparison, or -1 exactly when there is none. */
  ghost predicate IsFirstMatch(f: string, cmp: nat -> int, r: int) {
    && (r == -1 || (0 <= r && IsLine(f, r) && cmp(r) == 0))
    && (forall p :: IsLine(f, p) && (r == -1 || p < r) ==> cmp(p) != 0)
  }

  lemma {:induction false} SearchEnds(f: string, cmp: nat -> int, n: nat, s: Search)
    requires s == Rounds(f, cmp, n) && Narrowed(f, cmp, s) && s.low == s.high
    ensures IsFirstMatch(f, cmp, s.save) && Rounds(f, cmp, n + 1) == Done(s.save)
  {
  }

  /** The loop of `binary_search`, for the comparison with a given query. */
  method Bisect(f: string, cmp: nat -> int) returns (r: int)
    requires Fits(f) && Falls(f, cmp)
    ensures IsFirstMatch(f, cmp, r)
    ensures exists n :: Rounds(f, cmp, n) == Done(r)
  {
    var low: nat, high: nat, fp: nat := 0, |f|, 0;
    var begOfLine: int, save: int := -1, -1;
    ghost var n := 0;
    ghost var s := Running(low, high, begOfLine, save, fp);
    while low < high
      invariant Rounds(f, cmp, n) == s == Running(low, high, begOfLine, save, fp)
      invariant Narrowed(f, cmp, s)
      decreases high - low
    {
      var mid := low + (high - low) / 2;
      ghost var line := RoundNarrows(f, cmp, s, mid);
      s, n := Round(f, cmp, s), n + 1;
      var scan;
      scan, fp := ScanForBol(f, fp, low, mid, high);
      assert scan == Bol(line) && begOfLine != line;
      if scan.NotFound? || begOfLine == scan.pos || scan.pos == high {
        break;
      }
      begOfLine := scan.pos;
      var y := cmp(fp);
      var endOfLine := FgetsEnd(f, fp, MAX_BUF);
      fp := endOfLine;
      if y == 0 {
        save, high := begOfLine, begOfLine;
      } else if y < 0 {
        high := begOfLine;
      } else {
        low := endOfLine;
      }
    }
    SearchEnds(f, cmp, n, s);
    r := save;
  }

  /** The first line whose value the query looks for, or -1 if there is none. */
  ghost predicate IsFirstSelected(f: string, comp: CompareType, q: string, r: int) {
    && (r == -1 || (0 <= r && IsLine(f, r) && Selects(comp, q, ValueAt(f, r))))
    && (forall p: nat :: IsLine(f, p) && (r == -1 || p < r) ==> !Selects(comp, q, ValueAt(f, p)))
  }

  lemma {:induction false} FirstMatchIsSelected(f: string, comp: CompareType, q: string, r: int)
    requires IsFirstMatch(f, Comparison(f, comp, q), r)
    ensures IsFirstSelected(f, comp, q, r)
  {
    hide Selects, SearchCompare, ValueAt;
    if r != -1 {
      ComparisonAt(f, comp, q, r);
      SearchCompareMeans(comp, q, ValueAt(f, r));
    }
    forall p: nat | IsLine(f, p) && (r == -1 || p < r) ensures !Selects(comp, q, ValueAt(f, p)) {
      ComparisonAt(f, comp, q, p);
      SearchCompareMeans(comp, q, ValueAt(f, p));
    }
  }

  /** `binary_search`: the offset of the first line whose value the query looks for,
      or -1 exactly when there is none. */
  method BinarySearch(f: string, comp: CompareType, q: string) returns (r: int)
    requires IsIndex(f) && HasShortLines(f) && comp != Substr
    ensures IsFirstSelected(f, comp, q, r)
    ensures IsFirstMatch(f, Comparison(f, comp, q), r)
    ensures exists n :: Rounds(f, Comparison(f, comp, q), n) == Done(r)
  {
    ComparisonFalls(f, comp, q);
    IndexFits(f);
    r := Bisect(f, Comparison(f, comp, q));
    FirstMatchIsSelected(f, comp, q, r);
  }
}
