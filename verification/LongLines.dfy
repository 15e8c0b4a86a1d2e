/** Why the bisection theorem asks for lines of at most 257 bytes, and that this is
    the exact bound: with 258 there is a sorted, well-formed index on which
    `binary_search` misses the line it looks for. */
module LongLines {
  import opened Text
  import opened Numerals
  import opened CStrings
  import opened IndexLine
  import opened LineFile
  import opened LineStart
  import opened Bisection
  import opened IndexBuild

  /** While it meets no newline and stays above `low`, the scan walks to the
      front of its block. */
  lemma {:induction false} BackWalks(f: string, low: nat, off: nat, high: nat, b: nat, i: int)
    requires -1 <= i && b + i <= off < |f| && low <= b <= off && 0 < b
    requires forall k :: b <= k <= b + i ==> f[k] != '\n'
    ensures Back(f, low, off, high, b, i) == Back(f, low, off, high, b, -1)
    decreases i + 1
  {
    if i >= 0 {
      BackWalks(f, low, off, high, b, i - 1);
    }
  }

  /** Where the lines of the example end: they take 200, 200, 255, 258 and 254
      bytes. */
  ghost predicate HasLines(f: string) {
    |f| == 1167 && forall i :: 0 <= i < |f| ==> (f[i] == '\n' <==> i in {199, 399, 654, 912, 1166})
  }

  /** The first round looks at the third line and rules it out. */
  lemma {:induction false} FirstRound(f: string, cmp: nat -> int)
    requires HasLines(f) && cmp(400) > 0
    ensures Round(f, cmp, Running(0, 1167, -1, -1, 0)) == Running(655, 1167, 400, -1, 655)
  {
    hide ScanResult, LastNewline;
    assert f[399] == '\n' && f[654] == '\n';
    ScanIsExact(f, 0, 583, 1167);
    FindIs(f, '\n', 400, 654);
  }

  /** The second midpoint lies 256 bytes into the fourth line, so that its block
      starts with that line: the refill jumps over the newline before it and lands on
      the third line again. */
  lemma {:induction false} SecondScan(f: string)
    requires HasLines(f)
    ensures ScanResult(f, 655, 911, 1167) == Bol(400)
  {
    BackWalks(f, 655, 911, 1167, 655, 256);
    assert f[399] == '\n';
    assert Back(f, 655, 911, 1167, 143, 256) == Bol(400);
  }

  lemma {:induction false} LengthIs(f: string)
    requires HasLines(f)
    ensures |f| == 1167
  {
  }

  /** That ends the search. */
  lemma {:induction false} SearchStops(f: string, cmp: nat -> int)
    requires HasLines(f) && cmp(400) > 0
    ensures Rounds(f, cmp, 2) == Done(-1)
  {
    hide ScanResult, HasLines, FgetsEnd;
    FirstRound(f, cmp);
    SecondScan(f);
    LengthIs(f);
    assert Rounds(f, cmp, 0) == Running(0, 1167, -1, -1, 0);
    assert Rounds(f, cmp, 1) == Running(655, 1167, 400, -1, 655);
  }

  lemma {:induction false} FiveLines(a: string, b: string, c: string, d: string, e: string)
    requires IsOneLine(a) && IsOneLine(b) && IsOneLine(c) && IsOneLine(d) && IsOneLine(e)
    requires |a| == 199 && |b| == 199 && |c| == 254 && |d| == 257 && |e| == 253
    ensures HasLines(Written([a, b, c, d, e])) && |Written([a, b])| == 400 && |Written([a, b, c])| == 655
  {
    assert [a, b, c, d, e][..4] == [a, b, c, d] && [a, b, c, d][..3] == [a, b, c];
    assert [a, b, c][..2] == [a, b] && [a, b][..1] == [a] && [a][..0] == [];
    var f := Written([a, b, c, d, e]);
    assert Written([a]) == a + "\n";
    assert Written([a, b]) == Written([a]) + (b + "\n");
    assert Written([a, b, c]) == Written([a, b]) + (c + "\n");
    assert Written([a, b, c, d]) == Written([a, b, c]) + (d + "\n");
    assert f == a + "\n" + b + "\n" + c + "\n" + d + "\n" + e + "\n";
    forall i | 0 <= i < |f| ensures f[i] == '\n' <==> i in {199, 399, 654, 912, 1166} {
      assert f[i] == if i < 199 then a[i] else if i == 199 then '\n' else if i < 399 then b[i - 200]
                     else if i == 399 then '\n' else if i < 654 then c[i - 400] else if i == 654 then '\n'
                     else if i < 912 then d[i - 655] else if i == 912 then '\n' else if i < 1166 then e[i - 913]
                         else '\n';
    }
  }

  function Entry(c: char, n: nat): IndexItem {
    IndexItem(1, 1, 0, 1, seq(n, _ => c))
  }

  lemma {:induction false} EntryText(c: char, n: nat)
    requires 'A' <= c <= 'Z' && 0 < n < 500
    ensures |Encode(Entry(c, n))| == 8 + n && IsIndexable(Entry(c, n))
  {
    assert DecimalInt(1) == "1" && DecimalInt(0) == "0";
  }

  lemma {:induction false} LetterOrder(c: char, m: nat, d: char, n: nat)
    requires c <= d && 0 < m && 0 < n && (c == d ==> m == n)
    ensures Strcmp(Entry(c, m).value, Entry(d, n).value) <= 0
    ensures c < d ==> Strcmp(Entry(d, n).value, Entry(c, m).value) == 1
  {
    if c < d {
      assert Entry(c, m).value[0] == c && Entry(d, n).value[0] == d;
    }
  }

  function Letter(k: nat): char
    requires k < 5
  {
    ['A', 'B', 'C', 'D', 'E'][k]
  }

  function Length(k: nat): nat
    requires k < 5
  {
    [191, 191, 246, 249, 245][k]
  }

  /** The items of the example, in order of their values. */
  function Items(): (items: seq<IndexItem>)
    ensures |items| == 5 && forall k :: 0 <= k < 5 ==> items[k] == Entry(Letter(k), Length(k))
  {
    seq(5, k requires 0 <= k < 5 => Entry(Letter(k), Length(k)))
  }

  lemma {:induction false} ItemsAreIndexable()
    ensures InOrder(Items())
    ensures forall k :: 0 <= k < 5 ==> IsIndexable(Items()[k]) && |Encode(Items()[k])| == 8 + Length(k)
  {
    hide Strcmp, Encode, IsIndexable;
    forall k | 0 <= k < 5 ensures IsIndexable(Items()[k]) && |Encode(Items()[k])| == 8 + Length(k) {
      EntryText(Letter(k), Length(k));
    }
    forall i, j | 0 <= i <= j < 5 ensures Strcmp(Items()[i].value, Items()[j].value) <= 0 {
      LetterOrder(Letter(i), Length(i), Letter(j), Length(j));
    }
  }

  lemma {:induction false} ExampleLines()
    ensures var texts := IndexTexts(Items());
            HasLines(Written(texts)) && |Written(texts[..2])| == 400 && |Written(texts[..3])| == 655
  {
    hide Encode, IsIndexable, Written, HasLines;
    var texts := IndexTexts(Items());
    ItemsAreIndexable();
    forall k | 0 <= k < 5 ensures IsOneLine(texts[k]) && |texts[k]| == 8 + Length(k) {
      EncodedLine(Items()[k]);
    }
    FiveLines(texts[0], texts[1], texts[2], texts[3], texts[4]);
    assert texts == [texts[0], texts[1], texts[2], texts[3], texts[4]];
    assert texts[..2] == [texts[0], texts[1]] && texts[..3] == [texts[0], texts[1], texts[2]];
  }

  /** The value of the fourth line, and how it compares with two lines. */
  lemma {:induction false} ExampleCompares()
    ensures var f, q := Written(IndexTexts(Items())), Items()[3].value;
            IsLine(f, 655) && Comparison(f, Full, q)(655) == 0 && Comparison(f, Full, q)(400) > 0
  {
    hide Decode, LineAt, IsIndexable, Written, Encode, HasLines, Strcmp;
    var f, q := Written(IndexTexts(Items())), Items()[3].value;
    ItemsAreIndexable();
    ExampleLines();
    WrittenAt(Items(), 2);
    WrittenAt(Items(), 3);
    ComparisonAt(f, Full, q, 400);
    ComparisonAt(f, Full, q, 655);
    LetterOrder(Letter(2), Length(2), Letter(3), Length(3));
    SameValue(q);
  }

  lemma {:induction false} SameValue(q: string)
    ensures Strcmp(q, q) == 0
  {
  }

  /** The counterexample: the written file is an index with lines of at most 258
      bytes, its fourth line is exactly what is searched for, and the search ends
      after two rounds with nothing found. */
  lemma {:induction false} LongLineIsMissed()
    ensures var f, q := Written(IndexTexts(Items())), Items()[3].value;
            && IsIndex(f) && HasLinesUpTo(f, 258)
            && IsLine(f, 655) && Comparison(f, Full, q)(655) == 0
            && Rounds(f, Comparison(f, Full, q), 2) == Done(-1)
  {
    hide IsIndexable, Written, Encode, HasLines, InOrder, IsIndex, Rounds, Comparison;
    var f, q := Written(IndexTexts(Items())), Items()[3].value;
    ItemsAreIndexable();
    WrittenIsIndex(Items());
    WrittenLengths(Items(), 258);
    ExampleLines();
    ExampleCompares();
    SearchStops(f, Comparison(f, Full, q));
  }

  // ---- The exact bound ----------------------------------------------------

  /** The search ends with the first match, or with -1 if there is none. */
  ghost predicate Finds(f: string, cmp: nat -> int) {
    exists n :: Rounds(f, cmp, n).Done? && IsFirstMatch(f, cmp, Rounds(f, cmp, n).result)
  }

  /** On every index with lines up to `max` bytes every search with an order does. */
  ghost predicate AlwaysFinds(max: int) {
    forall f, comp, q :: IsIndex(f) && HasLinesUpTo(f, max) && comp != Substr ==> Finds(f, Comparison(f, comp, q))
  }

  /** An ended search stays ended. */
  lemma {:induction false} DoneStays(f: string, cmp: nat -> int, n: nat, k: nat)
    requires n <= k && Rounds(f, cmp, n).Done?
    ensures Rounds(f, cmp, k) == Rounds(f, cmp, n)
  {
    if n < k {
      DoneStays(f, cmp, n, k - 1);
    }
  }

  lemma {:induction false} FindsFrom(f: string, cmp: nat -> int, n: nat, s: Search)
    requires Fits(f) && Falls(f, cmp) && s == Rounds(f, cmp, n) && Narrowed(f, cmp, s)
    ensures Finds(f, cmp)
    decreases s.high - s.low
  {
    hide Fits, Falls, IsFirstMatch;
    if s.low < s.high {
      var line := RoundNarrows(f, cmp, s, s.low + (s.high - s.low) / 2);
      FindsFrom(f, cmp, n + 1, Round(f, cmp, s));
    } else {
      SearchEnds(f, cmp, n, s);
      assert Rounds(f, cmp, n + 1).Done?;
    }
  }

  lemma {:induction false} ShortLinesAreFound(f: string, comp: CompareType, q: string)
    requires IsIndex(f) && HasShortLines(f) && comp != Substr
    ensures Finds(f, Comparison(f, comp, q))
  {
    hide Comparison, Finds, Falls, Fits, Decodes, IsSorted;
    var cmp := Comparison(f, comp, q);
    IndexFits(f);
    ComparisonFalls(f, comp, q);
    StartsNarrowed(f, cmp);
    FindsFrom(f, cmp, 0, Rounds(f, cmp, 0));
  }

  lemma {:induction false} StartsNarrowed(f: string, cmp: nat -> int)
    requires IsTerminated(f)
    ensures Narrowed(f, cmp, Rounds(f, cmp, 0))
  {
  }

  lemma {:induction false} MissedIsNotFound(f: string, cmp: nat -> int, p: nat)
    requires Rounds(f, cmp, 2) == Done(-1) && IsLine(f, p) && cmp(p) == 0
    ensures !Finds(f, cmp)
  {
    forall n: nat | Rounds(f, cmp, n).Done? ensures !IsFirstMatch(f, cmp, Rounds(f, cmp, n).result) {
      if n <= 2 {
        DoneStays(f, cmp, n, 2);
      } else {
        DoneStays(f, cmp, 2, n);
      }
    }
  }

  lemma {:induction false} LinesUpToMore(f: string, max: int, more: int)
    requires HasLinesUpTo(f, max) && max <= more
    ensures HasLinesUpTo(f, more)
  {
  }

  /** `binary_search` is right on every index with lines up to `max` bytes if and only
      if `max` is at most 257. */
  lemma {:induction false} BoundIsExact(max: int)
    ensures AlwaysFinds(max) <==> max <= SHORT
  {
    hide Finds, Comparison, IsIndex, HasLinesUpTo, Written;
    if max <= SHORT {
      forall f, comp, q | IsIndex(f) && HasLinesUpTo(f, max) && comp != Substr
          ensures Finds(f, Comparison(f, comp, q)) {
        LinesUpToMore(f, max, SHORT);
        ShortLinesAreFound(f, comp, q);
      }
    } else {
      var f, q := Written(IndexTexts(Items())), Items()[3].value;
      LongLineIsMissed();
      LinesUpToMore(f, 258, max);
      MissedIsNotFound(f, Comparison(f, Full, q), 655);
    }
  }
}
