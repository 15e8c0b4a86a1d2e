/** C string primitives used by the index reader (misc.c, strutil.c). */
module CStrings {
  import opened Text
  import opened Numerals

  /** Outcome of `strcmp`, reduced to its sign. */
  function Strcmp(a: string, b: string): (r: int)
    ensures r == 0 <==> a == b
    ensures -1 <= r <= 1
  {
    if a == "" then if b == "" then 0 else -1
    else if b == "" || a[0] > b[0] then 1
    else if a[0] < b[0] then -1
    else
      assert a == [a[0]] + a[1..] && b == [b[0]] + b[1..];
      Strcmp(a[1..], b[1..])
  }

  /** `strncmp(q, v, strlen(q))`: zero exactly when `q` is a prefix of `v`. */
  function Strncmp(q: string, v: string): (r: int)
    ensures r == 0 <==> q <= v
    ensures -1 <= r <= 1
  {
    if q == "" then 0
    else if v == "" || q[0] > v[0] then 1
    else if q[0] < v[0] then -1
    else
      assert q <= v <==> q[1..] <= v[1..];
      Strncmp(q[1..], v[1..])
  }

  /** The order is that of the first byte in which two strings differ, a string that
      ends being the smaller. */
  lemma {:induction false} StrcmpMeans(a: string, b: string)
    ensures Strcmp(a, b) < 0 <==> IsBefore(a, b)
    ensures Strcmp(a, b) > 0 <==> IsBefore(b, a)
  {
    if a != "" && b != "" && a[0] == b[0] {
      StrcmpMeans(a[1..], b[1..]);
      BeforeBehind(a, b);
      BeforeBehind(b, a);
    } else {
      assert a[..0] == b[..0];
      assert b != "" && (a == "" || a[0] < b[0]) ==> DiffersAt(a, b, 0);
      assert a != "" && (b == "" || b[0] < a[0]) ==> DiffersAt(b, a, 0);
      assert a != "" && b != "" ==> forall i :: 0 < i <= |a| && i <= |b| ==> a[..i][0] != b[..i][0];
    }
  }

  /** Up to `i` the two agree, and there `a` ends or has the smaller byte. */
  predicate DiffersAt(a: string, b: string, i: nat) {
    i <= |a| && i < |b| && a[..i] == b[..i] && (i == |a| || a[i] < b[i])
  }

  ghost predicate IsBefore(a: string, b: string) {
    exists i: nat :: DiffersAt(a, b, i)
  }

  lemma {:induction false} BeforeBehind(a: string, b: string)
    requires a != "" && b != "" && a[0] == b[0]
    ensures IsBefore(a, b) <==> IsBefore(a[1..], b[1..])
  {
    if IsBefore(a, b) {
      var i: nat :| DiffersAt(a, b, i);
      assert a[1..][..i - 1] == a[..i][1..] && b[1..][..i - 1] == b[..i][1..];
      assert DiffersAt(a[1..], b[1..], i - 1);
    }
    if IsBefore(a[1..], b[1..]) {
      var i: nat :| DiffersAt(a[1..], b[1..], i);
      assert a[..i + 1] == [a[0]] + a[1..][..i] && b[..i + 1] == [b[0]] + b[1..][..i];
      assert DiffersAt(a, b, i + 1);
    }
  }

  /** Both comparisons fall (or stay) as the compared value rises in the
      `strcmp` order: the monotonicity that makes bisection meaningful. */
  lemma {:induction false} CompareIsMonotone(q: string, v: string, w: string)
    requires Strcmp(v, w) <= 0
    ensures Strcmp(q, v) >= Strcmp(q, w)
    ensures Strncmp(q, v) >= Strncmp(q, w)
  {
    if q != "" && v != "" && w != "" && q[0] == v[0] == w[0] {
      CompareIsMonotone(q[1..], v[1..], w[1..]);
    }
  }

  /** The part of a buffer before its terminating NUL. */
  function CStr(raw: string): string {
    raw[..Find(raw, 0 as char, 0)]
  }

  /** What `strip_control` leaves in place. */
  predicate IsKept(c: char) {
    !IsControl(c) || c == '\t'
  }

  /** A byte that may stand in a line of text: a tab, or no control character. */
  predicate IsPlain(c: char) {
    c == '\t' || (' ' <= c && c != 127 as char)
  }

  /** What `readline` makes of the bytes `fgets` delivered: `strip_control`
      then `trim`. */
  function Clean(raw: string): string {
    Trim(Filter(CStr(raw), IsKept), IsSpace)
  }

  // What `readline` does, in full: a NUL ends the text, control characters other than
  // tabs are dropped wherever they stand, and white space at the ends. What is left is
  // plain text without white space at its ends.

  lemma {:induction false} CleanIsPlain(raw: string)
    ensures var r := Clean(raw);
            && (forall i :: 0 <= i < |r| ==> IsPlain(r[i]))
            && (r != "" ==> !IsSpace(r[0]) && !IsSpace(r[|r| - 1]))
  {
    var kept := Filter(CStr(raw), IsKept);
    var stem, r := TrimEnd(kept, IsSpace), Clean(raw);
    assert forall i :: 0 <= i < |stem| ==> stem[i] == kept[i];
    assert forall i :: 0 <= i < |r| ==> r[i] == stem[|stem| - |r| + i];
  }

  lemma {:induction false} NoNul(s: string)
    requires Lacks(s, 0 as char)
    ensures CStr(s) == s
  {
    FindIs(s, 0 as char, 0, |s|);
  }

  lemma {:induction false} CleanStopsAtNul(a: string, b: string)
    requires Lacks(a, 0 as char)
    ensures Clean(a + [0 as char] + b) == Clean(a)
  {
    var raw := a + [0 as char] + b;
    FindIs(raw, 0 as char, 0, |a|);
    assert raw[..|a|] == a;
    NoNul(a);
  }

  lemma {:induction false} CleanDrops(a: string, c: char, b: string)
    requires Lacks(a + [c] + b, 0 as char) && !IsPlain(c)
    ensures Clean(a + [c] + b) == Clean(a + b)
  {
    hide Trim, Filter, CStr;
    var raw, less := a + [c] + b, a + b;
    forall i | 0 <= i < |less| ensures less[i] != 0 as char {
      assert less[i] == if i < |a| then raw[i] else raw[i + 1];
    }
    NoNul(raw);
    NoNul(less);
    FilterConcat(a + [c], b, IsKept);
    FilterConcat(a, [c], IsKept);
    FilterConcat(a, b, IsKept);
    FilterOne(c, IsKept);
    assert Filter(a, IsKept) + "" == Filter(a, IsKept);
  }

  lemma {:induction false} CleanTrims(raw: string)
    requires raw != "" && Lacks(raw, 0 as char)
    ensures IsSpace(raw[0]) ==> Clean(raw) == Clean(raw[1..])
    ensures IsSpace(raw[|raw| - 1]) ==> Clean(raw) == Clean(raw[..|raw| - 1])
  {
    hide Trim, Filter, CStr;
    var n, c, d := |raw| - 1, raw[0], raw[|raw| - 1];
    NoNul(raw);
    NoNul(raw[1..]);
    NoNul(raw[..n]);
    FilterConcat([c], raw[1..], IsKept);
    FilterOne(c, IsKept);
    assert [c] + raw[1..] == raw && "" + Filter(raw[1..], IsKept) == Filter(raw[1..], IsKept);
    FilterConcat(raw[..n], [d], IsKept);
    FilterOne(d, IsKept);
    assert raw[..n] + [d] == raw && Filter(raw[..n], IsKept) + "" == Filter(raw[..n], IsKept);
    if IsSpace(c) {
      TrimSkips(c, Filter(raw[1..], IsKept), IsSpace);
    }
    if IsSpace(d) {
      TrimDrops(Filter(raw[..n], IsKept), d, IsSpace);
    }
  }

  /** A line with no control character but tab, and no blank at either end,
      survives being written with a newline and read back. */
  lemma {:induction false} CleanKeeps(line: string)
    requires forall i :: 0 <= i < |line| ==> IsKept(line[i])
    requires line != "" ==> !IsSpace(line[0]) && !IsSpace(line[|line| - 1])
    ensures Clean(line + "\n") == line
  {
    var raw := line + "\n";
    assert forall i :: 0 <= i < |raw| ==> raw[i] != 0 as char;
    FindIs(raw, 0 as char, 0, |raw|);
    assert CStr(raw) == raw;
    FilterConcat(line, "\n", IsKept);
    FilterKeeps(line, IsKept);
    assert Filter("\n", IsKept) == "";
    assert Filter(raw, IsKept) == line;
    TrimKeeps(line, IsSpace);
  }

  /** Value of the digits a string starts with. */
  function LeadingNumber(s: string): nat {
    DecimalValue(s[..Run(s, IsDigit)])
  }

  /** `atoi` / `atol` without their overflow: blanks, a sign, digits. */
  function Atoi(s: string): int {
    var t := TrimStart(s, IsSpace);
    if t == "" then 0
    else if t[0] == '-' then 0 - LeadingNumber(t[1..])
    else LeadingNumber(if t[0] == '+' then t[1..] else t)
  }

  /** Nothing is trimmed in front of a character that is not a blank. */
  lemma {:induction false} NoBlankInFront(s: string)
    requires s != "" && !IsSpace(s[0])
    ensures TrimStart(s, IsSpace) == s
  {
  }

  lemma {:induction false} LeadingNumberReadsDigits(d: string)
    requires AllDigits(d)
    ensures LeadingNumber(d) == DecimalValue(d)
  {
    assert Run(d, IsDigit) == |d|;
    assert d[..|d|] == d;
  }

  lemma {:induction false} AtoiReadsDigits(d: string)
    requires d != "" && AllDigits(d)
    ensures Atoi(d) == DecimalValue(d)
  {
    hide DecimalValue, LeadingNumber, TrimStart, Run;
    assert IsDigit(d[0]);
    NoBlankInFront(d);
    LeadingNumberReadsDigits(d);
  }

  lemma {:induction false} AtoiReadsMinus(d: string)
    requires AllDigits(d)
    ensures Atoi("-" + d) == 0 - DecimalValue(d)
  {
    var s := "-" + d;
    NoBlankInFront(s);
    LeadingNumberReadsDigits(d);
    assert s[0] == '-' && s[1..] == d;
  }

  /** `atoi`, exactly: blanks, at most one sign, digits, and whatever else follows. */
  lemma {:induction false} AtoiReads(blanks: string, sign: string, digits: string, rest: string)
    requires forall i :: 0 <= i < |blanks| ==> IsSpace(blanks[i])
    requires sign in {"", "+", "-"} && AllDigits(digits) && (rest == "" || !IsDigit(rest[0]))
    requires sign == "" && digits == "" && rest != "" ==> !IsSpace(rest[0]) && rest[0] != '+' && rest[0] != '-'
    ensures Atoi(blanks + (sign + (digits + rest)))
            == if sign == "-" then 0 - DecimalValue(digits) else DecimalValue(digits)
  {
    hide DecimalValue;
    var tail := sign + (digits + rest);
    var s := blanks + tail;
    assert tail != "" ==> !IsSpace(tail[0]) && s[|blanks|] == tail[0];
    RunIs(s, IsSpace, |blanks|);
    assert s[|blanks|..] == tail;
    LeadingDigits(digits, rest);
    assert sign == "" ==> tail == digits + rest;
    assert sign != "" ==> tail[0] == sign[0] && tail[1..] == digits + rest;
    LeadingDigits("", "");
  }

  lemma {:induction false} LeadingDigits(digits: string, rest: string)
    requires AllDigits(digits) && (rest == "" || !IsDigit(rest[0]))
    ensures LeadingNumber(digits + rest) == DecimalValue(digits)
    ensures LeadingNumber("") == 0
  {
    var s := digits + rest;
    assert |digits| < |s| ==> s[|digits|] == rest[0];
    RunIs(s, IsDigit, |digits|);
    assert s[..|digits|] == digits;
    RunIs("", IsDigit, 0);
    assert ""[..0] == "";
  }

  lemma {:induction false} AtoiReadsDecimal(n: int)
    ensures Atoi(DecimalInt(n)) == n
  {
    var m := if n < 0 then 0 - n else n;
    AtoiReadsDigits(Decimal(m));
    AtoiReadsMinus(Decimal(m));
    DecimalRoundTrip(m);
  }
}

/** Index lines `offset:file:deleted:attribute:value` (index.c, split_list of misc.c). */
module IndexLine {
  import opened Text
  import opened Numerals
  import opened CStrings

  /** Fields of `s`, of which the current one is number `i`: cut at `sep`, a
      separator that ends the string closes nothing, and once `max` fields are
      open (0: no limit) the last one keeps its separators. */
  function Fields(s: string, sep: char, max: nat, i: nat): (fields: seq<string>)
    ensures |fields| >= 1
    ensures max > i >= 1 ==> |fields| <= max - i + 1
    decreases |s|
  {
    var k := Find(s, sep, 0);
    if k == |s| then [s]
    else if k + 1 == |s| then [s[..k]]
    else if max != 0 && i + 1 == max then [s[..k], s[k + 1..]]
    else [s[..k]] + Fields(s[k + 1..], sep, max, i + 1)
  }

  /** `argv[i]` as C sees it: the bytes of the cut-up copy from `start` to the
      next NUL, the terminating one included in the copy. */
  function Arg(copy: string, start: nat): string
    requires start <= |copy|
  {
    CStr(copy[start..])
  }

  /** The NUL at the end of the copy, and every NUL written over a separator,
      end an argument. */
  lemma {:induction false} ArgEnds(copy: string, start: nat, end: nat)
    requires start <= end < |copy|
    requires copy[end] == 0 as char
    requires forall j :: start <= j < end ==> copy[j] != 0 as char
    ensures Arg(copy, start) == copy[start..end]
  {
    FindIs(copy[start..], 0 as char, 0, end - start);
  }

  const NUL := 0 as char

  predicate IsCString(s: string) {
    forall i :: 0 <= i < |s| ==> s[i] != NUL
  }

  lemma {:induction false} CleanIsCString(raw: string)
    ensures IsCString(Clean(raw)) && |Clean(raw)| <= |raw|
  {
    var kept := Filter(CStr(raw), IsKept);
    var r := TrimEnd(kept, IsSpace);
    assert forall i :: 0 <= i < |r| ==> r[i] == kept[i];
  }

  /** The argument at `start` reads `field`, its NUL lying before `bound`. */
  ghost predicate ArgIs(copy: string, start: nat, field: string, bound: nat)
    requires bound <= |copy|
  {
    && start + |field| < bound
    && copy[start..start + |field|] == field
    && copy[start + |field|] == NUL
    && IsCString(field)
  }

  /** The first `|done|` arguments read `done`, all before `bound`. */
  ghost predicate Closed(copy: string, argv: seq<nat>, done: seq<string>, bound: nat) {
    && bound <= |copy| && |done| <= |argv|
    && forall k :: 0 <= k < |done| ==> ArgIs(copy, argv[k], done[k], bound)
  }

  /** Writing a NUL at `p` closes the field that started at `last`, and leaves
      the fields closed before it alone. */
  lemma {:induction false} ClosedByNul(
      copy: string, copy': string, argv: seq<nat>, done: seq<string>, last: nat, p: nat)
    requires |argv| == |done| + 1 && argv[|done|] == last
    requires Closed(copy, argv, done, last)
    requires last <= p < |copy| && copy' == copy[p := NUL]
    requires IsCString(copy[last..p])
    ensures Closed(copy', argv, done + [copy[last..p]], p + 1)
  {
    var done' := done + [copy[last..p]];
    forall k | 0 <= k < |done'| ensures ArgIs(copy', argv[k], done'[k], p + 1) {
      if k < |done| {
        assert ArgIs(copy, argv[k], done[k], last);
        assert copy'[argv[k]..argv[k] + |done[k]|] == copy[argv[k]..argv[k] + |done[k]|];
      }
    }
  }

  /** Neither a further start nor a wider bound disturbs what is closed. */
  lemma {:induction false} ClosedMore(copy: string, argv: seq<nat>, p: nat, done: seq<string>, bound: nat)
    requires Closed(copy, argv, done, bound)
    ensures Closed(copy, argv + [p], done, bound) && Closed(copy, argv, done, |copy|)
  {
    forall k | 0 <= k < |done| ensures ArgIs(copy, (argv + [p])[k], done[k], bound) {
      assert ArgIs(copy, argv[k], done[k], bound);
    }
  }

  function ArgList(copy: string, argv: seq<nat>): seq<string> {
    seq(|argv|, k requires 0 <= k < |argv| => if argv[k] <= |copy| then Arg(copy, argv[k]) else "")
  }

  lemma {:induction false} ArgsAreFields(copy: string, argv: seq<nat>, fields: seq<string>)
    requires |argv| == |fields| && Closed(copy, argv, fields, |copy|)
    ensures ArgList(copy, argv) == fields
  {
    forall k | 0 <= k < |argv| ensures argv[k] <= |copy| && Arg(copy, argv[k]) == fields[k] {
      assert ArgIs(copy, argv[k], fields[k], |copy|);
      ArgEnds(copy, argv[k], argv[k] + |fields[k]|);
    }
  }

  ghost predicate Uncut(list: string, sep: char, from: nat, to: nat) {
    to <= |list| && forall j :: from <= j < to ==> list[j] != sep
  }

  /** Cutting the open field at `p` moves it to the list of finished ones. */
  lemma {:induction false} FieldsCut(list: string, last: nat, p: nat, sep: char, max: nat, done: seq<string>, i: nat)
    requires last <= p < |list| && list[p] == sep && Uncut(list, sep, last, p)
    ensures var all, done' := done + Fields(list[last..], sep, max, i), done + [list[last..p]];
            all == if p + 1 == |list| then done'
                   else if max != 0 && i + 1 == max then done' + [list[p + 1..]]
                   else done' + Fields(list[p + 1..], sep, max, i + 1)
  {
    var rest := list[last..];
    FindIs(rest, sep, 0, p - last);
    assert rest[..p - last] == list[last..p] && rest[p - last + 1..] == list[p + 1..];
  }

  /** Progress of the cutting: `done` is closed in the copy and the rest of the
      list, from `last` on, is still to be cut. */
  ghost predicate Progress(
      list: string, sep: char, max: nat, copy: string, argv: seq<nat>, done: seq<string>, last: nat)
  {
    && last <= |list| && |copy| == |list| + 1
    && |argv| == |done| + 1 && argv[|done|] == last
    && copy[last..] == list[last..] + [NUL]
    && Closed(copy, argv, done, last)
    && Fields(list, sep, max, 1) == done + Fields(list[last..], sep, max, |argv|)
  }

  /** One cut: a NUL at `p` ends the field. Either the list is exhausted, or the
      field limit is reached, or the rest remains to be cut. */
  lemma {:induction false} Cut(
      list: string, sep: char, max: nat, copy: string, argv: seq<nat>, done: seq<string>, last: nat, p: nat)
    requires IsCString(list) && Progress(list, sep, max, copy, argv, done, last)
    requires last <= p < |list| && list[p] == sep && Uncut(list, sep, last, p)
    ensures var copy', done' := copy[p := NUL], done + [list[last..p]];
            if p + 1 == |list| then
              Closed(copy', argv, done', |copy|) && Fields(list, sep, max, 1) == done'
            else if max != 0 && |argv| + 1 == max then
              Closed(copy', argv + [p + 1], done' + [list[p + 1..]], |copy|)
                  && Fields(list, sep, max, 1) == done' + [list[p + 1..]]
            else
              Progress(list, sep, max, copy', argv + [p + 1], done', p + 1)
  {
    hide Fields;
    FieldsCut(list, last, p, sep, max, done, |argv|);
    assert forall j :: last <= j < |copy| ==> copy[j] == copy[last..][j - last];
    assert copy[last..p] == list[last..p];
    var copy', done', argv' := copy[p := NUL], done + [list[last..p]], argv + [p + 1];
    ClosedByNul(copy, copy', argv, done, last, p);
    ClosedMore(copy', argv, p + 1, done', p + 1);
    assert copy'[p + 1..] == list[p + 1..] + [NUL];
    LastField(copy', argv', done', list, p + 1);
  }

  /** The NUL that ends the copy closes the last field. */
  lemma {:induction false} LastField(copy: string, argv: seq<nat>, done: seq<string>, list: string, last: nat)
    requires IsCString(list) && last <= |list| < |copy| && copy[last..] == list[last..] + [NUL]
    requires |argv| == |done| + 1 && argv[|done|] == last && Closed(copy, argv, done, last)
    ensures Closed(copy, argv, done + [list[last..]], |copy|)
  {
    assert copy[last..|list|] == list[last..];
    assert copy[|list|] == copy[last..][|list| - last];
    ClosedByNul(copy, copy, argv, done, last, |list|);
  }

  lemma {:induction false} Exhausted(
      list: string, sep: char, max: nat, copy: string, argv: seq<nat>, done: seq<string>, last: nat)
    requires IsCString(list) && Progress(list, sep, max, copy, argv, done, last)
    requires Uncut(list, sep, last, |list|)
    ensures |argv| == |Fields(list, sep, max, 1)| && Closed(copy, argv, Fields(list, sep, max, 1), |copy|)
  {
    FindIs(list[last..], sep, 0, |list| - last);
    LastField(copy, argv, done, list, last);
  }

  /** The loop of `split_list`: writes a NUL over each separator of the private
      copy that ends a field and records where the next field starts. */
  method CutFields(list: string, sep: char, maxFields: nat) returns (copy: string, argv: seq<nat>)
    requires IsCString(list) && sep != NUL
    ensures |argv| == |Fields(list, sep, maxFields, 1)|
    ensures Closed(copy, argv, Fields(list, sep, maxFields, 1), |copy|)
  {
    hide Fields;
    copy := list + [NUL];
    argv := [0];
    var p := 0;
    ghost var done: seq<string> := [];  // the arguments already closed by a NUL
    ghost var last := 0;                // start of the field still open
    assert list == list[0..];
    while copy[p] != NUL
      invariant last <= p <= |list|
      invariant Progress(list, sep, maxFields, copy, argv, done, last)
      invariant Uncut(list, sep, last, p)
      decreases |list| - p
    {
      assert copy[p] == copy[last..][p - last];
      if copy[p] == sep {
        Cut(list, sep, maxFields, copy, argv, done, last, p);
        copy, done, p, last := copy[p := NUL], done + [list[last..p]], p + 1, p + 1;
        if copy[p] == NUL {
          return;
        }
        argv := argv + [p];
        if maxFields != 0 && |argv| == maxFields {
          return;
        }
      } else {
        p := p + 1;
      }
    }
    assert copy[p] == copy[last..][p - last];
    Exhausted(list, sep, maxFields, copy, argv, done, last);
  }

  /** `split_list` of misc.c. */
  method SplitList(list: string, sep: char, maxFields: nat) returns (args: seq<string>)
    requires IsCString(list) && sep != NUL
    ensures args == Fields(list, sep, maxFields, 1)
  {
    var copy, argv := CutFields(list, sep, maxFields);
    ArgsAreFields(copy, argv, Fields(list, sep, maxFields, 1));
    args := ArgList(copy, argv);
  }

  datatype IndexItem = IndexItem(offset: int, dataFileNo: int, deletedFlag: int, attributeId: int, value: string)

  predicate IsDecodable(line: string) {
    |Fields(line, ':', 5, 1)| == 5
  }

  function Decode(line: string): Option<IndexItem> {
    var argv := Fields(line, ':', 5, 1);
    if !IsDecodable(line) then None
    else Some(IndexItem(Atoi(argv[0]), Atoi(argv[1]), Atoi(argv[2]), Atoi(argv[3]), argv[4]))
  }

  /** Five fields with colons between them. */
  function Join5(a: string, b: string, c: string, d: string, e: string): string {
    a + [':'] + (b + [':'] + (c + [':'] + (d + [':'] + e)))
  }

  function Encode(item: IndexItem): string {
    Join5(DecimalInt(item.offset), DecimalInt(item.dataFileNo), DecimalInt(item.deletedFlag),
          DecimalInt(item.attributeId), item.value)
  }

  /** `decode_index_line`; `None` where the source returns FALSE. */
  method DecodeIndexLine(line: string) returns (item: Option<IndexItem>)
    requires IsCString(line)
    ensures item == Decode(line)
  {
    var argv := SplitList(line, ':', 5);
    if |argv| != 5 {
      return None;
    }
    item := Some(IndexItem(Atoi(argv[0]), Atoi(argv[1]), Atoi(argv[2]), Atoi(argv[3]), argv[4]));
  }

  /** A separator-free head followed by a separator and something is one field. */
  lemma {:induction false} FieldsOfHead(head: string, rest: string, sep: char, max: nat, i: nat)
    requires Uncut(head, sep, 0, |head|)
    ensures Fields(head + [sep] + rest, sep, max, i) ==
            if rest == "" then [head]
            else if max != 0 && i + 1 == max then [head, rest]
            else [head] + Fields(rest, sep, max, i + 1)
  {
    var s := head + [sep] + rest;
    FindIs(s, sep, 0, |head|);
    assert s[..|head|] == head && s[|head| + 1..] == rest;
  }

  lemma {:induction false} LastFields(c: string, d: string, value: string)
    requires Uncut(c, ':', 0, |c|) && Uncut(d, ':', 0, |d|)
    ensures Fields(c + [':'] + (d + [':'] + value), ':', 5, 3) == if value == "" then [c, d] else [c, d, value]
  {
    FieldsOfHead(d, value, ':', 5, 4);
    FieldsOfHead(c, d + [':'] + value, ':', 5, 3);
  }

  /** Two more fields in front of a rest that already splits into `fields`. */
  lemma {:induction false} FrontFields(a: string, b: string, rest: string, fields: seq<string>)
    requires Uncut(a, ':', 0, |a|) && Uncut(b, ':', 0, |b|)
    requires rest != "" && Fields(rest, ':', 5, 3) == fields
    ensures Fields(a + [':'] + (b + [':'] + rest), ':', 5, 1) == [a, b] + fields
  {
    FieldsOfHead(b, rest, ':', 5, 2);
    FieldsOfHead(a, b + [':'] + rest, ':', 5, 1);
  }

  /** The five fields of a line put together from parts. */
  lemma {:induction false} FiveFields(a: string, b: string, c: string, d: string, value: string)
    requires Uncut(a, ':', 0, |a|) && Uncut(b, ':', 0, |b|) && Uncut(c, ':', 0, |c|) && Uncut(d, ':', 0, |d|)
    ensures Fields(Join5(a, b, c, d, value), ':', 5, 1) == if value == "" then [a, b, c, d] else [a, b, c, d, value]
  {
    LastFields(c, d, value);
    FrontFields(a, b, c + [':'] + (d + [':'] + value), if value == "" then [c, d] else [c, d, value]);
  }

  /** Encoding and decoding are inverse on every item, separators inside the
      value included, exactly when the value is not empty: a trailing separator
      closes no fifth field. */
  lemma {:induction false} EncodeDecode(item: IndexItem)
    ensures Decode(Encode(item)) == if item.value == "" then None else Some(item)
  {
    FiveFields(DecimalInt(item.offset), DecimalInt(item.dataFileNo), DecimalInt(item.deletedFlag),
               DecimalInt(item.attributeId), item.value);
    AtoiReadsDecimal(item.offset);
    AtoiReadsDecimal(item.dataFileNo);
    AtoiReadsDecimal(item.deletedFlag);
    AtoiReadsDecimal(item.attributeId);
  }

  /** What `write_index_line` puts in a file reads back as the same item,
      provided the value is what `exact_index` produces: not empty, free of
      control characters and not ending in a blank. */
  lemma {:induction false} WrittenLineReadsBack(item: IndexItem)
    requires item.value != "" && !IsSpace(item.value[|item.value| - 1])
    requires forall i :: 0 <= i < |item.value| ==> IsKept(item.value[i])
    ensures Decode(Clean(Encode(item) + "\n")) == Some(item)
  {
    EncodeDecode(item);
    EncodeIsClean(item);
    var line := Encode(item);
    assert Clean(line + "\n") == line;
  }

  lemma {:induction false} EncodeIsClean(item: IndexItem)
    requires item.value != "" && !IsSpace(item.value[|item.value| - 1])
    requires forall i :: 0 <= i < |item.value| ==> IsKept(item.value[i])
    ensures Clean(Encode(item) + "\n") == Encode(item)
    ensures forall i :: 0 <= i < |Encode(item)| ==> IsKept(Encode(item)[i])
  {
    var a, b := DecimalInt(item.offset), DecimalInt(item.dataFileNo);
    var c, d := DecimalInt(item.deletedFlag), DecimalInt(item.attributeId);
    NumeralsAreKept(a, b, c, d, item.value);
    CleanKeeps(Join5(a, b, c, d, item.value));
  }

  ghost predicate AllKept(s: string) {
    forall i :: 0 <= i < |s| ==> IsKept(s[i])
  }

  lemma {:induction false} KeptConcat(s: string, t: string)
    requires AllKept(s) && AllKept(t)
    ensures AllKept(s + [':'] + t)
  {
  }

  lemma {:induction false} NumeralsAreKept(a: string, b: string, c: string, d: string, value: string)
    requires a != "" && !IsSpace(a[0])
    requires AllKept(a) && AllKept(b) && AllKept(c) && AllKept(d) && AllKept(value)
    ensures var line := Join5(a, b, c, d, value); AllKept(line) && !IsSpace(line[0])
  {
    KeptConcat(d, value);
    KeptConcat(c, d + [':'] + value);
    KeptConcat(b, c + [':'] + (d + [':'] + value));
    KeptConcat(a, b + [':'] + (c + [':'] + (d + [':'] + value)));
  }

  /** Each further field costs at least a separator, and the last one is not empty. */
  lemma {:induction false} FieldsNeedRoom(s: string, sep: char, max: nat, i: nat)
    ensures |s| >= if |Fields(s, sep, max, i)| == 1 then 0 else |Fields(s, sep, max, i)|
    decreases |s|
  {
    var k := Find(s, sep, 0);
    if k + 1 < |s| && !(max != 0 && i + 1 == max) {
      FieldsNeedRoom(s[k + 1..], sep, max, i + 1);
    }
  }

  /** Decodable lines are at least five bytes long. */
  lemma {:induction false} DecodableIsLong(line: string)
    requires IsDecodable(line)
    ensures |line| >= 5
  {
    FieldsNeedRoom(line, ':', 5, 1);
  }
}
