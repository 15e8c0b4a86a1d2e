/** Index files as `write_index_line` and the external sort leave them
    (index.c): what they must look like for the search to be right. */
module IndexBuild {
  import opened Text
  import opened CStrings
  import opened IndexLine
  import opened LineFile
  import opened Bisection

  /** The bytes of a file written line by line. */
  function Written(texts: seq<string>): string {
    if texts == [] then ""
    else Written(texts[..|texts| - 1]) + (texts[|texts| - 1] + "\n")
  }

  /** The lines `write_index_line` writes for each item in turn. */
  function IndexTexts(items: seq<IndexItem>): (texts: seq<string>)
    ensures |texts| == |items|
    ensures forall i :: 0 <= i < |items| ==> texts[i] == Encode(items[i])
  {
    seq(|items|, i requires 0 <= i < |items| => Encode(items[i]))
  }

  /** A text that fits on one line of a reader's buffer. */
  predicate IsOneLine(text: string) {
    |text| + 1 < MAX_BUF && forall i :: 0 <= i < |text| ==> text[i] != '\n'
  }

  /** A value as the index functions produce it, on a line a reader's buffer holds. */
  predicate IsIndexable(item: IndexItem) {
    var v := item.value;
    && v != "" && !IsSpace(v[|v| - 1])
    && (forall i :: 0 <= i < |v| ==> IsPlain(v[i]))
    && |Encode(item)| + 1 < MAX_BUF
  }

  predicate InOrder(items: seq<IndexItem>) {
    forall i, j :: 0 <= i <= j < |items| ==> Strcmp(items[i].value, items[j].value) <= 0
  }

  lemma {:induction false} EncodedLine(item: IndexItem)
    requires IsIndexable(item)
    ensures IsOneLine(Encode(item)) && Clean(Encode(item) + "\n") == Encode(item)
  {
    EncodeIsClean(item);
    KeptIsOneLine(Encode(item));
  }

  lemma {:induction false} KeptIsOneLine(text: string)
    requires |text| + 1 < MAX_BUF && forall i :: 0 <= i < |text| ==> IsKept(text[i])
    ensures IsOneLine(text)
  {
  }

  /** What is appended to a newline-terminated file disturbs no line in it. */
  lemma {:induction false} AppendKeeps(f: string, more: string, p: nat, size: nat)
    requires IsTerminated(f) && p < |f| && size >= 2
    ensures LineEnd(f + more, p) == LineEnd(f, p)
    ensures (f + more)[p..FgetsEnd(f + more, p, size)] == f[p..FgetsEnd(f, p, size)]
  {
    var k := Find(f, '\n', p);
    assert k < |f|;
    FindIs(f + more, '\n', p, k);
  }

  /** The appended line is read whole. */
  lemma {:induction false} AppendReads(f: string, text: string, size: nat)
    requires IsOneLine(text) && |text| + 1 < size
    ensures var g := f + (text + "\n");
            LineEnd(g, |f|) == |g| && g[|f|..FgetsEnd(g, |f|, size)] == text + "\n"
  {
    var g := f + (text + "\n");
    assert forall i :: |f| <= i < |g| - 1 ==> g[i] == text[i - |f|];
    FindIs(g, '\n', |f|, |g| - 1);
  }

  /** Appending a line adds one line start. */
  lemma {:induction false} AppendStarts(f: string, text: string, p: int)
    requires IsOneLine(text) && IsLine(f + (text + "\n"), p)
    ensures p == |f| || IsLine(f, p)
  {
    var g := f + (text + "\n");
    assert forall i :: |f| <= i < |g| - 1 ==> g[i] == text[i - |f|];
  }

  lemma {:induction false} WrittenIsTerminated(texts: seq<string>)
    ensures IsTerminated(Written(texts))
  {
  }

  /** Line `p` of `f` is as `text` was written. */
  ghost predicate Shows(f: string, p: nat, text: string) {
    && p <= |f| && LineEnd(f, p) - p == |text| + 1
    && f[p..FgetsEnd(f, p, MAX_BUF)] == text + "\n"
  }

  /** Every line start of a written file is where some text was written. */
  lemma {:induction false} WrittenLines(texts: seq<string>, p: int) returns (i: nat)
    requires forall k :: 0 <= k < |texts| ==> IsOneLine(texts[k])
    requires IsLine(Written(texts), p)
    ensures i < |texts| && p == |Written(texts[..i])| && Shows(Written(texts), p, texts[i])
  {
    var n := |texts| - 1;
    var before, text := Written(texts[..n]), texts[n];
    WrittenIsTerminated(texts[..n]);
    AppendStarts(before, text, p);
    if p == |before| {
      AppendReads(before, text, MAX_BUF);
      i := n;
    } else {
      i := WrittenLines(texts[..n], p);
      AppendKeeps(before, text + "\n", p, MAX_BUF);
      assert texts[..n][..i] == texts[..i];
    }
  }

  lemma {:induction false} WrittenGrows(texts: seq<string>, i: nat, j: nat)
    requires i < j <= |texts|
    ensures |Written(texts[..i])| < |Written(texts[..j])|
  {
    assert texts[..j][..j - 1] == texts[..j - 1];
    if i < j - 1 {
      WrittenGrows(texts, i, j - 1);
    }
  }

  /** The line at `p` of a file written from `items`, and the item it is. */
  lemma {:induction false} WrittenItem(items: seq<IndexItem>, p: int) returns (i: nat)
    requires forall k :: 0 <= k < |items| ==> IsIndexable(items[k])
    requires IsLine(Written(IndexTexts(items)), p)
    ensures i < |items| && p == |Written(IndexTexts(items)[..i])|
    ensures LineEnd(Written(IndexTexts(items)), p) - p == |Encode(items[i])| + 1
    ensures Decode(LineAt(Written(IndexTexts(items)), p, MAX_BUF)) == Some(items[i])
  {
    var texts := IndexTexts(items);
    forall k | 0 <= k < |texts| ensures IsOneLine(texts[k]) {
      EncodedLine(items[k]);
    }
    i := WrittenLines(texts, p);
    EncodedLine(items[i]);
    EncodeDecode(items[i]);
  }

  /** Each item is found where it was written. */
  lemma {:induction false} WrittenAt(items: seq<IndexItem>, k: nat)
    requires k < |items| && forall i :: 0 <= i < |items| ==> IsIndexable(items[i])
    ensures var f, p := Written(IndexTexts(items)), |Written(IndexTexts(items)[..k])|;
            IsLine(f, p) && Decode(LineAt(f, p, MAX_BUF)) == Some(items[k])
  {
    hide Decode, LineAt, IsIndexable, Written;
    var texts := IndexTexts(items);
    var f, p := Written(texts), |Written(texts[..k])|;
    WrittenPrefix(texts, k);
    WrittenGrows(texts, k, |texts|);
    assert texts[..|texts|] == texts;
    WrittenIsTerminated(texts[..k]);
    var i := WrittenItem(items, p);
    if i < k {
      WrittenGrows(texts, i, k);
    } else if k < i {
      WrittenGrows(texts, k, i);
    }
  }

  lemma {:induction false} WrittenPrefix(texts: seq<string>, k: nat)
    requires k <= |texts|
    ensures Written(texts[..k]) <= Written(texts)
  {
    if k == |texts| {
      assert texts[..k] == texts;
    } else {
      WrittenPrefix(texts[..|texts| - 1], k);
      assert texts[..|texts| - 1][..k] == texts[..k];
    }
  }

  lemma {:induction false} WrittenInOrder(items: seq<IndexItem>, p: int, r: int)
    requires InOrder(items) && forall k :: 0 <= k < |items| ==> IsIndexable(items[k])
    requires var f := Written(IndexTexts(items)); IsLine(f, p) && IsLine(f, r) && p <= r
    ensures var f := Written(IndexTexts(items)); Strcmp(ValueAt(f, p), ValueAt(f, r)) <= 0
  {
    var i := WrittenItem(items, p);
    var j := WrittenItem(items, r);
    if j < i {
      WrittenGrows(IndexTexts(items), j, i);
    }
  }

  /** Item `k` stands on the line it was written to. */
  ghost predicate StandsAt(items: seq<IndexItem>, k: nat, p: int)
    requires k < |items|
  {
    var f := Written(IndexTexts(items));
    && IsLine(f, p) && p == |Written(IndexTexts(items)[..k])|
    && LineEnd(f, p) - p == |Encode(items[k])| + 1
    && Decode(LineAt(f, p, MAX_BUF)) == Some(items[k])
  }

  /** A file written from indexable items in `strcmp` order is an index in the
      sense of the search, its lines are those items, one for each, and they are as
      long as what was encoded. */
  lemma {:induction false} WrittenIsIndex(items: seq<IndexItem>)
    requires InOrder(items) && forall k :: 0 <= k < |items| ==> IsIndexable(items[k])
    ensures IsIndex(Written(IndexTexts(items)))
    ensures forall k :: 0 <= k < |items| ==> StandsAt(items, k, |Written(IndexTexts(items)[..k])|)
    ensures forall p :: IsLine(Written(IndexTexts(items)), p) ==> exists k :: 0 <= k < |items| && StandsAt(items, k, p)
  {
    hide Decode, LineAt, IsIndexable, Written, Encode, InOrder;
    var f := Written(IndexTexts(items));
    WrittenIsTerminated(IndexTexts(items));
    forall p | IsLine(f, p)
      ensures exists k :: 0 <= k < |items| && StandsAt(items, k, p)
      ensures IsDecodable(LineAt(f, p, MAX_BUF))
    {
      var i := WrittenItem(items, p);
      assert StandsAt(items, i, p);
      SomeIsDecodable(LineAt(f, p, MAX_BUF));
    }
    forall k | 0 <= k < |items| ensures StandsAt(items, k, |Written(IndexTexts(items)[..k])|) {
      WrittenStands(items, k);
    }
    forall p, r | IsLine(f, p) && IsLine(f, r) && p <= r ensures Strcmp(ValueAt(f, p), ValueAt(f, r)) <= 0 {
      WrittenInOrder(items, p, r);
    }
  }

  lemma {:induction false} SomeIsDecodable(line: string)
    ensures Decode(line).Some? ==> IsDecodable(line)
  {
  }

  lemma {:induction false} WrittenStands(items: seq<IndexItem>, k: nat)
    requires k < |items| && forall i :: 0 <= i < |items| ==> IsIndexable(items[i])
    ensures StandsAt(items, k, |Written(IndexTexts(items)[..k])|)
  {
    hide Decode, LineAt, IsIndexable, Written, Encode;
    WrittenAt(items, k);
    var texts := IndexTexts(items);
    var i := WrittenItem(items, |Written(texts[..k])|);
    if i < k {
      WrittenGrows(texts, i, k);
    } else if k < i {
      WrittenGrows(texts, k, i);
    }
  }

  /** The lines are no longer than the longest item, encoded. */
  lemma {:induction false} WrittenLengths(items: seq<IndexItem>, max: int)
    requires InOrder(items) && forall k :: 0 <= k < |items| ==> IsIndexable(items[k]) && |Encode(items[k])| + 1 <= max
    ensures HasLinesUpTo(Written(IndexTexts(items)), max)
  {
    hide IsIndexable, Written, Encode, InOrder, Decode, LineAt;
    WrittenIsIndex(items);
  }
}
