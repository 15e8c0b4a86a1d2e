/** Each way in which a deletion is not clean, at a text that shows it: the four
    branches of the guard of `Deletion`. */
module DeletionFailures {
  import opened Text
  import opened CStrings
  import opened LineFile
  import opened DataFile
  import opened Deletion

  /** Deleting one line and going on with the next. */
  lemma {:induction false} TombstoneLine(before: string, line: string, marked: string, after: string)
    requires IsOneChunk(line) && line[0] != '-' && marked == "_" + line[1..]
    ensures Tombstoned(before + (line + after), |before|) == Tombstoned((before + marked) + after, |before + marked|)
  {
    hide Chunk;
    ChunkIn(before, line, after);
    var f := before + (line + after);
    assert f[|before|] == line[0];
    assert f[|before| := '_'] == (before + marked) + after;
  }

  lemma {:induction false} TombstoneEnds(before: string, after: string)
    requires after == "" || after[0] == '-'
    ensures Tombstoned(before + after, |before|) == before + after
  {
  }

  /** Reading one line and going on with the next. */
  lemma {:induction false} ReadOne(before: string, line: string, after: string, kind: string -> LineKind)
    requires IsOneChunk(line)
    ensures var f, next := before + (line + after), |before + line|;
            && f == (before + line) + after
            && ReadFrom(f, |before|, kind)
               == (match kind(line)
                   case Separator => AnonRead([], false)
                   case Skipped => ReadFrom((before + line) + after, next, kind)
                   case Carries(av) =>
                     AnonRead([av] + ReadFrom((before + line) + after, next, kind).pairs,
                              ReadFrom((before + line) + after, next, kind).eof))
            && ReadEnd(f, |before|, kind)
               == if kind(line).Separator? then next else ReadEnd((before + line) + after, next, kind)
  {
    hide Chunk;
    ChunkIn(before, line, after);
    SumOfSums(before, line, after);
  }

  lemma {:induction false} ReadEof(f: string, kind: string -> LineKind)
    ensures ReadFrom(f + "", |f|, kind) == AnonRead([], true) && ReadEnd(f + "", |f|, kind) == |f|
  {
    assert f + "" == f;
  }

  // ---- The lines of the examples ------------------------------------------

  const FIRST := "a: b\n"
  const SECOND := "c: d\n"
  const FIRST_MARKED := "_: b\n"
  const SECOND_MARKED := "_: d\n"
  const DASHES := "---\n"
  const NEW := "_NEW_\n"

  lemma {:induction false} CleanLine(line: string)
    requires forall i :: 0 <= i < |line| ==> IsKept(line[i])
    requires line != "" && !IsSpace(line[0]) && !IsSpace(line[|line| - 1])
    ensures Clean(line + "\n") == line
  {
    CleanKeeps(line);
  }

  lemma {:induction false} AttributeLines()
    ensures KindOf(FIRST) == Carries(Attribute("a", "b")) && KindOf(SECOND) == Carries(Attribute("c", "d"))
  {
    hide KindOf;
    LineCarries("a", "b");
    assert "a" + (": " + "b") + "\n" == FIRST;
    LineCarries("c", "d");
    assert "c" + (": " + "d") + "\n" == SECOND;
  }

  lemma {:induction false} MarkedLine(rest: string)
    requires rest == ": b" || rest == ": d"
    ensures KindOf("_" + rest + "\n").Skipped?
  {
    var line := "_" + rest;
    CleanLine(line);
    KindOfTombstone(line + "\n");
    assert Lower(line)[1] == ':' && Lower("_NEW_")[1] == 'n';
  }

  lemma {:induction false} MarkedLines()
    ensures KindOf(FIRST_MARKED).Skipped? && KindOf(SECOND_MARKED).Skipped?
  {
    hide KindOf;
    MarkedLine(": b");
    assert "_" + ": b" + "\n" == FIRST_MARKED;
    MarkedLine(": d");
    assert "_" + ": d" + "\n" == SECOND_MARKED;
  }

  lemma {:induction false} SeparatorLine(line: string)
    requires line == "---" || line == "_NEW_"
    ensures KindOf(line + "\n").Separator?
  {
    CleanLine(line);
  }

  lemma {:induction false} SeparatorLines()
    ensures KindOf(DASHES).Separator? && KindOf(NEW).Separator? && KindOf("_" + DASHES).Skipped?
  {
    hide KindOf;
    SeparatorLine("---");
    assert "---" + "\n" == DASHES;
    SeparatorLine("_NEW_");
    assert "_NEW_" + "\n" == NEW;
    assert ("_" + DASHES)[1] == '-';
    KindOfGlued("_" + DASHES);
  }

  lemma {:induction false} NoAttribute(line: string)
    requires line == "-" || line == "xNEW_"
    ensures KindOf(line + "\n").Skipped?
  {
    CleanLine(line);
    FindIs(line, ':', 0, |line|);
    assert |Lower("_NEW_")| == 5 && Lower("_NEW_")[0] == '_' && Lower(line)[0] == line[0];
  }

  // ---- The branches -------------------------------------------------------

  /** An empty line before the separator: the separator is swallowed, and reading
      the deleted record yields the record behind it. */
  lemma {:induction false} EmptyLineExposesNextRecord()
    ensures var f := FIRST + ("\n" + (DASHES + SECOND));
            && ReadFrom(f, 0, KindOf).pairs == [Attribute("a", "b")]
            && ReadFrom(Tombstoned(f, 0), 0, KindOf).pairs == [Attribute("c", "d")]
  {
    hide KindOf, ReadFrom, Tombstoned, ReadEnd;
    AttributeLines();
    MarkedLines();
    SeparatorLines();
    KindOfEmptyLine();
    var tail := DASHES + SECOND;
    // before
    Starts(FIRST, "\n" + tail);
    ReadOne("", FIRST, "\n" + tail, KindOf);
    ReadOne("" + FIRST, "\n", tail, KindOf);
    ReadOne(("" + FIRST) + "\n", DASHES, SECOND, KindOf);
    // the deletion
    TombstoneLine("", FIRST, FIRST_MARKED, "\n" + tail);
    TombstoneLine("" + FIRST_MARKED, "\n", "_", tail);
    TombstoneEnds(("" + FIRST_MARKED) + "_", tail);
    // after
    var g := (("" + FIRST_MARKED) + "_") + tail;
    var glued := "_" + DASHES;
    assert g == "" + (FIRST_MARKED + (glued + SECOND));
    ReadOne("", FIRST_MARKED, glued + SECOND, KindOf);
    ReadOne("" + FIRST_MARKED, glued, SECOND, KindOf);
    LastLine(("" + FIRST_MARKED) + glued);
  }

  lemma {:induction false} Starts(line: string, rest: string)
    ensures line + rest == "" + (line + rest) && |""| == 0
  {
  }

  /** The second record, at the end of a file. */
  lemma {:induction false} LastLine(before: string)
    ensures ReadFrom(before + SECOND, |before|, KindOf).pairs == [Attribute("c", "d")]
  {
    hide KindOf, ReadFrom;
    AttributeLines();
    assert SECOND + "" == SECOND;
    ReadOne(before, SECOND, "", KindOf);
    ReadEof(before + SECOND, KindOf);
  }

  /** A separator that does not start with a dash: the deletion goes on into the next
      record, which is lost with the first. */
  lemma {:induction false} OtherSeparatorIsOverrun()
    ensures var f, next := FIRST + (NEW + SECOND), |FIRST + NEW|;
            && ReadFrom(f, 0, KindOf).pairs == [Attribute("a", "b")] && ReadEnd(f, 0, KindOf) == next
            && ReadFrom(f, next, KindOf).pairs == [Attribute("c", "d")]
            && ReadFrom(Tombstoned(f, 0), next, KindOf).pairs == []
  {
    hide KindOf, ReadFrom, Tombstoned, ReadEnd;
    AttributeLines();
    MarkedLines();
    SeparatorLines();
    // before
    Starts(FIRST, NEW + SECOND);
    ReadOne("", FIRST, NEW + SECOND, KindOf);
    ReadOne("" + FIRST, NEW, SECOND, KindOf);
    LastLine(("" + FIRST) + NEW);
    // the deletion
    var head := ("" + FIRST_MARKED) + NEW;
    TombstoneLine("", FIRST, FIRST_MARKED, NEW + SECOND);
    TombstoneLine("" + FIRST_MARKED, NEW, NEW, SECOND);
    assert SECOND + "" == SECOND;
    TombstoneLine(head, SECOND, SECOND_MARKED, "");
    TombstoneEnds(head + SECOND_MARKED, "");
    // after
    ReadOne(head, SECOND_MARKED, "", KindOf);
    ReadEof(head + SECOND_MARKED, KindOf);
    assert |head| == |FIRST + NEW|;
  }

  /** A line that starts with a dash and is no separator: the deletion stops there,
      and what stands behind it in the record is still read. */
  lemma {:induction false} DashLineStopsShort()
    ensures var f := FIRST + ("-\n" + SECOND);
            && ReadFrom(f, 0, KindOf).pairs == [Attribute("a", "b"), Attribute("c", "d")]
            && ReadFrom(Tombstoned(f, 0), 0, KindOf).pairs == [Attribute("c", "d")]
  {
    hide KindOf, ReadFrom, Tombstoned, ReadEnd;
    AttributeLines();
    MarkedLines();
    NoAttribute("-");
    assert "-" + "\n" == "-\n";
    var tail := "-\n" + SECOND;
    // before
    Starts(FIRST, tail);
    ReadOne("", FIRST, tail, KindOf);
    ReadOne("" + FIRST, "-\n", SECOND, KindOf);
    LastLine(("" + FIRST) + "-\n");
    // the deletion
    TombstoneLine("", FIRST, FIRST_MARKED, tail);
    TombstoneEnds("" + FIRST_MARKED, tail);
    // after
    Starts(FIRST_MARKED, tail);
    assert ("" + FIRST_MARKED) + tail == "" + (FIRST_MARKED + tail);
    ReadOne("", FIRST_MARKED, tail, KindOf);
    ReadOne("" + FIRST_MARKED, "-\n", SECOND, KindOf);
    LastLine(("" + FIRST_MARKED) + "-\n");
  }

  /** A line that becomes a separator when it is marked: the record now ends in its
      middle, and what follows counts as another record. */
  lemma {:induction false} MarkedLineSeparates()
    ensures var f := FIRST + ("xNEW_\n" + SECOND);
            ReadEnd(f, 0, KindOf) == |f| && ReadEnd(Tombstoned(f, 0), 0, KindOf) == |FIRST + NEW| < |f|
  {
    hide KindOf, ReadFrom, Tombstoned, ReadEnd;
    AttributeLines();
    MarkedLines();
    SeparatorLines();
    NoAttribute("xNEW_");
    assert "xNEW_" + "\n" == "xNEW_\n" && "_" + "xNEW_\n"[1..] == NEW && SECOND + "" == SECOND;
    var tail := "xNEW_\n" + SECOND;
    // before
    Starts(FIRST, tail);
    ReadOne("", FIRST, tail, KindOf);
    ReadOne("" + FIRST, "xNEW_\n", SECOND, KindOf);
    var head := ("" + FIRST) + "xNEW_\n";
    ReadOne(head, SECOND, "", KindOf);
    ReadEof(head + SECOND, KindOf);
    // the deletion
    var marked := ("" + FIRST_MARKED) + NEW;
    TombstoneLine("", FIRST, FIRST_MARKED, tail);
    TombstoneLine("" + FIRST_MARKED, "xNEW_\n", NEW, SECOND);
    TombstoneLine(marked, SECOND, SECOND_MARKED, "");
    TombstoneEnds(marked + SECOND_MARKED, "");
    // after
    var g := (marked + SECOND_MARKED) + "";
    assert g == "" + (FIRST_MARKED + (NEW + SECOND_MARKED));
    ReadOne("", FIRST_MARKED, NEW + SECOND_MARKED, KindOf);
    ReadOne("" + FIRST_MARKED, NEW, SECOND_MARKED, KindOf);
  }

  lemma {:induction false} ChunksHere(f: string)
    requires f == FIRST + ("\n" + (SECOND + DASHES))
    ensures Chunk(f, 0) == FIRST && Chunk(f, 5) == "\n" && Chunk(f, 6) == SECOND && Chunk(f, 11) == DASHES
  {
    hide Chunk;
    var tail := SECOND + DASHES;
    Starts(FIRST, "\n" + tail);
    ChunkIn("", FIRST, "\n" + tail);
    ChunkIn(FIRST, "\n", tail);
    SumOfSums(FIRST, "\n", tail);
    ChunkIn(FIRST + "\n", SECOND, DASHES);
    SumOfSums(FIRST + "\n", SECOND, DASHES);
    assert DASHES + "" == DASHES;
    ChunkIn((FIRST + "\n") + SECOND, DASHES, "");
  }

  /** An empty line inside a record does no harm: such a record is deleted cleanly. */
  lemma {:induction false} EmptyLineInside()
    ensures IsClean(FIRST + ("\n" + (SECOND + DASHES)), 0, KindOf)
  {
    hide KindOf, IsClean, IsDeletable, HasRoom, ReadsMarks, Chunk;
    AttributeLines();
    MarkedLines();
    SeparatorLines();
    KindOfEmptyLine();
    var f := FIRST + ("\n" + (SECOND + DASHES));
    ChunksHere(f);
    KindOfReadsMarks();
    GuardHere(f);
    CleanExactly(f, 0, KindOf);
  }

  lemma {:induction false} GuardHere(f: string)
    requires f == FIRST + ("\n" + (SECOND + DASHES))
    requires Chunk(f, 0) == FIRST && Chunk(f, 5) == "\n" && Chunk(f, 6) == SECOND && Chunk(f, 11) == DASHES
    requires KindOf(FIRST).Carries? && KindOf("\n").Skipped? && KindOf(SECOND).Carries? && KindOf(DASHES).Separator?
    requires KindOf(FIRST_MARKED).Skipped?
    ensures IsDeletable(f, 0, KindOf) && HasRoom(f, 0, KindOf)
  {
    hide KindOf, Chunk;
    assert "_" + FIRST[1..] == FIRST_MARKED;
    assert f[0] == 'a' && f[5] == '\n' && f[6] == 'c' && f[11] == '-';
    assert IsUnharmed(f, 11);
    assert IsDeletableFrom(f, 11, 11, KindOf) && HasRoomFrom(f, 11, 11, KindOf);
    assert IsDeletableFrom(f, 5, 6, KindOf) && HasRoomFrom(f, 5, 6, KindOf);
    assert IsDeletableFrom(f, 5, 5, KindOf) && HasRoomFrom(f, 5, 5, KindOf);
  }
}
