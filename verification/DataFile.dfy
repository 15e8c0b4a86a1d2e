/** Records in a data file (anon_record.c, misc.c): how they are read, and what
    deleting one in place (delete.c) does to the rest of the file. */
module DataFile {
  import opened Text
  import opened CStrings
  import opened LineFile

  /** The bytes `fgets` delivers at `p`: a line, or 511 bytes of a longer one. */
  function Chunk(f: string, p: nat): (c: string)
    requires p <= |f|
    ensures p < |f| ==> 0 < |c| && p + |c| <= |f| && c == f[p..p + |c|]
  {
    f[p..FgetsEnd(f, p, MAX_LINE)]
  }

  /** `new_record`: a line that separates records. */
  predicate IsSeparator(line: string) {
    "---" <= line || EqualIgnoringCase(line, "_NEW_")
  }

  /** `parse_line`: tag and datum of `tag: datum`; a line that starts with `#`
      or has no colon is none. */
  function ParseLine(line: string): Option<Attribute> {
    var text := TrimStart(line, IsSpace);
    var colon := Find(line, ':', 0);
    if line == "" || (text != "" && text[0] == '#') || colon == |line| then None
    else Some(Attribute(TrimEnd(line[..colon], IsSpace), TrimStart(line[colon + 1..], IsSpace)))
  }

  datatype Attribute = Attribute(tag: string, datum: string)

  /** What a line means to the record reader. */
  datatype LineKind = Separator | Skipped | Carries(av: Attribute)

  /** The tests of `mkdb_read_anon_record` on one delivered line, in order. */
  function KindOf(raw: string): LineKind {
    var line := Clean(raw);
    if IsSeparator(line) then Separator
    else if line != "" && line[0] == '_' then Skipped
    else
      var av := ParseLine(line);
      if av.Some? then Carries(av.value) else Skipped
  }

  /** A tag as it may stand in front of a colon. */
  predicate IsTag(tag: string) {
    && tag != "" && !IsSpace(tag[0]) && !IsSpace(tag[|tag| - 1])
    && tag[0] != '#' && tag[0] != '_' && tag[0] != '-'
    && forall i :: 0 <= i < |tag| ==> IsPlain(tag[i]) && tag[i] != ':'
  }

  predicate IsDatum(datum: string) {
    && datum != "" && !IsSpace(datum[0]) && !IsSpace(datum[|datum| - 1])
    && forall i :: 0 <= i < |datum| ==> IsPlain(datum[i])
  }

  /** A written attribute line carries its tag and its datum, colons in the datum
      included. */
  lemma {:induction false} LineCarries(tag: string, datum: string)
    requires IsTag(tag) && IsDatum(datum)
    ensures KindOf(tag + (": " + datum) + "\n") == Carries(Attribute(tag, datum))
  {
    var line := tag + (": " + datum);
    assert forall i :: 0 <= i < |line| ==>
             line[i] == if i < |tag| then tag[i] else if i == |tag| then ':' else if i == |tag| + 1 then ' '
                 else datum[i - |tag| - 2];
    CleanKeeps(line);
    AttributeReads(tag, datum);
    assert line[0] == tag[0];
    NotSeparator(line);
  }

  lemma {:induction false} NotSeparator(line: string)
    requires line != "" && line[0] != '-' && line[0] != '_'
    ensures !IsSeparator(line)
  {
    assert Lower("_NEW_")[0] == '_' && Lower(line)[0] == LowerChar(line[0]);
  }

  lemma {:induction false} AttributeReads(tag: string, datum: string)
    requires IsTag(tag) && IsDatum(datum)
    ensures ParseLine(tag + (": " + datum)) == Some(Attribute(tag, datum))
  {
    var line := tag + (": " + datum);
    assert forall i :: 0 <= i < |tag| ==> line[i] == tag[i];
    assert line[|tag|] == ':';
    FindIs(line, ':', 0, |tag|);
    RunIs(line, IsSpace, 0);
    assert line[0..] == line && line[..|tag|] == tag && line[|tag| + 1..] == " " + datum;
    assert Stem(tag, IsSpace) == |tag| && tag[..|tag|] == tag;
    RunIs(" " + datum, IsSpace, 1);
    assert (" " + datum)[1..] == datum;
  }

  datatype AnonRead = AnonRead(pairs: seq<Attribute>, eof: bool)

  /** The attributes from `p` up to the next separator or the end of the file,
      for a given reading of the lines. */
  function ReadFrom(f: string, p: nat, kind: string -> LineKind): AnonRead
    requires p <= |f|
    decreases |f| - p
  {
    if p == |f| then AnonRead([], true)
    else
      match kind(Chunk(f, p))
      case Separator => AnonRead([], false)
      case Skipped => ReadFrom(f, p + |Chunk(f, p)|, kind)
      case Carries(av) =>
        var rest := ReadFrom(f, p + |Chunk(f, p)|, kind);
        AnonRead([av] + rest.pairs, rest.eof)
  }

  // ---- A record as it is written ------------------------------------------

  /** One line as `fgets` delivers it. */
  predicate IsOneChunk(line: string) {
    0 < |line| < MAX_LINE && line[|line| - 1] == '\n' && forall i :: 0 <= i < |line| - 1 ==> line[i] != '\n'
  }

  lemma {:induction false} ChunkIn(before: string, line: string, after: string)
    requires IsOneChunk(line)
    ensures Chunk(before + (line + after), |before|) == line
  {
    var f := before + (line + after);
    FindIs(f, '\n', |before|, |before| + |line| - 1);
  }

  /** A line of a record as it is written: an attribute, or a line that carries none,
      such as a remark. */
  datatype WrittenLine = AttributeLine(av: Attribute) | Note(text: string)

  /** The line of a separator: three dashes and what one likes, or `_NEW_`, its letters
      in any case. */
  predicate Separates(text: string) {
    "---" <= text || HasSameLetters(text, "_NEW_")
  }

  /** No separator, and empty, a remark, overwritten, or without a colon. */
  predicate IsNote(text: string) {
    !Separates(text) && (text == "" || text[0] == '#' || text[0] == '_' || Lacks(text, ':'))
  }

  /** A text that is a line of its own: printable, no blanks at its ends, not too long. */
  predicate IsLineOfText(text: string) {
    && |text| + 1 < MAX_LINE && (text != "" ==> !IsSpace(text[0]) && !IsSpace(text[|text| - 1]))
    && forall i :: 0 <= i < |text| ==> IsPlain(text[i])
  }

  predicate IsWritable(line: WrittenLine) {
    IsLineOfText(LineText(line))
    && match line
       case AttributeLine(av) => IsTag(av.tag) && IsDatum(av.datum)
       case Note(text) => IsNote(text)
  }

  function LineText(line: WrittenLine): string {
    match line
    case AttributeLine(av) => av.tag + (": " + av.datum)
    case Note(text) => text
  }

  function RecordText(lines: seq<WrittenLine>): string {
    if lines == [] then "" else (LineText(lines[0]) + "\n") + RecordText(lines[1..])
  }

  function AttributesOf(lines: seq<WrittenLine>): seq<Attribute> {
    if lines == [] then []
    else (if lines[0].AttributeLine? then [lines[0].av] else []) + AttributesOf(lines[1..])
  }

  lemma {:induction false} SeparatorIsRead(text: string)
    ensures IsSeparator(text) <==> Separates(text)
    ensures IsLineOfText(text) ==> IsOneChunk(text + "\n") && (Separates(text) ==> KindOf(text + "\n") == Separator)
  {
    IgnoringCaseMeans(text, "_NEW_");
    if IsLineOfText(text) {
      CleanKeeps(text);
    }
  }

  lemma {:induction false} NoteIsSkipped(text: string)
    requires IsLineOfText(text) && IsNote(text)
    ensures KindOf(text + "\n") == Skipped
  {
    SeparatorIsRead(text);
    CleanKeeps(text);
    if text != "" && text[0] != '_' {
      RunIs(text, IsSpace, 0);
      assert text[0..] == text;
    }
  }

  lemma {:induction false} LineIsRead(line: WrittenLine)
    requires IsWritable(line)
    ensures var raw := LineText(line) + "\n";
            IsOneChunk(raw) && KindOf(raw) == if line.AttributeLine? then Carries(line.av) else Skipped
  {
    hide KindOf;
    SeparatorIsRead(LineText(line));
    match line
    case AttributeLine(av) => LineCarries(av.tag, av.datum);
    case Note(text) => NoteIsSkipped(text);
  }

  /** What follows a record: nothing, or a separator on a line of its own. */
  ghost predicate EndsRecord(rest: string) {
    rest == "" || exists text, more :: IsLineOfText(text) && Separates(text) && rest == (text + "\n") + more
  }

  /** The file holds these lines at `off`, and nothing else of that record. */
  ghost predicate HoldsRecord(f: string, off: int, lines: seq<WrittenLine>) {
    && 0 <= off <= |f| && (forall i :: 0 <= i < |lines| ==> IsWritable(lines[i]))
    && exists rest :: EndsRecord(rest) && f[off..] == RecordText(lines) + rest
  }

  lemma {:induction false} ChunkAt(f: string, off: nat, line: string, after: string)
    requires off <= |f| && f[off..] == line + after && IsOneChunk(line)
    ensures off < |f| && Chunk(f, off) == line && f[off + |line|..] == after
  {
    ChunkIn(f[..off], line, after);
    assert f == f[..off] + (line + after);
    assert f[off + |line|..] == f[off..][|line|..];
  }

  lemma {:induction false} ReadStep(f: string, off: nat, kind: string -> LineKind)
    requires off < |f|
    ensures var line, rest := kind(Chunk(f, off)), ReadFrom(f, off + |Chunk(f, off)|, kind).pairs;
            ReadFrom(f, off, kind).pairs
            == if line.Separator? then [] else (if line.Carries? then [line.av] else []) + rest
  {
  }

  /** A record is read back as it was written. */
  lemma {:induction false} RecordReads(f: string, off: nat, lines: seq<WrittenLine>)
    requires HoldsRecord(f, off, lines)
    ensures ReadFrom(f, off, KindOf).pairs == AttributesOf(lines)
    decreases |lines|
  {
    hide KindOf, Chunk, IsWritable, LineText, IsLineOfText, Separates, ReadFrom, IsOneChunk;
    var rest :| EndsRecord(rest) && f[off..] == RecordText(lines) + rest;
    if lines != [] {
      var raw := LineText(lines[0]) + "\n";
      LineIsRead(lines[0]);
      SumOfSums(raw, RecordText(lines[1..]), rest);
      ChunkAt(f, off, raw, RecordText(lines[1..]) + rest);
      ReadStep(f, off, KindOf);
      RecordReads(f, off + |raw|, lines[1..]);
    } else {
      assert "" + rest == rest;
      NothingIsRead(f, off);
    }
  }

  lemma {:induction false} NothingIsRead(f: string, off: nat)
    requires off <= |f| && EndsRecord(f[off..])
    ensures ReadFrom(f, off, KindOf).pairs == []
  {
    hide KindOf, Chunk, IsLineOfText, Separates;
    var rest := f[off..];
    if rest != "" {
      var text, more :| IsLineOfText(text) && Separates(text) && rest == (text + "\n") + more;
      SeparatorIsRead(text);
      ChunkAt(f, off, text + "\n", more);
    }
  }

  datatype RecStatus = REC_OK | REC_NULL | REC_EOF | REC_FATAL

  function StatusOf(read: AnonRead): RecStatus {
    if read.pairs != [] then REC_OK else if read.eof then REC_EOF else REC_NULL
  }

  /** A reading continued by another. */
  function After(list: seq<Attribute>, rest: AnonRead): AnonRead {
    AnonRead(list + rest.pairs, rest.eof)
  }

  /** One line of the loop of `mkdb_read_anon_record`. */
  lemma {:induction false} ReadLine(f: string, p: nat, kind: string -> LineKind, list: seq<Attribute>)
    requires p < |f|
    ensures var line, next := kind(Chunk(f, p)), p + |Chunk(f, p)|;
            After(list, ReadFrom(f, p, kind)) ==
            if line.Separator? then AnonRead(list, false)
            else After(if line.Skipped? then list else list + [line.av], ReadFrom(f, next, kind))
  {
    var line, next := kind(Chunk(f, p)), p + |Chunk(f, p)|;
    if line.Carries? {
      assert list + ([line.av] + ReadFrom(f, next, kind).pairs) == list + [line.av] + ReadFrom(f, next, kind).pairs;
    } else if line.Separator? {
      assert list + [] == list;
    }
  }

  /** `mkdb_read_anon_record`, the file position given and returned. */
  method ReadAnonRecord(f: string, offset: nat, kind: string -> LineKind)
    returns (pairs: Option<seq<Attribute>>, status: RecStatus, fp: nat)
    requires offset <= |f|
    ensures status == StatusOf(ReadFrom(f, offset, kind))
    ensures pairs == if status == REC_OK then Some(ReadFrom(f, offset, kind).pairs) else None
    ensures offset <= fp <= |f|
  {
    hide Chunk;
    fp := offset;
    var list: seq<Attribute> := [];
    var eofFlag := true;
    ghost var goal := ReadFrom(f, offset, kind);
    while fp < |f|
      invariant offset <= fp <= |f| && eofFlag
      invariant goal == After(list, ReadFrom(f, fp, kind))
      decreases |f| - fp
    {
      ReadLine(f, fp, kind, list);
      var chunk := Chunk(f, fp);
      fp := fp + |chunk|;
      var line := kind(chunk);
      if line.Separator? {
        eofFlag := false;
        break;
      }
      if line.Skipped? {
        continue;
      }
      list := list + [line.av];
    }
    assert goal == AnonRead(list, eofFlag);
    if list == [] {
      return None, if eofFlag then REC_EOF else REC_NULL, fp;
    }
    return Some(list), REC_OK, fp;
  }
}
