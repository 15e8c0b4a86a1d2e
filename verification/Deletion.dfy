/** Deleting a record in place (`mkdb_delete_data_entry` of delete.c): the first
    byte of each of its lines becomes an underscore. */
module Deletion {
  import opened Text
  import opened CStrings
  import opened LineFile
  import opened DataFile

  /** The loop of the deletion: lines are overwritten up to one that starts with a
      dash or the end of the file. */
  function Tombstoned(f: string, p: nat): (r: string)
    requires p <= |f|
    ensures |r| == |f|
    decreases |f| - p
  {
    if p == |f| || f[p] == '-' then f
    else Tombstoned(f[p := '_'], p + |Chunk(f, p)|)
  }

  /** An open data file: its bytes and the record count kept for it. */
  class DataStore {
    var bytes: string
    var numRecs: int

    constructor (text: string, n: int)
      ensures bytes == text && numRecs == n
    {
      bytes, numRecs := text, n;
    }

    /** `mkdb_delete_data_entry`. */
    method DeleteDataEntry(offset: nat)
      requires offset < |bytes|
      modifies this
      ensures bytes == Tombstoned(old(bytes), offset)
      ensures numRecs == old(numRecs) - 1
    {
      hide Chunk;
      var pos := offset;
      var buffer := Chunk(bytes, pos);
      while buffer[0] != '-'
        invariant offset <= pos < |bytes| && buffer == Chunk(bytes, pos) && |bytes| == |old(bytes)|
        invariant numRecs == old(numRecs)
        invariant Tombstoned(old(bytes), offset) == Tombstoned(bytes, pos)
        decreases |bytes| - pos
      {
        bytes := bytes[pos := '_'];
        pos := pos + |buffer|;
        if pos == |bytes| {
          break;
        }
        buffer := Chunk(bytes, pos);
      }
      numRecs := numRecs - 1;
    }
  }

  /** Where the record at `p` ends: its separator, or the end of the file. */
  function BodyEnd(f: string, p: nat, kind: string -> LineKind): (e: nat)
    requires p <= |f|
    ensures p <= e <= |f|
    decreases |f| - p
  {
    if p == |f| || kind(Chunk(f, p)).Separator? then p else BodyEnd(f, p + |Chunk(f, p)|, kind)
  }

  /** Position behind the record that starts at `p`, its separator included. */
  function ReadEnd(f: string, p: nat, kind: string -> LineKind): (e: nat)
    requires p <= |f|
    ensures p <= e <= |f|
    decreases |f| - p
  {
    if p == |f| then p
    else if kind(Chunk(f, p)).Separator? then p + |Chunk(f, p)|
    else ReadEnd(f, p + |Chunk(f, p)|, kind)
  }

  // ---- What a deletion should do, and when it does ------------------------

  /** A clean deletion: read at its own offset the record carries nothing and ends
      where it did, and no byte outside of it has changed. */
  ghost predicate IsClean(f: string, p: nat, kind: string -> LineKind)
    requires p <= |f|
  {
    var g := Tombstoned(f, p);
    && ReadFrom(g, p, kind).pairs == []
    && ReadEnd(g, p, kind) == ReadEnd(f, p, kind)
    && (forall i :: 0 <= i < |f| && !(p <= i < BodyEnd(f, p, kind)) ==> g[i] == f[i])
  }

  /** A deletion that comes to `n` leaves every byte from there on as it is. */
  predicate IsUnharmed(f: string, n: nat)
    requires n <= |f|
    decreases |f| - n
  {
    n == |f| || f[n] == '-' || (f[n] == '_' && IsUnharmed(f, n + |Chunk(f, n)|))
  }

  /** The guard, from the line at `n` on. The line may be glued to empty lines in
      front of it, whose newlines are overwritten; `m` is where these start, or `n`.
      - A separator must stop the deletion, or have only marked lines behind it up
        to where it stops. Glued, it is lost, unless it ends the file.
      - Any other line that starts with a dash stops the deletion: what is left of
        the record must carry nothing. Glued, the line itself counts as marked.
      - Any other line is marked. It must not turn into a separator by that, unless
        it ends the file; glued, it cannot. */
  predicate IsDeletableFrom(f: string, m: nat, n: nat, kind: string -> LineKind)
    requires m <= n <= |f|
    decreases |f| - n
  {
    n == |f| ||
    var line, next := Chunk(f, n), n + |Chunk(f, n)|;
    if kind(line).Separator? then IsUnharmed(f, n) && (m < n ==> next == |f|)
    else if f[n] == '-' then ReadFrom(f, if m < n then next else n, kind).pairs == []
    else
      && (m < n || line == "\n" || next == |f| || !kind("_" + line[1..]).Separator?)
      && IsDeletableFrom(f, if line == "\n" then m else next, next, kind)
  }

  predicate IsDeletable(f: string, p: nat, kind: string -> LineKind)
    requires p <= |f|
  {
    IsDeletableFrom(f, p, p, kind)
  }

  /** Empty lines and the line they are glued to fit into the reader's buffer. */
  predicate HasRoomFrom(f: string, m: nat, n: nat, kind: string -> LineKind)
    requires m <= n <= |f|
    decreases |f| - n
  {
    if n == |f| then n - m < MAX_LINE
    else
      var line, next := Chunk(f, n), n + |Chunk(f, n)|;
      && next - m < MAX_LINE
      && (kind(line).Separator? || f[n] == '-' || HasRoomFrom(f, if line == "\n" then m else next, next, kind))
  }

  predicate HasRoom(f: string, p: nat, kind: string -> LineKind)
    requires p <= |f|
  {
    HasRoomFrom(f, p, p, kind)
  }

  /** How marked lines are read: an overwritten line carries nothing, and glued to
      another it is no separator; nor is an empty line. */
  ghost predicate ReadsMarks(kind: string -> LineKind) {
    && (forall raw: string :: raw != "" && raw[0] == '_' ==> !kind(raw).Carries?)
    && (forall raw: string :: raw != "" && raw[0] == '_' && (|raw| == 1 || raw[1] in {'_', '-'}) ==> kind(raw).Skipped?)
    && kind("\n").Skipped?
  }

  lemma {:induction false} KindOfTombstone(raw: string)
    requires raw != "" && raw[0] == '_'
    ensures !KindOf(raw).Carries?
  {
    var text := CStr(raw);
    assert text != "" && text[0] == '_';
    var kept := Filter(text, IsKept);
    assert kept[0] == '_';
    var stem := TrimEnd(kept, IsSpace);
    assert stem[0] == '_';
    assert TrimStart(stem, IsSpace) == stem;
  }

  /** Two bytes at the front of a line survive its cleaning. */
  lemma {:induction false} CleanStarts(raw: string)
    requires |raw| >= 2 && raw[0] == '_' && raw[1] in {'_', '-'}
    ensures |Clean(raw)| >= 2 && Clean(raw)[0] == '_' && Clean(raw)[1] == raw[1]
  {
    var text := CStr(raw);
    assert text[0] == raw[0] && text[1] == raw[1];
    var rest := text[1..];
    assert rest[0] == raw[1];
    var kept := Filter(text, IsKept);
    assert kept == ['_'] + Filter(rest, IsKept) && Filter(rest, IsKept) == [raw[1]] + Filter(rest[1..], IsKept);
    assert kept[0] == '_' && kept[1] == raw[1];
    var stem := TrimEnd(kept, IsSpace);
    assert |stem| >= 2;
    RunIs(stem, IsSpace, 0);
    assert stem[0..] == stem;
  }

  lemma {:induction false} KindOfGlued(raw: string)
    requires raw != "" && raw[0] == '_' && (|raw| == 1 || raw[1] in {'_', '-'})
    ensures KindOf(raw).Skipped?
  {
    KindOfTombstone(raw);
    if |raw| >= 2 {
      CleanStarts(raw);
      assert Lower(Clean(raw))[1] == raw[1] && Lower("_NEW_")[1] == 'n';
    } else {
      assert |Clean(raw)| <= 1;
      assert |Lower("_NEW_")| == 5;
    }
  }

  lemma {:induction false} KindOfEmptyLine()
    ensures KindOf("\n").Skipped?
  {
    assert Filter("\n", IsKept) == Filter("\n"[1..], IsKept) == "";
    assert Clean("\n") == "";
  }

  lemma {:induction false} KindOfReadsMarks()
    ensures ReadsMarks(KindOf)
  {
    forall raw: string | raw != "" && raw[0] == '_' ensures !KindOf(raw).Carries? {
      KindOfTombstone(raw);
    }
    forall raw: string | raw != "" && raw[0] == '_' && (|raw| == 1 || raw[1] in {'_', '-'})
        ensures KindOf(raw).Skipped? {
      KindOfGlued(raw);
    }
    KindOfEmptyLine();
  }

  // ---- Reading what has not changed ---------------------------------------

  /** A line whose bytes are the same is delivered the same. */
  lemma {:induction false} SameChunk(f: string, g: string, p: nat)
    requires |f| == |g| && p <= |f|
    requires forall i :: p <= i < p + |Chunk(f, p)| ==> f[i] == g[i]
    ensures Chunk(g, p) == Chunk(f, p)
  {
    var k, j := Find(f, '\n', p), Find(g, '\n', p);
    if k < p + |Chunk(f, p)| {
      FindIs(g, '\n', p, k);
    } else {
      assert j >= p + |Chunk(f, p)|;
    }
  }

  ghost predicate SameBehind(f: string, g: string, n: nat) {
    |f| == |g| && forall i :: n <= i < |f| ==> f[i] == g[i]
  }

  lemma {:induction false} ReadBehind(f: string, g: string, n: nat, kind: string -> LineKind)
    requires SameBehind(f, g, n) && n <= |f|
    ensures ReadFrom(f, n, kind) == ReadFrom(g, n, kind)
    ensures ReadEnd(f, n, kind) == ReadEnd(g, n, kind) && BodyEnd(f, n, kind) == BodyEnd(g, n, kind)
    decreases |f| - n
  {
    hide Chunk;
    if n < |f| {
      SameChunk(f, g, n);
      ReadBehind(f, g, n + |Chunk(f, n)|, kind);
    }
  }

  lemma {:induction false} UnharmedBehind(f: string, g: string, n: nat)
    requires SameBehind(f, g, n) && n <= |f|
    ensures IsUnharmed(f, n) == IsUnharmed(g, n)
    decreases |f| - n
  {
    hide Chunk;
    if n < |f| {
      SameChunk(f, g, n);
      UnharmedBehind(f, g, n + |Chunk(f, n)|);
    }
  }

  lemma {:induction false} GuardBehind(f: string, g: string, m: nat, n: nat, kind: string -> LineKind)
    requires SameBehind(f, g, n) && m <= n <= |f|
    ensures IsDeletableFrom(f, m, n, kind) == IsDeletableFrom(g, m, n, kind)
    ensures HasRoomFrom(f, m, n, kind) == HasRoomFrom(g, m, n, kind)
    decreases |f| - n
  {
    hide Chunk, IsUnharmed, ReadFrom, ReadEnd, BodyEnd;
    if n < |f| {
      SameChunk(f, g, n);
      var next := n + |Chunk(f, n)|;
      UnharmedBehind(f, g, n);
      ReadBehind(f, g, n, kind);
      ReadBehind(f, g, next, kind);
      GuardBehind(f, g, if Chunk(f, n) == "\n" then m else next, next, kind);
    }
  }

  /** Reading a record that ends before the first changed byte. */
  lemma {:induction false} ReadBefore(f: string, g: string, a: nat, p: nat, kind: string -> LineKind)
    requires |f| == |g| && p <= |f| && ReadEnd(f, p, kind) <= a && forall i :: 0 <= i < |f| && i < a ==> f[i] == g[i]
    ensures ReadFrom(f, p, kind) == ReadFrom(g, p, kind)
    decreases |f| - p
  {
    hide Chunk;
    if p < |f| {
      SameChunk(f, g, p);
      if !kind(Chunk(f, p)).Separator? {
        ReadBefore(f, g, a, p + |Chunk(f, p)|, kind);
      }
    }
  }

  lemma {:induction false} TombstoneWrites(f: string, p: nat)
    requires p < |f| && f[p] != '-'
    ensures Tombstoned(f, p)[p] == '_'
  {
    TombstoneIsAhead(f[p := '_'], p + |Chunk(f, p)|, p);
  }

  /** What lies before the place a deletion has reached is not touched. */
  lemma {:induction false} TombstoneIsAhead(f: string, p: nat, i: nat)
    requires i < p <= |f|
    ensures Tombstoned(f, p)[i] == f[i]
    decreases |f| - p
  {
    if p < |f| && f[p] != '-' {
      TombstoneIsAhead(f[p := '_'], p + |Chunk(f, p)|, i);
    }
  }

  // ---- The exact condition ------------------------------------------------

  /** The same for a deletion that has come to `n` in the file `h`, with marks from
      `m` to `n`. */
  ghost predicate IsCleanFrom(h: string, m: nat, n: nat, kind: string -> LineKind)
    requires m <= n <= |h|
  {
    var g := Tombstoned(h, n);
    && ReadFrom(g, m, kind).pairs == []
    && ReadEnd(g, m, kind) == ReadEnd(h, n, kind)
    && SameBehind(h, g, BodyEnd(h, n, kind))
  }

  ghost predicate AreMarks(h: string, m: nat, n: nat) {
    m <= n <= |h| && forall i :: m <= i < n ==> h[i] == '_'
  }

  /** A stretch of a line up to its end is delivered whole, if it fits. */
  lemma {:induction false} WholeChunk(g: string, m: nat, next: nat)
    requires m < next <= |g| && next - m < MAX_LINE && forall i :: m <= i < next - 1 ==> g[i] != '\n'
    requires g[next - 1] == '\n' || next == |g| || next - m == MAX_LINE - 1
    ensures Chunk(g, m) == g[m..next]
  {
    var k := Find(g, '\n', m);
    if g[next - 1] == '\n' {
      FindIs(g, '\n', m, next - 1);
    }
  }

  /** The line in front of which marks stand is delivered together with them. */
  lemma {:induction false} GluedChunk(h: string, g: string, m: nat, n: nat)
    requires AreMarks(h, m, n) && n < |h| == |g| && n + |Chunk(h, n)| - m < MAX_LINE
    requires forall i :: m <= i < n ==> g[i] == '_'
    requires forall i :: n < i < n + |Chunk(h, n)| ==> g[i] == h[i]
    requires g[n] == if h[n] == '-' then '-' else '_'
    requires Chunk(h, n) != "\n"
    ensures Chunk(g, m) == g[m..n + |Chunk(h, n)|]
  {
    var line, next := Chunk(h, n), n + |Chunk(h, n)|;
    assert forall i :: n <= i < next ==> h[i] == line[i - n];
    assert h[next - 1] == '\n' || next == |h| || |line| == MAX_LINE - 1;
    if next == n + 1 {
      assert line == [h[n]];
    }
    WholeChunk(g, m, next);
  }

  lemma {:induction false} UnharmedIsFixed(h: string, n: nat)
    requires n <= |h|
    ensures IsUnharmed(h, n) <==> SameBehind(h, Tombstoned(h, n), n)
    ensures IsUnharmed(h, n) ==> Tombstoned(h, n) == h
    decreases |h| - n
  {
    hide Chunk;
    if n < |h| && h[n] != '-' {
      TombstoneWrites(h, n);
      if h[n] == '_' {
        assert h[n := '_'] == h;
        UnharmedIsFixed(h, n + |Chunk(h, n)|);
        TombstoneIsAheadAll(h, n + |Chunk(h, n)|);
      }
    }
  }

  lemma {:induction false} TombstoneIsAheadAll(h: string, n: nat)
    requires n <= |h|
    ensures forall i :: 0 <= i < n ==> Tombstoned(h, n)[i] == h[i]
  {
    forall i | 0 <= i < n ensures Tombstoned(h, n)[i] == h[i] {
      TombstoneIsAhead(h, n, i);
    }
  }

  /** What reading does with a line that is skipped. */
  lemma {:induction false} SkipLine(g: string, m: nat, next: nat, kind: string -> LineKind)
    requires m < next <= |g| && Chunk(g, m) == g[m..next] && kind(g[m..next]).Skipped?
    ensures ReadFrom(g, m, kind) == ReadFrom(g, next, kind) && ReadEnd(g, m, kind) == ReadEnd(g, next, kind)
  {
    hide Chunk;
  }

  lemma {:induction false} CleanAtEnd(h: string, m: nat, kind: string -> LineKind)
    requires AreMarks(h, m, |h|) && |h| - m < MAX_LINE && ReadsMarks(kind)
    ensures IsCleanFrom(h, m, |h|, kind)
  {
    if m < |h| {
      WholeChunk(h, m, |h|);
      SkipLine(h, m, |h|, kind);
    }
  }

  lemma {:induction false} CleanAtSeparator(h: string, m: nat, n: nat, kind: string -> LineKind)
    requires AreMarks(h, m, n) && n < |h| && ReadsMarks(kind) && kind(Chunk(h, n)).Separator?
    requires n + |Chunk(h, n)| - m < MAX_LINE
    ensures IsCleanFrom(h, m, n, kind) <==> IsUnharmed(h, n) && (m < n ==> n + |Chunk(h, n)| == |h|)
  {
    hide Tombstoned;
    var next := n + |Chunk(h, n)|;
    UnharmedIsFixed(h, n);
    if IsUnharmed(h, n) && m < n {
      GluedChunk(h, h, m, n);
      SkipLine(h, m, next, kind);
    }
  }

  lemma {:induction false} CleanAtDash(h: string, m: nat, n: nat, kind: string -> LineKind)
    requires AreMarks(h, m, n) && n < |h| && ReadsMarks(kind) && !kind(Chunk(h, n)).Separator? && h[n] == '-'
    requires n + |Chunk(h, n)| - m < MAX_LINE
    ensures IsCleanFrom(h, m, n, kind) <==> ReadFrom(h, if m < n then n + |Chunk(h, n)| else n, kind).pairs == []
  {
    hide Chunk;
    assert Tombstoned(h, n) == h;
    if m < n {
      GluedChunk(h, h, m, n);
      SkipLine(h, m, n + |Chunk(h, n)|, kind);
    }
  }

  lemma {:induction false} TombstoneStep(h: string, n: nat)
    requires n < |h| && h[n] != '-'
    ensures Tombstoned(h, n) == Tombstoned(h[n := '_'], n + |Chunk(h, n)|)
  {
  }

  /** A line that is marked, and is not empty: it is skipped, or it has become a
      separator. */
  lemma {:induction false} CleanAtLine(h: string, m: nat, n: nat, kind: string -> LineKind)
    requires AreMarks(h, m, n) && n < |h| && ReadsMarks(kind) && !kind(Chunk(h, n)).Separator? && h[n] != '-'
    requires n + |Chunk(h, n)| - m < MAX_LINE && Chunk(h, n) != "\n"
    ensures var line, next := Chunk(h, n), n + |Chunk(h, n)|;
            IsCleanFrom(h, m, n, kind)
            <==>
            (m < n || next == |h| || !kind("_" + line[1..]).Separator?)
            && IsCleanFrom(h[n := '_'], next, next, kind)
  {
    hide Chunk, ReadsMarks, Tombstoned;
    var line, next, h' := Chunk(h, n), n + |Chunk(h, n)|, h[n := '_'];
    var g := Tombstoned(h', next);
    TombstoneStep(h, n);
    TombstoneIsAheadAll(h', next);
    GluedChunk(h, g, m, n);
    ReadBehind(h, h', next, kind);
    assert m == n ==> g[m..next] == "_" + line[1..];
    LineMarked(h, g, m, n, kind);
  }

  lemma {:induction false} LineMarked(h: string, g: string, m: nat, n: nat, kind: string -> LineKind)
    requires m <= n < |h| == |g| && ReadsMarks(kind)
    requires Chunk(g, m) == g[m..n + |Chunk(h, n)|] && g[m] == '_' && (m < n ==> g[m + 1] == '_')
    ensures var next := n + |Chunk(h, n)|;
            if kind(g[m..next]).Separator? then m == n && ReadFrom(g, m, kind).pairs == []
                && ReadEnd(g, m, kind) == next
            else ReadFrom(g, m, kind) == ReadFrom(g, next, kind) && ReadEnd(g, m, kind) == ReadEnd(g, next, kind)
  {
    hide Chunk;
    var raw := g[m..n + |Chunk(h, n)|];
    assert raw[0] == '_' && (m < n ==> raw[1] == '_');
  }

  /** From any line on: the deletion is clean if and only if the guard holds. */
  lemma {:induction false} CleanExactlyFrom(h: string, m: nat, n: nat, kind: string -> LineKind)
    requires AreMarks(h, m, n) && HasRoomFrom(h, m, n, kind) && ReadsMarks(kind)
    ensures IsDeletableFrom(h, m, n, kind) <==> IsCleanFrom(h, m, n, kind)
    decreases |h| - n
  {
    hide Chunk, ReadsMarks, IsCleanFrom, IsUnharmed;
    if n == |h| {
      CleanAtEnd(h, m, kind);
    } else if kind(Chunk(h, n)).Separator? {
      CleanAtSeparator(h, m, n, kind);
    } else if h[n] == '-' {
      CleanAtDash(h, m, n, kind);
    } else {
      var next, h' := n + |Chunk(h, n)|, h[n := '_'];
      var m' := if Chunk(h, n) == "\n" then m else next;
      GuardBehind(h, h', m', next, kind);
      CleanExactlyFrom(h', m', next, kind);
      if Chunk(h, n) == "\n" {
        CleanAtEmptyLine(h, m, n, kind);
      } else {
        CleanAtLine(h, m, n, kind);
      }
    }
  }

  /** An empty line: its newline becomes one more mark. */
  lemma {:induction false} CleanAtEmptyLine(h: string, m: nat, n: nat, kind: string -> LineKind)
    requires AreMarks(h, m, n) && n < |h| && ReadsMarks(kind) && Chunk(h, n) == "\n"
    ensures IsCleanFrom(h, m, n, kind) <==> IsCleanFrom(h[n := '_'], m, n + 1, kind)
  {
    var h' := h[n := '_'];
    assert h[n] == Chunk(h, n)[0];
    ReadBehind(h, h', n + 1, kind);
    TombstoneIsAheadAll(h', n + 1);
  }

  /** The exact condition: a deletion is clean if and only if the guard holds of the
      record it deletes, for every file and every record whose empty lines leave
      room for the line behind them. */
  lemma {:induction false} CleanExactly(f: string, p: nat, kind: string -> LineKind)
    requires p <= |f| && HasRoom(f, p, kind) && ReadsMarks(kind)
    ensures IsDeletable(f, p, kind) <==> IsClean(f, p, kind)
  {
    hide IsDeletableFrom, ReadFrom, Tombstoned;
    CleanExactlyFrom(f, p, p, kind);
    TombstoneIsAheadAll(f, p);
  }

  /** A deleted record reads back as no record. */
  lemma {:induction false} TombstoneReadsEmpty(f: string, p: nat, kind: string -> LineKind)
    requires p <= |f| && IsDeletable(f, p, kind) && HasRoom(f, p, kind) && ReadsMarks(kind)
    ensures StatusOf(ReadFrom(Tombstoned(f, p), p, kind)) in {REC_NULL, REC_EOF}
  {
    hide IsDeletable, HasRoom, ReadFrom, Tombstoned, ReadsMarks;
    CleanExactly(f, p, kind);
  }

  lemma {:induction false} BodyIsRead(f: string, p: nat, kind: string -> LineKind)
    requires p <= |f|
    ensures BodyEnd(f, p, kind) <= ReadEnd(f, p, kind)
    decreases |f| - p
  {
    hide Chunk;
    if p < |f| && !kind(Chunk(f, p)).Separator? {
      BodyIsRead(f, p + |Chunk(f, p)|, kind);
    }
  }

  /** A deletion at `off` does not change what is read at `p`, if the two records
      do not overlap. */
  lemma {:induction false} DeletionElsewhere(f: string, off: nat, p: nat, kind: string -> LineKind)
    requires off <= |f| && p <= |f| && IsDeletable(f, off, kind) && HasRoom(f, off, kind) && ReadsMarks(kind)
    requires ReadEnd(f, off, kind) <= p || ReadEnd(f, p, kind) <= off
    ensures ReadFrom(Tombstoned(f, off), p, kind) == ReadFrom(f, p, kind)
  {
    hide IsDeletable, HasRoom, ReadFrom, Tombstoned, ReadsMarks, ReadEnd, BodyEnd;
    var g := Tombstoned(f, off);
    CleanExactly(f, off, kind);
    BodyIsRead(f, off, kind);
    if ReadEnd(f, off, kind) <= p {
      ReadBehind(f, g, p, kind);
    } else {
      ReadBefore(f, g, off, p, kind);
    }
  }

  /** Iterates `next` from 0. */
  function Nth(next: nat -> nat, k: nat): nat {
    if k == 0 then 0 else next(Nth(next, k - 1))
  }

  lemma {:induction false} NthFollow(next: nat -> nat, j: nat, k: nat)
    requires j < k && forall p: nat :: p <= next(p)
    ensures next(Nth(next, j)) <= Nth(next, k)
  {
    if j + 1 < k {
      NthFollow(next, j, k - 1);
      assert Nth(next, k - 1) <= next(Nth(next, k - 1));
    }
  }

  function EndOf(f: string, kind: string -> LineKind): nat -> nat {
    (p: nat) => if p <= |f| then ReadEnd(f, p, kind) else p
  }

  /** Offset of record `k` of a file. */
  function RecordStart(f: string, k: nat, kind: string -> LineKind): (p: nat)
    ensures p <= |f|
  {
    NthInside(f, k, kind);
    Nth(EndOf(f, kind), k)
  }

  lemma {:induction false} NthInside(f: string, k: nat, kind: string -> LineKind)
    ensures Nth(EndOf(f, kind), k) <= |f|
  {
    if k > 0 {
      NthInside(f, k - 1, kind);
    }
  }

  lemma {:induction false} RecordsFollow(f: string, j: nat, k: nat, kind: string -> LineKind)
    requires j < k
    ensures ReadEnd(f, RecordStart(f, j, kind), kind) <= RecordStart(f, k, kind)
  {
    NthFollow(EndOf(f, kind), j, k);
    assert EndOf(f, kind)(RecordStart(f, j, kind)) == ReadEnd(f, RecordStart(f, j, kind), kind);
  }

  /** Deleting record `d` of a file keeps the file's length, where that record ends,
      and what reading any other record at its offset yields. Read at its own offset,
      the deleted record is gone. */
  lemma {:induction false} DeletionIsLocal(f: string, d: nat, k: nat, kind: string -> LineKind)
    requires IsDeletable(f, RecordStart(f, d, kind), kind) && HasRoom(f, RecordStart(f, d, kind), kind)
        && ReadsMarks(kind)
    ensures var off, p := RecordStart(f, d, kind), RecordStart(f, k, kind);
            && StatusOf(ReadFrom(Tombstoned(f, off), off, kind)) in {REC_NULL, REC_EOF}
            && ReadEnd(Tombstoned(f, off), off, kind) == ReadEnd(f, off, kind)
            && (p != off ==> ReadFrom(Tombstoned(f, off), p, kind) == ReadFrom(f, p, kind))
  {
    hide ReadFrom, Tombstoned, IsDeletable, HasRoom, ReadEnd, RecordStart, ReadsMarks;
    var off, p := RecordStart(f, d, kind), RecordStart(f, k, kind);
    TombstoneReadsEmpty(f, off, kind);
    CleanExactly(f, off, kind);
    if p != off {
      if k < d {
        RecordsFollow(f, k, d, kind);
      } else {
        RecordsFollow(f, d, k, kind);
      }
      DeletionElsewhere(f, off, p, kind);
    }
  }
}
