/** The line codec of the wire protocol (section 3.1.9 of RFC 2167; src/codec.rs). */
module Codec {
  import opened Text

  const CRLF := "\r\n"

  datatype CodecError = LineTooLong | NonAscii | EmbeddedNewline

  /** One call of the decoder: a line, an error, or nothing yet. */
  datatype Decoded = Line(text: string) | Pending | Failed(error: CodecError)

  predicate IsAscii(c: char) {
    c < 128 as char
  }

  predicate IsTextByte(c: char) {
    c == '\t' || c >= ' '
  }

  /** The line in front of the newline at `nl`, without a carriage return. */
  function LineEndAt(buf: string, nl: nat): (e: nat)
    requires nl < |buf|
    ensures e <= nl
  {
    if nl > 0 && buf[nl - 1] == '\r' then nl - 1 else nl
  }

  predicate AllAscii(s: string) {
    forall i :: 0 <= i < |s| ==> IsAscii(s[i])
  }

  /** A raw line: rejected outside ASCII, else without control bytes and without
      blanks at its ends. */
  function CleanLine(raw: string): Decoded {
    if !AllAscii(raw) then Failed(NonAscii) else Line(Trim(Filter(raw, IsTextByte), IsBlank))
  }

  /** What the decoder makes of a buffer, with no memory of earlier calls, and
      the bytes it leaves. */
  function DecodeOne(max: nat, buf: string): (r: (Decoded, string))
    ensures |r.1| <= |buf|
    ensures r.0.Line? ==> |r.1| < |buf|
  {
    var nl := Find(buf, '\n', 0);
    if nl < |buf| then
      if nl + 1 > max then (Failed(LineTooLong), buf)
      else (CleanLine(buf[..LineEndAt(buf, nl)]), buf[nl + 1..])
    else if |buf| > max then (Failed(LineTooLong), buf)
    else (Pending, buf)
  }

  /** What one call of the decoder does, by where the first newline is. It waits for one
      in a buffer within the limit; it gives up when none stands within the limit; and
      else it takes the line up to it, and fails on a byte outside ASCII. */
  lemma {:induction false} DecodesExactly(max: nat, buf: string)
    ensures var (r, rest) := DecodeOne(max, buf);
            && (r == Pending <==> |buf| <= max && Lacks(buf, '\n'))
            && (r == Failed(LineTooLong) <==> |buf| > max && Lacks(buf[..max], '\n'))
            && (r in {Pending, Failed(LineTooLong)} ==> rest == buf)
    ensures forall nl :: 0 <= nl < |buf| && nl < max && buf[nl] == '\n' && Lacks(buf[..nl], '\n') ==>
              var (r, rest) := DecodeOne(max, buf);
              && rest == buf[nl + 1..]
              && (r == Failed(NonAscii) <==> exists i :: 0 <= i < nl && buf[i] >= 128 as char)
              && (r.Line? <==> forall i :: 0 <= i < nl ==> buf[i] < 128 as char)
  {
    var k := Find(buf, '\n', 0);
    if |buf| > max {
      assert forall i :: 0 <= i < max ==> buf[..max][i] == buf[i];
    }
    forall nl | 0 <= nl < |buf| && nl < max && buf[nl] == '\n' && Lacks(buf[..nl], '\n') ensures nl == k {
      assert forall i :: 0 <= i < nl ==> buf[..nl][i] == buf[i];
      FindIs(buf, '\n', 0, nl);
    }
    if k < |buf| {
      var e := LineEndAt(buf, k);
      assert forall i :: 0 <= i < e ==> buf[..e][i] == buf[i];
    }
  }

  /** A line as the decoder delivers it: tabs and printable characters, and no blanks at
      its ends. */
  predicate IsCleanText(s: string) {
    && (forall i :: 0 <= i < |s| ==> s[i] == '\t' || ' ' <= s[i] < 128 as char)
    && (s != "" ==> s[0] != ' ' && s[0] != '\t' && s[|s| - 1] != ' ' && s[|s| - 1] != '\t')
  }

  /** Cleaning, in full: a clean text is delivered as it is, what is delivered is clean,
      and control bytes anywhere and blanks at the ends make no difference. */
  lemma {:induction false} CleansExactly(raw: string)
    ensures IsCleanText(raw) ==> CleanLine(raw) == Line(raw)
    ensures CleanLine(raw).Line? ==> IsCleanText(CleanLine(raw).text)
    ensures forall a, c, b :: raw == a + [c] + b && c < ' ' && c != '\t' ==> CleanLine(raw) == CleanLine(a + b)
    ensures raw != "" && (raw[0] == ' ' || raw[0] == '\t') ==> CleanLine(raw) == CleanLine(raw[1..])
    ensures raw != "" && (raw[|raw| - 1] == ' ' || raw[|raw| - 1] == '\t') ==>
              CleanLine(raw) == CleanLine(raw[..|raw| - 1])
  {
    hide CleanLine, IsCleanText;
    if IsCleanText(raw) {
      CleanStays(raw);
    }
    DeliveredIsClean(raw);
    forall a, c, b | raw == a + [c] + b && c < ' ' && c != '\t' ensures CleanLine(raw) == CleanLine(a + b) {
      ControlIsDropped(a, c, b);
    }
    if raw != "" && (raw[0] == ' ' || raw[0] == '\t') {
      BlankInFront(raw[0], raw[1..]);
      assert raw == [raw[0]] + raw[1..];
    }
    if raw != "" && (raw[|raw| - 1] == ' ' || raw[|raw| - 1] == '\t') {
      BlankBehind(raw[..|raw| - 1], raw[|raw| - 1]);
      assert raw == raw[..|raw| - 1] + [raw[|raw| - 1]];
    }
  }

  lemma {:induction false} CleanStays(raw: string)
    requires IsCleanText(raw)
    ensures CleanLine(raw) == Line(raw)
  {
    FilterKeeps(raw, IsTextByte);
    TrimKeeps(raw, IsBlank);
  }

  lemma {:induction false} DeliveredIsClean(raw: string)
    ensures CleanLine(raw).Line? ==> IsCleanText(CleanLine(raw).text)
  {
    hide Trim, Filter;
    var kept := Filter(raw, IsTextByte);
    var text := Trim(kept, IsBlank);
    FilterComesFrom(raw, IsTextByte);
    TrimComesFrom(kept, IsBlank);
    if AllAscii(raw) {
      forall i | 0 <= i < |text| ensures text[i] == '\t' || ' ' <= text[i] < 128 as char {
        var j :| 0 <= j < |kept| && kept[j] == text[i];
        assert kept[j] in raw && IsTextByte(kept[j]);
      }
    }
  }

  lemma {:induction false} ControlIsDropped(a: string, c: char, b: string)
    requires c < ' ' && c != '\t'
    ensures CleanLine(a + [c] + b) == CleanLine(a + b)
  {
    hide Trim, Filter;
    FilterConcat(a + [c], b, IsTextByte);
    FilterConcat(a, [c], IsTextByte);
    FilterConcat(a, b, IsTextByte);
    FilterOne(c, IsTextByte);
    assert Filter(a, IsTextByte) + "" == Filter(a, IsTextByte);
    var raw := a + [c] + b;
    assert forall i :: 0 <= i < |a| ==> raw[i] == a[i] && (a + b)[i] == a[i];
    assert forall i :: 0 <= i < |b| ==> raw[|a| + 1 + i] == b[i] && (a + b)[|a| + i] == b[i];
    assert AllAscii(raw) <==> AllAscii(a + b) by { AsciiParts(a, c, b); }
  }

  lemma {:induction false} AsciiParts(a: string, c: char, b: string)
    requires IsAscii(c)
    ensures AllAscii(a + [c] + b) <==> AllAscii(a + b)
  {
    var raw, less := a + [c] + b, a + b;
    if AllAscii(raw) {
      forall i | 0 <= i < |less| ensures IsAscii(less[i]) {
        assert less[i] == if i < |a| then raw[i] else raw[i + 1];
      }
    }
    if AllAscii(less) {
      forall i | 0 <= i < |raw| ensures IsAscii(raw[i]) {
        assert raw[i] == if i < |a| then less[i] else if i == |a| then c else less[i - 1];
      }
    }
  }

  lemma {:induction false} BlankInFront(c: char, raw: string)
    requires IsBlank(c)
    ensures CleanLine([c] + raw) == CleanLine(raw)
  {
    hide Trim, Filter;
    FilterConcat([c], raw, IsTextByte);
    FilterOne(c, IsTextByte);
    assert "" + [c] + raw == [c] + raw && "" + raw == raw;
    AsciiParts("", c, raw);
    TrimSkips(c, Filter(raw, IsTextByte), IsBlank);
  }

  lemma {:induction false} BlankBehind(raw: string, c: char)
    requires IsBlank(c)
    ensures CleanLine(raw + [c]) == CleanLine(raw)
  {
    hide Trim, Filter;
    FilterConcat(raw, [c], IsTextByte);
    FilterOne(c, IsTextByte);
    assert raw + [c] + "" == raw + [c] && raw + "" == raw;
    AsciiParts(raw, c, "");
    TrimDrops(Filter(raw, IsTextByte), c, IsBlank);
  }

  // ---- The decoder with its resume index ----------------------------------

  class Buffer {
    var data: string

    constructor ()
      ensures data == ""
    {
      data := "";
    }
  }

  class RwhoisCodec {
    const maxLine: nat
    var nextIndex: nat

    /** No newline lies before the resume index. */
    ghost predicate Resumes(data: string)
      reads this
    {
      nextIndex <= |data| && forall i :: 0 <= i < nextIndex ==> data[i] != '\n'
    }

    constructor (maxLine: nat)
      ensures this.maxLine == maxLine && nextIndex == 0
    {
      this.maxLine := maxLine;
      nextIndex := 0;
    }

    /** The search for a newline starts at the resume index, and the answer is
        the one of a search from the start. */
    method Decode(src: Buffer) returns (r: Decoded)
      requires Resumes(src.data)
      modifies this, src
      ensures Resumes(src.data)
      ensures (r, src.data) == DecodeOne(maxLine, old(src.data))
    {
      var newline := nextIndex;
      while newline < |src.data| && src.data[newline] != '\n'
        invariant nextIndex <= newline <= |src.data|
        invariant forall i :: 0 <= i < newline ==> src.data[i] != '\n'
      {
        newline := newline + 1;
      }
      FindIs(src.data, '\n', 0, newline);
      if newline < |src.data| {
        if newline + 1 > maxLine {
          return Failed(LineTooLong);
        }
        var lineEnd := if newline > 0 && src.data[newline - 1] == '\r' then newline - 1 else newline;
        var raw := src.data[..newline + 1];
        assert raw[..lineEnd] == src.data[..lineEnd];
        src.data := src.data[newline + 1..];
        nextIndex := 0;
        r := Clean(raw[..lineEnd]);
      } else if |src.data| > maxLine {
        return Failed(LineTooLong);
      } else {
        nextIndex := |src.data|;
        return Pending;
      }
    }
  }

  /** The copying loop of the decoder. */
  method Clean(raw: string) returns (r: Decoded)
    ensures r == CleanLine(raw)
  {
    var out := "";
    for i := 0 to |raw|
      invariant AllAscii(raw[..i]) && out == Filter(raw[..i], IsTextByte)
    {
      if raw[i] >= 128 as char {
        return Failed(NonAscii);
      }
      CleanStep(raw, i);
      if raw[i] == '\t' || raw[i] >= ' ' {
        out := out + [raw[i]];
      }
    }
    assert raw[..|raw|] == raw;
    r := Line(Trim(out, IsBlank));
  }

  lemma {:induction false} CleanStep(raw: string, i: nat)
    requires i < |raw|
    ensures Filter(raw[..i + 1], IsTextByte)
            == Filter(raw[..i], IsTextByte) + if IsTextByte(raw[i]) then [raw[i]] else ""
  {
    assert raw[..i + 1] == raw[..i] + [raw[i]];
    FilterConcat(raw[..i], [raw[i]], IsTextByte);
    assert [raw[i]][1..] == "";
  }

  // ---- A whole inbound stream ---------------------------------------------

  /** The lines read so far, and what waits in the buffer or ended the reading. */
  datatype Progress = Waiting(lines: seq<string>, left: string) | Stopped(lines: seq<string>, error: CodecError)

  function Preceded(lines: seq<string>, p: Progress): Progress {
    if p.Waiting? then Waiting(lines + p.lines, p.left) else Stopped(lines + p.lines, p.error)
  }

  /** Decoding one buffer until it has no more lines. */
  function Drain(max: nat, buf: string): Progress
    decreases |buf|
  {
    var (r, rest) := DecodeOne(max, buf);
    match r
    case Pending => Waiting([], rest)
    case Failed(e) => Stopped([], e)
    case Line(text) => Preceded([text], Drain(max, rest))
  }

  /** Bytes arrive: they go behind what waits, and the buffer is drained. The
      first error ends the stream. */
  function Feed(max: nat, p: Progress, chunk: string): Progress {
    if p.Stopped? then p else Preceded(p.lines, Drain(max, p.left + chunk))
  }

  function FeedAll(max: nat, p: Progress, chunks: seq<string>): Progress
    decreases |chunks|
  {
    if chunks == [] then p else FeedAll(max, Feed(max, p, chunks[0]), chunks[1..])
  }

  /** Bytes behind a buffer do not change what it already decodes to. */
  lemma {:induction false} DecodeStays(max: nat, a: string, b: string)
    ensures var (r, rest) := DecodeOne(max, a);
            r != Pending ==> DecodeOne(max, a + b).0 == r
    ensures DecodeOne(max, a).0.Line? ==> DecodeOne(max, a + b).1 == DecodeOne(max, a).1 + b
  {
    var nl := Find(a, '\n', 0);
    if nl < |a| {
      FindIs(a + b, '\n', 0, nl);
      assert (a + b)[..LineEndAt(a, nl)] == a[..LineEndAt(a, nl)];
      assert (a + b)[nl + 1..] == a[nl + 1..] + b;
    } else if |a| > max {
      var far := Find(a + b, '\n', 0);
      assert forall i :: 0 <= i < |a| ==> (a + b)[i] == a[i];
    }
  }

  lemma {:induction false} PrecededTwice(a: seq<string>, b: seq<string>, p: Progress)
    ensures Preceded(a, Preceded(b, p)) == Preceded(a + b, p)
  {
    assert a + (b + p.lines) == a + b + p.lines;
  }

  lemma {:induction false} PrecededByNone(p: Progress)
    ensures Preceded([], p) == p
  {
    assert [] + p.lines == p.lines;
  }

  /** Draining a buffer and then more is draining both at once. */
  lemma {:induction false} DrainSplit(max: nat, a: string, b: string)
    ensures Drain(max, a + b) == Feed(max, Drain(max, a), b)
    decreases |a|
  {
    var (r, rest) := DecodeOne(max, a);
    DecodeStays(max, a, b);
    match r
    case Pending =>
      PrecededByNone(Drain(max, a + b));
    case Failed(e) =>
    case Line(text) =>
      DrainSplit(max, rest, b);
      var p := Drain(max, rest);
      if p.Waiting? {
        PrecededTwice([text], p.lines, Drain(max, p.left + b));
      }
  }

  lemma {:induction false} FeedTwice(max: nat, p: Progress, a: string, b: string)
    ensures Feed(max, Feed(max, p, a), b) == Feed(max, p, a + b)
  {
    if p.Waiting? {
      assert p.left + (a + b) == p.left + a + b;
      DrainSplit(max, p.left + a, b);
      var q := Drain(max, p.left + a);
      if q.Waiting? {
        PrecededTwice(p.lines, q.lines, Drain(max, q.left + b));
      }
    }
  }

  /** However a stream is cut into chunks, the decoded lines, the first error and
      the bytes left over are those of the stream in one buffer. */
  lemma {:induction false} ChunksDoNotMatter(max: nat, chunks: seq<string>)
    ensures FeedAll(max, Waiting([], ""), chunks) == Drain(max, Concat(chunks))
  {
    FeedAllIsFeed(max, Waiting([], ""), chunks);
    PrecededByNone(Drain(max, Concat(chunks)));
    assert "" + Concat(chunks) == Concat(chunks);
  }

  /** A state between chunks: what waits holds no further line. */
  ghost predicate IsSettled(max: nat, p: Progress) {
    p.Waiting? ==> Drain(max, p.left) == Waiting([], p.left)
  }

  lemma {:induction false} DrainSettles(max: nat, buf: string)
    ensures IsSettled(max, Drain(max, buf))
    decreases |buf|
  {
    var (r, rest) := DecodeOne(max, buf);
    if r.Line? {
      DrainSettles(max, rest);
    }
  }

  lemma {:induction false} FeedAllIsFeed(max: nat, p: Progress, chunks: seq<string>)
    requires IsSettled(max, p)
    ensures FeedAll(max, p, chunks) == Feed(max, p, Concat(chunks))
    decreases |chunks|
  {
    if chunks == [] {
      if p.Waiting? {
        assert p.left + "" == p.left;
        assert p.lines + [] == p.lines;
      }
    } else {
      var q := Feed(max, p, chunks[0]);
      if p.Waiting? {
        DrainSettles(max, p.left + chunks[0]);
      }
      FeedAllIsFeed(max, q, chunks[1..]);
      FeedTwice(max, p, chunks[0], Concat(chunks[1..]));
    }
  }

  /** One read of the connection: the chunk goes into the buffer, and the codec is
      called until it asks for more or fails. */
  method ReadChunk(
      codec: RwhoisCodec, src: Buffer, chunk: string)
    returns (lines: seq<string>, stop: Option<CodecError>)
    requires codec.Resumes(src.data)
    modifies codec, src
    ensures codec.Resumes(src.data)
    ensures Drain(codec.maxLine, old(src.data) + chunk)
            == if stop.None? then Waiting(lines, src.data) else Stopped(lines, stop.value)
  {
    src.data := src.data + chunk;
    ghost var whole := Drain(codec.maxLine, src.data);
    lines := [];
    PrecededByNone(whole);
    while true
      invariant codec.Resumes(src.data)
      invariant whole == Preceded(lines, Drain(codec.maxLine, src.data))
      decreases |src.data|
    {
      ghost var rest := DecodeOne(codec.maxLine, src.data).1;
      var r := codec.Decode(src);
      match r
      case Pending =>
        assert lines + [] == lines;
        return lines, None;
      case Failed(e) =>
        assert lines + [] == lines;
        return lines, Some(e);
      case Line(text) =>
        PrecededTwice(lines, [text], Drain(codec.maxLine, rest));
        lines := lines + [text];
    }
  }

  lemma {:induction false} StoppedStays(max: nat, p: Progress, chunks: seq<string>)
    requires p.Stopped?
    ensures FeedAll(max, p, chunks) == p
    decreases |chunks|
  {
    if chunks != [] {
      StoppedStays(max, p, chunks[1..]);
    }
  }

  lemma {:induction false} FeedNext(max: nat, p: Progress, chunks: seq<string>, i: nat)
    requires i < |chunks|
    ensures FeedAll(max, p, chunks[i..]) == FeedAll(max, Feed(max, p, chunks[i]), chunks[i + 1..])
  {
    assert chunks[i..][0] == chunks[i] && chunks[i..][1..] == chunks[i + 1..];
  }

  /** A whole stream, read chunk by chunk into one buffer with one codec until it ends
      or fails: the lines, the error and the rest are those of the stream in one
      piece. */
  method ReadStream(maxLine: nat, chunks: seq<string>)
    returns (lines: seq<string>, left: string, stop: Option<CodecError>)
    ensures Drain(maxLine, Concat(chunks)) == if stop.None? then Waiting(lines, left) else Stopped(lines, stop.value)
  {
    var codec := new RwhoisCodec(maxLine);
    var src := new Buffer();
    lines, left, stop := [], "", None;
    ghost var whole := FeedAll(maxLine, Waiting([], ""), chunks);
    ChunksDoNotMatter(maxLine, chunks);
    assert chunks[0..] == chunks;
    for i := 0 to |chunks|
      invariant fresh(codec) && fresh(src) && codec.maxLine == maxLine && codec.Resumes(src.data)
      invariant stop.None? && FeedAll(maxLine, Waiting(lines, src.data), chunks[i..]) == whole
    {
      FeedNext(maxLine, Waiting(lines, src.data), chunks, i);
      var more;
      more, stop := ReadChunk(codec, src, chunks[i]);
      lines := lines + more;
      if stop.Some? {
        StoppedStays(maxLine, Stopped(lines, stop.value), chunks[i + 1..]);
        return;
      }
    }
    left := src.data;
    assert chunks[|chunks|..] == [];
  }

  // ---- The encoder --------------------------------------------------------

  datatype Encoded = Done | Refused(error: CodecError)

  predicate HasNewline(item: string) {
    exists i :: 0 <= i < |item| && (item[i] == '\r' || item[i] == '\n')
  }

  function EncodeError(max: nat, item: string): Option<CodecError> {
    if |item| + |CRLF| > max then Some(LineTooLong)
    else if HasNewline(item) then Some(EmbeddedNewline)
    else None
  }

  method Encode(max: nat, item: string, dst: Buffer) returns (r: Encoded)
    modifies dst
    ensures match EncodeError(max, item)
            case Some(e) => r == Refused(e) && dst.data == old(dst.data)
            case None => r == Done && dst.data == old(dst.data) + item + CRLF
  {
    if |item| + |CRLF| > max {
      return Refused(LineTooLong);
    }
    if exists i :: 0 <= i < |item| && (item[i] == '\r' || item[i] == '\n') {
      return Refused(EmbeddedNewline);
    }
    dst.data := dst.data + item;
    dst.data := dst.data + CRLF;
    return Done;
  }

  /** What survives the decoder unchanged. */
  predicate IsWireLine(item: string) {
    && (forall i :: 0 <= i < |item| ==> IsAscii(item[i]) && IsTextByte(item[i]))
    && (item != "" ==> !IsBlank(item[0]) && !IsBlank(item[|item| - 1]))
  }

  lemma {:induction false} EncodedDecodes(max: nat, item: string, tail: string)
    requires EncodeError(max, item).None?
    ensures DecodeOne(max, item + CRLF + tail) == (CleanLine(item), tail)
  {
    var buf := item + CRLF + tail;
    assert forall i :: 0 <= i < |item| ==> buf[i] == item[i];
    assert buf[|item|] == '\r' && buf[|item| + 1] == '\n';
    FindIs(buf, '\n', 0, |item| + 1);
    assert buf[..|item|] == item && buf[|item| + 2..] == tail;
  }

  /** An encoded line decodes to itself exactly when it is ASCII text that neither
      starts nor ends with a blank. */
  lemma {:induction false} RoundTripExactly(max: nat, item: string, tail: string)
    requires EncodeError(max, item).None?
    ensures DecodeOne(max, item + CRLF + tail) == (Line(item), tail) <==> IsWireLine(item)
  {
    EncodedDecodes(max, item, tail);
    if IsWireLine(item) {
      FilterKeeps(item, IsTextByte);
      TrimKeeps(item, IsBlank);
    }
    if CleanLine(item) == Line(item) {
      KeptIsWireLine(item);
    }
  }

  lemma {:induction false} KeptIsWireLine(item: string)
    requires CleanLine(item) == Line(item)
    ensures IsWireLine(item)
  {
    TrimShrinks(Filter(item, IsTextByte), IsBlank);
    assert Filter(item, IsTextByte) == item;
  }

  lemma {:induction false} TrimShrinks(s: string, p: char -> bool)
    ensures |Trim(s, p)| == |s| ==> Trim(s, p) == s
  {
  }

  function EncodeAll(items: seq<string>): string {
    if items == [] then "" else items[0] + CRLF + EncodeAll(items[1..])
  }

  /** Any number of encoded lines, in whatever chunks they arrive, come back in
      order, with nothing left over. */
  lemma {:induction false} StreamRoundTrip(max: nat, items: seq<string>, chunks: seq<string>)
    requires forall i :: 0 <= i < |items| ==> EncodeError(max, items[i]).None? && IsWireLine(items[i])
    requires Concat(chunks) == EncodeAll(items)
    ensures FeedAll(max, Waiting([], ""), chunks) == Waiting(items, "")
  {
    ChunksDoNotMatter(max, chunks);
    DrainEncoded(max, items);
  }

  lemma {:induction false} DrainEncoded(max: nat, items: seq<string>)
    requires forall i :: 0 <= i < |items| ==> EncodeError(max, items[i]).None? && IsWireLine(items[i])
    ensures Drain(max, EncodeAll(items)) == Waiting(items, "")
    decreases |items|
  {
    if items == [] {
      FindIs("", '\n', 0, 0);
    } else {
      RoundTripExactly(max, items[0], EncodeAll(items[1..]));
      DrainEncoded(max, items[1..]);
      assert [items[0]] + items[1..] == items;
    }
  }
}
