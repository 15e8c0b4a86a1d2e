/** A connection from the bytes that arrive to the bytes that are sent: the line
    decoder and the connection loop together (src/codec.rs, src/server.rs). */
module ConnectionStream {
  import opened Text
  import opened ConnectionRuns
  import opened ConnectionServer
  import opened R = Response
  import opened RT = ResponseRoundTrip
  import C = Codec
  import E = Exchange
  import B = Banner

  /** What comes after the bytes: the end of the stream, a timeout (with whether its
      notice can be sent), or a read error. */
  datatype StreamEnd = Eof | Timeout(sent: bool) | Broken

  /** What the handlers do with a line, and whether the answer can be sent. */
  datatype Reaction = Reaction(handlers: E.Handlers, sent: bool)

  function LineEvents(lines: seq<string>, reactions: nat -> Reaction): (events: seq<Event>)
    ensures |events| == |lines|
  {
    seq(|lines|, i requires 0 <= i < |lines| => LineRead(lines[i], reactions(i).handlers, reactions(i).sent))
  }

  function EndEvent(end: StreamEnd): Event {
    match end
    case Eof => Ended
    case Timeout(sent) => TimedOut(sent)
    case Broken => ReadFailed
  }

  /** What happens to a connection on which these bytes arrive, all told. */
  function StreamEvents(p: C.Progress, end: StreamEnd, reactions: nat -> Reaction): seq<Event> {
    LineEvents(p.lines, reactions) + [if p.Stopped? then ReadFailed else EndEvent(end)]
  }

  lemma {:induction false} AfterMore(ctx: E.Context, events: seq<Event>, event: Event)
    ensures After(ctx, events + [event]) == Take(ctx, After(ctx, events), event)
  {
    assert (events + [event])[..|events|] == events;
  }

  /** Nothing happens to a connection that is closed. */
  lemma {:induction false} ClosedStays(ctx: E.Context, events: seq<Event>, more: seq<Event>)
    requires !After(ctx, events).open
    ensures After(ctx, events + more) == After(ctx, events)
    decreases |more|
  {
    if more == [] {
      assert events + more == events;
    } else {
      var n := |more| - 1;
      ClosedStays(ctx, events, more[..n]);
      AfterMore(ctx, events + more[..n], more[n]);
      assert events + more == events + more[..n] + [more[n]];
    }
  }

  lemma {:induction false} LineEventsMore(lines: seq<string>, text: string, reactions: nat -> Reaction)
    ensures LineEvents(lines + [text], reactions)
            == LineEvents(lines, reactions)
               + [LineRead(text, reactions(|lines|).handlers, reactions(|lines|).sent)]
  {
  }

  lemma {:induction false} AfterNothing(ctx: E.Context, reactions: nat -> Reaction)
    ensures After(ctx, LineEvents([], reactions)) == Start(ctx)
  {
  }

  /** A connection closed by one of its lines is not touched by what follows. */
  lemma {:induction false} ClosedEarly(
      ctx: E.Context, lines: seq<string>, p: C.Progress, end: StreamEnd, reactions: nat -> Reaction)
    requires lines <= p.lines && !After(ctx, LineEvents(lines, reactions)).open
    ensures After(ctx, StreamEvents(p, end, reactions)) == After(ctx, LineEvents(lines, reactions))
  {
    var all := StreamEvents(p, end, reactions);
    var first := LineEvents(lines, reactions);
    assert all == first + all[|lines|..];
    ClosedStays(ctx, first, all[|lines|..]);
  }

  /** The state of the loop between two calls of the decoder. */
  ghost predicate IsDecoding(max: nat, whole: C.Progress, lines: seq<string>, data: string, ahead: seq<string>) {
    whole == C.Preceded(lines, C.Drain(max, data + Concat(ahead)))
  }

  lemma {:induction false} DecodingLine(
      max: nat, whole: C.Progress, lines: seq<string>, data: string, ahead: seq<string>, text: string, rest: string)
    requires IsDecoding(max, whole, lines, data, ahead) && C.DecodeOne(max, data) == (C.Line(text), rest)
    ensures IsDecoding(max, whole, lines + [text], rest, ahead) && lines + [text] <= whole.lines
  {
    hide C.DecodeOne, Concat;
    var more := Concat(ahead);
    C.DecodeStays(max, data, more);
    C.PrecededTwice(lines, [text], C.Drain(max, rest + more));
  }

  lemma {:induction false} DecodingFails(
      max: nat, whole: C.Progress, lines: seq<string>, data: string, ahead: seq<string>, e: C.CodecError)
    requires IsDecoding(max, whole, lines, data, ahead) && C.DecodeOne(max, data).0 == C.Failed(e)
    ensures whole == C.Stopped(lines, e)
  {
    hide C.DecodeOne, Concat;
    C.DecodeStays(max, data, Concat(ahead));
    assert lines + [] == lines;
  }

  lemma {:induction false} DecodingMore(
      max: nat, whole: C.Progress, lines: seq<string>, data: string, chunks: seq<string>, i: nat)
    requires i < |chunks| && IsDecoding(max, whole, lines, data, chunks[i..])
    ensures IsDecoding(max, whole, lines, data + chunks[i], chunks[i + 1..])
  {
    hide C.Drain;
    assert chunks[i..][0] == chunks[i] && chunks[i..][1..] == chunks[i + 1..];
    SumOfSums(data, chunks[i], Concat(chunks[i + 1..]));
  }

  lemma {:induction false} DecodingStarts(max: nat, chunks: seq<string>)
    ensures IsDecoding(max, C.Drain(max, Concat(chunks)), [], "", chunks[0..])
  {
    hide C.Drain;
    assert chunks[0..] == chunks && "" + Concat(chunks) == Concat(chunks);
    C.PrecededByNone(C.Drain(max, Concat(chunks)));
  }

  lemma {:induction false} PendingKeeps(max: nat, data: string)
    requires C.DecodeOne(max, data).0 == C.Pending
    ensures C.DecodeOne(max, data).1 == data
  {
  }

  lemma {:induction false} EndCloses(ctx: E.Context, c: Connection, end: StreamEnd)
    ensures !Take(ctx, c, EndEvent(end)).open && !Take(ctx, c, ReadFailed).open
  {
  }

  lemma {:induction false} DecodingEnds(
      max: nat, whole: C.Progress, lines: seq<string>, data: string, ahead: seq<string>)
    requires ahead == [] && IsDecoding(max, whole, lines, data, ahead) && C.DecodeOne(max, data).0 == C.Pending
    ensures whole.Waiting? && whole.lines == lines
  {
    hide C.DecodeOne;
    assert data + "" == data && lines + [] == lines;
  }

  /** A whole connection over chunks of bytes, with one decoder and one buffer. The
      bytes sent and the handler calls made are those of the run over the lines of
      the bytes in one piece: they do not depend on how the bytes are cut. */
  method ServeStream(
      ctx: E.Context, maxLine: nat, greeted: bool, chunks: seq<string>, end: StreamEnd, reactions: nat -> Reaction)
    returns (wire: string, calls: seq<E.HandlerCall>)
    ensures var c := Accepted(ctx, greeted, StreamEvents(C.Drain(maxLine, Concat(chunks)), end, reactions));
            !c.open && wire == Rendered(c.sent) && calls == c.calls
  {
    hide C.Drain, C.DecodeOne, Take, After, Rendered, IsDecoding, EndEvent, LineEvents;
    var s := new LiveSession();
    var out := new ResponseWriter();
    Emit(out, [RawLine(B.ToLine(ctx.banner))]);
    if !greeted {
      NothingRendered("");
      return "", [];
    }
    wire, calls := out.buf, [];
    assert wire == "" + Rendered(Start(ctx).sent) == Rendered(Start(ctx).sent);
    var codec := new C.RwhoisCodec(maxLine);
    var src := new C.Buffer();
    var open, i, n := true, 0, 0;
    ghost var lines, whole := [], C.Drain(maxLine, Concat(chunks));
    DecodingStarts(maxLine, chunks);
    AfterNothing(ctx, reactions);
    while true
      invariant fresh(s) && fresh(codec) && fresh(src) && codec.maxLine == maxLine && codec.Resumes(src.data)
      invariant i <= |chunks| && n == |lines| && IsDecoding(maxLine, whole, lines, src.data, chunks[i..])
      invariant var c := After(ctx, LineEvents(lines, reactions));
                c.open && s.Value() == c.session && wire == Rendered(c.sent) && calls == c.calls
      decreases |chunks| - i, |src.data|
    {
      ghost var c, data := After(ctx, LineEvents(lines, reactions)), src.data;
      var r := codec.Decode(src);
      var bytes, made;
      match r {
        case Line(text) =>
          DecodingLine(maxLine, whole, lines, data, chunks[i..], text, src.data);
          var event := LineRead(text, reactions(n).handlers, reactions(n).sent);
          LineEventsMore(lines, text, reactions);
          AfterMore(ctx, LineEvents(lines, reactions), event);
          bytes, made, open := TakeEvent(ctx, s, event, c);
          wire, calls, lines, n := wire + bytes, calls + made, lines + [text], n + 1;
          if !open {
            ClosedEarly(ctx, lines, whole, end, reactions);
            return;
          }
        case Pending =>
          PendingKeeps(maxLine, data);
          if i < |chunks| {
            DecodingMore(maxLine, whole, lines, data, chunks, i);
            src.data := src.data + chunks[i];
            i := i + 1;
          } else {
            DecodingEnds(maxLine, whole, lines, data, chunks[i..]);
            EndCloses(ctx, c, end);
            AfterMore(ctx, LineEvents(lines, reactions), EndEvent(end));
            bytes, made, open := TakeEvent(ctx, s, EndEvent(end), c);
            wire, calls := wire + bytes, calls + made;
            return;
          }
        case Failed(e) =>
          EndCloses(ctx, c, end);
          DecodingFails(maxLine, whole, lines, data, chunks[i..], e);
          AfterMore(ctx, LineEvents(lines, reactions), ReadFailed);
          bytes, made, open := TakeEvent(ctx, s, ReadFailed, c);
          wire, calls := wire + bytes, calls + made;
          return;
      }
    }
  }
}
