/** How a connection answers: one terminator for each directive and query, and no
    request after a query that is not held (src/server.rs). */
module ConnectionAnswers {
  import opened Text
  import opened Numerals
  import opened Requests
  import opened Exchange
  import opened ConnectionRuns
  import opened R = Response
  import opened RT = ResponseRoundTrip
  import B = Banner

  /** A client takes the line as the end of a response. */
  predicate IsTerminator(c: Call) {
    var r := ParseLine(LineOf(c));
    r.Ok? || r.Error?
  }

  function Terminators(lines: seq<Call>): nat {
    if lines == [] then 0 else (if IsTerminator(lines[0]) then 1 else 0) + Terminators(lines[1..])
  }

  ghost predicate NoTerminators(lines: seq<Call>) {
    forall i :: 0 <= i < |lines| ==> !IsTerminator(lines[i])
  }

  lemma {:induction false} TerminatorsSum(a: seq<Call>, b: seq<Call>)
    ensures Terminators(a + b) == Terminators(a) + Terminators(b)
    decreases |a|
  {
    if a == [] {
      assert a + b == b;
    } else {
      RestOfSum(a, b);
      TerminatorsSum(a[1..], b);
    }
  }

  lemma {:induction false} NoneToCount(lines: seq<Call>)
    requires NoTerminators(lines)
    ensures Terminators(lines) == 0
    decreases |lines|
  {
    if lines != [] {
      NoneToCount(lines[1..]);
    }
  }

  lemma {:induction false} OneToCount(lines: seq<Call>, c: Call)
    requires NoTerminators(lines) && IsTerminator(c)
    ensures Terminators(lines + [c]) == 1
  {
    TerminatorsSum(lines, [c]);
    NoneToCount(lines);
    assert [c][1..] == [];
  }

  // ---- Which lines are terminators ----------------------------------------

  lemma {:induction false} TaggedIsNone(tag: Tag, body: string)
    requires body == "" || body[0] != ' '
    ensures !IsTerminator(TaggedLine(tag, body))
  {
    TokenShape(tag);
    TaggedReads(Token(tag), body);
  }

  lemma {:induction false} EndIsNone(tag: Tag)
    ensures !IsTerminator(EndBlock(tag))
  {
    TokenShape(tag);
    TaggedReads(Token(tag), "");
  }

  lemma {:induction false} NotATerminator(token: string, body: string)
    requires token != "%ok" && token != "%error"
    ensures !ParseTagged(token, body).Ok? && !ParseTagged(token, body).Error?
  {
  }

  /** A line that starts with a token and a space. */
  lemma {:induction false} TokenAndRest(token: string, rest: string)
    requires token != "" && token[0] == '%' && Lacks(token, ' ') && token != "%ok" && token != "%error"
    ensures var line := token + ([' '] + rest); !ParseLine(line).Ok? && !ParseLine(line).Error?
  {
    var line := token + ([' '] + rest);
    FindIs(line, ' ', 0, |token|);
    assert line[0] == '%' && line[..|token|] == token;
    NotATerminator(token, TrimStart(line[|token| + 1..], IsSpaceChar));
  }

  lemma {:induction false} BannerIsNone(b: B.Banner)
    ensures !IsTerminator(RawLine(B.ToLine(b)))
  {
    TokenShape(RwhoisTag);
    var rest := JoinWith(B.VersionTexts(b.versions), ',') + ([' '] + B.HostText(b));
    assert "%rwhois " == "%rwhois" + [' '];
    SumOfSums("%rwhois", [' '], rest);
    TokenAndRest("%rwhois", rest);
  }

  lemma {:induction false} ErrorLineIsOne(body: string)
    requires IsBody(body)
    ensures ParseLine(TaggedText("%error", body)).Error?
  {
    ErrorIsTagged(body);
  }

  lemma {:induction false} ErrorIsOne(code: nat, message: string, extra: Option<string>)
    ensures IsTerminator(WriteError(code, message, extra))
  {
    hide ErrorBody, ParseLine, TaggedText;
    ErrorBodyStarts(code, message, extra);
    ErrorLineIsOne(ErrorBody(code, message, extra));
  }

  lemma {:induction false} FailureIsOne(failure: Failure)
    ensures IsTerminator(FailureLine(failure))
  {
    match failure
    case Protocol(code, message, extra) => ErrorIsOne(code, message, Some(extra));
    case Other => ErrorIsOne(402, "Unidentified Error", None);
  }

  // ---- One request --------------------------------------------------------

  /** The handlers write no terminators of their own. */
  ghost predicate WritesNone(h: Handlers) {
    NoTerminators(h.first.lines) && NoTerminators(h.second.lines)
  }

  lemma {:induction false} NoneMore(lines: seq<Call>, c: Call)
    requires NoTerminators(lines) && !IsTerminator(c)
    ensures NoTerminators(lines + [c])
  {
  }

  lemma {:induction false} NonesSum(a: seq<Call>, b: seq<Call>)
    requires NoTerminators(a) && NoTerminators(b)
    ensures NoTerminators(a + b)
  {
  }

  lemma {:induction false} DirectiveLinesHaveNone(registry: seq<Builtin>)
    ensures NoTerminators(DirectiveLines(registry))
    decreases |registry|
  {
    if registry == [] {
      EndIsNone(DirectiveTag);
    } else {
      TaggedIsNone(DirectiveTag, "Directive:" + NameOf(registry[0]));
      TaggedIsNone(DirectiveTag, "Description:" + Description(registry[0]));
      DirectiveLinesHaveNone(registry[1..]);
      NonesSum([TaggedLine(DirectiveTag, "Directive:" + NameOf(registry[0])),
                TaggedLine(DirectiveTag, "Description:" + Description(registry[0]))], DirectiveLines(registry[1..]));
    }
  }

  lemma {:induction false} StatusIsNone(key: string, value: string)
    requires key != "" && key[0] != ' '
    ensures !IsTerminator(TaggedLine(StatusTag, key + value))
  {
    assert (key + value)[0] == key[0];
    TaggedIsNone(StatusTag, key + value);
  }

  lemma {:induction false} SixHaveNone(a: Call, b: Call, c: Call, d: Call, e: Call, f: Call)
    requires !IsTerminator(a) && !IsTerminator(b) && !IsTerminator(c)
    requires !IsTerminator(d) && !IsTerminator(e) && !IsTerminator(f)
    ensures NoTerminators([a, b, c, d, e, f])
  {
    hide IsTerminator;
  }

  lemma {:induction false} StatusLinesHaveNone(s: Session)
    ensures NoTerminators(StatusLines(s))
  {
    var lines := StatusLines(s);
    StatusIsNone("limit:", Decimal(s.hitLimit));
    StatusIsNone("hold:", OnOff(s.holdConnect));
    StatusIsNone("forward:", OnOff(s.forward));
    StatusIsNone("display:", s.display);
    StatusIsNone("contact:", if s.vendor.Some? then s.vendor.value else "");
    EndIsNone(StatusTag);
    SixHaveNone(lines[0], lines[1], lines[2], lines[3], lines[4], lines[5]);
  }

  lemma {:induction false} DisplayLinesHaveNone(s: Session, args: string)
    ensures NoTerminators(Display(s, args).lines)
  {
    TaggedIsNone(DisplayTag, "name:" + s.display);
    EndIsNone(DisplayTag);
  }

  lemma {:induction false} ProvidedLinesHaveNone(
      s: Session, given: bool, name: string, tag: Tag, asked: seq<string>, reply: Reply)
    requires NoTerminators(reply.lines)
    ensures NoTerminators(Provided(s, given, name, tag, asked, reply).lines)
  {
    EndIsNone(tag);
    NoneMore(reply.lines, EndBlock(tag));
  }

  lemma {:induction false} SettingLinesHaveNone(s: Session, args: string)
    ensures HoldConnect(s, args).lines == [] && Forward(s, args).lines == [] && Limit(s, args).lines == []
  {
  }

  lemma {:induction false} RegisterLinesHaveNone(ctx: Context, s: Session, args: string, h: Handlers)
    requires WritesNone(h)
    ensures NoTerminators(Register(ctx, s, args, h).lines)
  {
  }

  lemma {:induction false} BuiltinLinesHaveNone(ctx: Context, s: Session, d: Builtin, args: string, h: Handlers)
    requires WritesNone(h)
    ensures NoTerminators(RunBuiltin(ctx, s, d, args, h).lines)
  {
    match d
    case StatusDir => StatusLinesHaveNone(s);
    case DisplayDir => DisplayLinesHaveNone(s, args);
    case RwhoisDir => BannerIsNone(ctx.banner);
    case DirectiveDir => DirectiveLinesHaveNone(BUILTINS);
    case ClassDir => ProvidedLinesHaveNone(s, ctx.class_, "class", ClassTag, AreaAndClasses(args), h.first);
    case SchemaDir => ProvidedLinesHaveNone(s, ctx.schema, "schema", SchemaTag, AreaAndClasses(args), h.first);
    case SoaDir => ProvidedLinesHaveNone(s, ctx.soa, "soa", SoaTag, Words(args), h.first);
    case XferDir => ProvidedLinesHaveNone(s, ctx.xfer, "xfer", XferTag, [args], h.first);
    case RegisterDir => RegisterLinesHaveNone(ctx, s, args, h);
    case _ => SettingLinesHaveNone(s, args);
  }

  /** An answer has a terminator exactly when the outcome is not silent. */
  lemma {:induction false} AnswerTerminates(e: Effect)
    requires NoTerminators(e.lines)
    ensures Terminators(Answer(e)) == if e.result == Done(SilentOutcome) then 0 else 1
  {
    match e.result
    case Done(SilentOutcome) => NoneToCount(e.lines);
    case Failed(failure) =>
      FailureIsOne(failure);
      OneToCount(e.lines, FailureLine(failure));
    case Done(_) =>
      OkReads();
      OneToCount(e.lines, WriteOk);
  }

  /** The terminators due to a request: none for a blank line and for a spooled
      line the register handler took, one for everything else. */
  function Due(req: Request, calls: seq<HandlerCall>): nat {
    match req
    case Empty => 0
    case Directive(_, _) => 1
    case QueryLine(_) => 1
    case SpoolLine(line) => if calls == [AcceptLine(line, true)] then 0 else 1
  }

  lemma {:induction false} BuiltinIsNotSilent(ctx: Context, s: Session, d: Builtin, args: string, h: Handlers)
    ensures RunBuiltin(ctx, s, d, args, h).result != Done(SilentOutcome)
  {
  }

  lemma {:induction false} DirectiveAnswers(ctx: Context, s: Session, name: string, args: string, h: Handlers)
    requires WritesNone(h)
    ensures Terminators(Answer(RunDirective(ctx, s, name, args, h))) == 1
  {
    var d := Lookup(name, BUILTINS);
    if d.Some? {
      BuiltinLinesHaveNone(ctx, s, d.value, args, h);
      BuiltinIsNotSilent(ctx, s, d.value, args, h);
    }
    AnswerTerminates(RunDirective(ctx, s, name, args, h));
  }

  lemma {:induction false} QueryAnswers(ctx: Context, s: Session, line: string, h: Handlers)
    requires WritesNone(h)
    ensures Terminators(Answer(RunQuery(ctx, s, line, h))) == 1
  {
    NonesSum(h.first.lines, h.second.lines);
    AnswerTerminates(RunQuery(ctx, s, line, h));
  }

  lemma {:induction false} DispatchAnswers(ctx: Context, s: Session, req: Request, h: Handlers)
    requires WritesNone(h)
    ensures var e := Dispatch(ctx, s, req, h); Terminators(Answer(e)) == Due(req, e.calls)
  {
    match req
    case Empty => AnswerTerminates(Dispatch(ctx, s, req, h));
    case Directive(name, args) => DirectiveAnswers(ctx, s, name, args, h);
    case QueryLine(line) => QueryAnswers(ctx, s, line, h);
    case SpoolLine(line) => AnswerTerminates(RunSpool(ctx, s, line, h));
  }

  // ---- Every run ----------------------------------------------------------

  ghost predicate AllWriteNone(events: seq<Event>) {
    forall i :: 0 <= i < |events| && events[i].LineRead? ==> WritesNone(events[i].handlers)
  }

  /** The terminators due to the requests whose answers were sent. */
  function TotalDue(turns: seq<Turn>): nat {
    if turns == [] then 0
    else
      var n := |turns| - 1;
      TotalDue(turns[..n]) + if turns[n].sent then Due(turns[n].request, turns[n].calls) else 0
  }

  ghost predicate IsAnswered(c: Connection) {
    && (forall i :: 0 <= i < |c.turns| ==> Terminators(c.turns[i].answer) == Due(c.turns[i].request, c.turns[i].calls))
    && (forall i :: 0 <= i < |c.turns| && (c.open || i < |c.turns| - 1) ==> c.turns[i].sent)
    && Terminators(c.sent) == TotalDue(c.turns) + (if c.timeoutSent then 1 else 0)
    && (c.open ==> !c.timeoutSent)
  }

  lemma {:induction false} OneMoreTurn(turns: seq<Turn>, t: Turn)
    ensures TotalDue(turns + [t]) == TotalDue(turns) + if t.sent then Due(t.request, t.calls) else 0
  {
    assert (turns + [t])[..|turns|] == turns;
  }

  lemma {:induction false} TakeAnswers(ctx: Context, c: Connection, text: string, h: Handlers, sent: bool)
    requires IsAnswered(c) && c.open && WritesNone(h)
    ensures IsAnswered(TakeLine(ctx, c, text, h, sent))
  {
    hide Dispatch, Classify, Answer, Terminators, Due;
    var req := Classify(text, c.session.state == SpoolState);
    var e := Dispatch(ctx, c.session, req, h);
    DispatchAnswers(ctx, c.session, req, h);
    TerminatorsSum(c.sent, Answer(e));
    assert c.sent + [] == c.sent;
    OneMoreTurn(c.turns, Turn(req, Answer(e), IsDelivered(e, sent), e.calls, e.session.holdConnect));
  }

  lemma {:induction false} TimeoutAnswers(ctx: Context, c: Connection, sent: bool)
    requires IsAnswered(c) && c.open
    ensures IsAnswered(Take(ctx, c, TimedOut(sent)))
  {
    assert c.sent + [] == c.sent;
    ErrorIsOne(503, "Idle Time Exceeded", None);
    TerminatorsSum(c.sent, [IDLE_ERROR]);
    OneToCount([], IDLE_ERROR);
    assert [] + [IDLE_ERROR] == [IDLE_ERROR];
  }

  lemma {:induction false} StartAnswers(ctx: Context)
    ensures IsAnswered(Start(ctx))
  {
    BannerIsNone(ctx.banner);
    NoneToCount([RawLine(B.ToLine(ctx.banner))]);
  }

  /** In every run each directive and each query gets exactly one terminator, blank
      lines and accepted spool lines get none, and beyond these only a timeout
      writes one. Only the last answer can fail to be sent. */
  lemma {:induction false} EveryRequestIsAnswered(ctx: Context, events: seq<Event>)
    requires AllWriteNone(events)
    ensures IsAnswered(After(ctx, events))
  {
    if events == [] {
      StartAnswers(ctx);
    } else {
      var n := |events| - 1;
      EveryRequestIsAnswered(ctx, events[..n]);
      var c := After(ctx, events[..n]);
      if c.open {
        match events[n]
        case LineRead(text, h, sent) => TakeAnswers(ctx, c, text, h, sent);
        case TimedOut(sent) => TimeoutAnswers(ctx, c, sent);
        case Ended =>
        case ReadFailed =>
      }
    }
  }

  /** A query that is not held, or a quit, has no request behind it. */
  ghost predicate EndsInTime(c: Connection) {
    forall i :: 0 <= i < |c.turns| && (c.open || i < |c.turns| - 1) ==>
      && (c.turns[i].request.QueryLine? ==> c.turns[i].holdConnect)
      && !(c.turns[i].request.Directive? && c.turns[i].request.name == "quit")
  }

  lemma {:induction false} QueryKeepsState(ctx: Context, s: Session, line: string, h: Handlers)
    ensures RunQuery(ctx, s, line, h).session == s
  {
  }

  lemma {:induction false} QuitQuits(ctx: Context, s: Session, name: string, args: string, h: Handlers)
    requires Lookup(name, BUILTINS) == Some(QuitDir)
    ensures RunDirective(ctx, s, name, args, h).result == Done(QuitOutcome)
  {
  }

  lemma {:induction false} QuitIsRegistered()
    ensures Lookup("quit", BUILTINS) == Some(QuitDir)
  {
    LookupFinds("quit", BUILTINS, 7);
  }

  lemma {:induction false} TakeEndsInTime(ctx: Context, c: Connection, text: string, h: Handlers, sent: bool)
    requires EndsInTime(c) && c.open
    ensures EndsInTime(TakeLine(ctx, c, text, h, sent))
  {
    var req := Classify(text, c.session.state == SpoolState);
    if req.QueryLine? {
      QueryKeepsState(ctx, c.session, req.line, h);
    } else if req.Directive? && req.name == "quit" {
      QuitIsRegistered();
      QuitQuits(ctx, c.session, req.name, req.args, h);
    }
  }

  /** In every run a query handled with hold-connect off, and a `-quit`, is the
      last request. */
  lemma {:induction false} UnheldQueryIsLast(ctx: Context, events: seq<Event>)
    ensures EndsInTime(After(ctx, events))
  {
    if events != [] {
      var n := |events| - 1;
      UnheldQueryIsLast(ctx, events[..n]);
      var c := After(ctx, events[..n]);
      if c.open && events[n].LineRead? {
        TakeEndsInTime(ctx, c, events[n].text, events[n].handlers, events[n].sent);
      }
    }
  }
}
