/** The order of things in a connection: requests are the lines read, handlers are
    called and answers sent in that order, and each query and each spooled line
    reaches its handler as it was written (src/server.rs). */
module ConnectionTrace {
  import opened Text
  import opened CStrings
  import opened QueryAst
  import opened QueryGrammar
  import opened Requests
  import opened Exchange
  import opened ConnectionRuns
  import opened R = Response
  import B = Banner

  function AllCalls(turns: seq<Turn>): seq<HandlerCall> {
    if turns == [] then [] else AllCalls(turns[..|turns| - 1]) + turns[|turns| - 1].calls
  }

  /** The answers that were sent. */
  function AllSent(turns: seq<Turn>): seq<Call> {
    if turns == [] then []
    else
      var last := turns[|turns| - 1];
      AllSent(turns[..|turns| - 1]) + if last.sent then last.answer else []
  }

  function Terminator(failure: Option<Failure>): Call {
    match failure
    case None => WriteOk
    case Some(Protocol(code, message, extra)) => WriteError(code, message, Some(extra))
    case Some(Other) => WriteError(402, "Unidentified Error", None)
  }

  /** A query: the handler gets the tree the line parses to and the line itself, and
      then, if it did not fail, the referral handler is asked. What the two wrote is
      sent in this order. A line that does not parse reaches no handler. */
  ghost predicate IsQueried(ctx: Context, line: string, h: Handlers, t: Turn) {
    var parsed := ParseQuery(line);
    if !ctx.query then
      t.calls == [] && t.answer == [WriteError(501, "Service Not Available", Some("no query handler"))]
    else if parsed.Bad? then
      t.calls == [] && |t.answer| == 1 && t.answer[0].WriteError? && t.answer[0].code == 350
    else
      var asked := ctx.referral && h.first.failure.None?;
      && t.calls == [HandleQuery(Query(None, parsed.expr, line))] + (if asked then [ListReferrals] else [])
      && t.answer == h.first.lines + (if asked then h.second.lines else [])
                     + [Terminator(if asked then h.second.failure else h.first.failure)]
  }

  /** A line during a registration: the register handler gets it as it stands, and
      nothing is answered unless it fails. */
  ghost predicate IsSpooled(ctx: Context, line: string, h: Handlers, t: Turn) {
    ctx.register ==>
      && t.calls == [AcceptLine(line, h.first.failure.None?)]
      && t.answer == if h.first.failure.None? then [] else [Terminator(h.first.failure)]
  }

  /** A block that a provider writes: the provider is asked for what the arguments name,
      and its lines are sent with the end of the block behind them, unless it fails. */
  ghost predicate IsProvided(given: bool, name: string, tag: Tag, asked: seq<string>, h: Handlers, t: Turn) {
    if !given then t.calls == [] && t.answer == [WriteError(400, "Directive Not Available", Some(name))]
    else
      && t.calls == [Provide(tag, asked)]
      && t.answer == h.first.lines + (if h.first.failure.None? then [EndBlock(tag)] else [])
                     + [Terminator(h.first.failure)]
  }

  /** The registration: `on` with an action and an email begins one, `off` finishes it. */
  ghost predicate IsRegistered(ctx: Context, args: string, h: Handlers, t: Turn) {
    var words := Words(args);
    if !ctx.register then
      t.calls == [] && t.answer == [WriteError(420, "Registration Not Authorized", Some("register"))]
    else if |words| >= 3 && HasSameLetters(words[0], "on") then
      && t.calls == [Begin(words[1], words[2], JoinWith(words[3..], ' '), h.first.failure.None?)]
      && t.answer == [Terminator(h.first.failure)]
    else if |words| >= 1 && HasSameLetters(words[0], "off") then
      && t.calls == [Finish(h.first.failure.None?)]
      && t.answer == h.first.lines + [Terminator(h.first.failure)]
    else t.calls == [] && |t.answer| == 1 && t.answer[0].WriteError? && t.answer[0].code == 338
  }

  /** A directive that calls a handler, or that there is none of. The others call none;
      what they set and report is told by the settings of the session. */
  ghost predicate IsDirected(ctx: Context, name: string, args: string, h: Handlers, t: Turn) {
    if name == "class" then IsProvided(ctx.class_, name, ClassTag, AreaAndClasses(args), h, t)
    else if name == "schema" then IsProvided(ctx.schema, name, SchemaTag, AreaAndClasses(args), h, t)
    else if name == "soa" then IsProvided(ctx.soa, name, SoaTag, Words(args), h, t)
    else if name == "xfer" then IsProvided(ctx.xfer, name, XferTag, [args], h, t)
    else if name == "register" then IsRegistered(ctx, args, h, t)
    else if name == "security" then
      if ctx.auth then t.calls == [Authenticate(args)] && t.answer == h.first.lines + [Terminator(h.first.failure)]
      else t.calls == [] && t.answer == [WriteError(400, "Directive Not Available", Some(name))]
    else if exists d :: NameOf(d) == name then t.calls == []
    else t.calls == [] && t.answer == [WriteError(400, "Directive Not Available", Some(name))]
  }

  ghost predicate IsHandled(ctx: Context, h: Handlers, t: Turn) {
    match t.request
    case Empty => t.calls == [] && t.answer == []
    case QueryLine(line) => IsQueried(ctx, line, h, t)
    case SpoolLine(line) => IsSpooled(ctx, line, h, t)
    case Directive(name, args) => IsDirected(ctx, name, args, h, t)
  }

  /** Turn `i` is about the line of event `i`, classified by whether a registration was
      under way. */
  ghost predicate IsTurnOf(ctx: Context, event: Event, turns: seq<Turn>, i: nat)
    requires i < |turns|
  {
    && event.LineRead?
    && turns[i].request == Classify(event.text, IsRegistering(AllCalls(turns[..i])))
    && IsHandled(ctx, event.handlers, turns[i])
  }

  ghost predicate IsTraced(ctx: Context, events: seq<Event>, c: Connection) {
    && c.calls == AllCalls(c.turns)
    && c.sent == [RawLine(B.ToLine(ctx.banner))] + AllSent(c.turns) + (if c.timeoutSent then [IDLE_ERROR] else [])
    && |c.turns| <= |events|
    && (forall i :: 0 <= i < |c.turns| ==> IsTurnOf(ctx, events[i], c.turns, i))
    && (c.open ==> |c.turns| == |events| && !c.timeoutSent)
  }

  lemma {:induction false} QueryIsHandled(ctx: Context, s: Session, line: string, h: Handlers, t: Turn)
    requires var e := RunQuery(ctx, s, line, h); t.calls == e.calls && t.answer == Answer(e)
    ensures IsQueried(ctx, line, h, t)
  {
    hide ParseQuery, ErrorMessage;
    assert h.first.lines + [] == h.first.lines;
    if ParseQuery(line).Good? {
      var call := HandleQuery(Query(None, ParseQuery(line).expr, line));
      assert [call] + [] == [call] && [call] + [ListReferrals] == [call, ListReferrals];
    }
  }

  lemma {:induction false} ProvidedIsHandled(
      s: Session, given: bool, name: string, tag: Tag, asked: seq<string>, h: Handlers, t: Turn)
    requires var e := Provided(s, given, name, tag, asked, h.first); t.calls == e.calls && t.answer == Answer(e)
    ensures IsProvided(given, name, tag, asked, h, t)
  {
    assert h.first.lines + [] == h.first.lines;
  }

  lemma {:induction false} RegisterIsHandled(ctx: Context, s: Session, args: string, h: Handlers, t: Turn)
    requires var e := Register(ctx, s, args, h); t.calls == e.calls && t.answer == Answer(e)
    ensures IsRegistered(ctx, args, h, t)
  {
    hide Words;
    var words := Words(args);
    WordsAreWords(args);
    assert Lower("on") == "on" && Lower("off") == "off";
    if words != [] {
      IgnoringCaseMeans(words[0], "on");
      IgnoringCaseMeans(words[0], "off");
    }
    if |words| == 3 {
      assert words[3..] == [];
    }
  }

  lemma {:induction false} WordsAreWords(s: string)
    ensures forall i :: 0 <= i < |Words(s)| ==> Words(s)[i] != ""
    decreases |s|
  {
    var t := TrimStart(s, IsSpace);
    if t != "" {
      WordStarts(t);
      WordsAreWords(t[Run(t, IsWordChar)..]);
    }
  }

  lemma {:induction false} QuietIsHandled(ctx: Context, s: Session, d: Builtin, args: string, h: Handlers)
    requires d !in {ClassDir, SchemaDir, SoaDir, XferDir, RegisterDir, SecurityDir}
    ensures RunBuiltin(ctx, s, d, args, h).calls == []
  {
    hide Words, StatusLines, DirectiveLines;
  }

  lemma {:induction false} NamesOfCallers(d: Builtin)
    ensures NameOf(d) == "class" <==> d == ClassDir
    ensures NameOf(d) == "schema" <==> d == SchemaDir
    ensures NameOf(d) == "soa" <==> d == SoaDir
    ensures NameOf(d) == "xfer" <==> d == XferDir
    ensures NameOf(d) == "register" <==> d == RegisterDir
    ensures NameOf(d) == "security" <==> d == SecurityDir
  {
  }

  lemma {:induction false} CallersRun(ctx: Context, s: Session, args: string, h: Handlers)
    ensures RunBuiltin(ctx, s, ClassDir, args, h)
            == Provided(s, ctx.class_, "class", ClassTag, AreaAndClasses(args), h.first)
    ensures RunBuiltin(ctx, s, SchemaDir, args, h)
            == Provided(s, ctx.schema, "schema", SchemaTag, AreaAndClasses(args), h.first)
    ensures RunBuiltin(ctx, s, SoaDir, args, h) == Provided(s, ctx.soa, "soa", SoaTag, Words(args), h.first)
    ensures RunBuiltin(ctx, s, XferDir, args, h) == Provided(s, ctx.xfer, "xfer", XferTag, [args], h.first)
    ensures RunBuiltin(ctx, s, RegisterDir, args, h) == Register(ctx, s, args, h)
    ensures RunBuiltin(ctx, s, SecurityDir, args, h) == Security(ctx, s, args, h)
  {
    hide Words, Register, Provided, Security, AreaAndClasses;
  }

  lemma {:induction false} BuiltinIsHandled(ctx: Context, s: Session, d: Builtin, args: string, h: Handlers, t: Turn)
    requires var e := RunBuiltin(ctx, s, d, args, h); t.calls == e.calls && t.answer == Answer(e)
    ensures IsDirected(ctx, NameOf(d), args, h, t)
  {
    hide NameOf, Words, Register, Provided, Security, IsProvided, IsRegistered, Answer, AreaAndClasses, RunBuiltin;
    NamesOfCallers(d);
    CallersRun(ctx, s, args, h);
    match d
    case ClassDir => ProvidedIsHandled(s, ctx.class_, "class", ClassTag, AreaAndClasses(args), h, t);
    case SchemaDir => ProvidedIsHandled(s, ctx.schema, "schema", SchemaTag, AreaAndClasses(args), h, t);
    case SoaDir => ProvidedIsHandled(s, ctx.soa, "soa", SoaTag, Words(args), h, t);
    case XferDir => ProvidedIsHandled(s, ctx.xfer, "xfer", XferTag, [args], h, t);
    case RegisterDir => RegisterIsHandled(ctx, s, args, h, t);
    case SecurityDir => SecurityIsHandled(ctx, s, args, h, t);
    case _ => QuietIsHandled(ctx, s, d, args, h);
  }

  lemma {:induction false} SecurityIsHandled(ctx: Context, s: Session, args: string, h: Handlers, t: Turn)
    requires var e := Security(ctx, s, args, h); t.calls == e.calls && t.answer == Answer(e)
    ensures if ctx.auth then
              t.calls == [Authenticate(args)] && t.answer == h.first.lines + [Terminator(h.first.failure)]
            else t.calls == [] && t.answer == [WriteError(400, "Directive Not Available", Some("security"))]
  {
  }

  lemma {:induction false} DirectiveIsHandled(
      ctx: Context, s: Session, name: string, args: string, h: Handlers, t: Turn)
    requires var e := RunDirective(ctx, s, name, args, h); t.calls == e.calls && t.answer == Answer(e)
    ensures IsDirected(ctx, name, args, h, t)
  {
    hide RunBuiltin, Lookup, NameOf, IsDirected;
    var d := Lookup(name, BUILTINS);
    if d.Some? {
      BuiltinIsHandled(ctx, s, d.value, args, h, t);
    } else {
      UnknownIsHandled(ctx, s, name, args, h, t);
    }
  }

  lemma {:induction false} UnknownIsHandled(
      ctx: Context, s: Session, name: string, args: string, h: Handlers, t: Turn)
    requires Lookup(name, BUILTINS).None?
    requires t.calls == [] && t.answer == [WriteError(400, "Directive Not Available", Some(name))]
    ensures IsDirected(ctx, name, args, h, t)
  {
    hide Lookup, NameOf, IsProvided, IsRegistered;
    forall d ensures NameOf(d) != name {
      AllAreRegistered(d);
    }
    NamesOfCallers(ClassDir);
    NamesOfCallers(SchemaDir);
    NamesOfCallers(SoaDir);
    NamesOfCallers(XferDir);
    NamesOfCallers(RegisterDir);
    NamesOfCallers(SecurityDir);
  }

  lemma {:induction false} RegisteredIn(d: Builtin, registry: seq<Builtin>)
    requires d in registry
    ensures Lookup(NameOf(d), registry).Some?
  {
    hide NameOf;
    if registry[0] != d {
      RegisteredIn(d, registry[1..]);
    }
  }

  lemma {:induction false} AllAreRegistered(d: Builtin)
    ensures Lookup(NameOf(d), BUILTINS).Some?
  {
    hide Lookup, NameOf;
    assert d in BUILTINS;
    RegisteredIn(d, BUILTINS);
  }

  lemma {:induction false} RequestIsHandled(ctx: Context, s: Session, req: Request, h: Handlers, t: Turn)
    requires var e := Dispatch(ctx, s, req, h); t.request == req && t.calls == e.calls && t.answer == Answer(e)
    ensures IsHandled(ctx, h, t)
  {
    hide RunDirective, RunQuery, IsDirected, IsQueried;
    if req.QueryLine? {
      QueryIsHandled(ctx, s, req.line, h, t);
    } else if req.Directive? {
      DirectiveIsHandled(ctx, s, req.name, req.args, h, t);
    }
  }

  lemma {:induction false} OneMoreTurn(ctx: Context, events: seq<Event>, event: Event, turns: seq<Turn>, t: Turn)
    requires |turns| == |events| && forall i :: 0 <= i < |turns| ==> IsTurnOf(ctx, events[i], turns, i)
    requires event.LineRead? && t.request == Classify(event.text, IsRegistering(AllCalls(turns)))
    requires IsHandled(ctx, event.handlers, t)
    ensures forall i :: 0 <= i < |turns + [t]| ==> IsTurnOf(ctx, (events + [event])[i], turns + [t], i)
  {
    hide IsHandled, Classify, IsRegistering, AllCalls;
    var more := turns + [t];
    forall i | 0 <= i < |more| ensures IsTurnOf(ctx, (events + [event])[i], more, i) {
      if i < |turns| {
        assert more[..i] == turns[..i];
        assert IsTurnOf(ctx, events[i], turns, i);
      } else {
        assert more[..i] == turns;
      }
    }
  }

  lemma {:induction false} OneMoreSent(banner: seq<Call>, turns: seq<Turn>, t: Turn)
    ensures AllCalls(turns + [t]) == AllCalls(turns) + t.calls
    ensures banner + AllSent(turns + [t]) + [] == banner + AllSent(turns) + (if t.sent then t.answer else [])
    ensures banner + AllSent(turns) + [] == banner + AllSent(turns)
  {
    assert (turns + [t])[..|turns|] == turns;
    SumOfSums(banner, AllSent(turns), if t.sent then t.answer else []);
  }

  lemma {:induction false} TakeTraces(
      ctx: Context, events: seq<Event>, c: Connection, text: string, h: Handlers, sent: bool)
    requires IsTraced(ctx, events, c) && c.open && (IsRegistering(c.calls) <==> c.session.state == SpoolState)
    ensures IsTraced(ctx, events + [LineRead(text, h, sent)], TakeLine(ctx, c, text, h, sent))
  {
    hide Dispatch, Classify, Answer, IsHandled, IsRegistering, IsTurnOf, AllCalls, AllSent;
    var event := LineRead(text, h, sent);
    var req := Classify(text, c.session.state == SpoolState);
    var e := Dispatch(ctx, c.session, req, h);
    var t := Turn(req, Answer(e), IsDelivered(e, sent), e.calls, e.session.holdConnect);
    RequestIsHandled(ctx, c.session, req, h, t);
    OneMoreTurn(ctx, events, event, c.turns, t);
    OneMoreSent([RawLine(B.ToLine(ctx.banner))], c.turns, t);
  }

  lemma {:induction false} EndTraces(ctx: Context, events: seq<Event>, c: Connection, event: Event)
    requires IsTraced(ctx, events, c) && (c.open ==> !event.LineRead?)
    ensures IsTraced(ctx, events + [event], Take(ctx, c, event))
  {
    hide IsTurnOf, TakeLine;
    var d := Take(ctx, c, event);
    forall i | 0 <= i < |d.turns| ensures IsTurnOf(ctx, (events + [event])[i], d.turns, i) {
      assert IsTurnOf(ctx, events[i], c.turns, i);
    }
  }

  /** In every run: the requests are the lines read, in order, until the connection
      closes; the handlers' calls and the answers are those of the requests, in order,
      behind the banner and before the notice of a timeout; and each request is handled
      as it should be. */
  lemma {:induction false} EverythingInOrder(ctx: Context, events: seq<Event>)
    requires AllLeaveRegistration(events)
    ensures IsTraced(ctx, events, After(ctx, events))
  {
    hide IsTraced, TakeLine;
    if events == [] {
      StartTraces(ctx);
    } else {
      var n := |events| - 1;
      var before, event := events[..n], events[n];
      EverythingInOrder(ctx, before);
      RunRegisters(ctx, before);
      var c := After(ctx, before);
      assert before + [event] == events;
      if c.open && event.LineRead? {
        TakeTraces(ctx, before, c, event.text, event.handlers, event.sent);
      } else {
        EndTraces(ctx, before, c, event);
      }
    }
  }

  /** `-directive` lists every directive, in order of name, each with its description. */
  lemma {:induction false} DirectivesAreListed(registry: seq<Builtin>)
    ensures var lines := DirectiveLines(registry);
            && |lines| == 2 * |registry| + 1 && lines[2 * |registry|] == EndBlock(DirectiveTag)
            && forall i :: 0 <= i < |registry| ==>
                 && lines[2 * i] == TaggedLine(DirectiveTag, "Directive:" + NameOf(registry[i]))
                 && lines[2 * i + 1] == TaggedLine(DirectiveTag, "Description:" + Description(registry[i]))
  {
    hide NameOf, Description;
    if registry != [] {
      DirectivesAreListed(registry[1..]);
    }
  }

  lemma {:induction false} DirectivesAreInOrder(i: nat)
    requires i + 1 < |BUILTINS|
    ensures IsBefore(NameOf(BUILTINS[i]), NameOf(BUILTINS[i + 1]))
  {
    var a, b := NameOf(BUILTINS[i]), NameOf(BUILTINS[i + 1]);
    assert DiffersAt(a, b, 0) || DiffersAt(a, b, 1) || DiffersAt(a, b, 2);
  }

  lemma {:induction false} StartTraces(ctx: Context)
    ensures IsTraced(ctx, [], Start(ctx))
  {
  }
}
