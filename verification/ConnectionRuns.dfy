/** A connection from its banner to its end, as a run over the lines, timeouts and
    handler outcomes that happen to it (src/server.rs). */
module ConnectionRuns {
  import opened Text
  import opened QueryAst
  import opened Requests
  import opened Exchange
  import opened R = Response
  import RT = ResponseRoundTrip
  import B = Banner

  /** What happens next: a line (with the handlers' part, and whether a write of the
      answer succeeds), a timeout, the end of the stream, or a read error. */
  datatype Event = LineRead(text: string, handlers: Handlers, sent: bool) | TimedOut(sent: bool) | Ended | ReadFailed

  /** One request and what came of it. */
  datatype Turn = Turn(request: Request, answer: seq<Call>, sent: bool, calls: seq<HandlerCall>, holdConnect: bool)

  /** `sent` are the lines of the writes that succeeded, and `timeoutSent` says that
      the notice of a timeout is among them. */
  datatype Connection = Connection(
    session: Session,
    open: bool,
    timeoutSent: bool,
    turns: seq<Turn>,
    calls: seq<HandlerCall>,
    sent: seq<Call>)

  function Start(ctx: Context): Connection {
    Connection(NEW_SESSION, true, false, [], [], [RawLine(B.ToLine(ctx.banner))])
  }

  /** An answer without lines is not written, so that no write can fail. */
  predicate IsDelivered(e: Effect, sent: bool) {
    sent || Answer(e) == []
  }

  /** The connection closes after `-quit`, after an answer that cannot be sent, and
      after a query unless it is held. */
  predicate Closes(req: Request, e: Effect, sent: bool) {
    || e.result == Done(QuitOutcome)
    || !IsDelivered(e, sent)
    || (!e.session.holdConnect && e.session.state == QueryState && req.QueryLine?)
  }

  function TakeLine(ctx: Context, c: Connection, text: string, h: Handlers, sent: bool): Connection {
    var req := Classify(text, c.session.state == SpoolState);
    var e := Dispatch(ctx, c.session, req, h);
    Connection(e.session, !Closes(req, e, sent), false,
               c.turns + [Turn(req, Answer(e), IsDelivered(e, sent), e.calls, e.session.holdConnect)],
               c.calls + e.calls, c.sent + if IsDelivered(e, sent) then Answer(e) else [])
  }

  const IDLE_ERROR := WriteError(503, "Idle Time Exceeded", None)

  function Take(ctx: Context, c: Connection, event: Event): Connection {
    if !c.open then c
    else
      match event
      case LineRead(text, h, sent) => TakeLine(ctx, c, text, h, sent)
      case TimedOut(sent) =>
        c.(open := false, timeoutSent := sent, sent := c.sent + if sent then [IDLE_ERROR] else [])
      case Ended => c.(open := false)
      case ReadFailed => c.(open := false)
  }

  function After(ctx: Context, events: seq<Event>): Connection {
    if events == [] then Start(ctx)
    else
      var n := |events| - 1;
      Take(ctx, After(ctx, events[..n]), events[n])
  }

  /** A connection whose banner may fail to be sent, which ends it at once. */
  function Accepted(ctx: Context, greeted: bool, events: seq<Event>): Connection {
    if greeted then After(ctx, events) else Start(ctx).(open := false, sent := [])
  }

  // ---- Registration -------------------------------------------------------

  /** A registration is under way: the last successful begin has no successful
      finish behind it. */
  predicate IsRegistering(calls: seq<HandlerCall>) {
    if calls == [] then false
    else
      var last := calls[|calls| - 1];
      if last.Begin? && last.ok then true
      else if last.Finish? && last.ok then false
      else IsRegistering(calls[..|calls| - 1])
  }

  /** Said without recursion. */
  lemma {:induction false} RegisteringMeans(calls: seq<HandlerCall>)
    ensures IsRegistering(calls) <==>
            exists j :: 0 <= j < |calls| && calls[j].Begin? && calls[j].ok
                        && forall k :: j < k < |calls| ==> !(calls[k].Finish? && calls[k].ok)
  {
    if calls != [] {
      var n := |calls| - 1;
      var rest := calls[..n];
      assert forall k :: 0 <= k < n ==> rest[k] == calls[k];
      RegisteringMeans(rest);
    }
  }

  /** The authentication handler leaves the registration alone. */
  ghost predicate LeavesRegistration(h: Handlers) {
    forall s :: h.authenticate(s).state == s.state
                && h.authenticate(s).email == s.email
                && h.authenticate(s).action == s.action
  }

  ghost predicate AllLeaveRegistration(events: seq<Event>) {
    forall i :: 0 <= i < |events| && events[i].LineRead? ==> LeavesRegistration(events[i].handlers)
  }

  /** The session spools exactly while an action and an email are set, and only
      with a register handler. */
  predicate IsConsistent(ctx: Context, s: Session) {
    && (s.state == SpoolState <==> s.action.Some?)
    && (s.state == SpoolState <==> s.email.Some?)
    && (s.state == SpoolState ==> ctx.register)
  }

  predicate Begins(call: HandlerCall) {
    call.Begin? && call.ok
  }

  predicate Finishes(call: HandlerCall) {
    call.Finish? && call.ok
  }

  /** What an effect does to the registration: its first call alone moves it, and
      spooled lines and queries reach a handler only as such. */
  ghost predicate MovesProperly(ctx: Context, s: Session, req: Request, e: Effect) {
    && IsConsistent(ctx, e.session)
    && |e.calls| <= 2
    && (|e.calls| == 2 ==> e.calls[1] == ListReferrals)
    && e.session.state == (if e.calls == [] then s.state
                           else if Begins(e.calls[0]) then SpoolState
                           else if Finishes(e.calls[0]) then QueryState
                           else s.state)
    && (e.calls != [] && e.calls[0].AcceptLine? ==> req.SpoolLine?)
    && (e.calls != [] && e.calls[0].HandleQuery? ==> req.QueryLine?)
  }

  lemma {:induction false} RegisterMoves(ctx: Context, s: Session, req: Request, args: string, h: Handlers)
    requires IsConsistent(ctx, s)
    ensures MovesProperly(ctx, s, req, Register(ctx, s, args, h))
  {
    hide Words, Lower, JoinWith, BadSyntax;
  }

  /** No handler is called and the registration stays. */
  predicate IsQuiet(s: Session, e: Effect) {
    e.calls == [] && e.session.state == s.state && e.session.email == s.email && e.session.action == s.action
  }

  lemma {:induction false} SettingsAreQuiet(ctx: Context, s: Session, args: string)
    ensures IsQuiet(s, HoldConnect(s, args)) && IsQuiet(s, Forward(s, args)) && IsQuiet(s, Limit(s, args))
    ensures IsQuiet(s, Display(s, args)) && IsQuiet(s, Rwhois(ctx, s, args))
  {
  }

  lemma {:induction false} QuietMoves(ctx: Context, s: Session, req: Request, e: Effect)
    requires IsConsistent(ctx, s) && IsQuiet(s, e)
    ensures MovesProperly(ctx, s, req, e)
  {
  }

  lemma {:induction false} ProvidedMoves(
      ctx: Context, s: Session, req: Request, given: bool, name: string, tag: Tag, asked: seq<string>,
      reply: Reply)
    requires IsConsistent(ctx, s)
    ensures MovesProperly(ctx, s, req, Provided(s, given, name, tag, asked, reply))
  {
  }

  lemma {:induction false} SecurityMoves(ctx: Context, s: Session, req: Request, args: string, h: Handlers)
    requires IsConsistent(ctx, s) && LeavesRegistration(h)
    ensures MovesProperly(ctx, s, req, Security(ctx, s, args, h))
  {
    assert h.authenticate(s).state == s.state;
  }

  lemma {:induction false} BuiltinMoves(ctx: Context, s: Session, req: Request, d: Builtin, args: string, h: Handlers)
    requires IsConsistent(ctx, s) && LeavesRegistration(h)
    ensures MovesProperly(ctx, s, req, RunBuiltin(ctx, s, d, args, h))
  {
    match d
    case RegisterDir => RegisterMoves(ctx, s, req, args, h);
    case SecurityDir => SecurityMoves(ctx, s, req, args, h);
    case ClassDir => ProvidedMoves(ctx, s, req, ctx.class_, "class", ClassTag, AreaAndClasses(args), h.first);
    case SchemaDir => ProvidedMoves(ctx, s, req, ctx.schema, "schema", SchemaTag, AreaAndClasses(args), h.first);
    case SoaDir => ProvidedMoves(ctx, s, req, ctx.soa, "soa", SoaTag, Words(args), h.first);
    case XferDir => ProvidedMoves(ctx, s, req, ctx.xfer, "xfer", XferTag, [args], h.first);
    case _ =>
      SettingsAreQuiet(ctx, s, args);
      QuietMoves(ctx, s, req, RunBuiltin(ctx, s, d, args, h));
  }

  /** What one request does to the registration. */
  lemma {:induction false} DispatchMoves(ctx: Context, s: Session, req: Request, h: Handlers)
    requires IsConsistent(ctx, s) && LeavesRegistration(h)
    ensures MovesProperly(ctx, s, req, Dispatch(ctx, s, req, h))
  {
    if req.Directive? && Lookup(req.name, BUILTINS).Some? {
      BuiltinMoves(ctx, s, req, Lookup(req.name, BUILTINS).value, req.args, h);
    }
  }

  /** The request text that begins a registration, from the line to the handler and
      the session: the words after `on` are the action and the email. */
  lemma {:induction false} RegisterLineBegins(
      ctx: Context, s: Session, action: string, email: string, h: Handlers, spooling: bool)
    requires ctx.register && h.first.failure.None? && IsWord(action) && IsWord(email)
    ensures var line := "-" + ("register" + (" " + JoinWith(["on", action, email], ' ')));
            var e := Dispatch(ctx, s, Classify(line, spooling), h);
            && e.calls == [Begin(action, email, "", true)]
            && e.session == s.(state := SpoolState, action := Some(action), email := Some(email))
            && e.result == Done(OkOutcome)
  {
    hide Words, RunBuiltin, IsSplit;
    var words := ["on", action, email];
    var args := JoinWith(words, ' ');
    WordsJoined(words);
    assert args[0] == 'o';
    DirectiveReads("register", args, spooling);
    LowerWord("register");
    LowerWord("on");
    RegisterIsRegistered();
    RegisterRuns(ctx, s, args, h);
  }

  lemma {:induction false} LowerWord(w: string)
    requires forall i :: 0 <= i < |w| ==> !('A' <= w[i] <= 'Z')
    ensures Lower(w) == w
  {
  }

  lemma {:induction false} RegisterRuns(ctx: Context, s: Session, args: string, h: Handlers)
    ensures RunBuiltin(ctx, s, RegisterDir, args, h) == Register(ctx, s, args, h)
  {
  }

  lemma {:induction false} RegisterIsRegistered()
    ensures Lookup("register", BUILTINS) == Some(RegisterDir)
  {
    LookupFinds("register", BUILTINS, 8);
  }

  lemma {:induction false} LookupFinds(name: string, registry: seq<Builtin>, i: nat)
    requires i < |registry| && NameOf(registry[i]) == name
    requires forall k :: 0 <= k < i ==> NameOf(registry[k]) != name
    ensures Lookup(name, registry) == Some(registry[i])
    decreases i
  {
    if i > 0 {
      LookupFinds(name, registry[1..], i - 1);
    }
  }

  /** What holds of a connection at every moment. */
  ghost predicate RegistersProperly(ctx: Context, c: Connection) {
    && IsConsistent(ctx, c.session)
    && (IsRegistering(c.calls) <==> c.session.state == SpoolState)
    && IsProper(c.calls)
  }

  lemma {:induction false} OneMoreCall(calls: seq<HandlerCall>, call: HandlerCall)
    ensures (calls + [call])[..|calls|] == calls
    ensures IsRegistering(calls + [call])
            == if call.Begin? && call.ok then true
               else if call.Finish? && call.ok then false
               else IsRegistering(calls)
    ensures forall i :: 0 <= i < |calls| ==> (calls + [call])[i] == calls[i] && (calls + [call])[..i] == calls[..i]
  {
  }

  /** The trace part of the invariant, for one more call. */
  ghost predicate IsProper(calls: seq<HandlerCall>) {
    && (forall i :: 0 <= i < |calls| && calls[i].AcceptLine? ==> IsRegistering(calls[..i]))
    && (forall i :: 0 <= i < |calls| && calls[i].HandleQuery? ==> !IsRegistering(calls[..i]))
  }

  lemma {:induction false} ProperMore(calls: seq<HandlerCall>, call: HandlerCall)
    requires IsProper(calls)
    requires call.AcceptLine? ==> IsRegistering(calls)
    requires call.HandleQuery? ==> !IsRegistering(calls)
    ensures IsProper(calls + [call])
  {
    var more := calls + [call];
    OneMoreCall(calls, call);
    forall i | 0 <= i < |more|
      ensures more[i].AcceptLine? ==> IsRegistering(more[..i])
      ensures more[i].HandleQuery? ==> !IsRegistering(more[..i])
    {
      if i < |calls| {
        assert more[..i] == calls[..i];
      } else {
        assert more[..i] == calls;
      }
    }
  }

  /** The trace after one request. */
  lemma {:induction false} CallsStayProper(ctx: Context, s: Session, req: Request, e: Effect, calls: seq<HandlerCall>)
    requires MovesProperly(ctx, s, req, e) && IsProper(calls) && (IsRegistering(calls) <==> s.state == SpoolState)
    requires (req.SpoolLine? ==> s.state == SpoolState) && (req.QueryLine? ==> s.state == QueryState)
    ensures IsProper(calls + e.calls) && (IsRegistering(calls + e.calls) <==> e.session.state == SpoolState)
  {
    if e.calls == [] {
      assert calls + e.calls == calls;
    } else {
      OneMoreCall(calls, e.calls[0]);
      ProperMore(calls, e.calls[0]);
      if |e.calls| == 1 {
        assert e.calls == [e.calls[0]];
      } else {
        OneMoreCall(calls + [e.calls[0]], ListReferrals);
        ProperMore(calls + [e.calls[0]], ListReferrals);
        assert calls + e.calls == calls + [e.calls[0]] + [ListReferrals];
      }
    }
  }

  lemma {:induction false} TakeRegisters(ctx: Context, c: Connection, text: string, h: Handlers, sent: bool)
    requires RegistersProperly(ctx, c) && LeavesRegistration(h)
    ensures RegistersProperly(ctx, TakeLine(ctx, c, text, h, sent))
  {
    var req := Classify(text, c.session.state == SpoolState);
    DispatchMoves(ctx, c.session, req, h);
    CallsStayProper(ctx, c.session, req, Dispatch(ctx, c.session, req, h), c.calls);
  }

  lemma {:induction false} RunRegisters(ctx: Context, events: seq<Event>)
    requires AllLeaveRegistration(events)
    ensures RegistersProperly(ctx, After(ctx, events))
  {
    if events != [] {
      var n := |events| - 1;
      RunRegisters(ctx, events[..n]);
      var c := After(ctx, events[..n]);
      if c.open && events[n].LineRead? {
        TakeRegisters(ctx, c, events[n].text, events[n].handlers, events[n].sent);
      }
    }
  }

  /** In every run: the session spools exactly while action and email are set, and
      only with a register handler; every spooled line follows a successful begin
      with no successful finish between; and no query reaches the query handler
      while a registration is under way. */
  lemma {:induction false} RegistrationIsSafe(ctx: Context, events: seq<Event>)
    requires AllLeaveRegistration(events)
    ensures var c := After(ctx, events);
            && (c.session.state == SpoolState <==> c.session.action.Some? && c.session.email.Some?)
            && (c.session.state == SpoolState ==> ctx.register)
            && (forall i :: 0 <= i < |c.calls| && c.calls[i].AcceptLine? ==>
                  exists j :: 0 <= j < i && c.calls[j].Begin? && c.calls[j].ok
                              && forall k :: j < k < i ==> !(c.calls[k].Finish? && c.calls[k].ok))
            && (forall i :: 0 <= i < |c.calls| && c.calls[i].HandleQuery? ==>
                  forall j :: 0 <= j < i && c.calls[j].Begin? && c.calls[j].ok ==>
                    exists k :: j < k < i && c.calls[k].Finish? && c.calls[k].ok)
  {
    RunRegisters(ctx, events);
    var c := After(ctx, events);
    forall i | 0 <= i < |c.calls| && c.calls[i].AcceptLine?
      ensures exists j :: 0 <= j < i && c.calls[j].Begin? && c.calls[j].ok
                          && forall k :: j < k < i ==> !(c.calls[k].Finish? && c.calls[k].ok)
    {
      var before := c.calls[..i];
      RegisteringMeans(before);
      var j :| 0 <= j < |before| && before[j].Begin? && before[j].ok
               && forall k :: j < k < |before| ==> !(before[k].Finish? && before[k].ok);
      assert forall k :: j < k < i ==> c.calls[k] == before[k];
      assert c.calls[j] == before[j];
    }
    forall i, j | 0 <= j < i < |c.calls| && c.calls[i].HandleQuery? && c.calls[j].Begin? && c.calls[j].ok
      ensures exists k :: j < k < i && c.calls[k].Finish? && c.calls[k].ok
    {
      var before := c.calls[..i];
      RegisteringMeans(before);
      assert before[j] == c.calls[j];
      var k :| j < k < |before| && before[k].Finish? && before[k].ok;
      assert c.calls[k] == before[k];
    }
  }
}
