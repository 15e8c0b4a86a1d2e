/** The connection loop and the built-in directives as they run: session fields
    assigned in place, lines appended to the response buffer (src/server.rs,
    src/directive/builtin.rs). Every method is held to its function in `Exchange`
    or `ConnectionRuns`. */
module ConnectionServer {
  import opened Text
  import opened Numerals
  import opened QueryAst
  import opened QueryGrammar
  import opened Requests
  import E = Exchange
  import opened ConnectionRuns
  import opened R = Response
  import opened RT = ResponseRoundTrip
  import B = Banner
  import Q = QueryReader

  class LiveSession {
    var state: E.SessionState
    var holdConnect: bool
    var hitLimit: nat
    var forward: bool
    var display: string
    var secureMode: bool
    var vendor: Option<string>
    var email: Option<string>
    var action: Option<string>

    function Value(): E.Session
      reads this
    {
      E.Session(state, holdConnect, hitLimit, forward, display, secureMode, vendor, email, action)
    }

    constructor ()
      ensures Value() == E.NEW_SESSION
    {
      state, holdConnect, hitLimit, forward := E.QueryState, false, 0, false;
      display, secureMode := "dump", false;
      vendor, email, action := None, None, None;
    }

    /** A handler leaves another session behind. */
    method Assign(s: E.Session)
      modifies this
      ensures Value() == s
    {
      state, holdConnect, hitLimit, forward := s.state, s.holdConnect, s.hitLimit, s.forward;
      display, secureMode := s.display, s.secureMode;
      vendor, email, action := s.vendor, s.email, s.action;
    }
  }

  /** What a method did is the effect: session, lines, handler calls and result. */
  ghost predicate Performs(
      e: E.Effect, s: E.Session, before: string, buf: string, calls: seq<E.HandlerCall>, r: E.Result)
  {
    s == e.session && buf == before + Rendered(e.lines) && calls == e.calls && r == e.result
  }

  lemma {:induction false} RenderedSum(a: seq<Call>, b: seq<Call>)
    ensures Rendered(a + b) == Rendered(a) + Rendered(b)
    decreases |a|
  {
    if a == [] {
      assert a + b == b;
    } else {
      RestOfSum(a, b);
      RenderedSum(a[1..], b);
      SumOfSums(CRLF, Rendered(a[1..]), Rendered(b));
      SumOfSums(LineOf(a[0]), CRLF + Rendered(a[1..]), Rendered(b));
    }
  }

  lemma {:induction false} NothingRendered(s: string)
    ensures s + Rendered([]) == s
  {
  }

  /** Lines written one after the other. */
  method Emit(out: ResponseWriter, lines: seq<Call>)
    modifies out
    ensures out.buf == old(out.buf) + Rendered(lines)
  {
    hide LineOf, Rendered;
    NothingRendered(out.buf);
    for i := 0 to |lines|
      invariant out.buf == old(out.buf) + Rendered(lines[..i])
    {
      out.Put(lines[i]);
      RenderedMore(lines[..i], lines[i]);
      SumOfSums(old(out.buf), Rendered(lines[..i]), LineOf(lines[i]) + CRLF);
      assert lines[..i + 1] == lines[..i] + [lines[i]];
    }
    assert lines[..|lines|] == lines;
  }

  /** An argument that switches something: nothing, `on` or `off`, in any case. */
  predicate IsSwitch(args: string) {
    var arg := Trim(args, IsSpace);
    arg == "" || EqualIgnoringCase(arg, "on") || EqualIgnoringCase(arg, "off")
  }

  lemma {:induction false} LowerSwitch(arg: string)
    ensures Lower("on") == "on" && Lower("off") == "off" && (Lower(arg) == "" <==> arg == "")
  {
  }

  // ---- Directives ---------------------------------------------------------

  method HoldConnect(s: LiveSession, args: string, ghost buf: string) returns (r: E.Result)
    modifies s
    ensures Performs(E.HoldConnect(old(s.Value()), args), s.Value(), buf, buf, [], r)
    ensures s.Value() == old(s.Value()).(holdConnect := s.holdConnect)
    ensures r.Done? <==> IsSwitch(args)
    ensures s.holdConnect == if r.Done? then !EqualIgnoringCase(Trim(args, IsSpace), "off") else old(s.holdConnect)
  {
    NothingRendered(buf);
    LowerSwitch(Trim(args, IsSpace));
    var arg := Lower(Trim(args, IsSpace));
    if arg == "" || arg == "on" {
      s.holdConnect := true;
      return E.Done(E.OkOutcome);
    } else if arg == "off" {
      s.holdConnect := false;
      return E.Done(E.OkOutcome);
    }
    return E.Failed(E.BadSyntax("holdconnect: " + arg));
  }

  method Forward(s: LiveSession, args: string, ghost buf: string) returns (r: E.Result)
    modifies s
    ensures Performs(E.Forward(old(s.Value()), args), s.Value(), buf, buf, [], r)
    ensures s.Value() == old(s.Value()).(forward := s.forward)
    ensures r.Done? <==> IsSwitch(args)
    ensures s.forward == if r.Done? then !EqualIgnoringCase(Trim(args, IsSpace), "off") else old(s.forward)
  {
    NothingRendered(buf);
    LowerSwitch(Trim(args, IsSpace));
    var arg := Lower(Trim(args, IsSpace));
    if arg == "" || arg == "on" {
      s.forward := true;
      return E.Done(E.OkOutcome);
    } else if arg == "off" {
      s.forward := false;
      return E.Done(E.OkOutcome);
    }
    return E.Failed(E.BadSyntax("forward: " + arg));
  }

  method Limit(s: LiveSession, args: string, ghost buf: string) returns (r: E.Result)
    modifies s
    ensures Performs(E.Limit(old(s.Value()), args), s.Value(), buf, buf, [], r)
    ensures s.Value() == old(s.Value()).(hitLimit := s.hitLimit)
    ensures r.Failed? ==> s.hitLimit == old(s.hitLimit)
    ensures forall n: nat :: n <= MAX_USIZE && Trim(args, IsSpace) == Decimal(n) ==> r.Done? && s.hitLimit == n
  {
    NothingRendered(buf);
    var n := ParseDecimal(Trim(args, IsSpace), MAX_USIZE);
    forall k: nat | k <= MAX_USIZE && Trim(args, IsSpace) == Decimal(k) ensures n == Some(k) {
      ParseDecimalIs(k, MAX_USIZE);
    }
    if n.None? {
      return E.Failed(E.BadSyntax("limit: " + args));
    }
    s.hitLimit := n.value;
    return E.Done(E.OkOutcome);
  }

  method Display(s: LiveSession, args: string, out: ResponseWriter) returns (r: E.Result)
    modifies s, out
    ensures Performs(E.Display(old(s.Value()), args), s.Value(), old(out.buf), out.buf, [], r)
  {
    NothingRendered(out.buf);
    var name := Trim(args, IsSpace);
    if name == "" {
      Emit(out, [TaggedLine(DisplayTag, "name:" + s.display), EndBlock(DisplayTag)]);
      return E.Done(E.OkOutcome);
    }
    if EqualIgnoringCase(name, "dump") {
      s.display := "dump";
      return E.Done(E.OkOutcome);
    }
    return E.Failed(E.BadSyntax("display: " + name));
  }

  method Rwhois(ctx: E.Context, s: LiveSession, args: string, out: ResponseWriter) returns (r: E.Result)
    modifies s, out
    ensures Performs(E.Rwhois(ctx, old(s.Value()), args), s.Value(), old(out.buf), out.buf, [], r)
  {
    var v := Trim(args, IsSpace);
    if v != "" {
      s.vendor := Some(v);
    }
    Emit(out, [RawLine(B.ToLine(ctx.banner))]);
    return E.Done(E.OkOutcome);
  }

  /** The loop over the registry. */
  method ListDirectives(registry: seq<E.Builtin>, out: ResponseWriter)
    modifies out
    ensures out.buf == old(out.buf) + Rendered(E.DirectiveLines(registry))
  {
    ghost var start := out.buf;
    NothingRendered(start);
    assert registry[0..] == registry;
    ghost var done: seq<Call> := [];
    assert done + E.DirectiveLines(registry) == E.DirectiveLines(registry);
    for i := 0 to |registry|
      invariant out.buf == start + Rendered(done)
      invariant done + E.DirectiveLines(registry[i..]) == E.DirectiveLines(registry)
    {
      var two := [TaggedLine(DirectiveTag, "Directive:" + E.NameOf(registry[i])),
                  TaggedLine(DirectiveTag, "Description:" + E.Description(registry[i]))];
      Emit(out, two);
      RenderedSum(done, two);
      SumOfSums(start, Rendered(done), Rendered(two));
      assert registry[i..][1..] == registry[i + 1..] && registry[i..][0] == registry[i];
      SumOfSums(done, two, E.DirectiveLines(registry[i + 1..]));
      done := done + two;
    }
    Emit(out, [EndBlock(DirectiveTag)]);
    RenderedSum(done, [EndBlock(DirectiveTag)]);
    SumOfSums(start, Rendered(done), Rendered([EndBlock(DirectiveTag)]));
  }

  /** `parse_area_classes`: the first word, and the others. */
  method ParseAreaClasses(args: string) returns (area: string, classes: seq<string>)
    ensures [area] + classes == E.AreaAndClasses(args)
  {
    var parts := Words(args);
    area := if parts == [] then "" else parts[0];
    classes := if parts == [] then [] else parts[1..];
  }

  method Provided(
      s: LiveSession, given: bool, name: string, tag: Tag, asked: seq<string>, reply: E.Reply, out: ResponseWriter)
    returns (r: E.Result, calls: seq<E.HandlerCall>)
    modifies out
    ensures Performs(E.Provided(s.Value(), given, name, tag, asked, reply), s.Value(), old(out.buf), out.buf, calls, r)
  {
    NothingRendered(out.buf);
    if !given {
      return E.Failed(E.NotAvailable(name)), [];
    }
    Emit(out, reply.lines);
    if reply.failure.Some? {
      return E.Failed(reply.failure.value), [E.Provide(tag, asked)];
    }
    RenderedSum(reply.lines, [EndBlock(tag)]);
    SumOfSums(old(out.buf), Rendered(reply.lines), Rendered([EndBlock(tag)]));
    Emit(out, [EndBlock(tag)]);
    return E.Done(E.OkOutcome), [E.Provide(tag, asked)];
  }

  method Security(ctx: E.Context, s: LiveSession, args: string, h: E.Handlers, out: ResponseWriter)
    returns (r: E.Result, calls: seq<E.HandlerCall>)
    modifies s, out
    ensures Performs(E.Security(ctx, old(s.Value()), args, h), s.Value(), old(out.buf), out.buf, calls, r)
  {
    NothingRendered(out.buf);
    if !ctx.auth {
      return E.Failed(E.NotAvailable("security")), [];
    }
    s.Assign(h.authenticate(s.Value()));
    Emit(out, h.first.lines);
    calls := [E.Authenticate(args)];
    r := if h.first.failure.Some? then E.Failed(h.first.failure.value) else E.Done(E.OkOutcome);
  }

  method RegisterOn(s: LiveSession, parts: seq<string>, reply: E.Reply, ghost buf: string)
    returns (r: E.Result, calls: seq<E.HandlerCall>)
    modifies s
    ensures Performs(E.RegisterOn(old(s.Value()), parts, reply), s.Value(), buf, buf, calls, r)
    ensures r.Failed? ==> s.Value() == old(s.Value())
    ensures r.Done? ==>
              && s.state == E.SpoolState && s.action.Some? && s.email.Some?
              && |calls| == 1 && calls[0].Begin? && calls[0].ok
              && s.action.value == calls[0].action && s.email.value == calls[0].email
  {
    NothingRendered(buf);
    var action := if |parts| > 1 then parts[1] else "";
    var email := if |parts| > 2 then parts[2] else "";
    var extra := if |parts| > 3 then JoinWith(parts[3..], ' ') else "";
    if action == "" || email == "" {
      return E.Failed(E.BadSyntax("register on requires <action> <email>")), [];
    }
    if reply.failure.Some? {
      return E.Failed(reply.failure.value), [E.Begin(action, email, extra, false)];
    }
    s.state := E.SpoolState;
    s.action := Some(action);
    s.email := Some(email);
    return E.Done(E.OkOutcome), [E.Begin(action, email, extra, true)];
  }

  method RegisterOff(s: LiveSession, reply: E.Reply, out: ResponseWriter)
    returns (r: E.Result, calls: seq<E.HandlerCall>)
    modifies s, out
    ensures Performs(E.RegisterOff(old(s.Value()), reply), s.Value(), old(out.buf), out.buf, calls, r)
    ensures calls == [E.Finish(r.Done?)]
    ensures r.Failed? ==> s.Value() == old(s.Value())
    ensures r.Done? ==> s.state == E.QueryState && s.action.None? && s.email.None?
  {
    Emit(out, reply.lines);
    if reply.failure.Some? {
      return E.Failed(reply.failure.value), [E.Finish(false)];
    }
    s.state := E.QueryState;
    s.action := None;
    s.email := None;
    return E.Done(E.OkOutcome), [E.Finish(true)];
  }

  method Register(ctx: E.Context, s: LiveSession, args: string, h: E.Handlers, out: ResponseWriter)
    returns (r: E.Result, calls: seq<E.HandlerCall>)
    modifies s, out
    ensures Performs(E.Register(ctx, old(s.Value()), args, h), s.Value(), old(out.buf), out.buf, calls, r)
  {
    NothingRendered(out.buf);
    var parts := Words(args);
    var mode := if parts == [] then None else Some(Lower(parts[0]));
    if !ctx.register {
      return E.Failed(E.Protocol(420, "Registration Not Authorized", "register")), [];
    }
    if mode == Some("on") {
      r, calls := RegisterOn(s, parts, h.first, out.buf);
    } else if mode == Some("off") {
      r, calls := RegisterOff(s, h.first, out);
    } else {
      return E.Failed(E.BadSyntax("register on|off")), [];
    }
  }

  method RunBuiltin(ctx: E.Context, s: LiveSession, d: E.Builtin, args: string, h: E.Handlers, out: ResponseWriter)
    returns (r: E.Result, calls: seq<E.HandlerCall>)
    modifies s, out
    ensures Performs(E.RunBuiltin(ctx, old(s.Value()), d, args, h), s.Value(), old(out.buf), out.buf, calls, r)
  {
    NothingRendered(out.buf);
    calls := [];
    match d {
      case QuitDir => r := E.Done(E.QuitOutcome);
      case HoldConnectDir => r := HoldConnect(s, args, out.buf);
      case LimitDir => r := Limit(s, args, out.buf);
      case ForwardDir => r := Forward(s, args, out.buf);
      case DisplayDir => r := Display(s, args, out);
      case StatusDir =>
        Emit(out, E.StatusLines(s.Value()));
        r := E.Done(E.OkOutcome);
      case RwhoisDir => r := Rwhois(ctx, s, args, out);
      case DirectiveDir =>
        ListDirectives(E.BUILTINS, out);
        r := E.Done(E.OkOutcome);
      case ClassDir =>
        var area, classes := ParseAreaClasses(args);
        r, calls := Provided(s, ctx.class_, "class", ClassTag, [area] + classes, h.first, out);
      case SchemaDir =>
        var area, classes := ParseAreaClasses(args);
        r, calls := Provided(s, ctx.schema, "schema", SchemaTag, [area] + classes, h.first, out);
      case SoaDir => r, calls := Provided(s, ctx.soa, "soa", SoaTag, Words(args), h.first, out);
      case XferDir => r, calls := Provided(s, ctx.xfer, "xfer", XferTag, [args], h.first, out);
      case RegisterDir => r, calls := Register(ctx, s, args, h, out);
      case SecurityDir => r, calls := Security(ctx, s, args, h, out);
      case NotifyDir => r := E.Done(E.OkOutcome);
    }
  }

  // ---- Requests -----------------------------------------------------------

  method RunQuery(ctx: E.Context, s: LiveSession, line: string, h: E.Handlers, out: ResponseWriter)
    returns (r: E.Result, calls: seq<E.HandlerCall>)
    modifies out
    ensures Performs(E.RunQuery(ctx, s.Value(), line, h), s.Value(), old(out.buf), out.buf, calls, r)
  {
    NothingRendered(out.buf);
    if !ctx.query {
      return E.Failed(E.Protocol(501, "Service Not Available", "no query handler")), [];
    }
    var q := Q.Parse(line);
    if q.Failure? {
      return E.Failed(E.Protocol(350, "Invalid Query Syntax", E.ErrorMessage(q.error))), [];
    }
    calls := [E.HandleQuery(q.value)];
    Emit(out, h.first.lines);
    if h.first.failure.Some? {
      return E.Failed(h.first.failure.value), calls;
    }
    if ctx.referral {
      calls := calls + [E.ListReferrals];
      RenderedSum(h.first.lines, h.second.lines);
      SumOfSums(old(out.buf), Rendered(h.first.lines), Rendered(h.second.lines));
      Emit(out, h.second.lines);
      if h.second.failure.Some? {
        return E.Failed(h.second.failure.value), calls;
      }
    }
    return E.Done(E.OkOutcome), calls;
  }

  method RunSpool(ctx: E.Context, s: LiveSession, line: string, h: E.Handlers, ghost buf: string)
    returns (r: E.Result, calls: seq<E.HandlerCall>)
    ensures Performs(E.RunSpool(ctx, s.Value(), line, h), s.Value(), buf, buf, calls, r)
  {
    NothingRendered(buf);
    if !ctx.register {
      return E.Failed(E.Protocol(420, "Registration Not Authorized", "registration not supported")), [];
    }
    if h.first.failure.Some? {
      return E.Failed(h.first.failure.value), [E.AcceptLine(line, false)];
    }
    return E.Done(E.SilentOutcome), [E.AcceptLine(line, true)];
  }

  method Dispatch(ctx: E.Context, s: LiveSession, req: Request, h: E.Handlers, out: ResponseWriter)
    returns (r: E.Result, calls: seq<E.HandlerCall>)
    modifies s, out
    ensures Performs(E.Dispatch(ctx, old(s.Value()), req, h), s.Value(), old(out.buf), out.buf, calls, r)
  {
    NothingRendered(out.buf);
    match req {
      case Empty =>
        return E.Done(E.SilentOutcome), [];
      case Directive(name, args) =>
        var d := E.Lookup(name, E.BUILTINS);
        if d.None? {
          return E.Failed(E.NotAvailable(name)), [];
        }
        r, calls := RunBuiltin(ctx, s, d.value, args, h, out);
      case QueryLine(line) =>
        r, calls := RunQuery(ctx, s, line, h, out);
      case SpoolLine(line) =>
        r, calls := RunSpool(ctx, s, line, h, out.buf);
    }
  }

  /** One request: classified, dispatched, and its terminator written. */
  method Serve(ctx: E.Context, s: LiveSession, line: string, h: E.Handlers)
    returns (req: Request, buf: string, calls: seq<E.HandlerCall>, r: E.Result)
    modifies s
    ensures req == Classify(line, old(s.state) == E.SpoolState)
    ensures var e := E.Dispatch(ctx, old(s.Value()), req, h);
            s.Value() == e.session && buf == Rendered(E.Answer(e)) && calls == e.calls && r == e.result
  {
    hide LineOf, Rendered, E.Dispatch, E.FailureLine, Classify;
    req := Classify(line, s.state == E.SpoolState);
    var out := new ResponseWriter();
    ghost var e := E.Dispatch(ctx, s.Value(), req, h);
    r, calls := Dispatch(ctx, s, req, h, out);
    assert out.buf == "" + Rendered(e.lines) == Rendered(e.lines);
    match r {
      case Done(SilentOutcome) =>
      case Done(OkOutcome) =>
        RenderedMore(e.lines, WriteOk);
        out.Put(WriteOk);
      case Done(QuitOutcome) =>
        RenderedMore(e.lines, WriteOk);
        out.Put(WriteOk);
      case Failed(failure) =>
        RenderedMore(e.lines, E.FailureLine(failure));
        out.Put(E.FailureLine(failure));
    }
    buf := out.buf;
  }

  lemma {:induction false} RenderedNone(lines: seq<Call>)
    ensures Rendered(lines) == "" <==> lines == []
  {
  }

  /** One line: it is served, and the answer is sent if there is one. */
  method TakeRequest(ctx: E.Context, s: LiveSession, text: string, h: E.Handlers, sent: bool, ghost c: Connection)
    returns (bytes: string, made: seq<E.HandlerCall>, open: bool)
    requires s.Value() == c.session
    modifies s
    ensures var d := TakeLine(ctx, c, text, h, sent);
            && s.Value() == d.session && open == d.open && d.calls == c.calls + made
            && Rendered(d.sent) == Rendered(c.sent) + bytes
  {
    hide E.Dispatch, E.Answer, Classify, Rendered;
    var req, buf, calls, r := Serve(ctx, s, text, h);
    ghost var answer := E.Answer(E.Dispatch(ctx, c.session, req, h));
    RenderedNone(answer);
    RenderedSum(c.sent, answer);
    assert c.sent + [] == c.sent;
    if buf != "" && !sent {
      return "", calls, false;
    }
    open := r != E.Done(E.QuitOutcome) && (s.holdConnect || s.state != E.QueryState || !req.QueryLine?);
    return buf, calls, open;
  }

  /** One event of an open connection: the bytes sent for it, the handler calls it
      leads to, and whether the connection stays open. */
  method TakeEvent(ctx: E.Context, s: LiveSession, event: Event, ghost c: Connection)
    returns (bytes: string, made: seq<E.HandlerCall>, open: bool)
    requires c.open && s.Value() == c.session
    modifies s
    ensures var d := Take(ctx, c, event);
            && s.Value() == d.session && open == d.open && d.calls == c.calls + made
            && Rendered(d.sent) == Rendered(c.sent) + bytes
  {
    hide TakeLine, Rendered, LineOf;
    bytes, made, open := "", [], false;
    assert c.sent + [] == c.sent && c.calls + [] == c.calls;
    match event {
      case LineRead(text, h, sent) =>
        bytes, made, open := TakeRequest(ctx, s, text, h, sent, c);
      case TimedOut(sent) =>
        if sent {
          RenderedMore(c.sent, IDLE_ERROR);
          bytes := LineOf(IDLE_ERROR) + CRLF;
        }
      case Ended =>
      case ReadFailed =>
    }
  }

  /** The connection loop: the bytes sent, the handler calls made and the state it
      ends in are those of the run. */
  method RunConnection(ctx: E.Context, greeted: bool, events: seq<Event>)
    returns (wire: string, calls: seq<E.HandlerCall>, open: bool)
    ensures var c := Accepted(ctx, greeted, events); wire == Rendered(c.sent) && calls == c.calls && open == c.open
  {
    var s := new LiveSession();
    var out := new ResponseWriter();
    Emit(out, [RawLine(B.ToLine(ctx.banner))]);
    if !greeted {
      return "", [], false;
    }
    wire, calls, open := out.buf, [], true;
    assert wire == "" + Rendered(Start(ctx).sent) == Rendered(Start(ctx).sent);
    for i := 0 to |events|
      invariant fresh(s)
      invariant var c := After(ctx, events[..i]);
                s.Value() == c.session && wire == Rendered(c.sent) && calls == c.calls && open == c.open
    {
      ghost var c := After(ctx, events[..i]);
      AfterOne(ctx, events, i);
      if open {
        var bytes, made;
        bytes, made, open := TakeEvent(ctx, s, events[i], c);
        wire, calls := wire + bytes, calls + made;
      }
    }
    assert events[..|events|] == events;
  }

  lemma {:induction false} AfterOne(ctx: E.Context, events: seq<Event>, i: nat)
    requires i < |events|
    ensures After(ctx, events[..i + 1]) == Take(ctx, After(ctx, events[..i]), events[i])
  {
    assert events[..i + 1][..i] == events[..i];
  }
}
