/** Classification of request lines (sections 3.1.1 and 3.1.3 of RFC 2167;
    src/wire/request.rs). */
module Requests {
  import opened Text

  datatype Request = Empty | Directive(name: string, args: string) | QueryLine(line: string) | SpoolLine(line: string)

  predicate IsDirective(s: string) {
    |s| >= 2 && s[0] == '-' && IsAlpha(s[1])
  }

  predicate IsWordChar(c: char) {
    !IsSpace(c)
  }

  /** Behind the dash stands the name, in any case, up to the first whitespace, and
      behind the whitespace the arguments, to the end of the line. */
  predicate IsSplit(line: string, name: string, args: string) {
    var k, from := 1 + |name|, |line| - |args|;
    && k <= from <= |line| && name == Lower(line[1..k]) && args == line[from..]
    && (forall i :: 1 <= i < k ==> !IsSpace(line[i]))
    && (forall i :: k <= i < from ==> IsSpace(line[i]))
    && (k < |line| ==> k < from) && (from < |line| ==> !IsSpace(line[from]))
  }

  lemma {:induction false} DirectiveSplits(line: string)
    requires line != ""
    ensures var rest := line[1..];
            var k := Run(rest, IsWordChar);
            IsSplit(line, Lower(rest[..k]), TrimStart(rest[k..], IsSpace))
  {
    var rest := line[1..];
    var k := Run(rest, IsWordChar);
    var args := TrimStart(rest[k..], IsSpace);
    var from := |line| - |args|;
    assert rest[..k] == line[1..1 + k] && rest[k..] == line[1 + k..];
    assert args == line[from..];
    assert forall i :: 1 <= i < |line| ==> line[i] == rest[i - 1];
    assert forall i :: 1 + k <= i < |line| ==> line[i] == rest[k..][i - 1 - k];
  }

  function Classify(line: string, spooling: bool): (r: Request)
    ensures r.Empty? <==> line == ""
    ensures r.Directive? <==> |line| >= 2 && line[0] == '-' && ('a' <= line[1] <= 'z' || 'A' <= line[1] <= 'Z')
    ensures r.Directive? ==> IsSplit(line, r.name, r.args)
    ensures r.SpoolLine? ==> spooling && r.line == line
    ensures r.QueryLine? ==> !spooling && r.line == line
  {
    if line == "" then Empty
    else if IsDirective(line) then
      var rest := line[1..];
      var k := Run(rest, IsWordChar);
      DirectiveSplits(line);
      Directive(Lower(rest[..k]), TrimStart(rest[k..], IsSpace))
    else if spooling then SpoolLine(line)
    else QueryLine(line)
  }

  lemma {:induction false} WordStarts(t: string)
    requires t != "" && !IsSpace(t[0])
    ensures Run(t, IsWordChar) > 0
  {
    assert IsWordChar(t[0]);
  }

  /** The words of a text, between its whitespace. */
  function Words(s: string): (words: seq<string>)
    decreases |s|
  {
    var t := TrimStart(s, IsSpace);
    if t == "" then []
    else
      WordStarts(t);
      var k := Run(t, IsWordChar);
      [t[..k]] + Words(t[k..])
  }

  predicate IsWord(w: string) {
    w != "" && forall i :: 0 <= i < |w| ==> IsWordChar(w[i])
  }

  lemma {:induction false} NoWords()
    ensures Words("") == []
  {
    RunIs("", IsSpace, 0);
  }

  /** One word at the front. */
  lemma {:induction false} WordInFront(w: string, rest: string)
    requires IsWord(w) && (rest == "" || IsSpace(rest[0]))
    ensures Words(w + rest) == [w] + Words(rest)
  {
    var s := w + rest;
    assert IsWordChar(w[0]) && s[0] == w[0];
    RunIs(s, IsSpace, 0);
    RunIs(s, IsWordChar, |w|);
    assert s[0..] == s && s[..|w|] == w && s[|w|..] == rest;
  }

  lemma {:induction false} BlankInFront(c: char, s: string)
    requires IsSpace(c)
    ensures Words([c] + s) == Words(s)
  {
    var n := Run(s, IsSpace);
    RunIs([c] + s, IsSpace, n + 1);
    assert ([c] + s)[n + 1..] == s[n..];
  }

  /** Splitting, in full: no text has no words, white space in front makes no
      difference, and what comes up to white space or the end is a word. */
  lemma {:induction false} WordsExactly(s: string)
    ensures s == "" ==> Words(s) == []
    ensures s != "" && IsSpace(s[0]) ==> Words(s) == Words(s[1..])
    ensures forall w, rest :: s == w + rest && IsWord(w) && (rest == "" || IsSpace(rest[0])) ==>
              Words(s) == [w] + Words(rest)
  {
    hide Words;
    NoWords();
    if s != "" && IsSpace(s[0]) {
      assert s == [s[0]] + s[1..];
      BlankInFront(s[0], s[1..]);
    }
    forall w, rest | s == w + rest && IsWord(w) && (rest == "" || IsSpace(rest[0]))
      ensures Words(s) == [w] + Words(rest)
    {
      WordInFront(w, rest);
    }
  }

  /** Words written with blanks between them are read back. */
  lemma {:induction false} WordsJoined(words: seq<string>)
    requires forall i :: 0 <= i < |words| ==> IsWord(words[i])
    ensures Words(JoinWith(words, ' ')) == words
    decreases |words|
  {
    hide Words, Run;
    NoWords();
    if |words| == 1 {
      assert words[0] + "" == words[0] && words == [words[0]];
      WordInFront(words[0], "");
    } else if |words| > 1 {
      var rest := JoinWith(words[1..], ' ');
      WordsJoined(words[1..]);
      BlankInFront(' ', rest);
      WordInFront(words[0], [' '] + rest);
      assert [words[0]] + words[1..] == words;
    }
  }

  /** A directive is read back as its name in lower case and its arguments, whatever
      the state of the session. */
  lemma {:induction false} DirectiveReads(name: string, args: string, spooling: bool)
    requires IsWord(name) && IsAlpha(name[0]) && (args != "" ==> !IsSpace(args[0]))
    ensures Classify("-" + (name + (" " + args)), spooling) == Directive(Lower(name), args)
  {
    var tail := " " + args;
    var rest := name + tail;
    var line := "-" + rest;
    assert line[1] == name[0] && line[1..] == rest;
    RunIs(rest, IsWordChar, |name|);
    assert rest[..|name|] == name && rest[|name|..] == tail;
    RunIs(tail, IsSpace, 1);
    assert tail[1..] == args;
  }
}

/** One request of a connection: the session it changes, the handlers it calls and
    the lines it writes (src/server.rs, src/directive/builtin.rs, src/session.rs). */
module Exchange {
  import opened Text
  import opened Numerals
  import opened QueryAst
  import opened QueryGrammar
  import opened Requests
  import opened R = Response
  import B = Banner

  datatype SessionState = QueryState | SpoolState

  datatype Session = Session(
    state: SessionState,
    holdConnect: bool,
    hitLimit: nat,
    forward: bool,
    display: string,
    secureMode: bool,
    vendor: Option<string>,
    email: Option<string>,
    action: Option<string>)

  const NEW_SESSION := Session(QueryState, false, 0, false, "dump", false, None, None, None)

  /** Which handlers the server was given, and its banner. */
  datatype Context = Context(
    query: bool, referral: bool, register: bool, auth: bool,
    class_: bool, schema: bool, soa: bool, xfer: bool,
    banner: B.Banner)

  datatype Failure = Protocol(code: nat, message: string, extra: string) | Other

  /** What a handler does when called: the lines it writes, and how it ends. */
  datatype Reply = Reply(lines: seq<Call>, failure: Option<Failure>)

  /** The handlers' part in one request: at most two are called, and the
      authentication handler may change the session. */
  datatype Handlers = Handlers(first: Reply, second: Reply, authenticate: Session -> Session)

  datatype HandlerCall =
    | HandleQuery(query: Query)
    | ListReferrals
    | Begin(action: string, email: string, extra: string, ok: bool)
    | AcceptLine(line: string, ok: bool)
    | Finish(ok: bool)
    | Provide(tag: Tag, asked: seq<string>)
    | Authenticate(args: string)

  datatype Outcome = SilentOutcome | OkOutcome | QuitOutcome

  datatype Result = Done(outcome: Outcome) | Failed(failure: Failure)

  datatype Effect = Effect(session: Session, lines: seq<Call>, calls: seq<HandlerCall>, result: Result)

  function NotAvailable(name: string): Failure {
    Protocol(400, "Directive Not Available", name)
  }

  function BadSyntax(extra: string): Failure {
    Protocol(338, "Invalid Directive Syntax", extra)
  }

  function Refuse(s: Session, failure: Failure): Effect {
    Effect(s, [], [], Failed(failure))
  }

  function Accept(s: Session, lines: seq<Call>): Effect {
    Effect(s, lines, [], Done(OkOutcome))
  }

  // ---- Built-in directives ------------------------------------------------

  function HoldConnect(s: Session, args: string): Effect {
    var arg := Lower(Trim(args, IsSpace));
    if arg == "" || arg == "on" then Accept(s.(holdConnect := true), [])
    else if arg == "off" then Accept(s.(holdConnect := false), [])
    else Refuse(s, BadSyntax("holdconnect: " + arg))
  }

  function Forward(s: Session, args: string): Effect {
    var arg := Lower(Trim(args, IsSpace));
    if arg == "" || arg == "on" then Accept(s.(forward := true), [])
    else if arg == "off" then Accept(s.(forward := false), [])
    else Refuse(s, BadSyntax("forward: " + arg))
  }

  function Limit(s: Session, args: string): Effect {
    var n := ParseDecimal(Trim(args, IsSpace), MAX_USIZE);
    if n.Some? then Accept(s.(hitLimit := n.value), []) else Refuse(s, BadSyntax("limit: " + args))
  }

  function Display(s: Session, args: string): Effect {
    var name := Trim(args, IsSpace);
    if name == "" then Accept(s, [TaggedLine(DisplayTag, "name:" + s.display), EndBlock(DisplayTag)])
    else if EqualIgnoringCase(name, "dump") then Accept(s.(display := "dump"), [])
    else Refuse(s, BadSyntax("display: " + name))
  }

  function OnOff(b: bool): string {
    if b then "on" else "off"
  }

  function StatusLines(s: Session): seq<Call> {
    [TaggedLine(StatusTag, "limit:" + Decimal(s.hitLimit)),
     TaggedLine(StatusTag, "hold:" + OnOff(s.holdConnect)),
     TaggedLine(StatusTag, "forward:" + OnOff(s.forward)),
     TaggedLine(StatusTag, "display:" + s.display),
     TaggedLine(StatusTag, "contact:" + if s.vendor.Some? then s.vendor.value else ""),
     EndBlock(StatusTag)]
  }

  function Rwhois(ctx: Context, s: Session, args: string): Effect {
    var v := Trim(args, IsSpace);
    Accept(if v == "" then s else s.(vendor := Some(v)), [RawLine(B.ToLine(ctx.banner))])
  }

  datatype Builtin =
    | ClassDir | DirectiveDir | DisplayDir | ForwardDir | HoldConnectDir | LimitDir | NotifyDir | QuitDir
    | RegisterDir | RwhoisDir | SchemaDir | SecurityDir | SoaDir | StatusDir | XferDir

  function NameOf(d: Builtin): string {
    match d
    case ClassDir => "class"
    case DirectiveDir => "directive"
    case DisplayDir => "display"
    case ForwardDir => "forward"
    case HoldConnectDir => "holdconnect"
    case LimitDir => "limit"
    case NotifyDir => "notify"
    case QuitDir => "quit"
    case RegisterDir => "register"
    case RwhoisDir => "rwhois"
    case SchemaDir => "schema"
    case SecurityDir => "security"
    case SoaDir => "soa"
    case StatusDir => "status"
    case XferDir => "xfer"
  }

  function Description(d: Builtin): string {
    match d
    case ClassDir => "list class metadata for an authority area"
    case DirectiveDir => "list directives supported by this server"
    case DisplayDir => "select an output display format"
    case ForwardDir => "follow referrals on behalf of the client"
    case HoldConnectDir => "hold the connection open across queries"
    case LimitDir => "cap the number of records returned per query"
    case NotifyDir => "post a record-update notification (default no-op)"
    case QuitDir => "close the session"
    case RegisterDir => "submit object registration / modification"
    case RwhoisDir => "negotiate version / record client identifier"
    case SchemaDir => "fetch attribute schema for a class"
    case SecurityDir => "negotiate authentication / security"
    case SoaDir => "fetch start-of-authority records"
    case StatusDir => "report current session settings"
    case XferDir => "bulk transfer of records"
  }

  /** The registry, in order of name. */
  const BUILTINS := [
    ClassDir, DirectiveDir, DisplayDir, ForwardDir, HoldConnectDir, LimitDir, NotifyDir, QuitDir,
    RegisterDir, RwhoisDir, SchemaDir, SecurityDir, SoaDir, StatusDir, XferDir]

  /** The directive registered under a name. */
  function Lookup(name: string, registry: seq<Builtin>): (d: Option<Builtin>)
    ensures d.Some? ==> NameOf(d.value) == name
  {
    if registry == [] then None
    else if NameOf(registry[0]) == name then Some(registry[0])
    else Lookup(name, registry[1..])
  }

  function DirectiveLines(registry: seq<Builtin>): seq<Call> {
    if registry == [] then [EndBlock(DirectiveTag)]
    else
      [TaggedLine(DirectiveTag, "Directive:" + NameOf(registry[0])),
       TaggedLine(DirectiveTag, "Description:" + Description(registry[0]))]
      + DirectiveLines(registry[1..])
  }

  /** The authority area asked about, and the classes. */
  function AreaAndClasses(args: string): seq<string> {
    if Words(args) == [] then [""] else Words(args)
  }

  /** A directive that a provider answers, in a block of its own tag. */
  function Provided(s: Session, given: bool, name: string, tag: Tag, asked: seq<string>, reply: Reply): Effect {
    if !given then Refuse(s, NotAvailable(name))
    else if reply.failure.Some? then Effect(s, reply.lines, [Provide(tag, asked)], Failed(reply.failure.value))
    else Effect(s, reply.lines + [EndBlock(tag)], [Provide(tag, asked)], Done(OkOutcome))
  }

  function Security(ctx: Context, s: Session, args: string, h: Handlers): Effect {
    if !ctx.auth then Refuse(s, NotAvailable("security"))
    else
      var reply := h.first;
      Effect(h.authenticate(s), reply.lines, [Authenticate(args)],
             if reply.failure.Some? then Failed(reply.failure.value) else Done(OkOutcome))
  }

  function RegisterOn(s: Session, parts: seq<string>, reply: Reply): Effect {
    var action := if |parts| > 1 then parts[1] else "";
    var email := if |parts| > 2 then parts[2] else "";
    var extra := if |parts| > 3 then JoinWith(parts[3..], ' ') else "";
    if action == "" || email == "" then Refuse(s, BadSyntax("register on requires <action> <email>"))
    else if reply.failure.Some? then Effect(s, [], [Begin(action, email, extra, false)], Failed(reply.failure.value))
    else
      Effect(s.(state := SpoolState, action := Some(action), email := Some(email)), [],
             [Begin(action, email, extra, true)], Done(OkOutcome))
  }

  function RegisterOff(s: Session, reply: Reply): Effect {
    if reply.failure.Some? then Effect(s, reply.lines, [Finish(false)], Failed(reply.failure.value))
    else Effect(s.(state := QueryState, action := None, email := None), reply.lines, [Finish(true)], Done(OkOutcome))
  }

  function Register(ctx: Context, s: Session, args: string, h: Handlers): Effect {
    var parts := Words(args);
    var mode := if parts == [] then None else Some(Lower(parts[0]));
    if !ctx.register then Refuse(s, Protocol(420, "Registration Not Authorized", "register"))
    else if mode == Some("on") then RegisterOn(s, parts, h.first)
    else if mode == Some("off") then RegisterOff(s, h.first)
    else Refuse(s, BadSyntax("register on|off"))
  }

  function RunBuiltin(ctx: Context, s: Session, d: Builtin, args: string, h: Handlers): Effect {
    match d
    case QuitDir => Effect(s, [], [], Done(QuitOutcome))
    case HoldConnectDir => HoldConnect(s, args)
    case LimitDir => Limit(s, args)
    case ForwardDir => Forward(s, args)
    case DisplayDir => Display(s, args)
    case StatusDir => Accept(s, StatusLines(s))
    case RwhoisDir => Rwhois(ctx, s, args)
    case DirectiveDir => Accept(s, DirectiveLines(BUILTINS))
    case ClassDir => Provided(s, ctx.class_, "class", ClassTag, AreaAndClasses(args), h.first)
    case SchemaDir => Provided(s, ctx.schema, "schema", SchemaTag, AreaAndClasses(args), h.first)
    case SoaDir => Provided(s, ctx.soa, "soa", SoaTag, Words(args), h.first)
    case XferDir => Provided(s, ctx.xfer, "xfer", XferTag, [args], h.first)
    case RegisterDir => Register(ctx, s, args, h)
    case SecurityDir => Security(ctx, s, args, h)
    case NotifyDir => Accept(s, [])
  }

  function RunDirective(ctx: Context, s: Session, name: string, args: string, h: Handlers): Effect {
    var d := Lookup(name, BUILTINS);
    if d.Some? then RunBuiltin(ctx, s, d.value, args, h) else Refuse(s, NotAvailable(name))
  }

  // ---- Queries and spooled lines ------------------------------------------

  function ErrorMessage(e: ParseError): string {
    match e
    case EmptyQuery => "empty query"
    case UnexpectedEnd => "unexpected end of query"
    case MissingValue => "missing value after operator"
    case EmptyString => "empty query string"
    case Unterminated => "unterminated quoted string"
    case EmptyQuoted => "empty quoted string"
  }

  function RunQuery(ctx: Context, s: Session, line: string, h: Handlers): Effect {
    if !ctx.query then Refuse(s, Protocol(501, "Service Not Available", "no query handler"))
    else
      var parsed := ParseQuery(line);
      if parsed.Bad? then Refuse(s, Protocol(350, "Invalid Query Syntax", ErrorMessage(parsed.error)))
      else
        var call := HandleQuery(Query(None, parsed.expr, line));
        if h.first.failure.Some? then Effect(s, h.first.lines, [call], Failed(h.first.failure.value))
        else if !ctx.referral then Effect(s, h.first.lines, [call], Done(OkOutcome))
        else
          Effect(s, h.first.lines + h.second.lines, [call, ListReferrals],
                 if h.second.failure.Some? then Failed(h.second.failure.value) else Done(OkOutcome))
  }

  function RunSpool(ctx: Context, s: Session, line: string, h: Handlers): Effect {
    if !ctx.register then Refuse(s, Protocol(420, "Registration Not Authorized", "registration not supported"))
    else if h.first.failure.Some? then Effect(s, [], [AcceptLine(line, false)], Failed(h.first.failure.value))
    else Effect(s, [], [AcceptLine(line, true)], Done(SilentOutcome))
  }

  function Dispatch(ctx: Context, s: Session, req: Request, h: Handlers): Effect {
    match req
    case Empty => Effect(s, [], [], Done(SilentOutcome))
    case Directive(name, args) => RunDirective(ctx, s, name, args, h)
    case QueryLine(line) => RunQuery(ctx, s, line, h)
    case SpoolLine(line) => RunSpool(ctx, s, line, h)
  }

  function FailureLine(failure: Failure): Call {
    match failure
    case Protocol(code, message, extra) => WriteError(code, message, Some(extra))
    case Other => WriteError(402, "Unidentified Error", None)
  }

  /** The lines sent for a request: those written, and the terminator. */
  function Answer(e: Effect): seq<Call> {
    match e.result
    case Done(SilentOutcome) => e.lines
    case Done(OkOutcome) => e.lines + [WriteOk]
    case Done(QuitOutcome) => e.lines + [WriteOk]
    case Failed(failure) => e.lines + [FailureLine(failure)]
  }
}
