/** What a session is set to, read off the requests it got, and when it therefore
    ends (src/session.rs, src/directive/builtin.rs, src/server.rs). */
module ConnectionSettings {
  import opened Text
  import opened Numerals
  import opened Requests
  import opened Exchange
  import opened ConnectionRuns
  import opened R = Response

  /** An argument that turns something on: nothing, or `on` in any case. */
  predicate TurnsOn(args: string) {
    Trim(args, IsSpace) == "" || HasSameLetters(Trim(args, IsSpace), "on")
  }

  predicate TurnsOff(args: string) {
    HasSameLetters(Trim(args, IsSpace), "off")
  }

  predicate IsDirectiveNamed(req: Request, name: string) {
    req.Directive? && req.name == name
  }

  /** The request sets a switch. */
  predicate Switches(req: Request, name: string, on: bool) {
    IsDirectiveNamed(req, name) && if on then TurnsOn(req.args) else TurnsOff(req.args)
  }

  /** The last request that set the switch turned it on. Without one it is off. */
  ghost predicate IsOn(turns: seq<Turn>, name: string) {
    exists j :: 0 <= j < |turns| && Switches(turns[j].request, name, true)
                && forall k :: j < k < |turns| ==> !Switches(turns[k].request, name, false)
  }

  /** A limit that is set. */
  function LimitIn(req: Request): Option<nat> {
    if IsDirectiveNamed(req, "limit") then ParseDecimal(Trim(req.args, IsSpace), MAX_USIZE) else None
  }

  /** The last limit set, or none, which is 0. */
  function LimitOf(turns: seq<Turn>): nat {
    if turns == [] then 0
    else
      var n := |turns| - 1;
      if LimitIn(turns[n].request).Some? then LimitIn(turns[n].request).value else LimitOf(turns[..n])
  }

  /** What the client last called itself. */
  function VendorOf(turns: seq<Turn>): Option<string> {
    if turns == [] then None
    else
      var n := |turns| - 1;
      var req := turns[n].request;
      if IsDirectiveNamed(req, "rwhois") && Trim(req.args, IsSpace) != "" then Some(Trim(req.args, IsSpace))
      else VendorOf(turns[..n])
  }

  /** The session is as the requests have set it. */
  ghost predicate IsSetBy(s: Session, turns: seq<Turn>) {
    && (s.holdConnect <==> IsOn(turns, "holdconnect"))
    && (s.forward <==> IsOn(turns, "forward"))
    && s.hitLimit == LimitOf(turns) && s.vendor == VendorOf(turns) && s.display == "dump"
  }

  /** The authentication handler leaves the settings alone. */
  ghost predicate LeavesSettings(h: Handlers) {
    forall s :: var t := h.authenticate(s);
      && t.holdConnect == s.holdConnect && t.forward == s.forward && t.hitLimit == s.hitLimit
      && t.display == s.display && t.vendor == s.vendor
  }

  ghost predicate AllLeaveSettings(events: seq<Event>) {
    forall i :: 0 <= i < |events| && events[i].LineRead? ==> LeavesSettings(events[i].handlers)
  }

  // ---- One request --------------------------------------------------------

  /** A switch after a request. */
  function SwitchedTo(req: Request, name: string, before: bool): bool {
    if Switches(req, name, true) then true else if Switches(req, name, false) then false else before
  }

  /** What one request makes of the settings. */
  ghost predicate SetsProperly(s: Session, req: Request, t: Session) {
    && t.holdConnect == SwitchedTo(req, "holdconnect", s.holdConnect)
    && t.forward == SwitchedTo(req, "forward", s.forward)
    && t.hitLimit == (if LimitIn(req).Some? then LimitIn(req).value else s.hitLimit)
    && t.vendor == (if IsDirectiveNamed(req, "rwhois") && Trim(req.args, IsSpace) != ""
                    then Some(Trim(req.args, IsSpace)) else s.vendor)
    && (s.display == "dump" ==> t.display == "dump")
  }

  predicate KeepsSettings(s: Session, t: Session) {
    && t.holdConnect == s.holdConnect && t.forward == s.forward && t.hitLimit == s.hitLimit
    && t.display == s.display && t.vendor == s.vendor
  }

  lemma {:induction false} ArgumentMeans(args: string)
    ensures var arg := Trim(args, IsSpace);
            && ((Lower(arg) == "" || Lower(arg) == "on") <==> TurnsOn(args))
            && (Lower(arg) == "off" <==> TurnsOff(args))
  {
    var arg := Trim(args, IsSpace);
    assert Lower("on") == "on" && Lower("off") == "off";
    IgnoringCaseMeans(arg, "on");
    IgnoringCaseMeans(arg, "off");
  }

  /** The switches do not stand for each other: a text is not both. */
  lemma {:induction false} SwitchesSet(s: Session, args: string)
    ensures var t := HoldConnect(s, args).session;
            && KeepsSettings(s.(holdConnect := t.holdConnect), t)
            && t.holdConnect == SwitchedTo(Directive("holdconnect", args), "holdconnect", s.holdConnect)
    ensures var t := Forward(s, args).session;
            && KeepsSettings(s.(forward := t.forward), t)
            && t.forward == SwitchedTo(Directive("forward", args), "forward", s.forward)
  {
    ArgumentMeans(args);
  }

  lemma {:induction false} RegisterKeeps(ctx: Context, s: Session, args: string, h: Handlers)
    ensures KeepsSettings(s, Register(ctx, s, args, h).session)
  {
    hide Words, Lower, JoinWith;
  }

  lemma {:induction false} OthersKeep(ctx: Context, s: Session, d: Builtin, args: string, h: Handlers)
    requires LeavesSettings(h) && d !in {HoldConnectDir, ForwardDir, LimitDir, RwhoisDir, DisplayDir}
    ensures KeepsSettings(s, RunBuiltin(ctx, s, d, args, h).session)
  {
    hide Words, StatusLines, DirectiveLines, Register;
    if d == SecurityDir && ctx.auth {
      assert h.authenticate(s).holdConnect == s.holdConnect;
    } else if d == RegisterDir {
      RegisterKeeps(ctx, s, args, h);
    }
  }

  lemma {:induction false} OthersSet(ctx: Context, s: Session, args: string)
    ensures var t := Limit(s, args).session; KeepsSettings(s.(hitLimit := t.hitLimit), t)
    ensures var t := Rwhois(ctx, s, args).session; KeepsSettings(s.(vendor := t.vendor), t)
    ensures var t := Display(s, args).session; KeepsSettings(s.(display := t.display), t)
    ensures s.display == "dump" ==> Display(s, args).session.display == "dump"
    ensures Limit(s, args).session.hitLimit
            == var n := LimitIn(Directive("limit", args)); if n.Some? then n.value else s.hitLimit
    ensures Rwhois(ctx, s, args).session.vendor
            == if Trim(args, IsSpace) != "" then Some(Trim(args, IsSpace)) else s.vendor
  {
    hide ParseDecimal;
  }

  lemma {:induction false} NamesTell(d: Builtin)
    ensures NameOf(d) == "holdconnect" <==> d == HoldConnectDir
    ensures NameOf(d) == "forward" <==> d == ForwardDir
    ensures NameOf(d) == "limit" <==> d == LimitDir
    ensures NameOf(d) == "rwhois" <==> d == RwhoisDir
  {
  }

  lemma {:induction false} BuiltinRuns(ctx: Context, s: Session, args: string, h: Handlers)
    ensures RunBuiltin(ctx, s, HoldConnectDir, args, h) == HoldConnect(s, args)
    ensures RunBuiltin(ctx, s, ForwardDir, args, h) == Forward(s, args)
    ensures RunBuiltin(ctx, s, LimitDir, args, h) == Limit(s, args)
    ensures RunBuiltin(ctx, s, RwhoisDir, args, h) == Rwhois(ctx, s, args)
    ensures RunBuiltin(ctx, s, DisplayDir, args, h) == Display(s, args)
  {
  }

  lemma {:induction false} BuiltinSets(ctx: Context, s: Session, d: Builtin, args: string, h: Handlers)
    requires LeavesSettings(h)
    ensures SetsProperly(s, Directive(NameOf(d), args), RunBuiltin(ctx, s, d, args, h).session)
  {
    hide HoldConnect, Forward, Limit, Rwhois, Display, ParseDecimal, TurnsOn, TurnsOff, NameOf, RunBuiltin;
    NamesTell(d);
    BuiltinRuns(ctx, s, args, h);
    SwitchesSet(s, args);
    OthersSet(ctx, s, args);
    if d !in {HoldConnectDir, ForwardDir, LimitDir, RwhoisDir, DisplayDir} {
      OthersKeep(ctx, s, d, args, h);
    }
  }

  lemma {:induction false} IsRegistered(d: Builtin, i: nat)
    requires i < |BUILTINS| && BUILTINS[i] == d && forall k :: 0 <= k < i ==> NameOf(BUILTINS[k]) != NameOf(d)
    ensures Lookup(NameOf(d), BUILTINS) == Some(d)
  {
    hide NameOf;
    LookupFinds(NameOf(d), BUILTINS, i);
  }

  /** Every directive that sets something is registered. */
  lemma {:induction false} SettersAreRegistered()
    ensures Lookup("holdconnect", BUILTINS) == Some(HoldConnectDir)
    ensures Lookup("forward", BUILTINS) == Some(ForwardDir)
    ensures Lookup("limit", BUILTINS) == Some(LimitDir)
    ensures Lookup("rwhois", BUILTINS) == Some(RwhoisDir)
  {
    hide Lookup;
    IsRegistered(HoldConnectDir, 4);
    IsRegistered(ForwardDir, 3);
    IsRegistered(LimitDir, 5);
    IsRegistered(RwhoisDir, 9);
  }

  lemma {:induction false} OthersAreRegistered()
    ensures Lookup("quit", BUILTINS) == Some(QuitDir)
    ensures Lookup("status", BUILTINS) == Some(StatusDir)
  {
    hide Lookup;
    IsRegistered(QuitDir, 7);
    IsRegistered(StatusDir, 13);
  }

  lemma {:induction false} DispatchSets(ctx: Context, s: Session, req: Request, h: Handlers)
    requires LeavesSettings(h)
    ensures SetsProperly(s, req, Dispatch(ctx, s, req, h).session)
  {
    hide RunBuiltin, Lookup, TurnsOn, TurnsOff;
    if req.Directive? {
      SettersAreRegistered();
      var d := Lookup(req.name, BUILTINS);
      if d.Some? {
        BuiltinSets(ctx, s, d.value, req.args, h);
      }
    }
  }

  // ---- Every run ----------------------------------------------------------

  lemma {:induction false} OneMoreSwitch(turns: seq<Turn>, t: Turn, name: string)
    ensures IsOn(turns + [t], name) == SwitchedTo(t.request, name, IsOn(turns, name))
  {
    hide Switches;
    var more, n := turns + [t], |turns|;
    SwitchIsOne(t.request, name);
    assert more[n] == t && forall k :: 0 <= k < n ==> more[k] == turns[k];
    if IsOn(turns, name) && !Switches(t.request, name, false) {
      var j :| 0 <= j < n && Switches(turns[j].request, name, true)
               && forall k :: j < k < n ==> !Switches(turns[k].request, name, false);
      assert Switches(more[j].request, name, true);
    }
    if IsOn(more, name) && !Switches(t.request, name, true) {
      var j :| 0 <= j < n + 1 && Switches(more[j].request, name, true)
               && forall k :: j < k < n + 1 ==> !Switches(more[k].request, name, false);
      assert Switches(turns[j].request, name, true);
      assert !Switches(more[n].request, name, false);
    }
    if Switches(t.request, name, true) {
      assert Switches(more[n].request, name, true);
    }
  }

  lemma {:induction false} SwitchIsOne(req: Request, name: string)
    ensures !(Switches(req, name, true) && Switches(req, name, false))
  {
  }

  lemma {:induction false} OneMoreSetting(s: Session, turns: seq<Turn>, t: Turn, s': Session)
    requires IsSetBy(s, turns) && SetsProperly(s, t.request, s')
    ensures IsSetBy(s', turns + [t])
  {
    hide IsOn, Switches, TurnsOn;
    assert (turns + [t])[..|turns|] == turns;
    OneMoreSwitch(turns, t, "holdconnect");
    OneMoreSwitch(turns, t, "forward");
  }

  /** The settings after a run, and of each of its requests. */
  ghost predicate IsSettled(c: Connection) {
    && IsSetBy(c.session, c.turns)
    && forall i :: 0 <= i < |c.turns| ==> (c.turns[i].holdConnect <==> IsOn(c.turns[..i + 1], "holdconnect"))
  }

  lemma {:induction false} TakeSettles(ctx: Context, c: Connection, text: string, h: Handlers, sent: bool)
    requires IsSettled(c) && LeavesSettings(h)
    ensures IsSettled(TakeLine(ctx, c, text, h, sent))
  {
    hide IsOn, Dispatch, Classify, Answer, Switches, SetsProperly, LimitOf, VendorOf;
    var req := Classify(text, c.session.state == SpoolState);
    var e := Dispatch(ctx, c.session, req, h);
    DispatchSets(ctx, c.session, req, h);
    var t := Turn(req, Answer(e), IsDelivered(e, sent), e.calls, e.session.holdConnect);
    OneMoreSetting(c.session, c.turns, t, e.session);
    var turns := c.turns + [t];
    assert turns[..|turns|] == turns;
    forall i | 0 <= i < |c.turns| ensures turns[i].holdConnect <==> IsOn(turns[..i + 1], "holdconnect") {
      assert turns[..i + 1] == c.turns[..i + 1];
    }
  }

  lemma {:induction false} NewIsSettled(ctx: Context)
    ensures IsSettled(Start(ctx))
  {
  }

  /** In every run the session is set as its requests say: a switch is on if and only if
      the last request that sets it turns it on, the limit and the client's name are the
      last ones given. */
  lemma {:induction false} SettingsAreAsked(ctx: Context, events: seq<Event>)
    requires AllLeaveSettings(events)
    ensures IsSettled(After(ctx, events))
  {
    hide IsSettled, TakeLine;
    if events == [] {
      NewIsSettled(ctx);
    } else {
      var n := |events| - 1;
      SettingsAreAsked(ctx, events[..n]);
      var c := After(ctx, events[..n]);
      if c.open {
        match events[n]
        case LineRead(text, h, sent) => TakeSettles(ctx, c, text, h, sent);
        case TimedOut(sent) => StaysSettled(c, Take(ctx, c, events[n]));
        case Ended => StaysSettled(c, Take(ctx, c, events[n]));
        case ReadFailed => StaysSettled(c, Take(ctx, c, events[n]));
      }
    }
  }

  lemma {:induction false} StaysSettled(c: Connection, d: Connection)
    requires IsSettled(c) && d.session == c.session && d.turns == c.turns
    ensures IsSettled(d)
  {
  }

  // ---- When a connection ends ---------------------------------------------

  lemma {:induction false} BuiltinQuits(ctx: Context, s: Session, d: Builtin, args: string, h: Handlers)
    ensures RunBuiltin(ctx, s, d, args, h).result == Done(QuitOutcome) <==> d == QuitDir
    ensures NameOf(d) == "quit" <==> d == QuitDir
  {
    hide Words, StatusLines, DirectiveLines, ParseDecimal, Lower;
  }

  lemma {:induction false} QuitExactly(ctx: Context, s: Session, req: Request, h: Handlers)
    ensures Dispatch(ctx, s, req, h).result == Done(QuitOutcome) <==> IsDirectiveNamed(req, "quit")
  {
    hide Lookup, RunBuiltin;
    OthersAreRegistered();
    if req.Directive? && Lookup(req.name, BUILTINS).Some? {
      BuiltinQuits(ctx, s, Lookup(req.name, BUILTINS).value, req.args, h);
    }
  }

  /** A line leaves a connection open if and only if its answer could be sent, it is no
      `-quit`, and, if it is a query, the connection was held by the requests before. */
  lemma {:induction false} StaysOpenExactly(
      ctx: Context, events: seq<Event>, text: string, h: Handlers, sent: bool)
    requires AllLeaveSettings(events) && After(ctx, events).open
    ensures var c := After(ctx, events);
            var d := After(ctx, events + [LineRead(text, h, sent)]);
            var turn := d.turns[|d.turns| - 1];
            && d.turns == c.turns + [turn]
            && turn.request == Classify(text, c.session.state == SpoolState)
            && (d.open <==>
                  && turn.sent && !IsDirectiveNamed(turn.request, "quit")
                  && (turn.request.QueryLine? ==> IsOn(c.turns, "holdconnect")))
  {
    hide IsOn, Classify, Dispatch, Answer;
    var c, more := After(ctx, events), events + [LineRead(text, h, sent)];
    assert more[..|events|] == events;
    SettingsAreAsked(ctx, events);
    var req := Classify(text, c.session.state == SpoolState);
    QuitExactly(ctx, c.session, req, h);
    if req.QueryLine? {
      QueryKeeps(ctx, c.session, req.line, h);
      QueryIsNotSpooled(text, c.session.state == SpoolState);
    }
  }

  lemma {:induction false} QueryKeeps(ctx: Context, s: Session, line: string, h: Handlers)
    ensures Dispatch(ctx, s, QueryLine(line), h).session == s
  {
  }

  lemma {:induction false} QueryIsNotSpooled(text: string, spooling: bool)
    ensures Classify(text, spooling).QueryLine? ==> !spooling
  {
  }

  /** A new connection whose first line is a query is closed by it. */
  lemma {:induction false} FirstQueryCloses(ctx: Context, text: string, h: Handlers, sent: bool)
    requires text != "" && !IsDirective(text)
    ensures !After(ctx, [LineRead(text, h, sent)]).open
  {
    hide Dispatch;
    var none: seq<Event> := [];
    assert none + [LineRead(text, h, sent)] == [LineRead(text, h, sent)];
    StaysOpenExactly(ctx, none, text, h, sent);
  }

  /** Each of the first `n` requests that is a query came while the connection was held. */
  ghost predicate AreHeld(turns: seq<Turn>, n: int)
    requires n <= |turns|
  {
    forall i :: 0 <= i < n && turns[i].request.QueryLine? ==> IsOn(turns[..i], "holdconnect")
  }

  lemma {:induction false} OneMoreHeld(turns: seq<Turn>, t: Turn)
    requires AreHeld(turns, |turns|)
    ensures AreHeld(turns + [t], |turns|)
    ensures (t.request.QueryLine? ==> IsOn(turns, "holdconnect")) ==> AreHeld(turns + [t], |turns| + 1)
  {
    hide IsOn;
    var more := turns + [t];
    assert more[..|turns|] == turns && forall i :: 0 <= i < |turns| ==> more[i] == turns[i];
    forall i | 0 <= i < |turns| && more[i].request.QueryLine? ensures IsOn(more[..i], "holdconnect") {
      assert more[..i] == turns[..i];
    }
  }

  /** In every run, a query with another request behind it, or that left the connection
      open, came while the connection was held. */
  lemma {:induction false} QueriesAreHeld(ctx: Context, events: seq<Event>)
    requires AllLeaveSettings(events)
    ensures var c := After(ctx, events); AreHeld(c.turns, if c.open then |c.turns| else |c.turns| - 1)
  {
    hide IsOn, Classify, TakeLine;
    if events != [] {
      var n := |events| - 1;
      QueriesAreHeld(ctx, events[..n]);
      var c := After(ctx, events[..n]);
      if c.open && events[n].LineRead? {
        var LineRead(text, h, sent) := events[n];
        StaysOpenExactly(ctx, events[..n], text, h, sent);
        assert events[..n] + [events[n]] == events;
        var d := After(ctx, events);
        OneMoreHeld(c.turns, d.turns[|c.turns|]);
      }
    }
  }

  /** `-status` reports what the requests before it have set. */
  lemma {:induction false} StatusReports(ctx: Context, events: seq<Event>, args: string, h: Handlers)
    requires AllLeaveSettings(events)
    ensures var c := After(ctx, events);
            var vendor := VendorOf(c.turns);
            Answer(Dispatch(ctx, c.session, Directive("status", args), h))
            == [TaggedLine(StatusTag, "limit:" + Decimal(LimitOf(c.turns))),
                TaggedLine(StatusTag, "hold:" + if IsOn(c.turns, "holdconnect") then "on" else "off"),
                TaggedLine(StatusTag, "forward:" + if IsOn(c.turns, "forward") then "on" else "off"),
                TaggedLine(StatusTag, "display:dump"),
                TaggedLine(StatusTag, "contact:" + if vendor.Some? then vendor.value else ""),
                EndBlock(StatusTag), WriteOk]
  {
    hide IsOn, LimitOf, VendorOf, Lookup, After;
    SettingsAreAsked(ctx, events);
    OthersAreRegistered();
    var s := After(ctx, events).session;
    assert Dispatch(ctx, s, Directive("status", args), h) == Accept(s, StatusLines(s));
    assert "display:" + s.display == "display:dump";
  }
}
