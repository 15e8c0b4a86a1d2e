/** Lifting a leading class name out of a parsed query (`with_class_if` and
    `split_leading_term` of src/query.rs). */
module ClassLift {
  import opened Text
  import opened QueryAst
  import opened QueryGrammar
  import opened QueryPrint

  /** `split_leading_term`: the leftmost term and what is left without it. */
  function SplitLeadingTerm(e: Expr): Option<(Term, Expr)> {
    match e
    case Leaf(_) => None
    case And(l, r) =>
      if l.Leaf? then Some((l.term, r))
      else
        var split := SplitLeadingTerm(l);
        if split.None? then None else Some((split.value.0, And(split.value.1, r)))
    case Or(l, r) =>
      if l.Leaf? then Some((l.term, r))
      else
        var split := SplitLeadingTerm(l);
        if split.None? then None else Some((split.value.0, Or(split.value.1, r)))
  }

  /** `with_class_if`. */
  function WithClassIf(q: Query, isClass: string -> bool): Query {
    if q.expr.Leaf? && q.expr.term.Bare? && q.expr.term.value.kind == Exact && isClass(q.expr.term.value.text) then q
    else
      var split := SplitLeadingTerm(q.expr);
      if split.Some? && split.value.0.Bare? && split.value.0.value.kind == Exact
          && isClass(split.value.0.value.text) then
        q.(class_ := Some(split.value.0.value.text), expr := split.value.1)
      else q
  }

  /** The tree with `t` joined to its leftmost leaf, on the left. */
  function Attach(op: Operator, t: Term, e: Expr): (r: Expr)
    ensures !r.Leaf?
  {
    match e
    case Leaf(first) => Join(op, Leaf(t), first)
    case And(l, r) => And(Attach(op, t, l), r)
    case Or(l, r) => Or(Attach(op, t, l), r)
  }

  lemma {:induction false} SplitUndoesAttach(op: Operator, t: Term, e: Expr)
    ensures SplitLeadingTerm(Attach(op, t, e)) == Some((t, e))
  {
    if !e.Leaf? {
      SplitUndoesAttach(op, t, e.left);
    }
  }

  function AttachResult(op: Operator, t: Term, r: ExprResult): ExprResult {
    if r.Good? then Good(Attach(op, t, r.expr)) else r
  }

  /** The loop of the parser does not look at what it has read so far. */
  lemma {:induction false} MoreAttached(
      s: string, op: Operator, t: Term, lhs: Expr, step: string -> Parsed<(Operator, Term)>)
    requires Advances(step)
    ensures More(s, Attach(op, t, lhs), step) == AttachResult(op, t, More(s, lhs, step))
    decreases |s|
  {
    if Run(s, IsBlank) < |s| && step(s).Ok? {
      var r := step(s);
      MoreAttached(s[r.used..], op, t, Join(r.value.0, lhs, r.value.1), step);
    }
  }

  predicate IsClassName(c: string) {
    c != "" && forall i :: 0 <= i < |c| ==> IsIdChar(c[i])
  }

  /** Text as the line decoder delivers it: blanks are the only white space. */
  predicate IsLineText(s: string) {
    forall i :: 0 <= i < |s| ==> IsSpace(s[i]) ==> IsBlank(s[i])
  }

  /** The class name is read as a bare exact value. */
  lemma {:induction false} ClassIsRead(c: string, rest: string)
    requires IsClassName(c) && (rest == "" || IsBlank(rest[0]))
    ensures SpacedTerm(c + rest) == Ok(Bare(Value(c, Exact)), |c|)
  {
    var w := c + rest;
    assert w[0] == c[0] && IsIdChar(c[0]) && IsIdChar(c[|c| - 1]);
    FirstTerm(w);
    RunIs(w, IsIdChar, |c|);
    RunIs(w, IsQueryChar, |c|);
    assert HeadOf(w) == BareHead;
    assert w[0..] == w && w[0..|c|] == c;
  }

  /** Trimming a class name, a blank and a query. */
  lemma {:induction false} TrimWithClass(c: string, s: string) returns (gap: string)
    requires IsClassName(c) && IsLineText(s) && Trim(s, IsSpace) != ""
    ensures Trim(c + (" " + s), IsSpace) == c + (gap + Trim(s, IsSpace))
    ensures gap != "" && gap[0] == ' ' && forall i :: 0 <= i < |gap| ==> IsBlank(gap[i])
  {
    var end := TrimEnd(s, IsSpace);
    var n := Run(end, IsSpace);
    gap := " " + end[..n];
    var w := c + (" " + s);
    assert Stem(w, IsSpace) == |c| + 1 + |end| by {
      var k := |c| + 1 + |end|;
      assert end == s[..|end|];
      assert IsStem(w, IsSpace, k);
    }
    var t := TrimEnd(w, IsSpace);
    assert t == c + (" " + end);
    assert IsIdChar(c[0]) && t[0] == c[0];
    assert Run(t, IsSpace) == 0 && t[0..] == t;
    assert end == end[..n] + end[n..];
    assert " " + end == gap + end[n..];
    forall i | 0 <= i < |gap| ensures IsBlank(gap[i]) {
      if i > 0 {
        assert gap[i] == s[i - 1] && IsSpace(s[i - 1]);
      }
    }
  }

  lemma {:induction false} StepBehindBlanks(gap: string, body: string)
    requires body != "" && !IsBlank(body[0]) && forall i :: 0 <= i < |gap| ==> IsBlank(gap[i])
    ensures var (op, k) := OperatorAt(body);
            var t := SpacedTerm(body[k..]);
            && Run(gap + body, IsBlank) == |gap|
            && Step(gap + body) == if t.Err? then Err(t.error) else Ok((op, t.value), |gap| + k + t.used)
  {
    var s, n := gap + body, |gap|;
    var k := OperatorAt(body).1;
    assert s[n] == body[0];
    RunIs(s, IsBlank, n);
    assert s[n..] == body && s[n + k..] == body[k..];
  }

  /** The loop's first round, its outcome given. */
  lemma {:induction false} MoreFirst(
      s: string, c: Term, step: string -> Parsed<(Operator, Term)>, op: Operator, t: Term, rest: string)
    requires Advances(step) && Run(s, IsBlank) < |s|
    requires step(s).Ok? && step(s).value == (op, t) && s[step(s).used..] == rest
    ensures More(s, Leaf(c), step) == AttachResult(op, c, More(rest, Leaf(t), step))
  {
    MoreAttached(rest, op, c, Leaf(t), step);
  }

  /** Behind the class name the loop reads the operator, if one is written, and then
      the rest of the query as if it stood alone. */
  lemma {:induction false} RestBehindClass(gap: string, body: string, c: Term)
    requires body != "" && !IsBlank(body[0]) && forall i :: 0 <= i < |gap| ==> IsBlank(gap[i])
    ensures var (op, k) := OperatorAt(body);
            More(gap + body, Leaf(c), Step) == AttachResult(op, c, ExprAt(body[k..]))
  {
    hide SpacedTerm, OperatorAt, Run, More, Step;
    var (op, k) := OperatorAt(body);
    var x, s := body[k..], gap + body;
    var t := SpacedTerm(x);
    StepBehindBlanks(gap, body);
    if t.Ok? {
      RestOfSumAt(gap, body, k, t.used);
      MoreFirst(s, c, Step, op, t.value, x[t.used..]);
    } else {
      MoreFails(s, Leaf(c));
    }
  }

  lemma {:induction false} RestOfSumAt(gap: string, body: string, k: nat, n: nat)
    requires k <= |body| && n <= |body| - k
    ensures (gap + body)[|gap| + k + n..] == body[k..][n..]
  {
  }

  lemma {:induction false} MoreFails(s: string, lhs: Expr)
    requires Run(s, IsBlank) < |s| && Step(s).Err?
    ensures More(s, lhs, Step) == Bad(Step(s).error)
  {
    hide Step, Run;
  }

  /** Parsing a query with a class name in front: the name becomes the leftmost term
      of the tree that the rest parses to. */
  lemma {:induction false} ParseWithClass(c: string, s: string)
    requires IsClassName(c) && IsLineText(s) && Trim(s, IsSpace) != ""
    ensures var body := Trim(s, IsSpace);
            var (op, k) := OperatorAt(body);
            ParseQuery(c + (" " + s)) == AttachResult(op, Bare(Value(c, Exact)), ExprAt(body[k..]))
  {
    var body := Trim(s, IsSpace);
    var gap := TrimWithClass(c, s);
    var w := c + (gap + body);
    assert w != "";
    ClassIsRead(c, gap + body);
    assert w[|c|..] == gap + body;
    RestBehindClass(gap, body, Bare(Value(c, Exact)));
  }

  /** Lifting commutes with parsing. For every class name the predicate accepts and
      every query text: if the text does not start with a boolean keyword, lifting
      the parse of both yields the class and exactly the tree of the text alone. If
      it does, the keyword is taken for the operator, and the tree is that of the
      text behind it. */
  lemma {:induction false} LiftCommutes(c: string, s: string, isClass: string -> bool)
    requires IsClassName(c) && isClass(c) && IsLineText(s) && Trim(s, IsSpace) != ""
    ensures var body := Trim(s, IsSpace);
            var rest := ExprAt(body[OperatorAt(body).1..]);
            var parsed := ParseQuery(c + (" " + s));
            && (OperatorAt(body).1 == 0 ==> rest == ParseQuery(s))
            && (parsed.Good? <==> rest.Good?)
            && (parsed.Good? ==>
                WithClassIf(Query(None, parsed.expr, c + (" " + s)), isClass)
                    == Query(Some(c), rest.expr, c + (" " + s)))
  {
    var body := Trim(s, IsSpace);
    var (op, k) := OperatorAt(body);
    assert body[0..] == body;
    ParseWithClass(c, s);
    var rest := ExprAt(body[k..]);
    if rest.Good? {
      SplitUndoesAttach(op, Bare(Value(c, Exact)), rest.expr);
    }
  }

  // ---- What is lifted -----------------------------------------------------

  /** The term is a class name: a bare value, neither starred nor quoted. */
  predicate NamesClass(t: Term, isClass: string -> bool) {
    t.Bare? && t.value.kind == Exact && isClass(t.value.text)
  }

  /** A tree that leans to the left and is no single term is a leading term joined to
      the rest. */
  lemma {:induction false} TreeHasLeading(e: Expr) returns (op: Operator, t: Term, rest: Expr)
    requires IsQueryTree(e) && !e.Leaf?
    ensures e == Attach(op, t, rest) && IsQueryTree(rest)
  {
    hide IsTerm;
    if e.left.Leaf? {
      op, t, rest := if e.And? then AndOp else OrOp, e.left.term, e.right;
    } else {
      var l;
      op, t, l := TreeHasLeading(e.left);
      rest := if e.And? then And(l, e.right) else Or(l, e.right);
    }
  }

  /** The class rewrite, on every query the parser returns: a single term stays what it
      is; of more, the leading term becomes the class exactly if it names one, and
      otherwise nothing changes. */
  lemma {:induction false} LiftsClassExactly(q: Query, isClass: string -> bool)
    requires IsQueryTree(q.expr)
    ensures q.expr.Leaf? ==> WithClassIf(q, isClass) == q
    ensures forall op, t, rest :: q.expr == Attach(op, t, rest) ==>
              WithClassIf(q, isClass)
              == if NamesClass(t, isClass) then q.(class_ := Some(t.value.text), expr := rest) else q
  {
    hide IsQueryTree;
    forall op, t, rest | q.expr == Attach(op, t, rest)
      ensures WithClassIf(q, isClass)
              == if NamesClass(t, isClass) then q.(class_ := Some(t.value.text), expr := rest) else q
    {
      SplitUndoesAttach(op, t, rest);
    }
  }

  // ---- A text that starts with a boolean keyword --------------------------

  /** The text behind the leading keyword, if there is one, and the blanks. */
  function Behind(s: string): (r: string)
    ensures |r| <= |s| - OperatorAt(s).1
    ensures r != "" ==> !IsBlank(r[0])
  {
    TrimStart(s[OperatorAt(s).1..], IsBlank)
  }

  /** The leading keyword is repeated in the same spelling, and what follows the
      second is joined by the operator the keyword stands for, and echoes too. */
  predicate Echoes(body: string)
    decreases |body|
  {
    var (op, k) := OperatorAt(body);
    k == 0 ||
    (var second := Behind(body);
     var rest := Behind(second);
     && OperatorAt(second).1 == k && second[..k] == body[..k]
     && rest != "" && OperatorAt(rest).0 == op && Echoes(rest))
  }

  /** Keywords, an even number of them, and nothing else. */
  predicate IsKeywordPairs(body: string)
    decreases |body|
  {
    && OperatorAt(body).1 > 0 && OperatorAt(Behind(body)).1 > 0
    && var rest := Behind(Behind(body)); (rest == "" || IsKeywordPairs(rest))
  }

  /** A keyword at the front is read as a bare value. */
  lemma {:induction false} KeywordIsRead(s: string)
    requires OperatorAt(s).1 > 0
    ensures var k := OperatorAt(s).1; SpacedTerm(s) == Ok(Bare(Value(s[..k], Exact)), k)
  {
    var k := OperatorAt(s).1;
    var kw := if k == 3 then "and" else "or";
    assert IsKeyword(s, kw);
    forall i | 0 <= i < k ensures IsIdChar(s[..k][i]) {
      assert LowerChar(s[..k][i]) == Lower(s[..k])[i] == Lower(kw)[i] == LowerChar(kw[i]);
    }
    assert s == s[..k] + s[k..];
    ClassIsRead(s[..k], s[k..]);
  }

  lemma {:induction false} LeadingBlanks(s: string)
    ensures ExprAt(TrimStart(s, IsBlank)) == ExprAt(s)
  {
    hide TermAt, More;
    var n := Run(s, IsBlank);
    var y := s[n..];
    RunIs(y, IsBlank, 0);
    assert y[0..] == y;
    var t := TermAt(y);
    if t.Ok? {
      assert s[n + t.used..] == y[t.used..];
    }
  }

  lemma {:induction false} BehindNothing(s: string)
    requires OperatorAt(s).1 == 0
    ensures Behind(s) == TrimStart(s, IsBlank)
  {
    assert s[0..] == s;
  }

  /** What a text behind a keyword is parsed to, with the keyword and without. */
  lemma {:induction false} KeywordFirst(s: string)
    requires OperatorAt(s).1 > 0
    ensures var (op, k) := OperatorAt(s);
            var y, word := Behind(s), Bare(Value(s[..k], Exact));
            && ExprAt(s[k..]) == ExprAt(y)
            && ExprAt(s) == if y == "" then Good(Leaf(word))
                            else AttachResult(OperatorAt(y).0, word, ExprAt(Behind(y)))
  {
    var (op, k) := OperatorAt(s);
    var rest := s[k..];
    var n := Run(rest, IsBlank);
    var gap, y := rest[..n], rest[n..];
    KeywordIsRead(s);
    LeadingBlanks(rest);
    if y != "" {
      assert gap + y == rest;
      RestBehindClass(gap, y, Bare(Value(s[..k], Exact)));
      LeadingBlanks(y[OperatorAt(y).1..]);
    }
  }

  lemma {:induction false} NothingToRead()
    ensures ExprAt("") == Bad(UnexpectedEnd)
  {
    RunIs("", IsBlank, 0);
  }

  function Leaves(e: Expr): nat {
    match e
    case Leaf(_) => 1
    case And(l, r) => Leaves(l) + Leaves(r)
    case Or(l, r) => Leaves(l) + Leaves(r)
  }

  lemma {:induction false} AttachGrows(op: Operator, t: Term, e: Expr)
    ensures Leaves(Attach(op, t, e)) == Leaves(e) + 1
  {
    if !e.Leaf? {
      AttachGrows(op, t, e.left);
    }
  }

  lemma {:induction false} AttachShowsOperator(op: Operator, op': Operator, t: Term, e: Expr)
    requires op != op'
    ensures Attach(op, t, e) != Attach(op', t, e)
  {
    if !e.Leaf? {
      AttachShowsOperator(op, op', t, e.left);
    }
  }

  lemma {:induction false} AttachInjective(op: Operator, t: Term, e: Expr, op': Operator, t': Term, e': Expr)
    ensures Attach(op, t, e) == Attach(op', t', e') <==> op == op' && t == t' && e == e'
  {
    SplitUndoesAttach(op, t, e);
    SplitUndoesAttach(op', t', e');
    if op != op' && t == t' && e == e' {
      AttachShowsOperator(op, op', t, e);
    }
  }

  /** What the text looks like if its leading keyword can be dropped: one that parses
      echoes the keyword, and one that does not is more than pairs of keywords. */
  ghost predicate CanDropKeyword(body: string) {
    if ExprAt(body).Good? then Echoes(body) else !IsKeywordPairs(body)
  }

  lemma {:induction false} OperatorByLength(s: string)
    ensures OperatorAt(s).1 in {0, 2, 3}
    ensures OperatorAt(s).0 == if OperatorAt(s).1 == 2 then OrOp else AndOp
  {
  }

  /** Dropping the leading keyword of a text keeps what the text parses to, errors
      included, exactly then. */
  lemma {:induction false} DropExactly(body: string)
    requires body != "" && !IsBlank(body[0])
    ensures ExprAt(body[OperatorAt(body).1..]) == ExprAt(body) <==> CanDropKeyword(body)
    decreases |body|
  {
    hide ExprAt, OperatorAt, Behind;
    if OperatorAt(body).1 == 0 {
      assert body[0..] == body;
    } else {
      KeywordFirst(body);
      NothingToRead();
      var y := Behind(body);
      if y != "" {
        if OperatorAt(y).1 == 0 {
          DropOnly(body);
        } else if Behind(y) == "" {
          KeywordFirst(y);
        } else {
          DropExactly(Behind(y));
          DropFirstOfTwo(body);
        }
      }
    }
  }

  /** One keyword, and something else behind it. */
  lemma {:induction false} DropOnly(body: string)
    requires OperatorAt(body).1 > 0 && Behind(body) != "" && OperatorAt(Behind(body)).1 == 0
    ensures ExprAt(Behind(body)) == ExprAt(body) <==> CanDropKeyword(body)
  {
    hide ExprAt, OperatorAt;
    var y := Behind(body);
    KeywordFirst(body);
    BehindNothing(y);
    RunIs(y, IsBlank, 0);
    if ExprAt(y).Good? {
      AttachGrows(OperatorAt(y).0, Bare(Value(body[..OperatorAt(body).1], Exact)), ExprAt(y).expr);
    }
  }

  /** Two keywords and something behind them. */
  lemma {:induction false} DropFirstOfTwo(body: string)
    requires OperatorAt(body).1 > 0 && OperatorAt(Behind(body)).1 > 0 && Behind(Behind(body)) != ""
    requires var z := Behind(Behind(body)); ExprAt(z[OperatorAt(z).1..]) == ExprAt(z) <==> CanDropKeyword(z)
    ensures ExprAt(Behind(body)) == ExprAt(body) <==> CanDropKeyword(body)
  {
    hide ExprAt, OperatorAt, Behind, Attach;
    var y := Behind(body);
    var z := Behind(y);
    var k, k' := OperatorAt(body).1, OperatorAt(y).1;
    KeywordFirst(body);
    KeywordFirst(y);
    OperatorByLength(body);
    OperatorByLength(y);
    assert ExprAt(Behind(z)) == ExprAt(z[OperatorAt(z).1..]) by { BehindReads(z); }
    assert body[..k] == y[..k'] ==> k == k' by { assert |body[..k]| == k && |y[..k']| == k'; }
    var word, word' := Bare(Value(body[..k], Exact)), Bare(Value(y[..k'], Exact));
    var e, e' := ExprAt(z), ExprAt(Behind(z));
    if e.Good? && e'.Good? {
      AttachInjective(OperatorAt(y).0, word, e.expr, OperatorAt(z).0, word', e'.expr);
    }
  }

  lemma {:induction false} BehindReads(s: string)
    ensures ExprAt(Behind(s)) == ExprAt(s[OperatorAt(s).1..])
  {
    LeadingBlanks(s[OperatorAt(s).1..]);
  }

  /** What is left of a parsed query when its class is lifted out. */
  function Lifted(r: ExprResult, raw: string, isClass: string -> bool): ExprResult {
    if r.Good? then Good(WithClassIf(Query(None, r.expr, raw), isClass).expr) else r
  }

  /** When lifting commutes with parsing: a class name in front of a text leaves the
      tree of the text, or its error, if and only if `CanDropKeyword` of the text. */
  lemma {:induction false} LiftExactly(c: string, s: string, isClass: string -> bool)
    requires IsClassName(c) && isClass(c) && IsLineText(s) && Trim(s, IsSpace) != ""
    ensures var raw := c + (" " + s);
            Lifted(ParseQuery(raw), raw, isClass) == ParseQuery(s) <==> CanDropKeyword(Trim(s, IsSpace))
  {
    hide ExprAt, OperatorAt, CanDropKeyword, WithClassIf;
    var body := Trim(s, IsSpace);
    ParseWithClass(c, s);
    LiftCommutes(c, s, isClass);
    TrimIsTight(s);
    DropExactly(body);
  }

  lemma {:induction false} TrimIsTight(s: string)
    requires Trim(s, IsSpace) != ""
    ensures !IsBlank(Trim(s, IsSpace)[0])
  {
  }

  lemma {:induction false} KeywordAnd()
    ensures OperatorAt("and x") == (AndOp, 3) && Behind("and x") == "x" && "and x"[..3] == "and"
  {
    var s := "and x";
    assert s[..3] == "and" && IsKeyword(s, "and");
    assert s[3..] == " x";
    RunIs(" x", IsBlank, 1);
  }

  lemma {:induction false} XAlone()
    ensures OperatorAt("x") == (AndOp, 0) && Behind("x") == "x" && ExprAt("x") == Good(Leaf(Bare(Value("x", Exact))))
  {
    var x := "x";
    assert !IsKeyword(x, "and") && !IsKeyword(x, "or");
    assert x[0..] == x;
    RunIs(x, IsBlank, 0);
    ClassIsRead(x, "");
    assert x + "" == x && x[1..] == "";
    RunIs("", IsBlank, 0);
  }

  /** A keyword that is lost: `and x` parses to a conjunction, and behind a class name
      to `x` alone. */
  lemma {:induction false} LiftLosesKeyword(isClass: string -> bool)
    requires isClass("widget")
    ensures var s, raw, x := "and x", "widget" + (" " + "and x"), Leaf(Bare(Value("x", Exact)));
            && ParseQuery(s) == Good(And(Leaf(Bare(Value("and", Exact))), x))
            && Lifted(ParseQuery(raw), raw, isClass) == Good(x)
  {
    hide ExprAt, OperatorAt, WithClassIf, Behind;
    var s := "and x";
    TrimKeeps(s, IsSpace);
    LiftCommutes("widget", s, isClass);
    KeywordAnd();
    KeywordFirst(s);
    XAlone();
  }
}
