/** Query expressions (section 3.4 of RFC 2167; src/query.rs). */
module QueryAst {
  import Text

  datatype ValueKind = Exact | Prefix | Suffix | Substring | Quoted

  datatype Value = Value(text: string, kind: ValueKind)

  datatype Term = AttrEq(attr: string, value: Value) | AttrNe(attr: string, value: Value) | Bare(value: Value)

  datatype Expr = Leaf(term: Term) | And(left: Expr, right: Expr) | Or(left: Expr, right: Expr)

  datatype Query = Query(class_: Text.Option<string>, expr: Expr, raw: string)
}

/** What the parser accepts, as functions of the text that remains. */
module QueryGrammar {
  import opened Text
  import opened QueryAst

  datatype ParseError = EmptyQuery | UnexpectedEnd | MissingValue | EmptyString | Unterminated | EmptyQuoted

  /** A piece parsed off the front of a text, and the number of characters used. */
  datatype Parsed<T> = Ok(value: T, used: nat) | Err(error: ParseError)

  predicate IsIdChar(c: char) {
    IsAlpha(c) || IsDigit(c) || c == '_' || c == '-'
  }

  predicate IsQueryChar(c: char) {
    c != '"' && !IsBlank(c)
  }

  function KindOf(leading: bool, trailing: bool): ValueKind {
    if leading then if trailing then Substring else Suffix
    else if trailing then Prefix else Exact
  }

  /** `["*"] 1*query-char ["*"]`; only the outermost stars are wildcards. */
  function QueryString(s: string): (r: Parsed<Value>)
    ensures r.Ok? ==> 0 < r.used <= |s|
  {
    var leading := s != "" && s[0] == '*';
    var start := if leading then 1 else 0;
    var n := Run(s[start..], IsQueryChar);
    var trailing := n > 0 && s[start + n - 1] == '*';
    var text := s[start..start + n - if trailing then 1 else 0];
    if text == "" then Err(EmptyString) else Ok(Value(text, KindOf(leading, trailing)), start + n)
  }

  /** A quoted value: everything up to the closing quote, stars included. */
  function QuotedValue(s: string): (r: Parsed<Value>)
    requires s != "" && s[0] == '"'
    ensures r.Ok? ==> 0 < r.used <= |s|
  {
    var close := Find(s, '"', 1);
    if close == |s| then Err(Unterminated)
    else if close == 1 then Err(EmptyQuoted)
    else Ok(Value(s[1..close], Quoted), close + 1)
  }

  function AnyValue(s: string): (r: Parsed<Value>)
    ensures r.Ok? ==> 0 < r.used <= |s|
  {
    if s != "" && s[0] == '"' then QuotedValue(s) else QueryString(s)
  }

  function ValueAfterOp(s: string): (r: Parsed<Value>)
    ensures r.Ok? ==> 0 < r.used <= |s|
  {
    if s == "" then Err(MissingValue) else AnyValue(s)
  }

  /** How a term starts: an attribute and an operator, or a bare value. */
  datatype Head = EqHead(id: nat) | NeHead(id: nat) | BareHead

  function HeadOf(s: string): (h: Head)
    ensures h.EqHead? ==> h.id < |s|
    ensures h.NeHead? ==> h.id + 1 < |s|
  {
    var id := Run(s, IsIdChar);
    if id == 0 || id == |s| then BareHead
    else if s[id] == '=' then EqHead(id)
    else if s[id] == '!' && id + 1 < |s| && s[id + 1] == '=' then NeHead(id)
    else BareHead
  }

  /** A term at the front of a text that does not start with a blank. */
  function TermAt(s: string): (r: Parsed<Term>)
    ensures r.Ok? ==> 0 < r.used <= |s|
  {
    if s == "" then Err(UnexpectedEnd)
    else
      match HeadOf(s)
      case EqHead(id) =>
        var v := ValueAfterOp(s[id + 1..]);
        if v.Err? then Err(v.error) else Ok(AttrEq(s[..id], v.value), id + 1 + v.used)
      case NeHead(id) =>
        var v := ValueAfterOp(s[id + 2..]);
        if v.Err? then Err(v.error) else Ok(AttrNe(s[..id], v.value), id + 2 + v.used)
      case BareHead =>
        var v := AnyValue(s);
        if v.Err? then Err(v.error) else Ok(Bare(v.value), v.used)
  }

  /** `parse_term`: blanks first. */
  function SpacedTerm(s: string): (r: Parsed<Term>)
    ensures r.Ok? ==> 0 < r.used <= |s|
  {
    var n := Run(s, IsBlank);
    var t := TermAt(s[n..]);
    if t.Err? then t else Ok(t.value, n + t.used)
  }

  /** The text starts with the keyword, and the keyword ends there. */
  predicate IsKeyword(s: string, kw: string) {
    |kw| <= |s| && EqualIgnoringCase(s[..|kw|], kw) && (|s| == |kw| || IsBlank(s[|kw|]))
  }

  datatype Operator = AndOp | OrOp

  function Join(op: Operator, l: Expr, t: Term): Expr {
    if op == AndOp then And(l, Leaf(t)) else Or(l, Leaf(t))
  }

  /** The operator in front of the next term, and its length; 0 if implied. */
  function OperatorAt(s: string): (r: (Operator, nat))
    ensures r.1 <= |s|
  {
    if IsKeyword(s, "and") then (AndOp, 3)
    else if IsKeyword(s, "or") then (OrOp, 2)
    else (AndOp, 0)
  }

  /** An operator, written or implied, and the term behind it. */
  function Step(s: string): (r: Parsed<(Operator, Term)>)
    ensures r.Ok? ==> 0 < r.used <= |s|
  {
    var n := Run(s, IsBlank);
    var (op, k) := OperatorAt(s[n..]);
    var t := SpacedTerm(s[n + k..]);
    if t.Err? then Err(t.error) else Ok((op, t.value), n + k + t.used)
  }

  datatype ExprResult = Good(expr: Expr) | Bad(error: ParseError)

  /** A reader of operator and term that makes progress and stays inside. */
  ghost predicate Advances(step: string -> Parsed<(Operator, Term)>) {
    forall s :: step(s).Ok? ==> 0 < step(s).used <= |s|
  }

  /** The loop of `parse_expr` on the remaining text. */
  function More(s: string, lhs: Expr, step: string -> Parsed<(Operator, Term)>): ExprResult
    requires Advances(step)
    decreases |s|
  {
    if Run(s, IsBlank) == |s| then Good(lhs)
    else
      var t := step(s);
      if t.Err? then Bad(t.error) else More(s[t.used..], Join(t.value.0, lhs, t.value.1), step)
  }

  /** `parse_expr` on a text that is one expression. */
  function ExprAt(s: string): ExprResult {
    var t := SpacedTerm(s);
    if t.Err? then Bad(t.error) else More(s[t.used..], Leaf(t.value), Step)
  }

  /** `Query::parse`. */
  function ParseQuery(input: string): ExprResult {
    var trimmed := Trim(input, IsSpace);
    if trimmed == "" then Bad(EmptyQuery) else ExprAt(trimmed)
  }
}
