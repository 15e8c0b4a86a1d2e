/** The compiler from query expressions to SQL (examples/sqlite_directory.rs). */
module SqlCompiler {
  import opened Text
  import opened Numerals
  import opened QueryAst
  import opened Directory
  import opened SqlText

  datatype CompileError = NotEqualUnsupported | UnknownAttribute(name: string)

  predicate IsColumn(s: string) {
    s == "id" || s == "name" || s == "email" || s == "class"
  }

  function Comparator(kind: ValueKind): string {
    if kind == Exact || kind == Quoted then " = ?" else " LIKE ?"
  }

  /** The value bound for a needle. */
  function Pattern(kind: ValueKind, needle: string): string {
    match kind
    case Exact => needle
    case Quoted => needle
    case Prefix => needle + "%"
    case Suffix => "%" + needle
    case Substring => "%" + (needle + "%")
  }

  function AttrText(column: string, v: Value): string {
    "LOWER(" + (column + (")" + Comparator(v.kind)))
  }

  function Bind(v: Value): string {
    Pattern(v.kind, Lower(v.text))
  }

  function ExprText(e: Expr): string {
    match e
    case And(l, r) => "(" + (ExprText(l) + (" AND " + (ExprText(r) + ")")))
    case Or(l, r) => "(" + (ExprText(l) + (" OR " + (ExprText(r) + ")")))
    case Leaf(AttrEq(attr, v)) => AttrText(Lower(attr), v)
    case Leaf(AttrNe(attr, v)) => ""
    case Leaf(Bare(v)) =>
      "(" + (AttrText("name", v) + (" OR " + (AttrText("email", v) + (" OR " + (AttrText("id", v) + ")")))))
  }

  function ExprBinds(e: Expr): seq<string> {
    match e
    case And(l, r) => ExprBinds(l) + ExprBinds(r)
    case Or(l, r) => ExprBinds(l) + ExprBinds(r)
    case Leaf(AttrEq(attr, v)) => [Bind(v)]
    case Leaf(AttrNe(attr, v)) => []
    case Leaf(Bare(v)) => [Bind(v), Bind(v), Bind(v)]
  }

  /** The first term, from the left, that cannot be compiled. */
  function FirstError(e: Expr): Option<CompileError> {
    match e
    case And(l, r) => if FirstError(l).Some? then FirstError(l) else FirstError(r)
    case Or(l, r) => if FirstError(l).Some? then FirstError(l) else FirstError(r)
    case Leaf(AttrEq(attr, v)) => if IsColumn(Lower(attr)) then None else Some(UnknownAttribute(Lower(attr)))
    case Leaf(AttrNe(attr, v)) => Some(NotEqualUnsupported)
    case Leaf(Bare(v)) => None
  }

  // ---- The compiler -------------------------------------------------------

  class SqlBuilder {
    var sql: string
    var binds: seq<string>

    constructor ()
      ensures sql == "" && binds == []
    {
      sql, binds := "", [];
    }

    method PushAttrMatch(attr: string, v: Value) returns (error: Option<CompileError>)
      modifies this
      ensures error == if IsColumn(Lower(attr)) then None else Some(UnknownAttribute(Lower(attr)))
      ensures error.None? ==> sql == old(sql) + AttrText(Lower(attr), v) && binds == old(binds) + [Bind(v)]
      ensures error.Some? ==> sql == old(sql) && binds == old(binds)
    {
      var column := Lower(attr);
      if !(column == "id" || column == "name" || column == "email" || column == "class") {
        return Some(UnknownAttribute(column));
      }
      var needle := Lower(v.text);
      match v.kind {
        case Exact =>
          sql := sql + ("LOWER(" + (column + (")" + " = ?")));
          binds := binds + [needle];
        case Quoted =>
          sql := sql + ("LOWER(" + (column + (")" + " = ?")));
          binds := binds + [needle];
        case Prefix =>
          sql := sql + ("LOWER(" + (column + (")" + " LIKE ?")));
          binds := binds + [needle + "%"];
        case Suffix =>
          sql := sql + ("LOWER(" + (column + (")" + " LIKE ?")));
          binds := binds + ["%" + needle];
        case Substring =>
          sql := sql + ("LOWER(" + (column + (")" + " LIKE ?")));
          binds := binds + ["%" + (needle + "%")];
      }
      return None;
    }

    /** A bare value: any of three columns. */
    method PushAnyMatch(v: Value)
      modifies this
      ensures sql == old(sql) + ExprText(Leaf(Bare(v))) && binds == old(binds) + ExprBinds(Leaf(Bare(v)))
    {
      LowerIs("name");
      LowerIs("email");
      LowerIs("id");
      sql := sql + "(";
      var error := PushAttrMatch("name", v);
      sql := sql + " OR ";
      error := PushAttrMatch("email", v);
      sql := sql + " OR ";
      assert binds == old(binds) + [Bind(v), Bind(v)];
      error := PushAttrMatch("id", v);
      sql := sql + ")";
      AnyJoined(old(sql), AttrText("name", v), AttrText("email", v), AttrText("id", v));
    }

    /** Two operands and the operator between them, in parentheses. */
    method PushPair(e: Expr, op: string) returns (error: Option<CompileError>)
      requires !e.Leaf?
      modifies this
      ensures error == FirstError(e)
      ensures error.None? ==>
                && sql == old(sql) + ("(" + (ExprText(e.left) + (op + (ExprText(e.right) + ")"))))
                && binds == old(binds) + (ExprBinds(e.left) + ExprBinds(e.right))
      decreases e, 0
    {
      hide ExprText, ExprBinds;
      sql := sql + "(";
      error := LowerToSql(e.left);
      if error.Some? {
        return;
      }
      sql := sql + op;
      error := LowerToSql(e.right);
      if error.Some? {
        return;
      }
      sql := sql + ")";
      Joined(old(sql), "(", ExprText(e.left), op, ExprText(e.right), ")");
      SumOfSums(old(binds), ExprBinds(e.left), ExprBinds(e.right));
    }

    /** The text and the values of the expression are appended, in order; the
        first term that has no SQL form is the error. */
    method LowerToSql(e: Expr) returns (error: Option<CompileError>)
      modifies this
      ensures error == FirstError(e)
      ensures error.None? ==> sql == old(sql) + ExprText(e) && binds == old(binds) + ExprBinds(e)
      decreases e, 1
    {
      match e {
        case And(l, r) =>
          error := PushPair(e, " AND ");
        case Or(l, r) =>
          error := PushPair(e, " OR ");
        case Leaf(AttrEq(attr, v)) =>
          error := PushAttrMatch(attr, v);
        case Leaf(AttrNe(attr, v)) =>
          return Some(NotEqualUnsupported);
        case Leaf(Bare(v)) =>
          PushAnyMatch(v);
          return None;
      }
    }
  }

  lemma {:induction false} Joined(s: string, a: string, b: string, c: string, d: string, e: string)
    ensures s + a + b + c + d + e == s + (a + (b + (c + (d + e))))
  {
  }

  lemma {:induction false} AnyJoined(s: string, a: string, b: string, c: string)
    ensures s + "(" + a + " OR " + b + " OR " + c + ")"
         == s + ("(" + (a + (" OR " + (b + (" OR " + (c + ")"))))))
  {
    Joined(s, "(", a, " OR ", b, " OR ");
    assert "(" + (a + (" OR " + (b + " OR "))) + (c + ")") == "(" + (a + (" OR " + (b + (" OR " + (c + ")")))));
  }

  lemma {:induction false} LowerIs(s: string)
    ensures (forall i :: 0 <= i < |s| ==> !('A' <= s[i] <= 'Z')) ==> Lower(s) == s
  {
  }

  const CLASS_FILTER := " AND LOWER(class) = LOWER(?)"

  /** What follows the expression in a statement. */
  function Ending(q: Query): string {
    if q.class_.Some? then CLASS_FILTER + ORDER else ORDER
  }

  function Statement(q: Query): string {
    SELECT + (ExprText(q.expr) + Ending(q))
  }

  function StatementBinds(q: Query): seq<string> {
    ExprBinds(q.expr) + if q.class_.Some? then [q.class_.value] else []
  }

  /** The statement and the values of `handle`. */
  method Prepare(q: Query) returns (error: Option<CompileError>, statement: string, binds: seq<string>)
    ensures error == FirstError(q.expr)
    ensures error.None? ==> statement == Statement(q) && binds == StatementBinds(q)
  {
    var b := new SqlBuilder();
    statement, binds := "", [];
    error := b.LowerToSql(q.expr);
    if error.Some? {
      return;
    }
    var where := b.sql;
    assert where == "" + ExprText(q.expr) == ExprText(q.expr);
    statement := SELECT;
    statement := statement + where;
    if q.class_.Some? {
      statement := statement + CLASS_FILTER;
    }
    statement := statement + ORDER;
    binds := b.binds;
    if q.class_.Some? {
      binds := binds + [q.class_.value];
    }
  }
}
