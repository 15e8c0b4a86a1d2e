/** The compiled statement selects what the in-memory directory answers. */
module SqlCorrect {
  import opened Text
  import opened Numerals
  import opened QueryAst
  import opened Directory
  import opened SqlText
  import opened SqlCompiler
  import opened SqlMeaning

  // ---- Reading the emitted text -------------------------------------------

  /** The comparison of one column. */
  predicate FieldHolds(field: string, v: Value) {
    SqlMatches(v.kind, Lower(field), Lower(v.text))
  }

  lemma {:induction false} BindIsLower(v: Value)
    ensures Lower(Bind(v)) == Bind(v)
  {
  }

  lemma {:induction false} ComparisonReads(rec: Record, column: string, v: Value, rest: string, binds: seq<string>)
    requires IsColumn(column)
    ensures Comparison(rec, column + (")" + (Comparator(v.kind) + rest)), [Bind(v)] + binds)
            == Cond(FieldHolds(Field(rec, column).value, v), rest, binds)
  {
    var s := column + (")" + (Comparator(v.kind) + rest));
    ColumnEnds(column, Comparator(v.kind) + rest);
    StripPrefixIs(Comparator(v.kind), rest);
    BindIsLower(v);
    assert ([Bind(v)] + binds)[1..] == binds;
    if IsWildKind(v.kind) {
      StripPrefixDiffers(" = ?", " LIKE ?", rest, 1);
    }
  }

  lemma {:induction false} ColumnEnds(column: string, t: string)
    requires IsColumn(column)
    ensures var s := column + (")" + t);
            Find(s, ')', 0) == |column| && s[..|column|] == column && s[|column| + 1..] == t
  {
    var s := column + (")" + t);
    assert forall i :: 0 <= i < |column| ==> s[i] == column[i] && column[i] != ')';
    FindIs(s, ')', 0, |column|);
  }

  lemma {:induction false} AttrReads(rec: Record, column: string, v: Value, rest: string, binds: seq<string>)
    requires IsColumn(column)
    ensures Atom(rec, AttrText(column, v) + rest, [Bind(v)] + binds)
            == Cond(FieldHolds(Field(rec, column).value, v), rest, binds)
  {
    var t := column + (")" + (Comparator(v.kind) + rest));
    assert AttrText(column, v) + rest == "LOWER(" + t;
    StripPrefixIs("LOWER(", t);
    ComparisonReads(rec, column, v, rest, binds);
  }

  /** A condition at the end of a conjunction. */
  lemma {:induction false} NoMoreAnds(rec: Record, c: Cond)
    requires c.Cond? && !(" AND " <= c.rest)
    ensures MoreAnds(rec, c) == c
  {
  }

  lemma {:induction false} NoMoreOrs(rec: Record, c: Cond)
    requires c.Cond? && !(" OR " <= c.rest)
    ensures MoreOrs(rec, c) == c
  {
  }

  lemma {:induction false} OneMoreAnd(rec: Record, c: Cond, s: string, d: Cond)
    requires c.Cond? && c.rest == " AND " + s && Atom(rec, s, c.binds) == d && d.Cond?
    ensures MoreAnds(rec, c) == MoreAnds(rec, Cond(c.holds && d.holds, d.rest, d.binds))
  {
    StripPrefixIs(" AND ", s);
  }

  lemma {:induction false} OneMoreOr(rec: Record, c: Cond, s: string, d: Cond)
    requires c.Cond? && c.rest == " OR " + s && Conjunction(rec, s, c.binds) == d && d.Cond?
    ensures MoreOrs(rec, c) == MoreOrs(rec, Cond(c.holds || d.holds, d.rest, d.binds))
  {
    StripPrefixIs(" OR ", s);
  }

  lemma {:induction false} InParentheses(rec: Record, s: string, binds: seq<string>, c: Cond, rest: string)
    requires Disjunction(rec, s, binds) == c && c.Cond? && c.rest == ")" + rest
    ensures Atom(rec, "(" + s, binds) == Cond(c.holds, rest, c.binds)
  {
    StripPrefixDiffers("LOWER(", "(", s, 0);
    StripPrefixIs("(", s);
    StripPrefixIs(")", rest);
  }

  /** `(a AND b)` */
  lemma {:induction false} AndReads(
      rec: Record, s: string, binds: seq<string>, c: Cond, t: string, d: Cond, rest: string)
    requires Atom(rec, s, binds) == c && c.Cond? && c.rest == " AND " + t
    requires Atom(rec, t, c.binds) == d && d.Cond? && d.rest == ")" + rest
    ensures Atom(rec, "(" + s, binds) == Cond(c.holds && d.holds, rest, d.binds)
  {
    var both := Cond(c.holds && d.holds, d.rest, d.binds);
    OneMoreAnd(rec, c, t, d);
    StripPrefixDiffers(" AND ", ")", rest, 0);
    StripPrefixDiffers(" OR ", ")", rest, 0);
    NoMoreAnds(rec, both);
    NoMoreOrs(rec, both);
    InParentheses(rec, s, binds, both, rest);
  }

  /** An operand of an OR. */
  lemma {:induction false} OperandOfOr(rec: Record, s: string, binds: seq<string>, c: Cond)
    requires Atom(rec, s, binds) == c && c.Cond? && !(" AND " <= c.rest)
    ensures Conjunction(rec, s, binds) == c
  {
    NoMoreAnds(rec, c);
  }

  /** `(a OR b)` */
  lemma {:induction false} OrReads(
      rec: Record, s: string, binds: seq<string>, c: Cond, t: string, d: Cond, rest: string)
    requires Atom(rec, s, binds) == c && c.Cond? && c.rest == " OR " + t
    requires Atom(rec, t, c.binds) == d && d.Cond? && d.rest == ")" + rest
    ensures Atom(rec, "(" + s, binds) == Cond(c.holds || d.holds, rest, d.binds)
  {
    var both := Cond(c.holds || d.holds, d.rest, d.binds);
    StripPrefixDiffers(" AND ", " OR ", t, 1);
    StripPrefixDiffers(" AND ", ")", rest, 0);
    StripPrefixDiffers(" OR ", ")", rest, 0);
    OperandOfOr(rec, s, binds, c);
    OperandOfOr(rec, t, c.binds, d);
    OneMoreOr(rec, c, t, d);
    NoMoreOrs(rec, both);
    InParentheses(rec, s, binds, both, rest);
  }

  /** `(a OR b OR c)` */
  lemma {:induction false} ThreeOrsRead(
      rec: Record, s: string, binds: seq<string>, c: Cond, t: string, d: Cond, u: string, e: Cond, rest: string)
    requires Atom(rec, s, binds) == c && c.Cond? && c.rest == " OR " + t
    requires Atom(rec, t, c.binds) == d && d.Cond? && d.rest == " OR " + u
    requires Atom(rec, u, d.binds) == e && e.Cond? && e.rest == ")" + rest
    ensures Atom(rec, "(" + s, binds) == Cond(c.holds || d.holds || e.holds, rest, e.binds)
  {
    var two := Cond(c.holds || d.holds, d.rest, d.binds);
    var all := Cond(c.holds || d.holds || e.holds, e.rest, e.binds);
    StripPrefixDiffers(" AND ", " OR ", t, 1);
    StripPrefixDiffers(" AND ", " OR ", u, 1);
    StripPrefixDiffers(" AND ", ")", rest, 0);
    StripPrefixDiffers(" OR ", ")", rest, 0);
    OperandOfOr(rec, s, binds, c);
    OperandOfOr(rec, t, c.binds, d);
    OperandOfOr(rec, u, d.binds, e);
    OneMoreOr(rec, c, t, d);
    OneMoreOr(rec, two, u, e);
    NoMoreOrs(rec, all);
    InParentheses(rec, s, binds, all, rest);
  }

  // ---- The meaning of the emitted text ------------------------------------

  predicate AttrHolds(rec: Record, column: string, v: Value) {
    var f := Field(rec, column);
    f.Some? && FieldHolds(f.value, v)
  }

  /** The expression under SQL comparisons. */
  predicate HoldsInSql(rec: Record, e: Expr) {
    match e
    case And(l, r) => HoldsInSql(rec, l) && HoldsInSql(rec, r)
    case Or(l, r) => HoldsInSql(rec, l) || HoldsInSql(rec, r)
    case Leaf(AttrEq(attr, v)) => AttrHolds(rec, Lower(attr), v)
    case Leaf(AttrNe(attr, v)) => !AttrHolds(rec, Lower(attr), v)
    case Leaf(Bare(v)) => AttrHolds(rec, "name", v) || AttrHolds(rec, "email", v) || AttrHolds(rec, "id", v)
  }

  lemma {:induction false} BareReads(rec: Record, v: Value, rest: string, binds: seq<string>)
    ensures Atom(rec, ExprText(Leaf(Bare(v))) + rest, ExprBinds(Leaf(Bare(v))) + binds)
            == Cond(HoldsInSql(rec, Leaf(Bare(v))), rest, binds)
  {
    var b := Bind(v);
    var u := AttrText("id", v) + (")" + rest);
    var t := AttrText("email", v) + (" OR " + u);
    var s := AttrText("name", v) + (" OR " + t);
    var bu, bt, bs := [b] + binds, [b] + ([b] + binds), [b] + ([b] + ([b] + binds));
    AttrReads(rec, "id", v, ")" + rest, binds);
    AttrReads(rec, "email", v, " OR " + u, bu);
    AttrReads(rec, "name", v, " OR " + t, bt);
    ThreeOrsRead(rec, s, bs, Atom(rec, s, bs), t, Atom(rec, t, bt), u, Atom(rec, u, bu), rest);
    BareText(AttrText("name", v), AttrText("email", v), AttrText("id", v), rest);
    ThreeBinds(b, binds);
  }

  lemma {:induction false} ThreeBinds(b: string, binds: seq<string>)
    ensures [b, b, b] + binds == [b] + ([b] + ([b] + binds))
  {
  }

  lemma {:induction false} BareText(a: string, b: string, c: string, rest: string)
    ensures ("(" + (a + (" OR " + (b + (" OR " + (c + ")")))))) + rest
         == "(" + (a + (" OR " + (b + (" OR " + (c + (")" + rest))))))
  {
  }

  lemma {:induction false} PairText(a: string, op: string, b: string, rest: string)
    ensures ("(" + (a + (op + (b + ")")))) + rest == "(" + (a + (op + (b + (")" + rest))))
  {
  }

  /** The text of an expression is read, wherever it stands, as one condition with
      the meaning of the expression, and takes exactly its own values. */
  lemma {:induction false} ExprReads(rec: Record, e: Expr, rest: string, binds: seq<string>)
    requires FirstError(e).None?
    ensures Atom(rec, ExprText(e) + rest, ExprBinds(e) + binds) == Cond(HoldsInSql(rec, e), rest, binds)
    decreases e
  {
    match e
    case And(l, r) =>
      PairReads(rec, e, " AND ", rest, binds);
    case Or(l, r) =>
      PairReads(rec, e, " OR ", rest, binds);
    case Leaf(AttrEq(attr, v)) =>
      AttrReads(rec, Lower(attr), v, rest, binds);
    case Leaf(Bare(v)) =>
      BareReads(rec, v, rest, binds);
  }

  lemma {:induction false} PairReads(rec: Record, e: Expr, op: string, rest: string, binds: seq<string>)
    requires FirstError(e).None? && ((e.And? && op == " AND ") || (e.Or? && op == " OR "))
    ensures Atom(rec, ExprText(e) + rest, ExprBinds(e) + binds) == Cond(HoldsInSql(rec, e), rest, binds)
    decreases e, 0
  {
    ExprReads(rec, e.right, ")" + rest, binds);
    ExprReads(rec, e.left, op + (ExprText(e.right) + (")" + rest)), ExprBinds(e.right) + binds);
    TextsRead(rec, op, ExprText(e.left), ExprBinds(e.left), HoldsInSql(rec, e.left),
              ExprText(e.right), ExprBinds(e.right), HoldsInSql(rec, e.right), rest, binds);
  }

  /** Two texts that each read as a condition, joined and in parentheses. */
  lemma {:induction false} TextsRead(rec: Record, op: string, a: string, ba: seq<string>, x: bool,
                                     b: string, bb: seq<string>, y: bool, rest: string, binds: seq<string>)
    requires op == " AND " || op == " OR "
    requires Atom(rec, a + (op + (b + (")" + rest))), ba + (bb + binds))
             == Cond(x, op + (b + (")" + rest)), bb + binds)
    requires Atom(rec, b + (")" + rest), bb + binds) == Cond(y, ")" + rest, binds)
    ensures Atom(rec, ("(" + (a + (op + (b + ")")))) + rest, (ba + bb) + binds)
            == Cond(if op == " AND " then x && y else x || y, rest, binds)
  {
    var t := b + (")" + rest);
    var c, d := Cond(x, op + t, bb + binds), Cond(y, ")" + rest, binds);
    if op == " AND " {
      AndReads(rec, a + (op + t), ba + (bb + binds), c, t, d, rest);
    } else {
      OrReads(rec, a + (op + t), ba + (bb + binds), c, t, d, rest);
    }
    PairText(a, op, b, rest);
    assert (ba + bb) + binds == ba + (bb + binds);
  }

  // ---- Against the in-memory directory ------------------------------------

  /** No wildcard needle of the expression has `%` or `_` in it. */
  predicate HasPlainNeedles(e: Expr) {
    match e
    case Leaf(t) => IsWildKind(t.value.kind) ==> IsPlain(Lower(t.value.text))
    case And(l, r) => HasPlainNeedles(l) && HasPlainNeedles(r)
    case Or(l, r) => HasPlainNeedles(l) && HasPlainNeedles(r)
  }

  lemma {:induction false} FieldAgrees(field: string, v: Value)
    requires IsWildKind(v.kind) ==> IsPlain(Lower(v.text))
    ensures FieldHolds(field, v) == ValueMatches(field, v)
  {
    PlainAgrees(v.kind, Lower(field), Lower(v.text));
  }

  lemma {:induction false} AttrAgrees(rec: Record, column: string, v: Value)
    requires IsWildKind(v.kind) ==> IsPlain(Lower(v.text))
    ensures AttrHolds(rec, column, v) == (Field(rec, column).Some? && ValueMatches(Field(rec, column).value, v))
  {
    if Field(rec, column).Some? {
      FieldAgrees(Field(rec, column).value, v);
    }
  }

  lemma {:induction false} ExprAgrees(rec: Record, e: Expr)
    requires HasPlainNeedles(e)
    ensures HoldsInSql(rec, e) == Matches(rec, e)
  {
    match e
    case And(l, r) =>
      ExprAgrees(rec, l);
      ExprAgrees(rec, r);
    case Or(l, r) =>
      ExprAgrees(rec, l);
      ExprAgrees(rec, r);
    case Leaf(AttrEq(attr, v)) =>
      AttrAgrees(rec, Lower(attr), v);
    case Leaf(AttrNe(attr, v)) =>
      AttrAgrees(rec, Lower(attr), v);
    case Leaf(Bare(v)) =>
      AttrAgrees(rec, "name", v);
      AttrAgrees(rec, "email", v);
      AttrAgrees(rec, "id", v);
  }

  const FILTER := "LOWER(class) = LOWER(?)"

  /** The class filter behind the expression. */
  lemma {:induction false} ClassFilterReads(rec: Record, c: string, rest: string)
    ensures Atom(rec, FILTER + rest, [c]) == Cond(Lower(rec.class_) == Lower(c), rest, [])
  {
    var tail := " = LOWER(?)" + rest;
    var t := "class" + (")" + tail);
    assert FILTER + rest == "LOWER(" + t;
    StripPrefixIs("LOWER(", t);
    ColumnEnds("class", tail);
    StripPrefixDiffers(" = ?", " = LOWER(?)", rest, 3);
    StripPrefixDiffers(" LIKE ?", " = LOWER(?)", rest, 1);
    StripPrefixIs(" = LOWER(?)", rest);
  }

  lemma {:induction false} OrderEnds()
    ensures !(" AND " <= ORDER) && !(" OR " <= ORDER)
  {
    assert ORDER[1] == 'O' && ORDER[3] == 'D';
  }

  lemma {:induction false} FilterText(rest: string)
    ensures CLASS_FILTER + rest == " AND " + (FILTER + rest)
  {
    assert CLASS_FILTER == " AND " + FILTER;
  }

  lemma {:induction false} NoFilterReads(rec: Record, c: Cond)
    requires c.Cond? && !(" AND " <= c.rest) && !(" OR " <= c.rest)
    ensures MoreOrs(rec, MoreAnds(rec, c)) == c
  {
    NoMoreAnds(rec, c);
    NoMoreOrs(rec, c);
  }

  lemma {:induction false} FilterReads(rec: Record, c: Cond, class_: string, rest: string)
    requires c.Cond? && c.rest == CLASS_FILTER + rest && c.binds == [class_]
    requires !(" AND " <= rest) && !(" OR " <= rest)
    ensures MoreOrs(rec, MoreAnds(rec, c)) == Cond(c.holds && Lower(rec.class_) == Lower(class_), rest, [])
  {
    FilterText(rest);
    ClassFilterReads(rec, class_, rest);
    var d := Atom(rec, FILTER + rest, [class_]);
    OneMoreAnd(rec, c, FILTER + rest, d);
    NoFilterReads(rec, Cond(c.holds && d.holds, rest, []));
  }

  /** The WHERE clause of a statement. */
  lemma {:induction false} WhereReads(rec: Record, q: Query)
    requires FirstError(q.expr).None?
    ensures Disjunction(rec, ExprText(q.expr) + Ending(q), StatementBinds(q))
            == Cond(HoldsInSql(rec, q.expr)
                && (q.class_.Some? ==> EqualIgnoringCase(q.class_.value, rec.class_)), ORDER, [])
  {
    var more := if q.class_.Some? then [q.class_.value] else [];
    ExprReads(rec, q.expr, Ending(q), more);
    OrderEnds();
    var c := Cond(HoldsInSql(rec, q.expr), Ending(q), more);
    if q.class_.Some? {
      FilterReads(rec, c, q.class_.value, ORDER);
    } else {
      NoFilterReads(rec, c);
    }
  }

  /** The statement is well formed, uses up its values, and means the expression
      under SQL comparisons together with the class filter: the parentheses keep
      the filter outside every OR. */
  lemma {:induction false} StatementMeans(rec: Record, q: Query)
    requires FirstError(q.expr).None?
    ensures Selects(rec, Statement(q), StatementBinds(q))
            == Some(HoldsInSql(rec, q.expr) && (q.class_.Some? ==> EqualIgnoringCase(q.class_.value, rec.class_)))
  {
    StripPrefixIs(SELECT, ExprText(q.expr) + Ending(q));
    WhereReads(rec, q);
  }

  /** For every query that compiles and whose wildcard needles are plain, and for
      every row, the statement selects the row exactly when the in-memory
      directory answers it. */
  lemma {:induction false} SelectsWhatAnswers(rec: Record, q: Query)
    requires FirstError(q.expr).None? && HasPlainNeedles(q.expr)
    ensures Selects(rec, Statement(q), StatementBinds(q)) == Some(Answers(rec, q))
  {
    StatementMeans(rec, q);
    ExprAgrees(rec, q.expr);
  }

  /** A text column, and a record with a given text in it. */
  function WithText(column: string, text: string): Record {
    if column == "name" then Record("", 0, text, "")
    else if column == "email" then Record("", 0, "", text)
    else Record(text, 0, "", "")
  }

  lemma {:induction false} OneTermDiffers(attr: string, v: Value) returns (rec: Record)
    requires Lower(attr) == "name" || Lower(attr) == "email" || Lower(attr) == "class"
    requires !HasPlainNeedles(Leaf(AttrEq(attr, v)))
    ensures HoldsInSql(rec, Leaf(AttrEq(attr, v))) && !Matches(rec, Leaf(AttrEq(attr, v)))
  {
    var n := Lower(v.text);
    var k :| 0 <= k < |n| && IsWild(n[k]);
    var f := n[k := 'a'];
    WildDiffers(v.kind, n, k);
    assert Lower(f) == f;
    rec := WithText(Lower(attr), f);
    assert Field(rec, Lower(attr)) == Some(f);
  }

  /** For one comparison of a text column the condition is exact: some row tells
      the two directories apart as soon as the needle has a `%` or a `_`. */
  lemma {:induction false} OneTermExactly(attr: string, v: Value)
    requires Lower(attr) == "name" || Lower(attr) == "email" || Lower(attr) == "class"
    ensures var q := Query(None, Leaf(AttrEq(attr, v)), "");
            (forall rec :: Selects(rec, Statement(q), StatementBinds(q)) == Some(Answers(rec, q)))
            <==> HasPlainNeedles(q.expr)
  {
    var q := Query(None, Leaf(AttrEq(attr, v)), "");
    if HasPlainNeedles(q.expr) {
      forall rec
        ensures Selects(rec, Statement(q), StatementBinds(q)) == Some(Answers(rec, q))
      {
        SelectsWhatAnswers(rec, q);
      }
    } else {
      var rec := OneTermDiffers(attr, v);
      StatementMeans(rec, q);
    }
  }
}
