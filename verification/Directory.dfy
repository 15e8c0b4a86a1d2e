/** The in-memory directory: the direct interpreter of query expressions
    (examples/in_memory_directory.rs). */
module Directory {
  import opened Text
  import opened Numerals
  import opened QueryAst

  datatype Record = Record(class_: string, id: nat, name: string, email: string)

  /** The field an attribute names, as text. */
  function Field(rec: Record, column: string): Option<string> {
    if column == "class" then Some(rec.class_)
    else if column == "id" then Some(Decimal(rec.id))
    else if column == "name" then Some(rec.name)
    else if column == "email" then Some(rec.email)
    else None
  }

  predicate EndsWith(s: string, t: string) {
    |t| <= |s| && s[|s| - |t|..] == t
  }

  predicate Contains(s: string, t: string) {
    exists i :: 0 <= i <= |s| - |t| && t <= s[i..]
  }

  /** A value against a text, both in lower case. */
  predicate TextMatches(kind: ValueKind, f: string, needle: string) {
    match kind
    case Exact => f == needle
    case Quoted => f == needle
    case Prefix => needle <= f
    case Suffix => EndsWith(f, needle)
    case Substring => Contains(f, needle)
  }

  predicate ValueMatches(field: string, v: Value) {
    TextMatches(v.kind, Lower(field), Lower(v.text))
  }

  predicate AttrEquals(rec: Record, attr: string, v: Value) {
    var f := Field(rec, Lower(attr));
    f.Some? && ValueMatches(f.value, v)
  }

  predicate AnyAttrMatches(rec: Record, v: Value) {
    ValueMatches(rec.name, v) || ValueMatches(rec.email, v) || ValueMatches(Decimal(rec.id), v)
  }

  predicate TermMatches(rec: Record, t: Term) {
    match t
    case AttrEq(attr, v) => AttrEquals(rec, attr, v)
    case AttrNe(attr, v) => !AttrEquals(rec, attr, v)
    case Bare(v) => AnyAttrMatches(rec, v)
  }

  predicate Matches(rec: Record, e: Expr) {
    match e
    case Leaf(t) => TermMatches(rec, t)
    case And(l, r) => Matches(rec, l) && Matches(rec, r)
    case Or(l, r) => Matches(rec, l) || Matches(rec, r)
  }

  /** What a value asks of a text, case ignored. */
  ghost predicate Asks(v: Value, f: string) {
    var n := |v.text|;
    match v.kind
    case Exact => HasSameLetters(f, v.text)
    case Quoted => HasSameLetters(f, v.text)
    case Prefix => n <= |f| && HasSameLetters(f[..n], v.text)
    case Suffix => n <= |f| && HasSameLetters(f[|f| - n..], v.text)
    case Substring => exists i: nat :: HoldsAt(f, i, v.text)
  }

  predicate HoldsAt(f: string, i: nat, t: string) {
    i + |t| <= |f| && HasSameLetters(f[i..i + |t|], t)
  }

  lemma {:induction false} LowerSlice(f: string, i: nat, n: nat, t: string)
    requires i + n <= |f| && n == |t|
    ensures Lower(f)[i..i + n] == Lower(t) <==> HasSameLetters(f[i..i + n], t)
  {
    assert Lower(f)[i..i + n] == Lower(f[i..i + n]);
    IgnoringCaseMeans(f[i..i + n], t);
  }

  lemma {:induction false} ContainsMeans(f: string, t: string)
    ensures Contains(Lower(f), Lower(t)) <==> exists i: nat :: HoldsAt(f, i, t)
  {
    hide HasSameLetters;
    var low, n := Lower(f), |t|;
    forall i: nat | i <= |f| - n ensures Lower(t) <= low[i..] <==> HoldsAt(f, i, t) {
      LowerSlice(f, i, n, t);
      assert low[i..][..n] == low[i..i + n];
    }
    if Contains(low, Lower(t)) {
      var i :| 0 <= i <= |low| - n && Lower(t) <= low[i..];
      assert HoldsAt(f, i, t);
    }
    if i: nat :| HoldsAt(f, i, t) {
      assert i <= |f| - n && Lower(t) <= low[i..];
    }
  }

  lemma {:induction false} EndsMean(f: string, t: string)
    ensures Lower(t) <= Lower(f) <==> |t| <= |f| && HasSameLetters(f[..|t|], t)
    ensures EndsWith(Lower(f), Lower(t)) <==> |t| <= |f| && HasSameLetters(f[|f| - |t|..], t)
  {
    hide HasSameLetters;
    var n, low := |t|, Lower(f);
    if n <= |f| {
      LowerSlice(f, 0, n, t);
      LowerSlice(f, |f| - n, n, t);
      assert low[0..n] == low[..n] && f[0..n] == f[..n];
      assert low[|f| - n..] == low[|f| - n..|f| - n + n] && f[|f| - n..] == f[|f| - n..|f| - n + n];
    }
  }

  lemma {:induction false} ValueMeans(f: string, v: Value)
    ensures ValueMatches(f, v) <==> Asks(v, f)
  {
    hide HasSameLetters, Contains, EndsWith;
    IgnoringCaseMeans(f, v.text);
    EndsMean(f, v.text);
    ContainsMeans(f, v.text);
  }

  /** The field an attribute names, in any case, answers to a value. */
  ghost predicate FieldAsks(rec: Record, attr: string, v: Value) {
    || (HasSameLetters(attr, "class") && Asks(v, rec.class_))
    || (HasSameLetters(attr, "id") && Asks(v, Decimal(rec.id)))
    || (HasSameLetters(attr, "name") && Asks(v, rec.name))
    || (HasSameLetters(attr, "email") && Asks(v, rec.email))
  }

  lemma {:induction false} ColumnNames(attr: string)
    ensures Lower(attr) == "class" <==> HasSameLetters(attr, "class")
    ensures Lower(attr) == "id" <==> HasSameLetters(attr, "id")
    ensures Lower(attr) == "name" <==> HasSameLetters(attr, "name")
    ensures Lower(attr) == "email" <==> HasSameLetters(attr, "email")
  {
    IgnoringCaseMeans(attr, "class");
    IgnoringCaseMeans(attr, "id");
    IgnoringCaseMeans(attr, "name");
    IgnoringCaseMeans(attr, "email");
    assert Lower("class") == "class" && Lower("id") == "id" && Lower("name") == "name" && Lower("email") == "email";
  }

  /** What a term asks of a record: a field, in any case, to answer to the value or not
      to; or, without an attribute, the name, the email or the id to. */
  lemma {:induction false} TermMeans(rec: Record, t: Term)
    ensures TermMatches(rec, t)
            <==> match t
                 case AttrEq(attr, v) => FieldAsks(rec, attr, v)
                 case AttrNe(attr, v) => !FieldAsks(rec, attr, v)
                 case Bare(v) => Asks(v, rec.name) || Asks(v, rec.email) || Asks(v, Decimal(rec.id))
  {
    hide Asks, ValueMatches;
    ValueMeans(rec.class_, t.value);
    ValueMeans(Decimal(rec.id), t.value);
    ValueMeans(rec.name, t.value);
    ValueMeans(rec.email, t.value);
    if !t.Bare? {
      ColumnNames(t.attr);
    }
  }

  /** The class restriction and the expression together. */
  predicate Answers(rec: Record, q: Query) {
    && (q.class_.Some? ==> EqualIgnoringCase(q.class_.value, rec.class_))
    && Matches(rec, q.expr)
  }
}

/** The part of SQL that the compiler emits: comparisons of lower-cased columns
    with placeholders, joined by AND and OR, where AND binds tighter, with
    parentheses. Placeholders take the bound values from left to right. */
module SqlText {
  import opened Text
  import opened Directory

  /** `LIKE` on texts in one case: `%` stands for any text, `_` for any character. */
  predicate Like(s: string, p: string)
    decreases |s| + |p|
  {
    if p == "" then s == ""
    else if p[0] == '%' then Like(s, p[1..]) || (s != "" && Like(s[1..], p))
    else s != "" && (p[0] == '_' || p[0] == s[0]) && Like(s[1..], p[1..])
  }

  /** A condition read off the front of a text: its truth, the text behind it and
      the values not yet bound. */
  datatype Cond = Cond(holds: bool, rest: string, binds: seq<string>) | Malformed

  /** Behind `LOWER(`: a column, and the comparison. */
  function Comparison(rec: Record, s: string, binds: seq<string>): (c: Cond)
    ensures c.Cond? ==> |c.rest| < |s|
  {
    var k := Find(s, ')', 0);
    if k == |s| || binds == [] || Field(rec, s[..k]).None? then Malformed
    else
      var f, b, t, more := Lower(Field(rec, s[..k]).value), binds[0], s[k + 1..], binds[1..];
      if StripPrefix(" = ?", t).Some? then Cond(f == b, StripPrefix(" = ?", t).value, more)
      else if StripPrefix(" LIKE ?", t).Some? then Cond(Like(f, Lower(b)), StripPrefix(" LIKE ?", t).value, more)
      else if StripPrefix(" = LOWER(?)", t).Some? then Cond(f == Lower(b), StripPrefix(" = LOWER(?)", t).value, more)
      else Malformed
  }

  function Atom(rec: Record, s: string, binds: seq<string>): (c: Cond)
    ensures c.Cond? ==> |c.rest| < |s|
    decreases |s|, 0
  {
    if StripPrefix("LOWER(", s).Some? then Comparison(rec, StripPrefix("LOWER(", s).value, binds)
    else if StripPrefix("(", s).Some? then
      var c := Disjunction(rec, StripPrefix("(", s).value, binds);
      if c.Cond? && StripPrefix(")", c.rest).Some? then Cond(c.holds, StripPrefix(")", c.rest).value, c.binds)
          else Malformed
    else Malformed
  }

  function MoreAnds(rec: Record, c: Cond): (d: Cond)
    ensures d.Cond? ==> c.Cond? && |d.rest| <= |c.rest|
    decreases if c.Cond? then |c.rest| else 0, 1
  {
    if c.Cond? && StripPrefix(" AND ", c.rest).Some? then
      var d := Atom(rec, StripPrefix(" AND ", c.rest).value, c.binds);
      if d.Cond? then MoreAnds(rec, Cond(c.holds && d.holds, d.rest, d.binds)) else Malformed
    else c
  }

  function Conjunction(rec: Record, s: string, binds: seq<string>): (c: Cond)
    ensures c.Cond? ==> |c.rest| < |s|
    decreases |s|, 2
  {
    MoreAnds(rec, Atom(rec, s, binds))
  }

  function MoreOrs(rec: Record, c: Cond): (d: Cond)
    ensures d.Cond? ==> c.Cond? && |d.rest| <= |c.rest|
    decreases if c.Cond? then |c.rest| else 0, 3
  {
    if c.Cond? && StripPrefix(" OR ", c.rest).Some? then
      var d := Conjunction(rec, StripPrefix(" OR ", c.rest).value, c.binds);
      if d.Cond? then MoreOrs(rec, Cond(c.holds || d.holds, d.rest, d.binds)) else Malformed
    else c
  }

  function Disjunction(rec: Record, s: string, binds: seq<string>): (c: Cond)
    ensures c.Cond? ==> |c.rest| < |s|
    decreases |s|, 4
  {
    MoreOrs(rec, Conjunction(rec, s, binds))
  }

  const SELECT := "SELECT class, id, name, email FROM record WHERE "
  const ORDER := " ORDER BY class, id"

  /** A row of the table is selected by a statement; None when the statement or
      the number of values is wrong. */
  function Selects(rec: Record, statement: string, binds: seq<string>): Option<bool> {
    if StripPrefix(SELECT, statement).None? then None
    else
      var c := Disjunction(rec, StripPrefix(SELECT, statement).value, binds);
      if c.Cond? && c.rest == ORDER && c.binds == [] then Some(c.holds) else None
  }
}
