/** Printing a query tree with explicit operators, and why parsing the print gives
    the tree back. */
module QueryPrint {
  import opened Text
  import opened QueryAst
  import opened QueryGrammar

  function PrintValue(v: Value): string {
    match v.kind
    case Exact => v.text
    case Prefix => v.text + "*"
    case Suffix => "*" + v.text
    case Substring => "*" + v.text + "*"
    case Quoted => "\"" + v.text + "\""
  }

  function PrintTerm(t: Term): string {
    match t
    case AttrEq(attr, value) => attr + "=" + PrintValue(value)
    case AttrNe(attr, value) => attr + "!=" + PrintValue(value)
    case Bare(value) => PrintValue(value)
  }

  /** What is written between two terms: blanks, the operator, blanks. */
  datatype Gap = Gap(before: string, word: string, after: string)

  function GapText(g: Gap): string {
    g.before + (g.word + g.after)
  }

  /** Spaces and tabs, and nothing else. */
  predicate AreBlanks(s: string) {
    forall i :: 0 <= i < |s| ==> s[i] == ' ' || s[i] == '\t'
  }

  /** A text that starts with the word `and` or `or`, in whatever case. */
  predicate StartsWithWord(s: string, word: string) {
    |word| <= |s| && HasSameLetters(s[..|word|], word) && (|s| == |word| || s[|word|] == ' ' || s[|word|] == '\t')
  }

  /** A way to write an operator in front of a term: the keyword in any case, with blanks
      around it, or, for `and`, blanks alone, if the term is not taken for a keyword. */
  predicate IsGap(op: Operator, t: Term, g: Gap) {
    && g.before != "" && AreBlanks(g.before) && AreBlanks(g.after)
    && if g.word == "" then
         op == AndOp && !StartsWithWord(PrintTerm(t), "and") && !StartsWithWord(PrintTerm(t), "or")
       else g.after != "" && HasSameLetters(g.word, if op == AndOp then "and" else "or")
  }

  /** The text of a tree, with what `gaps` says between the two sides of each node. */
  function PrintWith(e: Expr, gaps: Expr -> Gap): string {
    match e
    case Leaf(t) => PrintTerm(t)
    case And(l, r) => PrintWith(l, gaps) + (GapText(gaps(e)) + PrintWith(r, gaps))
    case Or(l, r) => PrintWith(l, gaps) + (GapText(gaps(e)) + PrintWith(r, gaps))
  }

  /** Every operator of the tree is written in one of the ways it can be. */
  predicate IsLayout(e: Expr, gaps: Expr -> Gap) {
    match e
    case Leaf(_) => true
    case And(l, r) => r.Leaf? && IsGap(AndOp, r.term, gaps(e)) && IsLayout(l, gaps)
    case Or(l, r) => r.Leaf? && IsGap(OrOp, r.term, gaps(e)) && IsLayout(l, gaps)
  }

  // A parsed piece is printed as it was written.

  lemma {:induction false} QueryStringAsWritten(s: string)
    requires QueryString(s).Ok?
    ensures PrintValue(QueryString(s).value) == s[..QueryString(s).used]
  {
    var k := QueryString(s).used;
    var start := if s[0] == '*' then 1 else 0;
    var n := Run(s[start..], IsQueryChar);
    assert k == start + n && s[start..][n - 1] == s[k - 1];
    assert s[..k] == s[..start] + s[start..k] && s[..1] == [s[0]];
    assert s[start..k] == s[start..k - 1] + [s[k - 1]];
    assert start == 0 ==> s[..start] == "";
  }

  lemma {:induction false} AnyValueAsWritten(s: string)
    requires AnyValue(s).Ok?
    ensures PrintValue(AnyValue(s).value) == s[..AnyValue(s).used]
  {
    if s != "" && s[0] == '"' {
      assert s[..AnyValue(s).used] == "\"" + AnyValue(s).value.text + "\"";
    } else {
      QueryStringAsWritten(s);
    }
  }

  /** An attribute, an operator and a text of `used` characters. */
  lemma {:induction false} PiecesAsWritten(s: string, id: nat, op: string, used: nat)
    requires id + |op| + used <= |s| && s[id..id + |op|] == op
    ensures s[..id] + op + s[id + |op|..][..used] == s[..id + |op| + used]
  {
    assert s[id + |op|..][..used] == s[id + |op|..id + |op| + used];
    assert s[..id + |op|] == s[..id] + s[id..id + |op|];
  }

  lemma {:induction false} AttrAsWritten(s: string, id: nat, op: string, v: Parsed<Value>)
    requires id + |op| <= |s| && s[id..id + |op|] == op && v == AnyValue(s[id + |op|..]) && v.Ok?
    ensures s[..id] + op + PrintValue(v.value) == s[..id + |op| + v.used]
  {
    AnyValueAsWritten(s[id + |op|..]);
    PiecesAsWritten(s, id, op, v.used);
  }

  lemma {:induction false} OperatorAsWritten(s: string)
    ensures HeadOf(s).EqHead? ==> s[HeadOf(s).id..HeadOf(s).id + 1] == "="
    ensures HeadOf(s).NeHead? ==> s[HeadOf(s).id..HeadOf(s).id + 2] == "!="
  {
  }

  lemma {:induction false} TermAsWritten(s: string)
    requires TermAt(s).Ok?
    ensures PrintTerm(TermAt(s).value) == s[..TermAt(s).used]
  {
    hide AnyValue, PrintValue, HeadOf;
    match HeadOf(s)
    case EqHead(id) =>
      OperatorAsWritten(s);
      AttrAsWritten(s, id, "=", AnyValue(s[id + 1..]));
    case NeHead(id) =>
      OperatorAsWritten(s);
      AttrAsWritten(s, id, "!=", AnyValue(s[id + 2..]));
    case BareHead =>
      AnyValueAsWritten(s);
  }

  // Terms, and why their print is read back.

  /** A value the grammar has: some text, without quotes if it stands in quotes, and
      otherwise without quotes and blanks, and without a star that would be taken for
      a wildcard. */
  predicate IsValue(v: Value) {
    && v.text != ""
    && if v.kind == Quoted then Lacks(v.text, '"')
       else
         && (forall i :: 0 <= i < |v.text| ==> v.text[i] != '"' && v.text[i] != ' ' && v.text[i] != '\t')
         && (v.kind in {Exact, Prefix} ==> v.text[0] != '*')
         && (v.kind in {Exact, Suffix} ==> v.text[|v.text| - 1] != '*')
  }

  /** Letters, digits, underscores and dashes, at least one. */
  predicate IsName(s: string) {
    s != "" && forall i :: 0 <= i < |s| ==>
      'a' <= s[i] <= 'z' || 'A' <= s[i] <= 'Z' || '0' <= s[i] <= '9' || s[i] == '_' || s[i] == '-'
  }

  /** A text that starts like an attribute: a name and an operator. */
  ghost predicate StartsLikeAttribute(s: string) {
    exists k: nat :: HasOperatorAt(s, k)
  }

  predicate HasOperatorAt(s: string, k: nat) {
    k < |s| && IsName(s[..k]) && (s[k] == '=' || (s[k] == '!' && k + 1 < |s| && s[k + 1] == '='))
  }

  ghost predicate IsTerm(t: Term) {
    && IsValue(t.value)
    && (t.Bare? ==> !StartsLikeAttribute(PrintTerm(t)))
    && (!t.Bare? ==> IsName(t.attr))
  }

  lemma {:induction false} NameRuns(s: string, k: nat)
    requires k <= |s| && IsName(s[..k]) && (k == |s| || !IsIdChar(s[k]))
    ensures Run(s, IsIdChar) == k
  {
    assert forall i :: 0 <= i < k ==> s[i] == s[..k][i];
    RunIs(s, IsIdChar, k);
  }

  lemma {:induction false} NameIsRun(s: string)
    ensures Run(s, IsIdChar) > 0 ==> IsName(s[..Run(s, IsIdChar)])
  {
  }

  /** What the parser makes of a text is a value of the grammar. */
  lemma {:induction false} ParsedIsValue(s: string)
    ensures AnyValue(s).Ok? ==> IsValue(AnyValue(s).value)
  {
    if s != "" && s[0] == '"' {
      if AnyValue(s).Ok? {
        assert forall i :: 0 <= i < |AnyValue(s).value.text| ==> AnyValue(s).value.text[i] == s[i + 1];
      }
    } else if QueryString(s).Ok? {
      var v, start := QueryString(s).value, if s[0] == '*' then 1 else 0;
      assert forall i :: 0 <= i < |v.text| ==> v.text[i] == s[start..][i];
    }
  }

  lemma {:induction false} HeadIsBare(s: string)
    ensures HeadOf(s).BareHead? <==> !StartsLikeAttribute(s)
  {
    var id := Run(s, IsIdChar);
    NameIsRun(s);
    assert !HeadOf(s).BareHead? ==> HasOperatorAt(s, id);
    if StartsLikeAttribute(s) {
      var k: nat :| HasOperatorAt(s, k);
      NameRuns(s, k);
    }
  }

  /** A text that starts like an attribute does with more behind it. */
  lemma {:induction false} LikeAttributeStays(s: string, u: string)
    requires StartsLikeAttribute(s)
    ensures StartsLikeAttribute(s + u)
  {
    var k: nat :| HasOperatorAt(s, k);
    assert (s + u)[..k] == s[..k];
    assert HasOperatorAt(s + u, k);
  }

  lemma {:induction false} ParsedIsTerm(s: string)
    requires TermAt(s).Ok?
    ensures IsTerm(TermAt(s).value)
  {
    hide AnyValue, IsValue, StartsLikeAttribute;
    match HeadOf(s)
    case EqHead(id) =>
      ParsedIsValue(s[id + 1..]);
      NameIsRun(s);
    case NeHead(id) =>
      ParsedIsValue(s[id + 2..]);
      NameIsRun(s);
    case BareHead =>
      ParsedIsValue(s);
      TermAsWritten(s);
      HeadIsBare(s);
      var p := PrintTerm(TermAt(s).value);
      assert s == p + s[TermAt(s).used..];
      if StartsLikeAttribute(p) {
        LikeAttributeStays(p, s[TermAt(s).used..]);
      }
  }

  /** The text may stand behind a term: a blank, a quote or the end ends it, and
      behind a quoted value anything may stand. */
  predicate IsTailOf(v: Value, u: string) {
    u == "" || u[0] == ' ' || u[0] == '\t' || u[0] == '"' || v.kind == Quoted
  }

  lemma {:induction false} PrintRuns(v: Value, u: string, start: nat)
    requires IsValue(v) && v.kind != Quoted && IsTailOf(v, u) && start <= |PrintValue(v)|
    ensures Run((PrintValue(v) + u)[start..], IsQueryChar) == |PrintValue(v)| - start
  {
    var p := PrintValue(v);
    var s := p + u;
    assert forall i :: 0 <= i < |p| ==> s[i] == p[i] && IsQueryChar(p[i]);
    assert |p| < |s| ==> s[|p|] == u[0];
    RunIs(s[start..], IsQueryChar, |p| - start);
  }

  lemma {:induction false} QueryStringReads(v: Value, u: string)
    requires IsValue(v) && v.kind != Quoted && IsTailOf(v, u)
    ensures QueryString(PrintValue(v) + u) == Ok(v, |PrintValue(v)|)
  {
    hide Run;
    var p, s := PrintValue(v), PrintValue(v) + u;
    var start, stop := if v.kind in {Suffix, Substring} then 1 else 0, if v.kind in {Prefix, Substring} then 1 else 0;
    assert (s[0] == '*') == (start == 1) && (s[|p| - 1] == '*') == (stop == 1);
    PrintRuns(v, u, start);
    assert s[start..|p| - stop] == v.text;
  }

  lemma {:induction false} ValueReads(v: Value, u: string)
    requires IsValue(v) && IsTailOf(v, u)
    ensures AnyValue(PrintValue(v) + u) == Ok(v, |PrintValue(v)|) && PrintValue(v) != ""
    ensures !IsBlank(PrintValue(v)[0])
  {
    var p := PrintValue(v);
    var s := p + u;
    if v.kind == Quoted {
      assert forall i :: 1 <= i < |p| - 1 ==> s[i] == v.text[i - 1];
      FindIs(s, '"', 1, |p| - 1);
      assert s[1..|p| - 1] == v.text;
    } else {
      assert s[0] != '"' by { assert v.kind in {Exact, Prefix} ==> p[0] == v.text[0]; }
      QueryStringReads(v, u);
    }
  }

  /** A bare value does not start like an attribute because of what follows it. */
  lemma {:induction false} BareStaysBare(v: Value, u: string)
    requires IsValue(v) && IsTailOf(v, u) && !StartsLikeAttribute(PrintValue(v))
    ensures !StartsLikeAttribute(PrintValue(v) + u)
  {
    var p := PrintValue(v);
    var s := p + u;
    forall k: nat ensures !HasOperatorAt(s, k) {
      assert !HasOperatorAt(p, k);
      assert k <= |p| ==> s[..k] == p[..k];
      assert |p| < |s| ==> s[|p|] == u[0] && (|p| < k <= |s| ==> s[..k][|p|] == u[0]);
      assert v.kind == Quoted && 0 < k <= |s| ==> s[..k][0] == '"';
    }
  }

  lemma {:induction false} AttributeReads(attr: string, op: string, v: Value, u: string)
    requires IsName(attr) && IsValue(v) && IsTailOf(v, u) && op in {"=", "!="}
    ensures var s := attr + op + PrintValue(v) + u;
            && HeadOf(s) == (if op == "=" then EqHead(|attr|) else NeHead(|attr|)) && s[..|attr|] == attr
            && ValueAfterOp(s[|attr| + |op|..]) == Ok(v, |PrintValue(v)|)
  {
    hide AnyValue, PrintValue, IsValue;
    var s := attr + op + PrintValue(v) + u;
    ValueReads(v, u);
    assert s[..|attr|] == attr && s[|attr|] == op[0] && s[|attr| + |op|..] == PrintValue(v) + u;
    NameRuns(s, |attr|);
    assert op == "!=" ==> s[|attr| + 1] == '=';
  }

  /** A printed term is read back, whatever may follow it. */
  lemma {:induction false} TermReads(t: Term, u: string)
    requires IsTerm(t) && IsTailOf(t.value, u)
    ensures TermAt(PrintTerm(t) + u) == Ok(t, |PrintTerm(t)|) && PrintTerm(t) != "" && !IsBlank(PrintTerm(t)[0])
  {
    hide AnyValue, PrintValue, IsValue, StartsLikeAttribute, HeadOf, ValueAfterOp;
    var s := PrintTerm(t) + u;
    match t
    case AttrEq(attr, v) => AttributeReads(attr, "=", v, u);
    case AttrNe(attr, v) => AttributeReads(attr, "!=", v, u);
    case Bare(v) =>
      ValueReads(v, u);
      BareStaysBare(v, u);
      HeadIsBare(s);
  }

  // Whole expressions.

  /** A tree as the parser builds them: it leans to the left. */
  ghost predicate IsQueryTree(e: Expr) {
    if e.Leaf? then IsTerm(e.term) else e.right.Leaf? && IsTerm(e.right.term) && IsQueryTree(e.left)
  }

  /** An operator is written in front of a term that `u` follows: the keyword in any
      case with blanks behind it, or, for `and`, nothing, if what follows does not start
      with a keyword. Blanks may stand in front. */
  predicate IsOperator(op: Operator, t: Term, g: Gap, u: string) {
    && AreBlanks(g.before) && AreBlanks(g.after)
    && if g.word == "" then
         op == AndOp && !StartsWithWord(PrintTerm(t) + u, "and") && !StartsWithWord(PrintTerm(t) + u, "or")
       else g.after != "" && HasSameLetters(g.word, if op == AndOp then "and" else "or")
  }

  /** The text `s`, with `u` behind it, is a way to write the tree: its terms in order,
      the operators written in front of them, each term ended by what follows it. */
  ghost predicate IsWriting(s: string, e: Expr, u: string)
    decreases e, 0
  {
    if e.Leaf? then s == PrintTerm(e.term) && IsTailOf(e.term.value, u)
    else exists a, g :: IsWritingAs(s, e, u, a, g)
  }

  ghost predicate IsWritingAs(s: string, e: Expr, u: string, a: string, g: Gap)
    requires !e.Leaf?
    decreases e.left, 1
  {
    && e.right.Leaf?
    && var t := e.right.term;
       && s == a + (GapText(g) + PrintTerm(t)) && IsTailOf(t.value, u)
       && IsOperator(if e.And? then AndOp else OrOp, t, g, u)
       && IsWriting(a, e.left, GapText(g) + (PrintTerm(t) + u))
  }

  lemma {:induction false} StartsWithKeyword(s: string, kw: string)
    ensures IsKeyword(s, kw) <==> StartsWithWord(s, kw)
  {
    if |kw| <= |s| {
      IgnoringCaseMeans(s[..|kw|], kw);
    }
  }

  lemma {:induction false} KeywordIsRead(word: string, kw: string, rest: string)
    requires HasSameLetters(word, kw) && kw in {"and", "or"} && rest != "" && IsBlank(rest[0])
    ensures OperatorAt(word + rest) == if kw == "and" then (AndOp, 3) else (OrOp, 2)
  {
    var s := word + rest;
    assert s[..|word|] == word && s[|word|] == rest[0];
    IgnoringCaseMeans(word, kw);
    if kw == "or" {
      assert IsSameLetter(word[0], 'o');
      assert |s| >= 3 ==> Lower(s[..3])[0] == 'o' && Lower("and")[0] == 'a';
    }
  }

  /** An operator is read back as it was meant, and the blanks around it skipped. */
  lemma {:induction false} WordIsRead(op: Operator, t: Term, g: Gap, u: string, rest: string)
    requires IsOperator(op, t, g, u) && g.word != ""
    ensures var w, n := GapText(g) + rest, |g.before|;
            && Run(w, IsBlank) == n && OperatorAt(w[n..]) == (op, |g.word|)
            && w[n + |g.word|..] == g.after + rest
  {
    hide OperatorAt, PrintTerm, StartsWithWord;
    var w, n, tail := GapText(g) + rest, |g.before|, g.after + rest;
    assert w[n..] == g.word + tail && w[n + |g.word|..] == tail;
    var kw := if op == AndOp then "and" else "or";
    assert IsSameLetter(g.word[0], kw[0]) && w[n] == g.word[0];
    assert forall i :: 0 <= i < n ==> w[i] == g.before[i];
    RunIs(w, IsBlank, n);
    KeywordIsRead(g.word, kw, tail);
  }

  /** So is an `and` that is left out. */
  lemma {:induction false} NoWordIsRead(op: Operator, t: Term, g: Gap, u: string)
    requires IsOperator(op, t, g, u) && g.word == "" && PrintTerm(t) != "" && !IsBlank(PrintTerm(t)[0])
    ensures var rest, n := PrintTerm(t) + u, |GapText(g)|;
            var w := GapText(g) + rest;
            Run(w, IsBlank) == n && w[n..] == rest && OperatorAt(rest) == (op, 0)
  {
    hide PrintTerm, StartsWithWord;
    var rest, n := PrintTerm(t) + u, |GapText(g)|;
    var w := GapText(g) + rest;
    StartsWithKeyword(rest, "and");
    StartsWithKeyword(rest, "or");
    assert GapText(g) == g.before + g.after;
    assert forall i :: 0 <= i < n ==> IsBlank(GapText(g)[i]) && w[i] == GapText(g)[i];
    RunIs(w, IsBlank, n);
  }

  /** A printed term behind blanks is read back. */
  lemma {:induction false} TermIsRead(t: Term, blanks: string, u: string)
    requires IsTerm(t) && IsTailOf(t.value, u) && AreBlanks(blanks)
    ensures SpacedTerm(blanks + (PrintTerm(t) + u)) == Ok(t, |blanks| + |PrintTerm(t)|)
  {
    hide TermAt, PrintTerm, IsTerm;
    var p := PrintTerm(t);
    TermReads(t, u);
    var w := blanks + (p + u);
    assert w[|blanks|] == p[0];
    RunIs(w, IsBlank, |blanks|);
    assert w[|blanks|..] == p + u;
  }

  lemma {:induction false} StepFrom(s: string, n: nat, op: Operator, k: nat, x: string, t: Term, used: nat)
    requires Run(s, IsBlank) == n && OperatorAt(s[n..]) == (op, k)
    requires n + k <= |s| && s[n + k..] == x && SpacedTerm(x) == Ok(t, used)
    ensures Step(s) == Ok((op, t), n + k + used)
  {
    hide SpacedTerm, OperatorAt, Run;
  }

  lemma {:induction false} StepIsRead(op: Operator, t: Term, g: Gap, u: string)
    requires IsTerm(t) && IsTailOf(t.value, u) && IsOperator(op, t, g, u)
    ensures var w := GapText(g) + (PrintTerm(t) + u);
            Run(w, IsBlank) < |w| && Step(w) == Ok((op, t), |GapText(g)| + |PrintTerm(t)|)
  {
    hide TermAt, PrintTerm, SpacedTerm, Step, OperatorAt, Run, IsTerm;
    var p := PrintTerm(t);
    var w, n := GapText(g) + (p + u), |g.before|;
    TermReads(t, u);
    if g.word == "" {
      NoWordIsRead(op, t, g, u);
      TermIsRead(t, "", u);
      assert "" + (p + u) == p + u;
      StepFrom(w, |GapText(g)|, op, 0, p + u, t, |p|);
    } else {
      TermIsRead(t, g.after, u);
      WordIsRead(op, t, g, u, p + u);
      StepFrom(w, n, op, |g.word|, g.after + (p + u), t, |g.after| + |p|);
    }
  }

  /** The loop reads one printed step, and goes on with what follows it. */
  lemma {:induction false} MoreReads(lhs: Expr, op: Operator, t: Term, g: Gap, u: string)
    requires IsTerm(t) && IsTailOf(t.value, u) && IsOperator(op, t, g, u)
    ensures More(GapText(g) + (PrintTerm(t) + u), lhs, Step) == More(u, Join(op, lhs, t), Step)
  {
    hide Step, PrintTerm, IsTerm, Run, IsOperator;
    var w := GapText(g) + (PrintTerm(t) + u);
    StepIsRead(op, t, g, u);
    assert w[|GapText(g)| + |PrintTerm(t)|..] == u;
  }

  /** A tree is read back from any writing of it, and then what follows. */
  lemma {:induction false} WritingReads(s: string, e: Expr, u: string)
    requires IsQueryTree(e) && IsWriting(s, e, u)
    ensures ExprAt(s + u) == More(u, e, Step) && s != ""
    decreases e
  {
    hide IsTerm, IsOperator, PrintTerm, GapText, More, IsTailOf;
    if e.Leaf? {
      TermReads(e.term, u);
      TermIsRead(e.term, "", u);
      assert "" + (s + u) == s + u && (s + u)[|s|..] == u;
    } else {
      var a, g :| IsWritingAs(s, e, u, a, g);
      var op, t := if e.And? then AndOp else OrOp, e.right.term;
      assert e == Join(op, e.left, t);
      MoreReads(e.left, op, t, g, u);
      WritingReads(a, e.left, GapText(g) + (PrintTerm(t) + u));
      SumOfSums(a, GapText(g) + PrintTerm(t), u);
      SumOfSums(GapText(g), PrintTerm(t), u);
    }
  }

  /** A term ends where the text behind it may stand behind it. */
  lemma {:induction false} TermRunsOn(s: string)
    requires TermAt(s).Ok?
    ensures IsTailOf(TermAt(s).value.value, s[TermAt(s).used..])
  {
    hide Run, AnyValue, HeadOf, IsTailOf;
    match HeadOf(s)
    case EqHead(id) =>
      ValueRunsOn(s[id + 1..]);
      RestOfRest(s, id + 1, TermAt(s).used - id - 1);
    case NeHead(id) =>
      ValueRunsOn(s[id + 2..]);
      RestOfRest(s, id + 2, TermAt(s).used - id - 2);
    case BareHead =>
      ValueRunsOn(s);
  }

  lemma {:induction false} ValueRunsOn(s: string)
    ensures AnyValue(s).Ok? ==> IsTailOf(AnyValue(s).value, s[AnyValue(s).used..])
  {
    if AnyValue(s).Ok? && s[0] != '"' {
      var start := if s[0] == '*' then 1 else 0;
      var n := Run(s[start..], IsQueryChar);
      assert start + n < |s| ==> s[start + n] == s[start..][n];
    }
  }

  /** The operator in a text, in its parts. */
  lemma {:induction false} OperatorIsWritten(s: string, n: nat, op: Operator, k: nat, m: nat, t: Term, u: string)
    requires n == Run(s, IsBlank) && OperatorAt(s[n..]) == (op, k) && m == Run(s[n + k..], IsBlank)
    requires PrintTerm(t) != "" && s[n + k..][m..] == PrintTerm(t) + u
    ensures var g := Gap(s[..n], s[n..n + k], s[n + k..][..m]);
            IsOperator(op, t, g, u)
  {
    hide PrintTerm, OperatorAt, IsKeyword, StartsWithWord, HasSameLetters, Run;
    var x := s[n + k..];
    OperatorParts(s[n..]);
    assert s[n..][..k] == s[n..n + k] && (k < |s[n..]| ==> s[n..][k] == x[0]);
    if k == 0 {
      assert x[..0] == "" && x[0..] == x;
      StartsWithKeyword(x, "and");
      StartsWithKeyword(x, "or");
    }
  }

  /** The parts of the text that a step reads. */
  lemma {:induction false} StepParts(s: string) returns (g: Gap, u: string)
    requires Step(s).Ok?
    ensures var (op, t) := Step(s).value;
            && IsTerm(t) && IsTailOf(t.value, u) && IsOperator(op, t, g, u)
            && u == s[Step(s).used..] && s == GapText(g) + (PrintTerm(t) + u)
  {
    hide TermAt, PrintTerm, IsTerm, IsTailOf, IsOperator, GapText, OperatorAt, Run;
    var n := Run(s, IsBlank);
    var (op, k) := OperatorAt(s[n..]);
    var x := s[n + k..];
    var m := Run(x, IsBlank);
    var y := x[m..];
    var t := TermAt(y);
    u := y[t.used..];
    g := Gap(s[..n], s[n..n + k], x[..m]);
    TermAsWritten(y);
    TermRunsOn(y);
    ParsedIsTerm(y);
    assert y == PrintTerm(t.value) + u;
    StepEnds(s, n, k, m, t.used, PrintTerm(t.value));
    OperatorIsWritten(s, n, op, k, m, t.value, u);
  }

  lemma {:induction false} StepEnds(s: string, n: nat, k: nat, m: nat, used: nat, p: string)
    requires n + k + m + used <= |s| && p == s[n + k..][m..][..used]
    ensures s[n + k..][m..][used..] == s[n + k + m + used..]
    ensures s == GapText(Gap(s[..n], s[n..n + k], s[n + k..][..m])) + (p + s[n + k..][m..][used..])
  {
  }

  /** The keyword a text starts with. */
  lemma {:induction false} OperatorParts(s: string)
    ensures var (op, k) := OperatorAt(s);
            && (k == 0 ==> op == AndOp && !IsKeyword(s, "and") && !IsKeyword(s, "or"))
            && (k > 0 ==> HasSameLetters(s[..k], if op == AndOp then "and" else "or") && (k < |s| ==> IsBlank(s[k])))
  {
    var k := OperatorAt(s).1;
    if k > 0 {
      IgnoringCaseMeans(s[..k], if k == 3 then "and" else "or");
    }
  }

  lemma {:induction false} WritingGrows(a: string, l: Expr, op: Operator, t: Term, g: Gap, u: string)
    requires IsTailOf(t.value, u) && IsOperator(op, t, g, u) && IsWriting(a, l, GapText(g) + (PrintTerm(t) + u))
    ensures IsWriting(a + (GapText(g) + PrintTerm(t)), Join(op, l, t), u)
  {
    hide IsOperator, PrintTerm, GapText, IsTailOf;
    assert IsWritingAs(a + (GapText(g) + PrintTerm(t)), Join(op, l, t), u, a, g);
  }

  /** What the loop has read is a writing of the tree it returns, but for blanks at the
      end. */
  lemma {:induction false} MoreIsWriting(a: string, lhs: Expr, s: string) returns (text: string, blanks: string)
    requires More(s, lhs, Step).Good? && IsQueryTree(lhs) && IsWriting(a, lhs, s)
    ensures var e := More(s, lhs, Step).expr; IsQueryTree(e) && IsWriting(text, e, blanks)
    ensures a + s == text + blanks && AreBlanks(blanks)
    decreases |s|
  {
    hide Step, PrintTerm, IsTerm, IsWriting, IsOperator, GapText, IsTailOf;
    if Run(s, IsBlank) == |s| {
      text, blanks := a, s;
    } else {
      var (op, t) := Step(s).value;
      var g, u := StepParts(s);
      WritingGrows(a, lhs, op, t, g, u);
      var read := GapText(g) + PrintTerm(t);
      SumOfSums(GapText(g), PrintTerm(t), u);
      SumOfSums(a, read, u);
      text, blanks := MoreIsWriting(a + read, Join(op, lhs, t), u);
    }
  }

  lemma {:induction false} WritingOfParsed(s: string)
    requires s != "" && !IsSpace(s[0]) && !IsSpace(s[|s| - 1]) && ExprAt(s).Good?
    ensures IsQueryTree(ExprAt(s).expr) && IsWriting(s, ExprAt(s).expr, "")
  {
    hide PrintTerm, IsTerm, IsWriting, TermAt, Step, IsTailOf, SpacedTerm, More, Run;
    FirstTerm(s);
    var t := TermAt(s);
    var first, rest := s[..t.used], s[t.used..];
    TermAsWritten(s);
    TermRunsOn(s);
    ParsedIsTerm(s);
    LeafIsWriting(t.value, rest);
    var text, blanks := MoreIsWriting(first, Leaf(t.value), rest);
    assert first + rest == s;
    NothingBehind(text, blanks);
  }

  /** The parser, exactly: a text parses to a tree if and only if the tree is one of the
      grammar and the text, without white space at its ends, is a writing of it. Every
      other text is an error. */
  lemma {:induction false} ParsesExactly(input: string, e: Expr)
    ensures ParseQuery(input) == Good(e) <==> IsQueryTree(e) && IsWriting(Trim(input, IsSpace), e, "")
  {
    hide IsQueryTree, IsWriting, ExprAt, Step;
    var s := Trim(input, IsSpace);
    RunIs("", IsBlank, 0);
    if IsQueryTree(e) && IsWriting(s, e, "") {
      WritingReads(s, e, "");
      assert s + "" == s;
    }
    if ParseQuery(input).Good? {
      WritingOfParsed(s);
    }
  }

  lemma {:induction false} NothingBehind(text: string, blanks: string)
    requires AreBlanks(blanks) && text + blanks != "" && !IsSpace((text + blanks)[|text + blanks| - 1])
    ensures blanks == "" && text + blanks == text
  {
  }

  lemma {:induction false} LeafIsWriting(t: Term, u: string)
    requires IsTailOf(t.value, u)
    ensures IsWriting(PrintTerm(t), Leaf(t), u)
  {
  }

  /** Which error is reported: an empty text, an attribute without a value, a quote that
      is not closed, quotes with nothing in them, a value of stars alone, and an operator
      with nothing behind it. */
  lemma {:induction false} ErrorsAreTold(attr: string, op: string, text: string)
    requires IsName(attr) && op in {"=", "!="} && Lacks(text, '"') && text != "" && !IsSpace(text[|text| - 1])
    ensures ParseQuery("") == Bad(EmptyQuery)
    ensures ParseQuery(attr + op) == Bad(MissingValue)
    ensures ParseQuery("\"" + text) == Bad(Unterminated)
    ensures ParseQuery("\"\"") == Bad(EmptyQuoted)
    ensures ParseQuery("*") == Bad(EmptyString)
  {
    hide TermAt, ParseQuery;
    NothingIsTold();
    NoValueIsTold(attr, op);
    ErrorIsTold(attr + op, MissingValue);
    QuoteIsTold(text);
    ErrorIsTold("\"" + text, Unterminated);
    EmptyIsTold();
    ErrorIsTold("\"\"", EmptyQuoted);
    ErrorIsTold("*", EmptyString);
  }

  lemma {:induction false} NothingIsTold()
    ensures ParseQuery("") == Bad(EmptyQuery)
  {
    TrimKeeps("", IsSpace);
  }

  lemma {:induction false} ErrorIsTold(s: string, error: ParseError)
    requires s != "" && !IsSpace(s[0]) && !IsSpace(s[|s| - 1]) && TermAt(s) == Err(error)
    ensures ParseQuery(s) == Bad(error)
  {
    TrimKeeps(s, IsSpace);
    FirstTerm(s);
  }

  lemma {:induction false} NoValueIsTold(attr: string, op: string)
    requires IsName(attr) && op in {"=", "!="}
    ensures var s := attr + op; !IsSpace(s[0]) && !IsSpace(s[|s| - 1]) && TermAt(s) == Err(MissingValue)
  {
    var s := attr + op;
    assert s[..|attr|] == attr && s[|attr|] == op[0] && s[|attr| + |op|..] == "";
    assert op == "!=" ==> s[|attr| + 1] == '=';
    NameRuns(s, |attr|);
    assert s[0] == attr[0];
  }

  lemma {:induction false} QuoteIsTold(text: string)
    requires Lacks(text, '"')
    ensures TermAt("\"" + text) == Err(Unterminated)
  {
    var s := "\"" + text;
    assert !IsIdChar(s[0]);
    RunIs(s, IsIdChar, 0);
    assert forall i :: 1 <= i < |s| ==> s[i] == text[i - 1];
    FindIs(s, '"', 1, |s|);
  }

  lemma {:induction false} EmptyIsTold()
    ensures TermAt("\"\"") == Err(EmptyQuoted) && TermAt("*") == Err(EmptyString)
  {
    var s, t := "\"\"", "*";
    assert !IsIdChar(s[0]) && !IsIdChar(t[0]);
    RunIs(s, IsIdChar, 0);
    RunIs(t, IsIdChar, 0);
    FindIs(s, '"', 1, 1);
    assert t[1..] == "";
    RunIs("", IsQueryChar, 0);
  }

  /** A tree followed by an operator with nothing behind it. */
  lemma {:induction false} DanglingIsTold(s: string, e: Expr, word: string)
    requires IsQueryTree(e) && IsWriting(s, e, " " + word) && (s != "" ==> !IsSpace(s[0]))
    requires HasSameLetters(word, "and") || HasSameLetters(word, "or")
    ensures ParseQuery(s + (" " + word)) == Bad(UnexpectedEnd)
  {
    hide IsQueryTree, IsWriting, ExprAt, OperatorAt;
    var u := " " + word;
    WritingReads(s, e, u);
    DanglingStep(word);
    assert (s + u)[0] == s[0] && (s + u)[|s + u| - 1] == word[|word| - 1];
    TrimKeeps(s + u, IsSpace);
  }

  lemma {:induction false} DanglingStep(word: string)
    requires HasSameLetters(word, "and") || HasSameLetters(word, "or")
    ensures var u := " " + word;
            Run(u, IsBlank) < |u| && Step(u) == Err(UnexpectedEnd) && !IsSpace(word[|word| - 1])
  {
    var kw := if |word| == 3 then "and" else "or";
    var u := " " + word;
    assert IsSameLetter(word[0], kw[0]) && IsSameLetter(word[|word| - 1], kw[|word| - 1]);
    RunIs(u, IsBlank, 1);
    assert u[1..] == word && word[..|word|] == word;
    IgnoringCaseMeans(word, kw);
    assert u[1 + |word|..] == "";
    RunIs("", IsBlank, 0);
    assert |word| == 2 ==> !IsKeyword(word, "and");
  }

  // Printing.

  lemma {:induction false} NoKeyword(p: string, u: string, word: string)
    requires (u == "" || u[0] == ' ' || u[0] == '\t') && !StartsWithWord(p, word) && word in {"and", "or"}
    ensures !StartsWithWord(p + u, word)
  {
    var s, n := p + u, |word|;
    if n <= |s| {
      assert n <= |p| ==> s[..n] == p[..n];
      assert |p| < n ==> s[..n][|p|] == u[0] && !IsSameLetter(u[0], word[|p|]);
    }
  }

  /** The print of a tree is a writing of it. */
  lemma {:induction false} PrintIsWriting(e: Expr, gaps: Expr -> Gap, u: string)
    requires IsQueryTree(e) && IsLayout(e, gaps) && (u == "" || u[0] == ' ' || u[0] == '\t')
    ensures IsWriting(PrintWith(e, gaps), e, u)
  {
    hide PrintTerm, IsTerm, StartsWithWord;
    if !e.Leaf? {
      var t, g := e.right.term, gaps(e);
      if g.word == "" {
        NoKeyword(PrintTerm(t), u, "and");
        NoKeyword(PrintTerm(t), u, "or");
      }
      var tail := GapText(g) + (PrintTerm(t) + u);
      assert tail[0] == g.before[0];
      PrintIsWriting(e.left, gaps, tail);
      assert PrintWith(e.right, gaps) == PrintTerm(t);
      WritingGrows(PrintWith(e.left, gaps), e.left, if e.And? then AndOp else OrOp, t, g, u);
    }
  }

  /** The parser reads every tree of the grammar however it is laid out: keywords in any
      case or left out, any blanks around them, any white space at the ends. */
  lemma {:induction false} WriteThenParse(e: Expr, gaps: Expr -> Gap, lead: string, trail: string)
    requires IsQueryTree(e) && IsLayout(e, gaps)
    requires var p := PrintWith(e, gaps); p != "" ==> !IsSpace(p[0]) && !IsSpace(p[|p| - 1])
    requires forall i :: 0 <= i < |lead| ==> IsSpace(lead[i])
    requires forall i :: 0 <= i < |trail| ==> IsSpace(trail[i])
    ensures ParseQuery(lead + (PrintWith(e, gaps) + trail)) == Good(e)
  {
    hide ParseQuery, PrintWith, IsLayout, IsWriting, IsQueryTree;
    var p := PrintWith(e, gaps);
    PrintIsWriting(e, gaps, "");
    WritingReads(p, e, "");
    TrimAround(lead, p, trail);
    ParsesExactly(lead + (p + trail), e);
  }

  lemma {:induction false} TrimAround(lead: string, s: string, trail: string)
    requires s != "" && !IsSpace(s[0]) && !IsSpace(s[|s| - 1])
    requires forall i :: 0 <= i < |lead| ==> IsSpace(lead[i])
    requires forall i :: 0 <= i < |trail| ==> IsSpace(trail[i])
    ensures Trim(lead + (s + trail), IsSpace) == s
  {
    var w := lead + (s + trail);
    var n := |lead + s|;
    assert w[n - 1] == s[|s| - 1] && forall i :: n <= i < |w| ==> w[i] == trail[i - n];
    assert IsStem(w, IsSpace, n);
    assert w[..n] == lead + s;
    RunIs(lead + s, IsSpace, |lead|);
    assert (lead + s)[|lead|..] == s;
  }

  function Plain(e: Expr): Gap {
    Gap(" ", if e.And? then "and" else "or", " ")
  }

  /** A tree in plain writing. */
  function Print(e: Expr): string {
    PrintWith(e, Plain)
  }

  lemma {:induction false} PlainIsLayout(e: Expr)
    requires IsQueryTree(e)
    ensures IsLayout(e, Plain)
  {
    hide IsTerm;
    if !e.Leaf? {
      PlainIsLayout(e.left);
    }
  }

  // What the parser returns is such a tree.

  /** A step reads a term of the grammar, whose print ends as the text read does. */
  lemma {:induction false} StepIsTerm(s: string)
    requires Step(s).Ok?
    ensures var t, used := Step(s).value.1, Step(s).used; IsTerm(t) && EndsWith(PrintTerm(t), s[used - 1])
  {
    hide Step, PrintTerm, IsTerm, IsTailOf, IsOperator, GapText;
    var t := Step(s).value.1;
    var g, u := StepParts(s);
    TermReads(t, u);
  }

  predicate EndsWith(s: string, c: char) {
    s != "" && s[|s| - 1] == c
  }

  function LastTerm(e: Expr): Term
    requires !e.Leaf? ==> e.right.Leaf?
  {
    if e.Leaf? then e.term else e.right.term
  }

  /** The last term is printed as the text ends. */
  ghost predicate EndsAs(s: string, c: char, e: Expr) {
    IsQueryTree(e) && (s != "" || EndsWith(PrintTerm(LastTerm(e)), c))
  }

  /** What the loop makes of a tree and a text that ends in `c`. */
  lemma {:induction false} MoreIsTree(s: string, lhs: Expr, c: char)
    requires More(s, lhs, Step).Good? && !IsSpace(c) && EndsAs(s, c, lhs) && (s != "" ==> s[|s| - 1] == c)
    ensures EndsAs("", c, More(s, lhs, Step).expr)
    decreases |s|
  {
    hide Step, PrintTerm, IsTerm;
    if Run(s, IsBlank) < |s| {
      var (op, t) := Step(s).value;
      var next := s[Step(s).used..];
      StepIsTerm(s);
      assert next != "" ==> next[|next| - 1] == s[|s| - 1];
      MoreIsTree(next, Join(op, lhs, t), c);
    }
  }

  function FirstOf(e: Expr): Term {
    if e.Leaf? then e.term else FirstOf(e.left)
  }

  lemma {:induction false} MoreKeepsFirst(s: string, lhs: Expr)
    requires More(s, lhs, Step).Good?
    ensures FirstOf(More(s, lhs, Step).expr) == FirstOf(lhs)
    decreases |s|
  {
    hide Step;
    if Run(s, IsBlank) < |s| {
      var (op, t) := Step(s).value;
      MoreKeepsFirst(s[Step(s).used..], Join(op, lhs, t));
    }
  }

  /** A printed tree starts as its first term and ends as its last. */
  lemma {:induction false} PrintEnds(e: Expr, gaps: Expr -> Gap, c: char)
    requires IsQueryTree(e) && EndsWith(PrintTerm(LastTerm(e)), c)
    ensures var p, first := PrintWith(e, gaps), PrintTerm(FirstOf(e));
            EndsWith(p, c) && first != "" && first[0] == p[0]
  {
    hide PrintTerm, IsTerm, GapText;
    if e.Leaf? {
      TermReads(e.term, "");
    } else {
      PrintStarts(e.left, gaps);
      assert PrintWith(e.right, gaps) == PrintTerm(e.right.term);
    }
  }

  lemma {:induction false} PrintStarts(e: Expr, gaps: Expr -> Gap)
    requires IsQueryTree(e)
    ensures var p, first := PrintWith(e, gaps), PrintTerm(FirstOf(e)); p != "" && first != "" && first[0] == p[0]
  {
    hide PrintTerm, IsTerm, GapText;
    if e.Leaf? {
      TermReads(e.term, "");
    } else {
      PrintStarts(e.left, gaps);
    }
  }

  /** Whatever the text, what the parser returns is a tree of the grammar, and its print
      has no white space at its ends. */
  lemma {:induction false} ParsedIsTree(input: string, gaps: Expr -> Gap)
    requires ParseQuery(input).Good?
    ensures var e := ParseQuery(input).expr;
            var p := PrintWith(e, gaps);
            IsQueryTree(e) && p != "" && !IsSpace(p[0]) && !IsSpace(p[|p| - 1])
  {
    hide PrintTerm, IsTerm, PrintWith, TermAt;
    var s := Trim(input, IsSpace);
    var c := s[|s| - 1];
    FirstTerm(s);
    var t := TermAt(s);
    TermAsWritten(s);
    ParsedIsTerm(s);
    var rest, e := s[t.used..], ParseQuery(input).expr;
    assert rest != "" ==> rest[|rest| - 1] == c;
    MoreIsTree(rest, Leaf(t.value), c);
    MoreKeepsFirst(rest, Leaf(t.value));
    PrintEnds(e, gaps, c);
  }

  /** The round trip: every tree that comes out of the parser is printed to a text
      that parses to the same tree. */
  lemma {:induction false} PrintThenParse(input: string)
    requires ParseQuery(input).Good?
    ensures ParseQuery(Print(ParseQuery(input).expr)) == ParseQuery(input)
  {
    hide PrintWith, IsLayout, IsQueryTree, ParseQuery;
    var e := ParseQuery(input).expr;
    ParsedIsTree(input, Plain);
    PlainIsLayout(e);
    WriteThenParse(e, Plain, "", "");
    assert "" + (Print(e) + "") == Print(e);
  }

  lemma {:induction false} FirstTerm(s: string)
    requires s != "" && !IsBlank(s[0])
    ensures SpacedTerm(s) == TermAt(s)
  {
    RunIs(s, IsBlank, 0);
    assert s[0..] == s;
  }
}
