/** The parser itself: a text, a position in it, and methods that advance the
    position (src/query.rs). Each method is held to the grammar function of the
    text that remained when it was called. */
module QueryReader {
  import opened Text
  import opened QueryAst
  import opened QueryGrammar

  datatype Result<+T> = Success(value: T) | Failure(error: ParseError)

  /** What a method returned, and where it stopped, are what the grammar says. */
  ghost predicate Tells<T>(r: Result<T>, p: Parsed<T>, from: nat, to: nat) {
    match p
    case Ok(value, used) => r == Success(value) && to == from + used
    case Err(error) => r == Failure(error)
  }

  /** A term read from `n` characters further on. */
  function Shifted(t: Parsed<Term>, n: nat): Parsed<Term> {
    if t.Err? then t else Ok(t.value, n + t.used)
  }

  lemma {:induction false} SpacedIs(s: string, n: nat, rest: string)
    requires n == Run(s, IsBlank) && rest == s[n..]
    ensures SpacedTerm(s) == Shifted(TermAt(rest), n)
  {
    hide TermAt, Run;
  }

  lemma {:induction false} TermBehindBlanks(input: string, from: nat, here: nat)
    requires from <= |input| && here == from + Run(input[from..], IsBlank)
    ensures SpacedTerm(input[from..]) == Shifted(TermAt(input[here..]), here - from)
  {
    hide TermAt, SpacedTerm, Run;
    RestOfRest(input, from, here - from);
    SpacedIs(input[from..], here - from, input[here..]);
  }

  /** Skipping blanks twice is skipping them once. */
  lemma {:induction false} BlanksBehind(input: string, from: nat, here: nat)
    requires from <= |input| && here == from + Run(input[from..], IsBlank)
    ensures SpacedTerm(input[from..]) == Shifted(SpacedTerm(input[here..]), here - from)
  {
    RestOfRest(input, from, here - from);
    RunIs(input[here..], IsBlank, 0);
    TermBehindBlanks(input, from, here);
    TermBehindBlanks(input, here, here);
  }

  lemma {:induction false} QueryStringFromParts(s: string, start: nat, n: nat)
    requires start == (if s != "" && s[0] == '*' then 1 else 0) && n == Run(s[start..], IsQueryChar)
    ensures var trailing := n > 0 && s[start + n - 1] == '*';
            var text := s[start..start + n - if trailing then 1 else 0];
            QueryString(s) == if text == "" then Err(EmptyString)
                else Ok(Value(text, KindOf(start == 1, trailing)), start + n)
  {
    hide Run;
  }

  lemma {:induction false} SliceOfSlice(s: string, a: nat, b: nat)
    requires a < b <= |s|
    ensures s[a..b][..b - a - 1] == s[a..b - 1] && s[a..b][b - a - 1] == s[b - 1]
  {
  }

  lemma {:induction false} RestSlice(s: string, from: nat, a: nat, b: nat)
    requires from <= a <= b <= |s|
    ensures s[from..][a - from..b - from] == s[a..b]
  {
  }

  /** A value whose characters stand from `start` to `to`, in the terms of the
      positions. */
  lemma {:induction false} QueryStringHere(input: string, from: nat, start: nat, to: nat)
    requires from <= start <= to <= |input|
    requires start == from + if from < |input| && input[from] == '*' then 1 else 0
    requires to == start + Run(input[start..], IsQueryChar)
    ensures var raw := input[start..to];
            var trailing := raw != "" && raw[|raw| - 1] == '*';
            var text := if trailing then raw[..|raw| - 1] else raw;
            QueryString(input[from..])
            == if text == "" then Err(EmptyString) else Ok(Value(text, KindOf(start > from, trailing)), to - from)
  {
    hide QueryString, Run;
    var s, k, n := input[from..], start - from, to - start;
    RestOfRest(input, from, k);
    QueryStringFromParts(s, k, n);
    RestSlice(input, from, start, to);
    if n > 0 {
      SliceOfSlice(input, start, to);
      RestSlice(input, from, start, to - 1);
    }
  }

  /** A term from its attribute and the outcome of reading its value. */
  function AttrTerm(attr: string, equal: bool, v: Parsed<Value>, shift: nat): Parsed<Term> {
    if v.Err? then Err(v.error)
    else Ok(if equal then AttrEq(attr, v.value) else AttrNe(attr, v.value), shift + v.used)
  }

  function BareTerm(v: Parsed<Value>): Parsed<Term> {
    if v.Err? then Err(v.error) else Ok(Bare(v.value), v.used)
  }

  lemma {:induction false} TermFromHead(s: string, head: Head, id: string, rest: string)
    requires s != "" && HeadOf(s) == head
    requires !head.BareHead? ==> id == s[..head.id] && rest == s[head.id + (if head.EqHead? then 1 else 2)..]
    ensures TermAt(s)
            == if head.BareHead? then BareTerm(AnyValue(s))
               else AttrTerm(id, head.EqHead?, ValueAfterOp(rest), head.id + if head.EqHead? then 1 else 2)
  {
    hide HeadOf, ValueAfterOp, AnyValue;
  }

  lemma {:induction false} HeadHere(input: string, start: nat, here: nat, equal: bool)
    requires start < here < |input| && here == start + Run(input[start..], IsIdChar)
    requires equal ==> input[here] == '='
    requires !equal ==> here + 1 < |input| && input[here] == '!' && input[here + 1] == '='
    ensures HeadOf(input[start..]) == if equal then EqHead(here - start) else NeHead(here - start)
  {
    var s, id := input[start..], here - start;
    assert s[id] == input[here] && (id + 1 < |s| ==> s[id + 1] == input[here + 1]);
  }

  lemma {:induction false} SliceOfRest(input: string, start: nat, here: nat)
    requires start <= here <= |input|
    ensures input[start..][..here - start] == input[start..here]
  {
  }

  /** At `start` stands an attribute up to `here`, and its operator. */
  lemma {:induction false} AttrHere(input: string, start: nat, here: nat, equal: bool)
    requires start < here < |input| && here == start + Run(input[start..], IsIdChar)
    requires equal ==> input[here] == '='
    requires !equal ==> here + 1 < |input| && input[here] == '!' && input[here + 1] == '='
    ensures var k := if equal then 1 else 2;
            TermAt(input[start..])
            == AttrTerm(input[start..here], equal, ValueAfterOp(input[here + k..]), here - start + k)
  {
    hide TermAt, HeadOf, ValueAfterOp, Run;
    var k := if equal then 1 else 2;
    HeadHere(input, start, here, equal);
    SliceOfRest(input, start, here);
    RestOfRest(input, start, here - start + k);
    TermFromHead(input[start..], HeadOf(input[start..]), input[start..here], input[here + k..]);
  }

  /** The outcome of the value is the outcome of the term. */
  lemma {:induction false} TellsTerm(r: Result<Term>, term: Parsed<Term>, attr: string, equal: bool, v: Parsed<Value>,
                                     from: nat, shift: nat, to: nat)
    requires Tells(r, AttrTerm(attr, equal, v, 0), from + shift, to) && term == AttrTerm(attr, equal, v, shift)
    ensures Tells(r, term, from, to)
  {
  }

  lemma {:induction false} NoTermHere()
    ensures TermAt("") == Err(UnexpectedEnd)
  {
  }

  /** At `start` stands no attribute with an operator. */
  lemma {:induction false} BareHere(input: string, start: nat)
    requires start < |input|
    requires var here := start + Run(input[start..], IsIdChar);
             here == start || here == |input|
             || (input[here] != '=' && !(input[here] == '!' && here + 1 < |input| && input[here + 1] == '='))
    ensures TermAt(input[start..]) == BareTerm(AnyValue(input[start..]))
  {
    hide TermAt, AnyValue, Run;
    var s := input[start..];
    TermFromHead(s, HeadOf(s), "", "");
  }

  class Parser {
    const input: string
    var pos: nat

    ghost predicate Valid()
      reads this
    {
      pos <= |input|
    }

    constructor (input: string)
      ensures Valid() && this.input == input && pos == 0
    {
      this.input := input;
      pos := 0;
    }

    method SkipBlanks()
      requires Valid()
      modifies this
      ensures Valid() && pos == old(pos) + Run(input[old(pos)..], IsBlank)
    {
      while pos < |input| && (input[pos] == ' ' || input[pos] == '\t')
        invariant old(pos) <= pos <= |input|
        invariant forall i :: old(pos) <= i < pos ==> IsBlank(input[i])
        decreases |input| - pos
      {
        pos := pos + 1;
      }
      RunIs(input[old(pos)..], IsBlank, pos - old(pos));
    }

    /** Consumes `kw` and the blanks behind it, or nothing. */
    method TryKeyword(kw: string) returns (found: bool)
      requires Valid()
      modifies this
      ensures Valid() && found == IsKeyword(input[old(pos)..], kw)
      ensures pos == if found then old(pos) + |kw| + Run(input[old(pos) + |kw|..], IsBlank) else old(pos)
    {
      var rest := input[pos..];
      if |rest| < |kw| {
        return false;
      }
      if !EqualIgnoringCase(rest[..|kw|], kw) {
        return false;
      }
      var after := rest[|kw|..];
      if after != "" && after[0] != ' ' && after[0] != '\t' {
        return false;
      }
      pos := pos + |kw|;
      assert after == input[pos..];
      if after != "" {
        SkipBlanks();
      }
      return true;
    }

    method ConsumeIdChars() returns (token: string)
      requires Valid()
      modifies this
      ensures Valid() && pos == old(pos) + Run(input[old(pos)..], IsIdChar)
      ensures token == input[old(pos)..pos]
    {
      var start := pos;
      while pos < |input| && IsIdChar(input[pos])
        invariant old(pos) <= pos <= |input|
        invariant forall i :: old(pos) <= i < pos ==> IsIdChar(input[i])
        decreases |input| - pos
      {
        pos := pos + 1;
      }
      RunIs(input[old(pos)..], IsIdChar, pos - old(pos));
      token := input[start..pos];
    }

    method ConsumeQueryChars()
      requires Valid()
      modifies this
      ensures Valid() && pos == old(pos) + Run(input[old(pos)..], IsQueryChar)
    {
      while pos < |input| && !(input[pos] == '"' || input[pos] == ' ' || input[pos] == '\t')
        invariant old(pos) <= pos <= |input|
        invariant forall i :: old(pos) <= i < pos ==> IsQueryChar(input[i])
        decreases |input| - pos
      {
        pos := pos + 1;
      }
      RunIs(input[old(pos)..], IsQueryChar, pos - old(pos));
    }

    method ParseQueryString() returns (r: Result<Value>)
      requires Valid()
      modifies this
      ensures Valid() && Tells(r, QueryString(input[old(pos)..]), old(pos), pos)
    {
      var leading := false;
      if pos < |input| && input[pos] == '*' {
        pos := pos + 1;
        leading := true;
      }
      var start := pos;
      ConsumeQueryChars();
      var text := input[start..pos];
      var trailing := text != "" && text[|text| - 1] == '*';
      if trailing {
        text := text[..|text| - 1];
      }
      QueryStringHere(input, old(pos), start, pos);
      if text == "" {
        return Failure(EmptyString);
      }
      return Success(Value(text, KindOf(leading, trailing)));
    }

    method ParseQuotedValue() returns (r: Result<Value>)
      requires Valid() && pos < |input| && input[pos] == '"'
      modifies this
      ensures Valid() && Tells(r, QuotedValue(input[old(pos)..]), old(pos), pos)
    {
      ghost var s := input[pos..];
      pos := pos + 1;
      var start := pos;
      while pos < |input| && input[pos] != '"'
        invariant start <= pos <= |input|
        invariant forall i :: start <= i < pos ==> input[i] != '"'
        decreases |input| - pos
      {
        pos := pos + 1;
      }
      FindIs(s, '"', 1, 1 + (pos - start));
      if pos == |input| {
        return Failure(Unterminated);
      }
      var text := input[start..pos];
      assert text == s[1..1 + (pos - start)];
      pos := pos + 1;
      if text == "" {
        return Failure(EmptyQuoted);
      }
      return Success(Value(text, Quoted));
    }

    method ParseValueAfterOp() returns (r: Result<Value>)
      requires Valid()
      modifies this
      ensures Valid() && Tells(r, ValueAfterOp(input[old(pos)..]), old(pos), pos)
    {
      if pos == |input| {
        return Failure(MissingValue);
      }
      if input[pos] == '"' {
        r := ParseQuotedValue();
      } else {
        r := ParseQueryString();
      }
    }

    /** The value behind an attribute and its operator, which is already read. */
    method ParseAttrTerm(token: string, equal: bool) returns (r: Result<Term>)
      requires Valid()
      modifies this
      ensures Valid() && Tells(r, AttrTerm(token, equal, ValueAfterOp(input[old(pos)..]), 0), old(pos), pos)
    {
      var v := ParseValueAfterOp();
      return if v.Failure? then Failure(v.error)
             else if equal then Success(AttrEq(token, v.value)) else Success(AttrNe(token, v.value));
    }

    /** A value on its own. */
    method ParseBareTerm() returns (r: Result<Term>)
      requires Valid()
      modifies this
      ensures Valid() && Tells(r, BareTerm(AnyValue(input[old(pos)..])), old(pos), pos)
    {
      var v;
      if pos < |input| && input[pos] == '"' {
        v := ParseQuotedValue();
      } else {
        v := ParseQueryString();
      }
      return if v.Failure? then Failure(v.error) else Success(Bare(v.value));
    }

    /** The part of `parse_term` behind the blanks. */
    method ParseTermHere() returns (r: Result<Term>)
      requires Valid()
      modifies this
      ensures Valid() && Tells(r, TermAt(input[old(pos)..]), old(pos), pos)
    {
      hide TermAt, AnyValue, ValueAfterOp;
      if pos == |input| {
        NoTermHere();
        return Failure(UnexpectedEnd);
      }
      var start := pos;
      if input[pos] == '"' {
        BareHere(input, start);
        r := ParseBareTerm();
        return;
      }
      var token := ConsumeIdChars();
      if token != "" && pos < |input| {
        if input[pos] == '=' {
          AttrHere(input, start, pos, true);
          pos := pos + 1;
          ghost var at := pos;
          r := ParseAttrTerm(token, true);
          TellsTerm(r, TermAt(input[start..]), token, true, ValueAfterOp(input[at..]), start, at - start, pos);
          return;
        } else if input[pos] == '!' && pos + 1 < |input| && input[pos + 1] == '=' {
          AttrHere(input, start, pos, false);
          pos := pos + 2;
          ghost var at := pos;
          r := ParseAttrTerm(token, false);
          TellsTerm(r, TermAt(input[start..]), token, false, ValueAfterOp(input[at..]), start, at - start, pos);
          return;
        }
      }
      BareHere(input, start);
      pos := start;
      r := ParseBareTerm();
    }

    method ParseTerm() returns (r: Result<Term>)
      requires Valid()
      modifies this
      ensures Valid() && Tells(r, SpacedTerm(input[old(pos)..]), old(pos), pos)
    {
      SkipBlanks();
      TermBehindBlanks(input, old(pos), pos);
      r := ParseTermHere();
    }

    /** The operand behind an operator that is already read. */
    method ParseOperandOf(op: Operator, lhs: Expr) returns (r: Result<Expr>)
      requires Valid()
      modifies this
      ensures Valid()
      ensures var t := SpacedTerm(input[old(pos)..]);
              if t.Err? then r == Failure(t.error)
              else r == Success(Join(op, lhs, t.value)) && pos == old(pos) + t.used
    {
      var rhs := ParseTerm();
      return if rhs.Failure? then Failure(rhs.error)
             else if op == AndOp then Success(And(lhs, Leaf(rhs.value))) else Success(Or(lhs, Leaf(rhs.value)));
    }

    /** The operator in front of the next term, if one is written. */
    method ParseOperator() returns (op: Operator)
      requires Valid()
      modifies this
      ensures Valid() && op == OperatorAt(input[old(pos)..]).0
      ensures var k := OperatorAt(input[old(pos)..]).1;
              pos == old(pos) + k + if k == 0 then 0 else Run(input[old(pos) + k..], IsBlank)
    {
      var save := pos;
      var found := TryKeyword("and");
      if found {
        return AndOp;
      }
      pos := save;
      found := TryKeyword("or");
      if found {
        return OrOp;
      }
      pos := save;
      return AndOp;
    }

    /** One round of the loop of `parse_expr`: an operator if one is written, a
        term, and the larger expression. `from` is where the blanks began. */
    method ParseOperand(lhs: Expr, ghost from: nat) returns (r: Result<Expr>)
      requires Valid() && from <= pos && pos == from + Run(input[from..], IsBlank)
      modifies this
      ensures Valid()
      ensures var t := Step(input[from..]);
              if t.Err? then r == Failure(t.error)
              else r == Success(Join(t.value.0, lhs, t.value.1)) && pos == from + t.used
    {
      hide Step, SpacedTerm, OperatorAt, Run;
      ghost var here := pos;
      var op := ParseOperator();
      if pos == here {
        StepAt(input, from, here);
      } else {
        StepThrough(input, from, here, pos);
      }
      r := ParseOperandOf(op, lhs);
    }

    /** Success means that the whole text was read. */
    method ParseExpr() returns (r: Result<Expr>)
      requires Valid()
      modifies this
      ensures Valid() && IsOutcome(r, ExprAt(input[old(pos)..]))
      ensures r.Success? ==> pos == |input|
    {
      ghost var whole := ExprAt(input[pos..]);
      SkipBlanks();
      BlanksBehind(input, old(pos), pos);
      var first := ParseTerm();
      if first.Failure? {
        return Failure(first.error);
      }
      var lhs := Leaf(first.value);
      ExprStarts(input, old(pos), pos);
      while true
        invariant Valid() && More(input[pos..], lhs, Step) == whole
        decreases |input| - pos
      {
        ghost var from := pos;
        SkipBlanks();
        if pos == |input| {
          break;
        }
        var next := ParseOperand(lhs, from);
        if next.Failure? {
          return Failure(next.error);
        }
        MoreRound(input, from, pos, lhs, Step);
        lhs := next.value;
      }
      return Success(lhs);
    }
  }

  ghost predicate IsOutcome(r: Result<Expr>, e: ExprResult) {
    match e
    case Good(expr) => r == Success(expr)
    case Bad(error) => r == Failure(error)
  }

  lemma {:induction false} StepIs(s: string, n: nat, rest: string, behind: string)
    requires n == Run(s, IsBlank) && rest == s[n..]
    requires behind == s[n + OperatorAt(rest).1..]
    ensures var t := SpacedTerm(behind);
            Step(s) == if t.Err? then Err(t.error)
                else Ok((OperatorAt(rest).0, t.value), n + OperatorAt(rest).1 + t.used)
  {
    hide SpacedTerm, OperatorAt, Run;
  }

  lemma {:induction false} StepAt(input: string, from: nat, here: nat)
    requires from <= |input| && here == from + Run(input[from..], IsBlank)
    ensures var (op, k) := OperatorAt(input[here..]);
            var t := SpacedTerm(input[here + k..]);
            Step(input[from..]) == if t.Err? then Err(t.error) else Ok((op, t.value), here - from + k + t.used)
  {
    hide SpacedTerm, OperatorAt, Run, Step;
    var k := OperatorAt(input[here..]).1;
    RestOfRest(input, from, here - from);
    RestOfRest(input, from, here - from + k);
    StepIs(input[from..], here - from, input[here..], input[here + k..]);
  }

  /** The same, once the blanks behind the operator are skipped too. */
  lemma {:induction false} StepThrough(input: string, from: nat, here: nat, behind: nat)
    requires from <= |input| && here == from + Run(input[from..], IsBlank)
    requires var k := OperatorAt(input[here..]).1; behind == here + k + Run(input[here + k..], IsBlank)
    ensures var t := SpacedTerm(input[behind..]);
            Step(input[from..])
            == if t.Err? then Err(t.error) else Ok((OperatorAt(input[here..]).0, t.value), behind - from + t.used)
  {
    hide SpacedTerm, OperatorAt, Run, Step;
    StepAt(input, from, here);
    BlanksBehind(input, here + OperatorAt(input[here..]).1, behind);
  }

  /** A round of the loop that reads from `from` to `to`. */
  lemma {:induction false} MoreRound(
      input: string, from: nat, to: nat, lhs: Expr, step: string -> Parsed<(Operator, Term)>)
    requires from <= to <= |input| && Run(input[from..], IsBlank) < |input| - from && Advances(step)
    requires step(input[from..]).Ok? && step(input[from..]).used == to - from
    ensures var (op, t) := step(input[from..]).value;
            More(input[from..], lhs, step) == More(input[to..], Join(op, lhs, t), step)
  {
    RestOfRest(input, from, to - from);
  }

  lemma {:induction false} ExprIs(s: string, rest: string)
    requires SpacedTerm(s).Ok? && rest == s[SpacedTerm(s).used..]
    ensures ExprAt(s) == More(rest, Leaf(SpacedTerm(s).value), Step)
  {
  }

  lemma {:induction false} ExprStarts(input: string, from: nat, to: nat)
    requires from <= to <= |input|
    requires SpacedTerm(input[from..]).Ok? && SpacedTerm(input[from..]).used == to - from
    ensures ExprAt(input[from..]) == More(input[to..], Leaf(SpacedTerm(input[from..]).value), Step)
  {
    RestOfRest(input, from, to - from);
    ExprIs(input[from..], input[to..]);
  }

  /** `Query::parse`. The test for input left over behind the expression never
      succeeds: `ParseExpr` ends at the end of the text. */
  method Parse(input: string) returns (r: Result<Query>)
    ensures match ParseQuery(input)
            case Good(expr) => r == Success(Query(None, expr, input))
            case Bad(error) => r == Failure(error)
  {
    var trimmed := Trim(input, IsSpace);
    if trimmed == "" {
      return Failure(EmptyQuery);
    }
    var p := new Parser(trimmed);
    assert trimmed[0..] == trimmed;
    var expr := p.ParseExpr();
    if expr.Failure? {
      return Failure(expr.error);
    }
    p.SkipBlanks();
    assert p.pos == |p.input|;
    return Success(Query(None, expr.value, input));
  }
}
