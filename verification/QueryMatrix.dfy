/** The reference server's grammar actions, which link the terms of a query into
    an OR-list of AND-lists, and what that list means beside the left-associative
    tree of src/query.rs. */
module QueryMatrix {
  import Text
  import opened QueryAst
  import opened QueryGrammar

  // ---- What is built ------------------------------------------------------

  /** The rows after reading `terms` joined by `ops`: `and` extends the last
      row, `or` starts a new one. */
  function Group(terms: seq<Term>, ops: seq<Operator>): (rows: seq<seq<Term>>)
    requires |terms| == |ops| + 1
    ensures rows != []
  {
    if ops == [] then [terms]
    else
      var n := |ops|;
      var rows := Group(terms[..n], ops[..n - 1]);
      var last := |rows| - 1;
      if ops[n - 1] == AndOp then rows[last := rows[last] + [terms[n]]] else rows + [[terms[n]]]
  }

  /** The tree of `parse_expr` for the same terms and operators. */
  function LeftTree(terms: seq<Term>, ops: seq<Operator>): Expr
    requires |terms| == |ops| + 1
  {
    if ops == [] then Leaf(terms[0])
    else
      var n := |ops|;
      Join(ops[n - 1], LeftTree(terms[..n], ops[..n - 1]), terms[n])
  }

  // ---- The maximal runs ---------------------------------------------------

  /** Number of terms in the first `r` rows. */
  function Offset(rows: seq<seq<Term>>, r: nat): nat
    requires r <= |rows|
  {
    if r == 0 then 0 else Offset(rows, r - 1) + |rows[r - 1]|
  }

  /** Row `r` is the stretch of terms between two `or`s (or an end), and inside
      it there are only `and`s. */
  ghost predicate IsRunOf(terms: seq<Term>, ops: seq<Operator>, rows: seq<seq<Term>>, r: nat)
    requires |terms| == |ops| + 1 && r < |rows|
  {
    var from, to := Offset(rows, r), Offset(rows, r + 1);
    && from < to <= |terms|
    && rows[r] == terms[from..to]
    && (r > 0 ==> 0 < from && ops[from - 1] == OrOp)
    && (forall k :: from <= k < to - 1 ==> ops[k] == AndOp)
  }

  lemma {:induction false} OffsetSame(a: seq<seq<Term>>, b: seq<seq<Term>>, r: nat)
    requires r <= |a| && r <= |b| && forall i :: 0 <= i < r ==> a[i] == b[i]
    ensures Offset(a, r) == Offset(b, r)
  {
    if r > 0 {
      OffsetSame(a, b, r - 1);
    }
  }

  lemma {:induction false} OffsetGrows(rows: seq<seq<Term>>, r: nat, q: nat)
    requires r <= q <= |rows|
    ensures Offset(rows, r) <= Offset(rows, q)
  {
    if r < q {
      OffsetGrows(rows, r, q - 1);
    }
  }

  /** A run stays a run when the row list changes only behind it. */
  lemma {:induction false} RunStays(terms: seq<Term>, ops: seq<Operator>, rows: seq<seq<Term>>,
                                    terms2: seq<Term>, ops2: seq<Operator>, rows2: seq<seq<Term>>, r: nat)
    requires |terms| == |ops| + 1 && |terms2| == |ops2| + 1 && terms <= terms2 && ops <= ops2
    requires r < |rows| && r < |rows2| && forall i :: 0 <= i <= r ==> rows[i] == rows2[i]
    requires IsRunOf(terms, ops, rows, r)
    ensures IsRunOf(terms2, ops2, rows2, r)
  {
    OffsetSame(rows, rows2, r);
    OffsetSame(rows, rows2, r + 1);
    var from, to := Offset(rows, r), Offset(rows, r + 1);
    assert terms2[from..to] == terms[from..to];
  }

  /** The matrix groups the terms, in order, into the maximal AND-runs. */
  lemma {:induction false} RowsAreRuns(terms: seq<Term>, ops: seq<Operator>)
    requires |terms| == |ops| + 1
    ensures var rows := Group(terms, ops);
            Offset(rows, |rows|) == |terms| && forall r :: 0 <= r < |rows| ==> IsRunOf(terms, ops, rows, r)
  {
    var rows := Group(terms, ops);
    if ops == [] {
      assert Offset(rows, 1) == Offset(rows, 0) + |rows[0]|;
      assert terms[0..1] == terms;
    } else {
      var n := |ops|;
      var before := Group(terms[..n], ops[..n - 1]);
      RowsAreRuns(terms[..n], ops[..n - 1]);
      var last := |before| - 1;
      OffsetSame(before, rows, last);
      forall r | 0 <= r < last
        ensures IsRunOf(terms, ops, rows, r)
      {
        RunStays(terms[..n], ops[..n - 1], before, terms, ops, rows, r);
      }
      assert IsRunOf(terms[..n], ops[..n - 1], before, last);
      LastRow(terms, ops, before, rows);
    }
  }

  lemma {:induction false} LastRow(terms: seq<Term>, ops: seq<Operator>, before: seq<seq<Term>>, rows: seq<seq<Term>>)
    requires |terms| == |ops| + 1 && ops != [] && before != []
    requires var n, last := |ops|, |before| - 1;
             && Offset(before, |before|) == n
             && IsRunOf(terms[..n], ops[..n - 1], before, last)
             && rows == if ops[n - 1] == AndOp then before[last := before[last] + [terms[n]]] else before + [[terms[n]]]
    ensures Offset(rows, |rows|) == |terms|
    ensures forall r :: |before| - 1 <= r < |rows| ==> IsRunOf(terms, ops, rows, r)
  {
    var n, last := |ops|, |before| - 1;
    OffsetSame(before, rows, last);
    if ops[n - 1] == AndOp {
      var from := Offset(rows, last);
      assert Offset(rows, last + 1) == n + 1;
      assert terms[from..n + 1] == terms[..n][from..n] + [terms[n]];
    } else {
      RunStays(terms[..n], ops[..n - 1], before, terms, ops, rows, last);
      OffsetSame(before, rows, last + 1);
      assert Offset(rows, last + 2) == n + 1;
      assert terms[n..n + 1] == [terms[n]];
    }
  }

  // ---- The meaning of tree and matrix -------------------------------------

  predicate Holds(e: Expr, env: Term -> bool) {
    match e
    case Leaf(t) => env(t)
    case And(l, r) => Holds(l, env) && Holds(r, env)
    case Or(l, r) => Holds(l, env) || Holds(r, env)
  }

  predicate AllHold(row: seq<Term>, env: Term -> bool) {
    forall j :: 0 <= j < |row| ==> env(row[j])
  }

  predicate SomeRowHolds(rows: seq<seq<Term>>, env: Term -> bool) {
    exists r :: 0 <= r < |rows| && AllHold(rows[r], env)
  }

  predicate NoAndAfterOr(ops: seq<Operator>) {
    forall i, j :: 0 <= i < j < |ops| && ops[i] == OrOp ==> ops[j] == OrOp
  }

  /** A query without `or` is one row, and the tree asks for all of it. */
  lemma {:induction false} OnlyAnds(terms: seq<Term>, ops: seq<Operator>, env: Term -> bool)
    requires |terms| == |ops| + 1 && forall i :: 0 <= i < |ops| ==> ops[i] == AndOp
    ensures Group(terms, ops) == [terms]
    ensures Holds(LeftTree(terms, ops), env) == AllHold(terms, env)
  {
    if ops != [] {
      var n := |ops|;
      OnlyAnds(terms[..n], ops[..n - 1], env);
      assert terms == terms[..n] + [terms[n]];
    }
  }

  /** While no `and` follows an `or`, tree and matrix mean the same. */
  lemma {:induction false} SameMeaning(terms: seq<Term>, ops: seq<Operator>, env: Term -> bool)
    requires |terms| == |ops| + 1 && NoAndAfterOr(ops)
    ensures Holds(LeftTree(terms, ops), env) == SomeRowHolds(Group(terms, ops), env)
  {
    if forall i :: 0 <= i < |ops| ==> ops[i] == AndOp {
      OnlyAnds(terms, ops, env);
      assert AllHold(terms, env) == AllHold([terms][0], env);
    } else {
      var n := |ops|;
      assert ops[n - 1] == OrOp;
      SameMeaning(terms[..n], ops[..n - 1], env);
      RowAdded(Group(terms[..n], ops[..n - 1]), terms[n], env);
    }
  }

  lemma {:induction false} RowAdded(rows: seq<seq<Term>>, t: Term, env: Term -> bool)
    ensures SomeRowHolds(rows + [[t]], env) == (SomeRowHolds(rows, env) || env(t))
  {
    var more := rows + [[t]];
    assert more[|rows|] == [t] && [t][0] == t;
    if r :| 0 <= r < |rows| && AllHold(rows[r], env) {
      assert AllHold(more[r], env);
    }
  }

  // ---- Where they part ----------------------------------------------------

  /** Every term up to the first `or`, and no other. */
  ghost function FirstRow(terms: seq<Term>, i: nat): Term -> bool {
    t => exists k :: 0 <= k <= i && k < |terms| && terms[k] == t
  }

  ghost predicate AreDistinct(terms: seq<Term>) {
    forall i, j :: 0 <= i < j < |terms| ==> terms[i] != terms[j]
  }

  /** With the first row true and the rest false, the tree is false as soon as
      an `and` stands behind the `or`. */
  lemma {:induction false} TreeParts(terms: seq<Term>, ops: seq<Operator>, i: nat, env: Term -> bool)
    requires |terms| == |ops| + 1 && i < |ops| && ops[i] == OrOp
    requires forall k :: 0 <= k < i ==> ops[k] == AndOp
    requires forall k :: 0 <= k < |terms| ==> env(terms[k]) == (k <= i)
    ensures Holds(LeftTree(terms, ops), env) == (forall k :: i <= k < |ops| ==> ops[k] == OrOp)
    decreases |ops|
  {
    var n := |ops|;
    if n == i + 1 {
      OnlyAnds(terms[..n], ops[..i], env);
    } else {
      TreeParts(terms[..n], ops[..n - 1], i, env);
    }
  }

  /** The first row of the matrix is the terms up to the first `or`. */
  lemma {:induction false} FirstRowIs(terms: seq<Term>, ops: seq<Operator>, i: nat, env: Term -> bool)
    requires |terms| == |ops| + 1 && i < |ops| && ops[i] == OrOp
    requires forall k :: 0 <= k < i ==> ops[k] == AndOp
    ensures |Group(terms, ops)| > 1 && Group(terms, ops)[0] == terms[..i + 1]
    decreases |ops|
  {
    var n := |ops|;
    if n == i + 1 {
      OnlyAnds(terms[..n], ops[..i], env);
      assert terms[..n] == terms[..i + 1];
    } else {
      FirstRowIs(terms[..n], ops[..n - 1], i, env);
      assert terms[..n][..i + 1] == terms[..i + 1];
    }
  }

  lemma {:induction false} FirstOr(ops: seq<Operator>, j: nat) returns (i: nat)
    requires j < |ops| && ops[j] == OrOp
    ensures i <= j && ops[i] == OrOp && forall k :: 0 <= k < i ==> ops[k] == AndOp
  {
    i := 0;
    while ops[i] != OrOp
      invariant i <= j && forall k :: 0 <= k < i ==> ops[k] == AndOp
      decreases j - i
    {
      i := i + 1;
    }
  }

  lemma {:induction false} Part(terms: seq<Term>, ops: seq<Operator>) returns (env: Term -> bool)
    requires |terms| == |ops| + 1 && AreDistinct(terms) && !NoAndAfterOr(ops)
    ensures SomeRowHolds(Group(terms, ops), env) && !Holds(LeftTree(terms, ops), env)
  {
    var a, b :| 0 <= a < b < |ops| && ops[a] == OrOp && ops[b] != OrOp;
    var i := FirstOr(ops, a);
    env := FirstRow(terms, i);
    TreeParts(terms, ops, i, env);
    FirstRowIs(terms, ops, i, env);
    assert AllHold(Group(terms, ops)[0], env);
  }

  /** Tree and matrix agree for every truth assignment exactly when no `and`
      follows an `or`. */
  lemma {:induction false} AgreeExactly(terms: seq<Term>, ops: seq<Operator>)
    requires |terms| == |ops| + 1 && AreDistinct(terms)
    ensures (forall env: Term -> bool :: Holds(LeftTree(terms, ops), env) == SomeRowHolds(Group(terms, ops), env))
            <==> NoAndAfterOr(ops)
  {
    if NoAndAfterOr(ops) {
      forall env: Term -> bool
        ensures Holds(LeftTree(terms, ops), env) == SomeRowHolds(Group(terms, ops), env)
      {
        SameMeaning(terms, ops, env);
      }
    } else {
      var env := Part(terms, ops);
    }
  }

  // ---- Parsed queries -----------------------------------------------------

  ghost predicate IsLeftTree(e: Expr, terms: seq<Term>, ops: seq<Operator>) {
    |terms| == |ops| + 1 && e == LeftTree(terms, ops)
  }

  /** Every tree the parser's loop returns is the left tree of its terms. */
  lemma {:induction false} MoreIsLeftTree(s: string, lhs: Expr, step: string -> Parsed<(Operator, Term)>,
                                          terms: seq<Term>, ops: seq<Operator>)
    returns (allTerms: seq<Term>, allOps: seq<Operator>)
    requires Advances(step) && IsLeftTree(lhs, terms, ops) && More(s, lhs, step).Good?
    ensures IsLeftTree(More(s, lhs, step).expr, allTerms, allOps)
    ensures terms <= allTerms && ops <= allOps
    decreases |s|
  {
    if Text.Run(s, Text.IsBlank) == |s| {
      return terms, ops;
    }
    var t := step(s);
    var ts, os := terms + [t.value.1], ops + [t.value.0];
    assert ts[..|os|] == terms && os[..|os| - 1] == ops;
    allTerms, allOps := MoreIsLeftTree(s[t.used..], Join(t.value.0, lhs, t.value.1), step, ts, os);
  }

  /** A parsed query means what the matrix of its terms means, whenever no `and`
      in it follows an `or`. */
  lemma {:induction false} ParsedMeansMatrix(input: string)
    returns (terms: seq<Term>, ops: seq<Operator>)
    requires ParseQuery(input).Good?
    ensures IsLeftTree(ParseQuery(input).expr, terms, ops)
    ensures NoAndAfterOr(ops) ==>
              forall env: Term -> bool :: Holds(ParseQuery(input).expr, env) == SomeRowHolds(Group(terms, ops), env)
  {
    var s := Text.Trim(input, Text.IsSpace);
    var t := SpacedTerm(s);
    terms, ops := MoreIsLeftTree(s[t.used..], Leaf(t.value), Step, [t.value], []);
    if NoAndAfterOr(ops) {
      forall env: Term -> bool
        ensures Holds(ParseQuery(input).expr, env) == SomeRowHolds(Group(terms, ops), env)
      {
        SameMeaning(terms, ops, env);
      }
    }
  }
}
