/** The grammar actions themselves: term structures linked in place through
    `and_list` and `or_list` (ref/rwhoisd/mkdb/y.tab.c). */
module QueryBuilder {
  import opened QueryAst
  import opened QueryGrammar
  import opened QueryMatrix

  class TermNode {
    const term: Term
    var andList: TermNode?
    var orList: TermNode?

    constructor (term: Term)
      ensures this.term == term && andList == null && orList == null
    {
      this.term := term;
      andList := null;
      orList := null;
    }
  }

  /** Term `i` starts a row. */
  predicate IsHead(ops: seq<Operator>, i: nat)
    requires i <= |ops|
  {
    i == 0 || ops[i - 1] == OrOp
  }

  ghost predicate IsNextHead(ops: seq<Operator>, i: nat, h: nat)
    requires i <= |ops|
  {
    && i < h <= |ops| + 1
    && (h <= |ops| ==> IsHead(ops, h))
    && (forall k :: i < k < h ==> !IsHead(ops, k))
  }

  lemma {:induction false} NextHeadExists(ops: seq<Operator>, i: nat) returns (h: nat)
    requires i <= |ops|
    ensures IsNextHead(ops, i, h)
    decreases |ops| - i
  {
    if i == |ops| || ops[i] == OrOp {
      h := i + 1;
    } else {
      h := NextHeadExists(ops, i + 1);
    }
  }

  /** Where the row of term `i` ends: the next head, or the number of terms. */
  ghost function NextHead(ops: seq<Operator>, i: nat): (h: nat)
    requires i <= |ops|
    ensures IsNextHead(ops, i, h)
  {
    assert exists h: nat :: IsNextHead(ops, i, h) by {
      var h := NextHeadExists(ops, i);
    }
    var h: nat :| IsNextHead(ops, i, h);
    h
  }

  lemma {:induction false} NextHeadIs(ops: seq<Operator>, i: nat, h: nat)
    requires i <= |ops| && IsNextHead(ops, i, h)
    ensures NextHead(ops, i) == h
  {
  }

  /** One more operator moves only the ends that were the end of the terms. */
  lemma {:induction false} NextHeadAdded(ops: seq<Operator>, op: Operator, i: nat)
    requires i <= |ops|
    ensures NextHead(ops + [op], i)
            == if NextHead(ops, i) <= |ops| || op == OrOp then NextHead(ops, i) else |ops| + 2
  {
    var more, h := ops + [op], NextHead(ops, i);
    assert forall k :: 0 <= k <= |ops| ==> IsHead(more, k) == IsHead(ops, k);
    assert IsHead(more, |ops| + 1) == (op == OrOp);
    NextHeadIs(more, i, if h <= |ops| || op == OrOp then h else |ops| + 2);
  }

  function Terms(nodes: seq<TermNode>): (terms: seq<Term>)
    ensures |terms| == |nodes|
    ensures forall i :: 0 <= i < |nodes| ==> terms[i] == nodes[i].term
  {
    seq(|nodes|, i requires 0 <= i < |nodes| => nodes[i].term)
  }

  ghost function AndNext(nodes: seq<TermNode>, ops: seq<Operator>, i: nat): TermNode?
    requires |nodes| == |ops| + 1 && i < |nodes|
  {
    if i < |ops| && ops[i] == AndOp then nodes[i + 1] else null
  }

  ghost function OrNext(nodes: seq<TermNode>, ops: seq<Operator>, i: nat): TermNode?
    requires |nodes| == |ops| + 1 && i < |nodes|
  {
    if IsHead(ops, i) && NextHead(ops, i) <= |ops| then nodes[NextHead(ops, i)] else null
  }

  /** The links of the nodes are those of the rows. */
  ghost predicate IsLinked(nodes: seq<TermNode>, ops: seq<Operator>)
    reads nodes
  {
    && |nodes| == |ops| + 1
    && (forall i, j :: 0 <= i < j < |nodes| ==> nodes[i] != nodes[j])
    && (forall i {:trigger nodes[i].andList} :: 0 <= i < |nodes| ==> nodes[i].andList == AndNext(nodes, ops, i))
    && (forall i {:trigger nodes[i].orList} :: 0 <= i < |nodes| ==> nodes[i].orList == OrNext(nodes, ops, i))
  }

  lemma {:induction false} AndAdded(nodes: seq<TermNode>, ops: seq<Operator>, node: TermNode, op: Operator, i: nat)
    requires |nodes| == |ops| + 1 && i <= |nodes|
    ensures AndNext(nodes + [node], ops + [op], i)
            == if i == |nodes| then null
               else if i == |ops| && op == AndOp then node
               else AndNext(nodes, ops, i)
  {
  }

  lemma {:induction false} OrAdded(
      nodes: seq<TermNode>, ops: seq<Operator>, node: TermNode, op: Operator, head: nat, i: nat)
    requires |nodes| == |ops| + 1 && i <= |nodes|
    requires head <= |ops| && IsHead(ops, head) && NextHead(ops, head) == |nodes|
    ensures OrNext(nodes + [node], ops + [op], i)
            == if i == |nodes| then null
               else if i == head && op == OrOp then node
               else OrNext(nodes, ops, i)
  {
    if i < |nodes| {
      NextHeadAdded(ops, op, i);
      assert IsHead(ops + [op], i) == IsHead(ops, i);
      if i < head && NextHead(ops, i) > head {
        assert false;
      }
    }
  }

  /** The last head, once a term is added. */
  lemma {:induction false} HeadAdded(ops: seq<Operator>, op: Operator, head: nat)
    requires head <= |ops| && IsHead(ops, head) && NextHead(ops, head) == |ops| + 1
    ensures var h := if op == OrOp then |ops| + 1 else head;
            IsHead(ops + [op], h) && NextHead(ops + [op], h) == |ops| + 2
  {
    NextHeadAdded(ops, op, head);
    if op == OrOp {
      NextHeadIs(ops + [op], |ops| + 1, |ops| + 2);
    }
  }

  /** Setting one link of the last node or of the last head links the new node. */
  lemma {:induction false} LinkAdded(nodes: seq<TermNode>, ops: seq<Operator>, node: TermNode, op: Operator, head: nat)
    requires |nodes| == |ops| + 1 && node !in nodes
    requires forall i, j :: 0 <= i < j < |nodes| ==> nodes[i] != nodes[j]
    requires head <= |ops| && IsHead(ops, head) && NextHead(ops, head) == |nodes|
    requires node.andList == null && node.orList == null
    requires forall i {:trigger nodes[i].andList} :: 0 <= i < |nodes| ==>
               nodes[i].andList == if i == |ops| && op == AndOp then node else AndNext(nodes, ops, i)
    requires forall i {:trigger nodes[i].orList} :: 0 <= i < |nodes| ==>
               nodes[i].orList == if i == head && op == OrOp then node else OrNext(nodes, ops, i)
    ensures IsLinked(nodes + [node], ops + [op])
  {
    var nodes2, ops2 := nodes + [node], ops + [op];
    forall i | 0 <= i < |nodes2|
      ensures nodes2[i].andList == AndNext(nodes2, ops2, i) && nodes2[i].orList == OrNext(nodes2, ops2, i)
    {
      AndAdded(nodes, ops, node, op, i);
      OrAdded(nodes, ops, node, op, head, i);
    }
  }

  class Builder {
    var queryTree: TermNode?
    var currentOr: TermNode?
    var currentAnd: TermNode?
    var workingTerm: TermNode?

    ghost var nodes: seq<TermNode>
    ghost var ops: seq<Operator>
    ghost var head: nat

    ghost predicate Valid()
      reads this, nodes, if workingTerm == null then {} else {workingTerm}
    {
      && (nodes == [] ==>
            queryTree == null && currentOr == null && currentAnd == null && workingTerm == null && ops == [])
      && (nodes != [] ==>
            && IsLinked(nodes, ops)
            && queryTree == nodes[0]
            && head <= |ops| && IsHead(ops, head) && NextHead(ops, head) == |nodes|
            && currentOr == nodes[head]
            && currentAnd == nodes[|nodes| - 1])
      && (workingTerm != null ==>
            && workingTerm !in nodes
            && workingTerm.andList == null && workingTerm.orList == null)
    }

    constructor ()
      ensures Valid() && nodes == [] && ops == []
    {
      queryTree, currentOr, currentAnd, workingTerm := null, null, null, null;
      nodes, ops, head := [], [], 0;
    }

    /** The first term becomes the tree; a later one waits for its operator, and
        takes the place of one that waits already. */
    method AddTerm(term: TermNode)
      requires Valid()
      requires term !in nodes && term.andList == null && term.orList == null
      modifies this
      ensures Valid() && ops == old(ops)
      ensures old(nodes) == [] ==> nodes == [term] && workingTerm == null
      ensures old(nodes) != [] ==> nodes == old(nodes) && workingTerm == term
    {
      if queryTree == null {
        queryTree := term;
        currentOr, currentAnd := term, term;
        nodes, head := [term], 0;
      } else {
        workingTerm := term;
      }
    }

    method AddAndTerm()
      requires Valid() && nodes != [] && workingTerm != null
      modifies this, nodes
      ensures Valid() && workingTerm == null
      ensures nodes == old(nodes) + [old(workingTerm)] && ops == old(ops) + [AndOp]
    {
      currentAnd.andList := workingTerm;
      LinkAdded(nodes, ops, workingTerm, AndOp, head);
      HeadAdded(ops, AndOp, head);
      currentAnd := workingTerm;
      nodes, ops := nodes + [workingTerm], ops + [AndOp];
      workingTerm := null;
    }

    method AddOrTerm()
      requires Valid() && nodes != [] && workingTerm != null
      modifies this, nodes
      ensures Valid() && workingTerm == null
      ensures nodes == old(nodes) + [old(workingTerm)] && ops == old(ops) + [OrOp]
    {
      currentOr.orList := workingTerm;
      LinkAdded(nodes, ops, workingTerm, OrOp, head);
      HeadAdded(ops, OrOp, head);
      currentOr, currentAnd := workingTerm, workingTerm;
      head := |nodes|;
      nodes, ops := nodes + [workingTerm], ops + [OrOp];
      workingTerm := null;
    }
  }

  /** The rows from head `h` on, as index ranges of the terms. */
  ghost function RowsFrom(terms: seq<Term>, ops: seq<Operator>, h: nat): seq<seq<Term>>
    requires |terms| == |ops| + 1 && h <= |terms|
    decreases |terms| - h
  {
    if h == |terms| then [] else
      [terms[h..NextHead(ops, h)]] + RowsFrom(terms, ops, NextHead(ops, h))
  }

  lemma {:induction false} StretchAdded(terms: seq<Term>, t: Term, h: nat, e: nat)
    requires h <= e <= |terms|
    ensures (terms + [t])[h..e] == terms[h..e]
    ensures (terms + [t])[h..|terms| + 1] == terms[h..|terms|] + [t]
  {
  }

  lemma {:induction false} OneRow(terms: seq<Term>, ops: seq<Operator>, h: nat)
    requires |terms| == |ops| + 1 && h < |terms| && NextHead(ops, h) == |terms|
    ensures RowsFrom(terms, ops, h) == [terms[h..|terms|]]
  {
    assert RowsFrom(terms, ops, |terms|) == [];
    assert RowsFrom(terms, ops, h) == [terms[h..|terms|]] + [];
  }

  /** One more term and operator extend the last of these rows or add one. */
  lemma {:induction false} RowsFromAdded(terms: seq<Term>, ops: seq<Operator>, t: Term, op: Operator, h: nat)
    requires |terms| == |ops| + 1 && h < |terms|
    ensures var rows := RowsFrom(terms, ops, h);
            && rows != []
            && RowsFrom(terms + [t], ops + [op], h)
               == if op == AndOp then rows[..|rows| - 1] + [rows[|rows| - 1] + [t]] else rows + [[t]]
    decreases |terms| - h
  {
    var terms2, ops2, e := terms + [t], ops + [op], NextHead(ops, h);
    NextHeadAdded(ops, op, h);
    StretchAdded(terms, t, h, e);
    if e == |terms| {
      OneRow(terms, ops, h);
      if op == AndOp {
        OneRow(terms2, ops2, h);
      } else {
        NextHeadIs(ops2, e, e + 1);
        OneRow(terms2, ops2, e);
        StretchAdded(terms, t, e, e);
        assert terms[e..e] + [t] == [t];
      }
    } else {
      RowsFromAdded(terms, ops, t, op, e);
    }
  }

  /** Walking the heads gives the rows of the matrix. */
  lemma {:induction false} RowsFromIsGroup(terms: seq<Term>, ops: seq<Operator>)
    requires |terms| == |ops| + 1
    ensures RowsFrom(terms, ops, 0) == Group(terms, ops)
  {
    var n := |ops|;
    if n == 0 {
      NextHeadIs(ops, 0, 1);
      OneRow(terms, ops, 0);
      assert terms[0..|terms|] == terms;
    } else {
      RowsFromIsGroup(terms[..n], ops[..n - 1]);
      RowsFromAdded(terms[..n], ops[..n - 1], terms[n], ops[n - 1], 0);
      assert terms == terms[..n] + [terms[n]] && ops == ops[..n - 1] + [ops[n - 1]];
    }
  }

  /** The walk over one AND-list. */
  method ReadRow(top: TermNode, ghost nodes: seq<TermNode>, ghost ops: seq<Operator>, ghost h: nat)
    returns (row: seq<Term>)
    requires IsLinked(nodes, ops) && h < |nodes| && top == nodes[h]
    ensures row == Terms(nodes)[h..NextHead(ops, h)]
  {
    hide NextHead;
    row := [];
    var qt: TermNode? := top;
    ghost var i, e := h, NextHead(ops, h);
    while qt != null
      invariant h <= i <= e && row == Terms(nodes)[h..i]
      invariant qt == if i < e then nodes[i] else null
      decreases e - i
    {
      row := row + [qt.term];
      assert i + 1 < e ==> !IsHead(ops, i + 1);
      qt := qt.andList;
      i := i + 1;
    }
  }

  /** The walk of the reader over the whole structure, row by row. */
  method ReadRows(top: TermNode, ghost nodes: seq<TermNode>, ghost ops: seq<Operator>) returns (rows: seq<seq<Term>>)
    requires IsLinked(nodes, ops) && top == nodes[0]
    ensures rows == Group(Terms(nodes), ops)
  {
    hide NextHead, Group;
    rows := [];
    var here: TermNode? := top;
    ghost var h := 0;
    while here != null
      invariant h <= |nodes| && (h < |nodes| ==> IsHead(ops, h))
      invariant here == if h < |nodes| then nodes[h] else null
      invariant rows + RowsFrom(Terms(nodes), ops, h) == RowsFrom(Terms(nodes), ops, 0)
      decreases |nodes| - h
    {
      var row := ReadRow(here, nodes, ops, h);
      assert rows + ([row] + RowsFrom(Terms(nodes), ops, NextHead(ops, h)))
          == (rows + [row]) + RowsFrom(Terms(nodes), ops, NextHead(ops, h));
      rows := rows + [row];
      here := here.orList;
      h := NextHead(ops, h);
    }
    assert rows + [] == rows;
    RowsFromIsGroup(Terms(nodes), ops);
  }

  /** The nodes carry the terms, and the operators are those, up to term `i`. */
  ghost predicate HasRead(nodes: seq<TermNode>, done: seq<Operator>, terms: seq<Term>, ops: seq<Operator>, i: nat)
    requires i < |terms| == |ops| + 1
  {
    && |nodes| == i + 1 && done == ops[..i]
    && forall k :: 0 <= k <= i ==> nodes[k].term == terms[k]
  }

  lemma {:induction false} HasReadMore(nodes: seq<TermNode>, done: seq<Operator>, node: TermNode,
                                       terms: seq<Term>, ops: seq<Operator>, i: nat)
    requires i < |ops| && |terms| == |ops| + 1
    requires HasRead(nodes, done, terms, ops, i) && node.term == terms[i + 1]
    ensures HasRead(nodes + [node], done + [ops[i]], terms, ops, i + 1)
  {
  }

  /** The reduction of the next operator and term. */
  method Reduce(b: Builder, terms: seq<Term>, ops: seq<Operator>, i: nat) returns (node: TermNode)
    requires i < |ops| && |terms| == |ops| + 1
    requires b.Valid() && b.workingTerm == null && HasRead(b.nodes, b.ops, terms, ops, i)
    modifies b, b.nodes
    ensures b.Valid() && b.workingTerm == null && HasRead(b.nodes, b.ops, terms, ops, i + 1)
    ensures fresh(node) && b.nodes == old(b.nodes) + [node]
  {
    node := new TermNode(terms[i + 1]);
    HasReadMore(b.nodes, b.ops, node, terms, ops, i);
    b.AddTerm(node);
    if ops[i] == AndOp {
      b.AddAndTerm();
    } else {
      b.AddOrTerm();
    }
  }

  lemma {:induction false} HasReadAll(nodes: seq<TermNode>, done: seq<Operator>, terms: seq<Term>, ops: seq<Operator>)
    requires |terms| == |ops| + 1 && HasRead(nodes, done, terms, ops, |ops|)
    ensures done == ops && Terms(nodes) == terms
  {
  }

  /** The reductions of a whole query, in the order the parser makes them. */
  method Build(terms: seq<Term>, ops: seq<Operator>) returns (b: Builder)
    requires |terms| == |ops| + 1
    ensures fresh(b) && b.Valid() && b.ops == ops && Terms(b.nodes) == terms
  {
    hide NextHead, IsLinked;
    b := new Builder();
    var first := new TermNode(terms[0]);
    b.AddTerm(first);
    for i := 0 to |ops|
      invariant fresh(b) && fresh(b.nodes) && b.Valid() && b.workingTerm == null
      invariant HasRead(b.nodes, b.ops, terms, ops, i)
    {
      var node := Reduce(b, terms, ops, i);
    }
    HasReadAll(b.nodes, b.ops, terms, ops);
  }

  /** The linked structure built for a query reads back as its matrix. */
  method BuildAndRead(terms: seq<Term>, ops: seq<Operator>) returns (rows: seq<seq<Term>>)
    requires |terms| == |ops| + 1
    ensures rows == Group(terms, ops)
  {
    var b := Build(terms, ops);
    rows := ReadRows(b.queryTree, b.nodes, b.ops);
  }
}
