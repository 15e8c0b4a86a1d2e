/** The doubly linked list with a cursor that carries its own position
    (ref/rwhoisd/common/dl_list.c), as a refinement of a sequence with an index. */
module LinkedList {
  import opened Text

  class Node<T> {
    const data: Option<T>
    var next: Node?<T>
    var prev: Node?<T>

    constructor (data: Option<T>)
      ensures this.data == data && next == null && prev == null
    {
      this.data := data;
      next, prev := null, null;
    }
  }

  // ---- Links over a sequence of nodes -------------------------------------

  function NextOf<T>(nodes: seq<Node<T>>, i: nat): Node?<T>
    requires i < |nodes|
  {
    if i + 1 < |nodes| then nodes[i + 1] else null
  }

  function PrevOf<T>(nodes: seq<Node<T>>, i: nat): Node?<T>
    requires i < |nodes|
  {
    if i > 0 then nodes[i - 1] else null
  }

  ghost predicate AreDistinct<T>(nodes: seq<Node<T>>) {
    forall i, j :: 0 <= i < j < |nodes| ==> nodes[i] != nodes[j]
  }

  ghost predicate IsLinked<T>(nodes: seq<Node<T>>)
    reads nodes
  {
    && AreDistinct(nodes)
    && (forall i {:trigger nodes[i].next} :: 0 <= i < |nodes| ==> nodes[i].next == NextOf(nodes, i))
    && (forall i {:trigger nodes[i].prev} :: 0 <= i < |nodes| ==> nodes[i].prev == PrevOf(nodes, i))
  }

  ghost function Inserted<A>(s: seq<A>, k: nat, x: A): (r: seq<A>)
    requires k <= |s|
    ensures |r| == |s| + 1
  {
    seq(|s| + 1, i requires 0 <= i <= |s| => if i < k then s[i] else if i == k then x else s[i - 1])
  }

  ghost function Removed<A>(s: seq<A>, k: nat): (r: seq<A>)
    requires k < |s|
    ensures |r| == |s| - 1
  {
    seq(|s| - 1, i requires 0 <= i < |s| - 1 => if i < k then s[i] else s[i + 1])
  }

  lemma {:induction false} InsertedAt<A>(s: seq<A>, k: nat, x: A, i: nat)
    requires k <= |s| && i <= |s|
    ensures Inserted(s, k, x)[i] == if i < k then s[i] else if i == k then x else s[i - 1]
  {
  }

  lemma {:induction false} RemovedAt<A>(s: seq<A>, k: nat, i: nat)
    requires k < |s| && i < |s| - 1
    ensures Removed(s, k)[i] == if i < k then s[i] else s[i + 1]
  {
  }

  /** The four links set around a new node. */
  lemma {:induction false} LinkInserted<T>(nodes: seq<Node<T>>, k: nat, node: Node<T>)
    requires k <= |nodes| && AreDistinct(nodes) && node !in nodes
    requires forall i {:trigger nodes[i].next} :: 0 <= i < |nodes| ==>
        nodes[i].next == if i == k - 1 then node else NextOf(nodes, i)
    requires forall i {:trigger nodes[i].prev} :: 0 <= i < |nodes| ==>
        nodes[i].prev == if i == k then node else PrevOf(nodes, i)
    requires node.next == if k < |nodes| then nodes[k] else null
    requires node.prev == if k > 0 then nodes[k - 1] else null
    ensures IsLinked(Inserted(nodes, k, node))
  {
    var more := Inserted(nodes, k, node);
    forall i | 0 <= i < |more|
      ensures more[i].next == NextOf(more, i) && more[i].prev == PrevOf(more, i)
    {
      InsertedAt(nodes, k, node, i);
      if i + 1 < |more| {
        InsertedAt(nodes, k, node, i + 1);
      }
      if i > 0 {
        InsertedAt(nodes, k, node, i - 1);
      }
    }
    InsertedDistinct(nodes, k, node);
  }

  lemma {:induction false} InsertedDistinct<T>(nodes: seq<Node<T>>, k: nat, node: Node<T>)
    requires k <= |nodes| && AreDistinct(nodes) && node !in nodes
    ensures AreDistinct(Inserted(nodes, k, node))
  {
    var more := Inserted(nodes, k, node);
    forall i, j | 0 <= i < j < |more|
      ensures more[i] != more[j]
    {
      InsertedAt(nodes, k, node, i);
      InsertedAt(nodes, k, node, j);
    }
  }

  /** The links of its neighbours set past a removed node. */
  lemma {:induction false} LinkRemoved<T>(nodes: seq<Node<T>>, k: nat)
    requires k < |nodes| && AreDistinct(nodes)
    requires forall i {:trigger nodes[i].next} :: 0 <= i < |nodes| && i != k ==>
        nodes[i].next == NextOf(nodes, if i == k - 1 then k else i)
    requires forall i {:trigger nodes[i].prev} :: 0 <= i < |nodes| && i != k ==>
        nodes[i].prev == PrevOf(nodes, if i == k + 1 then k else i)
    ensures IsLinked(Removed(nodes, k))
  {
    var fewer := Removed(nodes, k);
    forall i | 0 <= i < |fewer|
      ensures fewer[i].next == NextOf(fewer, i) && fewer[i].prev == PrevOf(fewer, i)
    {
      RemovedAt(nodes, k, i);
      if i + 1 < |fewer| {
        RemovedAt(nodes, k, i + 1);
      }
      if i > 0 {
        RemovedAt(nodes, k, i - 1);
      }
    }
    RemovedDistinct(nodes, k);
  }

  lemma {:induction false} RemovedDistinct<T>(nodes: seq<Node<T>>, k: nat)
    requires k < |nodes| && AreDistinct(nodes)
    ensures AreDistinct(Removed(nodes, k))
  {
    var fewer := Removed(nodes, k);
    forall i, j | 0 <= i < j < |fewer|
      ensures fewer[i] != fewer[j]
    {
      RemovedAt(nodes, k, i);
      RemovedAt(nodes, k, j);
    }
  }

  // ---- What the nodes carry -----------------------------------------------

  ghost function DataOf<T>(nodes: seq<Node<T>>): (r: seq<Option<T>>)
    ensures |r| == |nodes|
    ensures forall i :: 0 <= i < |r| ==> r[i] == nodes[i].data
  {
    seq(|nodes|, i requires 0 <= i < |nodes| => nodes[i].data)
  }

  lemma {:induction false} DataInserted<T>(nodes: seq<Node<T>>, k: nat, node: Node<T>)
    requires k <= |nodes|
    ensures DataOf(Inserted(nodes, k, node)) == Inserted(DataOf(nodes), k, node.data)
  {
    var a, b := DataOf(Inserted(nodes, k, node)), Inserted(DataOf(nodes), k, node.data);
    forall i | 0 <= i < |a|
      ensures a[i] == b[i]
    {
      InsertedAt(nodes, k, node, i);
      InsertedAt(DataOf(nodes), k, node.data, i);
    }
  }

  lemma {:induction false} DataRemoved<T>(nodes: seq<Node<T>>, k: nat)
    requires k < |nodes|
    ensures DataOf(Removed(nodes, k)) == Removed(DataOf(nodes), k)
  {
    var a, b := DataOf(Removed(nodes, k)), Removed(DataOf(nodes), k);
    forall i | 0 <= i < |a|
      ensures a[i] == b[i]
    {
      RemovedAt(nodes, k, i);
      RemovedAt(DataOf(nodes), k, i);
    }
  }

  /** The data that are not null, in order. */
  ghost function NonNull<T>(data: seq<Option<T>>): seq<T> {
    if data == [] then [] else (if data[0].Some? then [data[0].value] else []) + NonNull(data[1..])
  }

  class List<T> {
    var head: Node?<T>
    var tail: Node?<T>
    var current: Node?<T>
    /** The data handed to the destroy function, in order. */
    var destroyed: seq<T>

    ghost var nodes: seq<Node<T>>
    ghost var cursor: nat

    ghost predicate Valid()
      reads this, nodes
    {
      && IsLinked(nodes)
      && (nodes == [] ==> head == null && tail == null && current == null && cursor == 0)
      && (nodes != [] ==>
            && head == nodes[0] && tail == nodes[|nodes| - 1]
            && cursor < |nodes| && current == nodes[cursor])
    }

    ghost function Contents(): seq<Option<T>>
      reads this
    {
      DataOf(nodes)
    }

    constructor ()
      ensures Valid() && Contents() == [] && destroyed == []
    {
      head, tail, current := null, null, null;
      destroyed, nodes, cursor := [], [], 0;
    }

    method Value() returns (data: Option<T>)
      requires Valid()
      ensures data == if Contents() == [] then None else Contents()[cursor]
    {
      if current == null {
        return None;
      }
      return current.data;
    }

    /** The value `n` places on; none past the end. */
    method NextValue(n: int) returns (data: Option<T>)
      requires Valid()
      ensures var k := cursor + if n > 0 then n else 0;
              data == if k < |Contents()| then Contents()[k] else None
    {
      if current == null {
        return None;
      }
      var p := current;
      var i := 0;
      while i < n
        invariant 0 <= i && (n > 0 ==> i <= n) && (n <= 0 ==> i == 0)
        invariant cursor + i < |nodes| && p == nodes[cursor + i]
      {
        if p.next == null {
          return None;
        }
        p := p.next;
        i := i + 1;
      }
      return p.data;
    }

    /** The value `n` places back; none before the start. */
    method PrevValue(n: int) returns (data: Option<T>)
      requires Valid()
      ensures var k := cursor - if n > 0 then n else 0;
              data == if 0 <= k < |Contents()| then Contents()[k] else None
    {
      if current == null {
        return None;
      }
      var p := current;
      var i := 0;
      while i < n
        invariant 0 <= i && (n > 0 ==> i <= n) && (n <= 0 ==> i == 0)
        invariant i <= cursor && p == nodes[cursor - i]
      {
        if p.prev == null {
          return None;
        }
        p := p.prev;
        i := i + 1;
      }
      return p.data;
    }

    method IsEmpty() returns (empty: bool)
      requires Valid()
      ensures empty == (Contents() == [])
    {
      return head == null || tail == null || current == null;
    }

    method First() returns (ok: bool)
      requires Valid()
      modifies this`current, this`cursor
      ensures Valid() && ok == (nodes != []) && cursor == 0
    {
      if head == null {
        return false;
      }
      current, cursor := head, 0;
      return true;
    }

    method Last() returns (ok: bool)
      requires Valid()
      modifies this`current, this`cursor
      ensures Valid() && ok == (nodes != []) && (ok ==> cursor == |nodes| - 1)
    {
      if tail == null {
        return false;
      }
      current, cursor := tail, |nodes| - 1;
      return true;
    }

    method Next() returns (ok: bool)
      requires Valid()
      modifies this`current, this`cursor
      ensures Valid() && ok == (cursor != old(cursor))
      ensures cursor == if old(cursor) + 1 < |nodes| then old(cursor) + 1 else old(cursor)
    {
      if current == null {
        return false;
      }
      if current.next == null {
        return false;
      }
      current, cursor := current.next, cursor + 1;
      return true;
    }

    method Prev() returns (ok: bool)
      requires Valid()
      modifies this`current, this`cursor
      ensures Valid() && ok == (cursor != old(cursor))
      ensures cursor == if old(cursor) > 0 then old(cursor) - 1 else old(cursor)
    {
      if current == null {
        return false;
      }
      if current.prev == null {
        return false;
      }
      current, cursor := current.prev, cursor - 1;
      return true;
    }

    /** Back to a node of the list. */
    method PutPos(pos: Node<T>, ghost c: nat)
      requires Valid() && c < |nodes| && nodes[c] == pos
      modifies this`current, this`cursor
      ensures Valid() && cursor == c
    {
      current, cursor := pos, c;
    }

    /** The first node of an empty list. */
    method InsertFirst(node: Node<T>)
      requires Valid() && nodes == [] && node.next == null && node.prev == null
      modifies this
      ensures Valid() && nodes == [node] && cursor == 0 && destroyed == old(destroyed)
    {
      head, tail, current := node, node, node;
      nodes, cursor := [node], 0;
    }

    /** A new node behind the cursor of a list that is not empty. */
    method LinkBehind(node: Node<T>)
      requires Valid() && nodes != [] && node !in nodes
      modifies this, nodes, node
      ensures Valid() && destroyed == old(destroyed)
      ensures nodes == Inserted(old(nodes), old(cursor) + 1, node) && cursor == old(cursor)
    {
      ghost var k := cursor + 1;
      node.next := current.next;
      node.prev := current;
      current.next := node;
      if node.next != null {
        node.next.prev := node;
      } else {
        tail := node;
      }
      LinkInserted(nodes, k, node);
      InsertedEnds(nodes, k, node, cursor);
      nodes := Inserted(nodes, k, node);
    }

    /** A new node in front of the cursor of a list that is not empty. */
    method LinkBefore(node: Node<T>)
      requires Valid() && nodes != [] && node !in nodes
      modifies this, nodes, node
      ensures Valid() && destroyed == old(destroyed)
      ensures nodes == Inserted(old(nodes), old(cursor), node) && cursor == old(cursor) + 1
    {
      ghost var k := cursor;
      node.next := current;
      node.prev := current.prev;
      current.prev := node;
      if node.prev != null {
        node.prev.next := node;
      } else {
        head := node;
      }
      LinkInserted(nodes, k, node);
      InsertedEnds(nodes, k, node, k + 1);
      nodes, cursor := Inserted(nodes, k, node), k + 1;
    }

    /** Behind the cursor, which stays. */
    method Insert(data: Option<T>) returns (node: Node<T>)
      requires Valid()
      modifies this, nodes
      ensures Valid() && fresh(node) && destroyed == old(destroyed) && cursor == old(cursor)
      ensures nodes == if old(nodes) == [] then [node] else Inserted(old(nodes), old(cursor) + 1, node)
      ensures Contents() == if old(nodes) == [] then [data] else Inserted(old(Contents()), old(cursor) + 1, data)
    {
      node := new Node(data);
      if head == null || tail == null || current == null {
        InsertFirst(node);
      } else {
        DataInserted(nodes, cursor + 1, node);
        LinkBehind(node);
      }
    }

    /** In front of the cursor, which keeps its element. */
    method InsertBefore(data: Option<T>) returns (node: Node<T>)
      requires Valid()
      modifies this, nodes
      ensures Valid() && fresh(node) && destroyed == old(destroyed)
      ensures cursor == if old(nodes) == [] then 0 else old(cursor) + 1
      ensures nodes == if old(nodes) == [] then [node] else Inserted(old(nodes), old(cursor), node)
      ensures Contents() == if old(nodes) == [] then [data] else Inserted(old(Contents()), old(cursor), data)
    {
      node := new Node(data);
      if head == null || tail == null || current == null {
        InsertFirst(node);
      } else {
        DataInserted(nodes, cursor, node);
        LinkBefore(node);
      }
    }

    /** At the end; the cursor keeps its element. */
    method Append(data: Option<T>) returns (node: Node<T>)
      requires Valid()
      modifies this, nodes
      ensures Valid() && fresh(node) && destroyed == old(destroyed) && cursor == old(cursor)
      ensures Contents() == old(Contents()) + [data]
    {
      hide IsLinked, Inserted, DataOf;
      if head == null || tail == null || current == null {
        node := Insert(data);
      } else {
        var oldPos := current;
        ghost var c := cursor;
        InsertedLast(Contents(), data);
        var ok := Last();
        node := Insert(data);
        InsertedAt(old(nodes), |old(nodes)|, node, c);
        PutPos(oldPos, c);
      }
    }

    /** At the start; the cursor keeps its element. */
    method Prepend(data: Option<T>) returns (node: Node<T>)
      requires Valid()
      modifies this, nodes
      ensures Valid() && fresh(node) && destroyed == old(destroyed)
      ensures cursor == if old(nodes) == [] then 0 else old(cursor) + 1
      ensures Contents() == [data] + old(Contents())
    {
      hide IsLinked, Inserted, DataOf;
      if head == null || tail == null || current == null {
        node := Insert(data);
      } else {
        var oldPos := current;
        ghost var c := cursor;
        InsertedFirst(Contents(), data);
        var ok := First();
        node := InsertBefore(data);
        InsertedAt(old(nodes), 0, node, c + 1);
        PutPos(oldPos, c + 1);
      }
    }

    /** The element under the cursor is destroyed and unlinked; the cursor moves to
        its successor, or to its predecessor at the tail. */
    method Delete() returns (ok: bool)
      requires Valid()
      modifies this, nodes
      ensures Valid() && ok == (old(nodes) != [])
      ensures !ok ==> nodes == [] && destroyed == old(destroyed)
      ensures ok ==>
                && nodes == Removed(old(nodes), old(cursor))
                && Contents() == Removed(old(Contents()), old(cursor))
                && cursor == (if old(cursor) < |nodes| then old(cursor) else if old(cursor) > 0 then old(cursor) - 1
                    else 0)
                && destroyed == old(destroyed) + if old(Contents())[old(cursor)].Some?
                    then [old(Contents())[old(cursor)].value] else []
    {
      if current == null {
        return false;
      }
      DataRemoved(nodes, cursor);
      if current.data.Some? {
        destroyed := destroyed + [current.data.value];
      }
      Unlink();
      return true;
    }

    method Unlink()
      requires Valid() && nodes != []
      modifies this, nodes
      ensures Valid() && destroyed == old(destroyed)
      ensures nodes == Removed(old(nodes), old(cursor))
      ensures cursor == if old(cursor) < |nodes| then old(cursor) else if old(cursor) > 0 then old(cursor) - 1 else 0
    {
      var removed := current;
      ghost var k := cursor;
      if removed.next != null {
        removed.next.prev := removed.prev;
        current := removed.next;
      } else {
        tail := removed.prev;
        current := removed.prev;
        cursor := if k > 0 then k - 1 else 0;
      }
      if removed.prev != null {
        removed.prev.next := removed.next;
      } else {
        head := removed.next;
      }
      LinkRemoved(nodes, k);
      RemovedEnds(nodes, k);
      nodes := Removed(nodes, k);
    }

    /** Ends with an empty list, having destroyed each datum that is not null
        exactly once, from first to last. */
    method Destroy()
      requires Valid()
      modifies this, nodes
      ensures Valid() && Contents() == []
      ensures destroyed == old(destroyed) + NonNull(old(Contents()))
    {
      hide Removed, IsLinked, DataOf;
      if head == null || tail == null || current == null {
        assert destroyed + [] == destroyed;
        return;
      }
      ghost var all := destroyed + NonNull(Contents());
      var status := First();
      while status
        invariant Valid() && cursor == 0 && (!status ==> nodes == [])
        invariant |nodes| <= |old(nodes)| && nodes == old(nodes)[|old(nodes)| - |nodes|..]
        invariant all == destroyed + NonNull(Contents())
        decreases |nodes|, status
      {
        ghost var before := Contents();
        if nodes != [] {
          RemovedFirst(before);
          RemovedFirst(nodes);
          SumOfSums(destroyed, if before[0].Some? then [before[0].value] else [], NonNull(before[1..]));
        }
        status := Delete();
      }
      assert destroyed + [] == destroyed;
    }
  }

  lemma {:induction false} InsertedLast<A>(s: seq<A>, x: A)
    ensures Inserted(s, |s|, x) == s + [x]
  {
  }

  lemma {:induction false} InsertedFirst<A>(s: seq<A>, x: A)
    ensures Inserted(s, 0, x) == [x] + s
  {
  }

  lemma {:induction false} RemovedFirst<A>(s: seq<A>)
    requires s != []
    ensures Removed(s, 0) == s[1..]
  {
  }

  lemma {:induction false} RemovedEnds<A>(s: seq<A>, k: nat)
    requires k < |s|
    ensures var r := Removed(s, k);
            r != [] ==>
              && r[0] == (if k == 0 then s[1] else s[0])
              && r[|r| - 1] == (if k == |s| - 1 then s[|s| - 2] else s[|s| - 1])
              && (if k < |r| then r[k] == s[k + 1] else r[k - 1] == s[k - 1])
  {
  }

  lemma {:induction false} InsertedEnds<A>(s: seq<A>, k: nat, x: A, c: nat)
    requires k <= |s| && c <= |s| && s != []
    ensures var r := Inserted(s, k, x);
            && r[0] == (if k == 0 then x else s[0])
            && r[|s|] == (if k == |s| then x else s[|s| - 1])
            && r[c] == if c < k then s[c] else if c == k then x else s[c - 1]
  {
  }
}
