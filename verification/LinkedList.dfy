// The singly linked list of src/linkedlist.c: heap nodes, a head pointer and a
// length. `nodes` is the chain as a sequence; `contents` the stored values.
module LinkedList {
  import opened Wrappers
  import opened Seqs

  class Node<T> {
    var data: T
    var next: Node?<T>
    ghost var freed: bool        // set by free(); a freed node may not be read again

    constructor (data: T, next: Node?<T>)
      ensures this.data == data && this.next == next && !freed
    {
      this.data := data;
      this.next := next;
      this.freed := false;
    }

    function Data(): T
      requires !freed
      reads this
    {
      data
    }

    function Next(): Node?<T>
      requires !freed
      reads this
    {
      next
    }

    method Free()
      requires !freed
      modifies `freed
      ensures freed
    {
      freed := true;
    }
  }

  function InsertedAt<T>(s: seq<T>, k: nat, x: T): (t: seq<T>)
    requires k <= |s|
    ensures |t| == |s| + 1 && t[k] == x
    ensures forall i :: 0 <= i < k ==> t[i] == s[i]
    ensures forall i :: k < i < |t| ==> t[i] == s[i - 1]
  {
    s[..k] + [x] + s[k..]
  }

  lemma DistinctInsertedAt<T>(s: seq<T>, k: nat, x: T)
    requires k <= |s| && Distinct(s) && x !in s
    ensures Distinct(InsertedAt(s, k, x))
  {
    var t := InsertedAt(s, k, x);
    forall i, j | 0 <= i < j < |t| ensures t[i] != t[j] {
      var a, b := if i < k then i else i - 1, if j < k then j else j - 1;
      if i != k && j != k {
        assert s[a] != s[b];
      }
    }
  }

  // Where ordered insertion puts x: in front of a strictly greater head, and
  // otherwise, from the second element on, in front of the first one not below x.
  function OrderedPosition<T>(s: seq<T>, x: T, compare: (T, T) -> int): (k: nat)
    ensures k <= |s|
    ensures forall j :: 1 <= j < k ==> compare(x, s[j]) > 0
    ensures 1 <= k < |s| ==> compare(x, s[k]) <= 0
    ensures k == 0 <==> |s| == 0 || compare(x, s[0]) < 0
  {
    if |s| == 0 || compare(x, s[0]) < 0 then 0
    else FirstFrom(s, y => compare(x, y) <= 0, 1)
  }

  ghost predicate TotalPreorder<T(!new)>(compare: (T, T) -> int) {
    && (forall a, b :: compare(a, b) < 0 <==> compare(b, a) > 0)
    && (forall a, b, c :: compare(a, b) <= 0 && compare(b, c) <= 0 ==> compare(a, c) <= 0)
  }

  ghost predicate Sorted<T>(s: seq<T>, compare: (T, T) -> int) {
    forall i, j :: 0 <= i < j < |s| ==> compare(s[i], s[j]) <= 0
  }

  // Everything in front of the insertion point is at most x, everything behind at least x.
  lemma PositionSplits<T(!new)>(s: seq<T>, x: T, compare: (T, T) -> int)
    requires TotalPreorder(compare) && Sorted(s, compare)
    ensures forall i :: 0 <= i < OrderedPosition(s, x, compare) ==> compare(s[i], x) <= 0
    ensures forall i :: OrderedPosition(s, x, compare) <= i < |s| ==> compare(x, s[i]) <= 0
  {
    var k := OrderedPosition(s, x, compare);
    if k < |s| {
      forall i | k <= i < |s| ensures compare(x, s[i]) <= 0 {
        assert compare(s[k], s[i]) <= 0 || i == k;
      }
    }
  }

  lemma InsertionSorted<T>(s: seq<T>, k: nat, x: T, compare: (T, T) -> int)
    requires k <= |s| && Sorted(s, compare)
    requires forall i :: 0 <= i < k ==> compare(s[i], x) <= 0
    requires forall i :: k <= i < |s| ==> compare(x, s[i]) <= 0
    ensures Sorted(InsertedAt(s, k, x), compare)
  {
    var t := InsertedAt(s, k, x);
    forall i, j | 0 <= i < j < |t| ensures compare(t[i], t[j]) <= 0 {
      var a, b := if i < k then i else i - 1, if j < k then j else j - 1;
      if i != k && j != k {
        assert compare(s[a], s[b]) <= 0;
      }
    }
  }

  lemma InsertionCounts<T>(s: seq<T>, k: nat, x: T)
    requires k <= |s|
    ensures multiset(InsertedAt(s, k, x)) == multiset(s) + multiset{x}
  {
    assert s == s[..k] + s[k..];
  }

  // Ordered insertion keeps a sorted list sorted and adds exactly one element,
  // in between the others, whose order does not change.
  lemma OrderedInsertion<T(!new)>(s: seq<T>, x: T, compare: (T, T) -> int)
    requires TotalPreorder(compare) && Sorted(s, compare)
    ensures Sorted(InsertedAt(s, OrderedPosition(s, x, compare), x), compare)
    ensures multiset(InsertedAt(s, OrderedPosition(s, x, compare), x)) == multiset(s) + multiset{x}
  {
    PositionSplits(s, x, compare);
    InsertionSorted(s, OrderedPosition(s, x, compare), x, compare);
    InsertionCounts(s, OrderedPosition(s, x, compare), x);
  }

  // Ties: x goes behind an equal head but in front of every other equal element.
  lemma OrderedTies<T(!new)>(s: seq<T>, x: T, compare: (T, T) -> int, i: nat)
    requires TotalPreorder(compare) && Sorted(s, compare)
    requires i < |s| && compare(x, s[i]) == 0
    ensures i < OrderedPosition(s, x, compare) <==> i == 0
  {
    if i == 0 {
      assert OrderedPosition(s, x, compare) >= 1;
    } else {
      assert compare(s[0], s[i]) <= 0 && compare(s[i], x) <= 0;
    }
  }

  class List<T> {
    var head: Node?<T>
    var length: int
    const comparator: Option<(T, T) -> int>   // NULL in every list of the server
    ghost var nodes: seq<Node<T>>
    ghost var contents: seq<T>

    ghost predicate Valid()
      reads this, nodes
    {
      && length == |nodes| == |contents|
      && head == NodeAt(0)
      && (forall i {:trigger nodes[i].next} :: 0 <= i < |nodes| ==> nodes[i].next == NodeAt(i + 1))
      && (forall i :: 0 <= i < |nodes| ==> nodes[i].data == contents[i] && !nodes[i].freed)
      && Distinct(nodes)
    }

    ghost function NodeAt(i: nat): Node?<T>
      reads this
    {
      if i < |nodes| then nodes[i] else null
    }

    constructor (comparator: Option<(T, T) -> int>)
      ensures Valid() && contents == [] && nodes == []
      ensures this.comparator == comparator
    {
      this.comparator := comparator;
      length := 0;
      head := null;
      nodes := [];
      contents := [];
    }

    // A NULL value is ignored by all three insertions.
    method InsertAtHead(val: Option<T>)
      requires Valid()
      modifies this
      ensures Valid()
      ensures forall n :: n in nodes ==> n in old(nodes) || fresh(n)
      ensures contents == (if val.Some? then [val.value] else []) + old(contents)
    {
      if val.None? {
        return;
      }
      if length == 0 {
        head := null;
      }
      var node := new Node(val.value, head);
      head := node;
      length := length + 1;
      nodes := [node] + nodes;
      contents := [val.value] + contents;
    }

    method InsertAtTail(val: Option<T>)
      requires Valid()
      modifies this, nodes
      ensures Valid()
      ensures forall n :: n in nodes ==> n in old(nodes) || fresh(n)
      ensures contents == old(contents) + if val.Some? then [val.value] else []
    {
      if val.None? {
        return;
      }
      if length == 0 {
        InsertAtHead(val);
        return;
      }
      var current := head;
      ghost var k := 0;
      while current.Next() != null
        invariant 0 <= k < |nodes| && current == nodes[k]
        decreases |nodes| - k
      {
        current := current.Next();
        k := k + 1;
      }
      current.next := new Node(val.value, null);
      length := length + 1;
      nodes := nodes + [current.next];
      contents := contents + [val.value];
    }

    method InsertInOrder(val: Option<T>)
      requires Valid()
      requires val.Some? && length != 0 ==> comparator.Some?
      modifies this, nodes
      ensures Valid()
      ensures forall n :: n in nodes ==> n in old(nodes) || fresh(n)
      ensures val.None? ==> contents == old(contents)
      ensures val.Some? && old(contents) == [] ==> contents == [val.value]
      ensures val.Some? && old(contents) != [] ==>
        contents == InsertedAt(old(contents), OrderedPosition(old(contents), val.value, comparator.value), val.value)
    {
      if val.None? {
        return;
      }
      if length == 0 {
        InsertAtHead(val);
        return;
      }
      ghost var k := OrderedPosition(contents, val.value, comparator.value);
      var node := new Node(val.value, null);
      Splice(node, k);
      Linked(k, node);
    }

    // Rewrite the one pointer that leads to the new node, and its own.
    method Splice(node: Node<T>, ghost k: nat)
      requires Valid() && comparator.Some? && length >= 1
      requires node !in nodes && !node.freed && node.next == null
      requires k == OrderedPosition(contents, node.data, comparator.value)
      modifies this`head, nodes`next, node`next
      ensures Spliced(k, node)
    {
      if comparator.value(node.Data(), head.Data()) < 0 {
        node.next := head;
        head := node;
      } else if head.Next() == null {
        head.next := node;
      } else {
        InsertBehindHead(node, k);
      }
    }

    // The pointer loop of ordered insertion: list of two or more, value not below the head.
    method InsertBehindHead(node: Node<T>, ghost k: nat)
      requires Valid() && comparator.Some? && length >= 2
      requires node !in nodes && !node.freed && node.next == null
      requires 1 <= k <= |contents|
      requires forall j :: 1 <= j < k ==> comparator.value(node.data, contents[j]) > 0
      requires k < |contents| ==> comparator.value(node.data, contents[k]) <= 0
      modifies nodes`next, node`next
      ensures Spliced(k, node)
    {
      var prev := head;
      var current := prev.Next();
      ghost var i := 1;
      while current != null
        invariant 1 <= i < |nodes| && i <= k
        invariant prev == nodes[i - 1] && current == nodes[i]
        decreases |nodes| - i
      {
        if comparator.value(node.Data(), current.Data()) > 0 {
          if current.Next() != null {
            prev := current;
            current := current.Next();
            i := i + 1;
          } else {
            current.next := node;
            assert Spliced(k, node);
            break;
          }
        } else {
          prev.next := node;
          node.next := current;
          assert Spliced(k, node);
          break;
        }
      }
    }

    // The chain of `nodes` with `node` linked in as the new k-th node.
    ghost predicate Spliced(k: nat, node: Node<T>)
      reads this, nodes, node
    {
      && length == |nodes| == |contents| && k <= |nodes| && Distinct(nodes)
      && node !in nodes && !node.freed && node.next == NodeAt(k)
      && head == (if k == 0 then node else nodes[0])
      && (forall i :: 0 <= i < |nodes| ==> nodes[i].data == contents[i] && !nodes[i].freed)
      && (forall i {:trigger nodes[i].next} :: 0 <= i < |nodes| ==>
        nodes[i].next == if i + 1 == k then node else NodeAt(i + 1))
    }

    // length++, once `node` is linked in as the new k-th node.
    method Linked(ghost k: nat, node: Node<T>)
      requires Spliced(k, node)
      modifies `length, `nodes, `contents
      ensures Valid()
      ensures nodes == InsertedAt(old(nodes), k, node)
      ensures forall n :: n in nodes ==> n == node || n in old(nodes)
      ensures contents == InsertedAt(old(contents), k, node.data)
    {
      DistinctInsertedAt(nodes, k, node);
      length := length + 1;
      nodes := InsertedAt(nodes, k, node);
      contents := InsertedAt(contents, k, node.data);
    }

    method RemoveFront() returns (removed: Option<T>)
      requires Valid()
      modifies this, nodes
      ensures Valid()
      ensures old(contents) == [] ==> removed == None && contents == [] && nodes == []
      ensures old(contents) != [] ==>
        && removed == Some(old(contents)[0]) && contents == old(contents)[1..] && nodes == old(nodes)[1..]
        && old(nodes)[0].freed
    {
      if length == 0 {
        return None;
      }
      var next := head.Next();
      removed := Some(head.Data());
      length := length - 1;
      var temp := head;
      head := next;
      temp.Free();
      nodes := nodes[1..];
      contents := contents[1..];
    }

    method RemoveRear() returns (removed: Option<T>)
      requires Valid()
      modifies this, nodes
      ensures Valid()
      ensures old(contents) == [] ==> removed == None && contents == []
      ensures old(contents) != [] ==>
        var n := |old(contents)| - 1;
        && removed == Some(old(contents)[n]) && contents == old(contents)[..n] && nodes == old(nodes)[..n]
        && old(nodes)[n].freed
    {
      if length == 0 {
        return None;
      } else if length == 1 {
        removed := RemoveFront();
        return;
      }
      var current := head;
      ghost var k := 0;
      while current.Next().Next() != null
        invariant 0 <= k < |nodes| - 1 && current == nodes[k]
        decreases |nodes| - k
      {
        current := current.Next();
        k := k + 1;
      }
      removed := Some(current.Next().Data());
      current.Next().Free();
      current.next := null;
      length := length - 1;
      nodes := nodes[..|nodes| - 1];
      contents := contents[..|contents| - 1];
    }

    // A negative index runs off the chain in the original, so callers must not pass one.
    method RemoveByIndex(index: int) returns (removed: Option<T>)
      requires Valid() && index >= 0
      modifies this, nodes
      ensures Valid()
      ensures index >= |old(contents)| ==> removed == None && contents == old(contents) && nodes == old(nodes)
      ensures index < |old(contents)| ==>
        && removed == Some(old(contents)[index])
        && contents == RemoveAt(old(contents), index)
        && nodes == RemoveAt(old(nodes), index)
        && old(nodes)[index].freed
    {
      if length <= index {
        return None;
      }
      var current := head;
      var prev: Node?<T> := null;
      var i := 0;
      if index == 0 {
        removed := Some(head.Data());
        var temp := head;
        head := current.Next();
        temp.Free();
        Unlinked(0);
        return;
      }
      while i != index
        invariant 0 <= i <= index && current == nodes[i]
        invariant i > 0 ==> prev == nodes[i - 1]
        decreases index - i
      {
        i := i + 1;
        prev := current;
        current := current.Next();
      }
      prev.next := current.Next();
      removed := Some(current.Data());
      current.Free();
      Unlinked(index);
    }

    // The chain of `nodes` without its k-th node.
    ghost predicate Skipped(k: nat)
      reads this, nodes
    {
      && length == |nodes| == |contents| && k < |nodes| && Distinct(nodes)
      && head == (if k == 0 then NodeAt(1) else nodes[0])
      && (forall i :: 0 <= i < |nodes| && i != k ==> nodes[i].data == contents[i] && !nodes[i].freed)
      && (forall i {:trigger nodes[i].next} :: 0 <= i < |nodes| && i != k ==>
        nodes[i].next == NodeAt(if i + 1 == k then i + 2 else i + 1))
    }

    // length--, once the chain skips the k-th node.
    method Unlinked(ghost k: nat)
      requires Skipped(k)
      modifies `length, `nodes, `contents
      ensures Valid()
      ensures nodes == RemoveAt(old(nodes), k)
      ensures contents == RemoveAt(old(contents), k)
    {
      DistinctRemoveAt(nodes, k);
      length := length - 1;
      nodes := RemoveAt(nodes, k);
      contents := RemoveAt(contents, k);
    }
  }
}
