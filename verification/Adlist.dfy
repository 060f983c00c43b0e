/**
 The doubly linked list (adlist.c): nodes on the heap, a head, a tail and a length, all rewritten
 in place. A list stands for the sequence of its nodes, and every operation is the matching
 operation on that sequence.
 */
module Adlist {
  import opened Common

  class Node<T> {
    var prev: Node?<T>
    var next: Node?<T>
    var value: T

    constructor (value: T)
      ensures this.value == value && prev == null && next == null
    {
      this.value := value;
      prev, next := null, null;
    }
  }

  /** The node at a position, and none outside. */
  ghost function At<T>(spine: seq<Node<T>>, i: int): Node?<T> {
    if 0 <= i < |spine| then spine[i] else null
  }

  ghost predicate Distinct<T>(spine: seq<Node<T>>) {
    forall i, j :: 0 <= i < j < |spine| ==> spine[i] != spine[j]
  }

  /** Every node points to its neighbours. */
  ghost predicate Linked<T>(spine: seq<Node<T>>)
    reads spine
  {
    forall i :: 0 <= i < |spine| ==> spine[i].next == At(spine, i + 1) && spine[i].prev == At(spine, i - 1)
  }

  ghost function Values<T>(spine: seq<Node<T>>): (vs: seq<T>)
    reads spine`value
    ensures |vs| == |spine| && forall i :: 0 <= i < |spine| ==> vs[i] == spine[i].value
  {
    if spine == [] then [] else Values(spine[..|spine| - 1]) + [spine[|spine| - 1].value]
  }

  ghost function Inserted<T>(spine: seq<Node<T>>, at: nat, node: Node<T>): seq<Node<T>>
    requires at <= |spine|
  {
    spine[..at] + [node] + spine[at..]
  }

  ghost function Without<T>(spine: seq<Node<T>>, i: nat): seq<Node<T>>
    requires i < |spine|
  {
    spine[..i] + spine[i + 1..]
  }

  lemma InsertedDistinct<T>(spine: seq<Node<T>>, at: nat, node: Node<T>)
    requires at <= |spine| && Distinct(spine) && node !in spine
    ensures Distinct(Inserted(spine, at, node))
  {
    var t := Inserted(spine, at, node);
    forall i, j | 0 <= i < j < |t|
      ensures t[i] != t[j]
    {
      assert t[i] == if i < at then spine[i] else if i == at then node else spine[i - 1];
      assert t[j] == if j < at then spine[j] else if j == at then node else spine[j - 1];
    }
  }

  lemma InsertedAt<T>(spine: seq<Node<T>>, at: nat, node: Node<T>, m: int)
    requires at <= |spine| && m >= -1
    ensures |Inserted(spine, at, node)| == |spine| + 1
    ensures At(Inserted(spine, at, node), m)
         == if m < at then At(spine, m) else if m == at then node else At(spine, m - 1)
  {
  }

  lemma InsertedLast<T>(spine: seq<Node<T>>, node: Node<T>)
    ensures var t := Inserted(spine, |spine|, node);
      |t| == |spine| + 1 && forall k :: 0 <= k < |t| ==> t[k] == if k < |spine| then spine[k] else node
  {
  }

  /** The links of one node after an insertion. */
  lemma InsertedLink<T>(spine: seq<Node<T>>, at: nat, node: Node<T>, m: nat, n: Node<T>)
    requires at <= |spine| && m <= |spine| && n == At(Inserted(spine, at, node), m)
    requires n.next == if m == at then At(spine, at) else
      var k := if m < at then m else m - 1; if k == at - 1 then node else At(spine, k + 1)
    requires n.prev == if m == at then At(spine, at - 1) else
      var k := if m < at then m else m - 1; if k == at then node else At(spine, k - 1)
    ensures n.next == At(Inserted(spine, at, node), m + 1) && n.prev == At(Inserted(spine, at, node), m - 1)
  {
    hide Inserted, At;
    InsertedAt(spine, at, node, m - 1);
    InsertedAt(spine, at, node, m + 1);
  }

  /** The neighbours of a new node point to it, and all else points where it did. */
  lemma InsertedLinked<T>(spine: seq<Node<T>>, at: nat, node: Node<T>)
    requires at <= |spine|
    requires node.next == At(spine, at) && node.prev == At(spine, at - 1)
    requires forall k :: 0 <= k < |spine| ==> spine[k].next == if k == at - 1 then node else At(spine, k + 1)
    requires forall k :: 0 <= k < |spine| ==> spine[k].prev == if k == at then node else At(spine, k - 1)
    ensures Linked(Inserted(spine, at, node))
  {
    hide Inserted, At;
    var t := Inserted(spine, at, node);
    forall i | 0 <= i < |t|
      ensures t[i].next == At(t, i + 1) && t[i].prev == At(t, i - 1)
    {
      Inside(t, i);
      InsertedAt(spine, at, node, i);
      Inside(spine, i);
      Inside(spine, i - 1);
      InsertedLink(spine, at, node, i, t[i]);
    }
  }

  lemma WithoutDistinct<T>(spine: seq<Node<T>>, i: nat)
    requires i < |spine| && Distinct(spine)
    ensures Distinct(Without(spine, i)) && spine[i] !in Without(spine, i)
  {
  }

  lemma WithoutAt<T>(spine: seq<Node<T>>, i: nat, m: int)
    requires i < |spine| && m >= -1
    ensures |Without(spine, i)| == |spine| - 1
    ensures At(Without(spine, i), m) == At(spine, if m < i then m else m + 1)
  {
  }

  /** The neighbours of a node taken out point past it, and all else points where it did. */
  lemma WithoutLinked<T>(spine: seq<Node<T>>, i: nat)
    requires i < |spine|
    requires forall k :: 0 <= k < |spine| && k != i ==>
      spine[k].next == if k == i - 1 then At(spine, i + 1) else At(spine, k + 1)
    requires forall k :: 0 <= k < |spine| && k != i ==>
      spine[k].prev == if k == i + 1 then At(spine, i - 1) else At(spine, k - 1)
    ensures Linked(Without(spine, i))
  {
    hide Without, At;
    var t := Without(spine, i);
    forall m | 0 <= m < |t|
      ensures t[m].next == At(t, m + 1) && t[m].prev == At(t, m - 1)
    {
      Inside(t, m);
      WithoutAt(spine, i, m);
      WithoutAt(spine, i, m - 1);
      WithoutAt(spine, i, m + 1);
      var k := if m < i then m else m + 1;
      Inside(spine, k);
      assert t[m] == spine[k];
    }
  }

  // What the bodies below need to know of a spine, without its quantifiers.

  lemma Apart<T>(spine: seq<Node<T>>, i: nat)
    requires i < |spine| && Distinct(spine)
    ensures forall k :: 0 <= k < |spine| && k != i ==> spine[k] != spine[i]
  {
  }

  lemma Neighbours<T>(spine: seq<Node<T>>)
    requires Linked(spine)
    ensures forall k :: 0 <= k < |spine| ==> spine[k].next == At(spine, k + 1)
    ensures forall k :: 0 <= k < |spine| ==> spine[k].prev == At(spine, k - 1)
  {
  }

  lemma Inside<T>(spine: seq<Node<T>>, i: int)
    ensures 0 <= i < |spine| ==> At(spine, i) == spine[i]
    ensures !(0 <= i < |spine|) ==> At(spine, i) == null
  {
  }

  lemma Here<T>(spine: seq<Node<T>>, i: int, node: Node?<T>)
    requires Linked(spine) && node == At(spine, i)
    ensures node != null ==> 0 <= i < |spine| && node == spine[i]
    ensures node != null ==> node.next == At(spine, i + 1) && node.prev == At(spine, i - 1)
    ensures node == null ==> !(0 <= i < |spine|)
  {
  }

  lemma InsertedEnds<T>(spine: seq<Node<T>>, at: nat, node: Node<T>)
    requires at <= |spine|
    ensures var t := Inserted(spine, at, node);
      && |t| == |spine| + 1
      && At(t, 0) == (if at == 0 then node else At(spine, 0))
      && At(t, |t| - 1) == (if at == |spine| then node else At(spine, |spine| - 1))
  {
  }

  lemma WithoutEnds<T>(spine: seq<Node<T>>, i: nat)
    requires i < |spine|
    ensures var t := Without(spine, i);
      && |t| == |spine| - 1
      && At(t, 0) == (if i == 0 then At(spine, 1) else At(spine, 0))
      && At(t, |t| - 1) == (if i == |spine| - 1 then At(spine, |spine| - 2) else At(spine, |spine| - 1))
  {
  }

  /** The last node first, or the first node last. */
  ghost function LastFirst<T>(spine: seq<Node<T>>): seq<Node<T>>
    requires spine != []
  {
    [spine[|spine| - 1]] + spine[..|spine| - 1]
  }

  ghost function FirstLast<T>(spine: seq<Node<T>>): seq<Node<T>>
    requires spine != []
  {
    spine[1..] + [spine[0]]
  }

  lemma RotationsUndoEachOther<T>(spine: seq<Node<T>>)
    requires spine != []
    ensures FirstLast(LastFirst(spine)) == spine && LastFirst(FirstLast(spine)) == spine
  {
  }

  lemma RotationsDistinct<T>(spine: seq<Node<T>>)
    requires spine != [] && Distinct(spine)
    ensures Distinct(LastFirst(spine)) && Distinct(FirstLast(spine))
    ensures |LastFirst(spine)| == |FirstLast(spine)| == |spine|
  {
  }

  lemma LastFirstLinked<T>(spine: seq<Node<T>>)
    requires |spine| >= 2 && Distinct(spine)
    requires forall k :: 0 <= k < |spine| ==>
      spine[k].next == if k == |spine| - 2 then null else if k == |spine| - 1 then spine[0] else At(spine, k + 1)
    requires forall k :: 0 <= k < |spine| ==>
      spine[k].prev == if k == 0 then spine[|spine| - 1] else if k == |spine| - 1 then null else At(spine, k - 1)
    ensures Linked(LastFirst(spine))
    ensures At(LastFirst(spine), 0) == spine[|spine| - 1] && At(LastFirst(spine), |spine| - 1) == spine[|spine| - 2]
  {
    var t := LastFirst(spine);
    forall i | 0 <= i < |t|
      ensures t[i].next == At(t, i + 1) && t[i].prev == At(t, i - 1)
    {
      assert t[i] == if i == 0 then spine[|spine| - 1] else spine[i - 1];
    }
  }

  lemma FirstLastLinked<T>(spine: seq<Node<T>>)
    requires |spine| >= 2 && Distinct(spine)
    requires forall k :: 0 <= k < |spine| ==>
      spine[k].next == if k == 0 then null else if k == |spine| - 1 then spine[0] else At(spine, k + 1)
    requires forall k :: 0 <= k < |spine| ==>
      spine[k].prev == if k == 0 then spine[|spine| - 1] else if k == 1 then null else At(spine, k - 1)
    ensures Linked(FirstLast(spine))
    ensures At(FirstLast(spine), 0) == spine[1] && At(FirstLast(spine), |spine| - 1) == spine[0]
  {
    var t := FirstLast(spine);
    forall i | 0 <= i < |t|
      ensures t[i].next == At(t, i + 1) && t[i].prev == At(t, i - 1)
    {
      assert t[i] == if i == |t| - 1 then spine[0] else spine[i + 1];
    }
  }

  ghost predicate Disjoint<T>(a: seq<Node<T>>, b: seq<Node<T>>) {
    forall i, j :: 0 <= i < |a| && 0 <= j < |b| ==> a[i] != b[j]
  }

  lemma JoinedDistinct<T>(a: seq<Node<T>>, b: seq<Node<T>>)
    requires Distinct(a) && Distinct(b) && Disjoint(a, b)
    ensures Distinct(a + b)
  {
  }

  lemma JoinedLinked<T>(a: seq<Node<T>>, b: seq<Node<T>>)
    requires b != []
    requires forall k :: 0 <= k < |a| ==> a[k].next == if k == |a| - 1 then b[0] else At(a, k + 1)
    requires forall k :: 0 <= k < |a| ==> a[k].prev == At(a, k - 1)
    requires forall k :: 0 <= k < |b| ==> b[k].prev == if k == 0 then At(a, |a| - 1) else At(b, k - 1)
    requires forall k :: 0 <= k < |b| ==> b[k].next == At(b, k + 1)
    ensures Linked(a + b)
    ensures At(a + b, 0) == (if a == [] then b[0] else a[0]) && At(a + b, |a + b| - 1) == b[|b| - 1]
  {
    var t := a + b;
    forall i | 0 <= i < |t|
      ensures t[i].next == At(t, i + 1) && t[i].prev == At(t, i - 1)
    {
      if i < |a| {
        assert t[i] == a[i];
      } else {
        assert t[i] == b[i - |a|];
      }
    }
  }

  lemma ApartFrom<T>(a: seq<Node<T>>, b: seq<Node<T>>)
    requires Disjoint(a, b)
    ensures b != [] ==> forall k :: 0 <= k < |a| ==> a[k] != b[0]
    ensures a != [] ==> forall k :: 0 <= k < |b| ==> b[k] != a[|a| - 1]
  {
  }

  /** listIter */
  class Iter<T> {
    var next: Node?<T>
    var fromHead: bool

    constructor (list: List<T>, fromHead: bool)
      ensures this.fromHead == fromHead && next == if fromHead then list.head else list.tail
    {
      this.fromHead := fromHead;
      next := if fromHead then list.head else list.tail;
    }

    /** listNext: the iterator moves on before its node is handed out. */
    method Next() returns (current: Node?<T>)
      modifies this
      ensures current == old(next) && fromHead == old(fromHead)
      ensures current == null ==> next == null
      ensures current != null ==> next == if fromHead then current.next else current.prev
    {
      current := next;
      if current != null {
        if fromHead {
          next := current.next;
        } else {
          next := current.prev;
        }
      }
    }
  }

  /** The values that are kept, by position and value; `vs` stands at the positions from `at` on. */
  function Filter<T>(vs: seq<T>, at: nat, keep: (nat, T) -> bool): seq<T> {
    if vs == [] then []
    else
      var last := |vs| - 1;
      Filter(vs[..last], at, keep) + if keep(at + last, vs[last]) then [vs[last]] else []
  }

  function Reverse<T>(vs: seq<T>): (r: seq<T>)
    ensures |r| == |vs| && forall i :: 0 <= i < |vs| ==> r[i] == vs[|vs| - 1 - i]
  {
    seq(|vs|, i requires 0 <= i < |vs| => vs[|vs| - 1 - i])
  }

  class List<T> {
    var head: Node?<T>
    var tail: Node?<T>
    var len: nat
    ghost var spine: seq<Node<T>>

    ghost predicate Valid()
      reads this, spine
    {
      && len == |spine| && Distinct(spine) && Linked(spine)
      && head == At(spine, 0) && tail == At(spine, |spine| - 1)
    }

    constructor ()
      ensures Valid() && spine == []
    {
      head, tail, len, spine := null, null, 0, [];
    }

    method LinkNodeHead(node: Node<T>)
      requires Valid() && node !in spine
      modifies this, spine`prev, node`prev, node`next
      ensures Valid() && spine == Inserted(old(spine), 0, node)
    {
      hide Distinct, Linked, Inserted, At;
      ghost var s := spine;
      Neighbours(s);
      Inside(s, 0);
      Inside(s, -1);
      if len > 0 {
        Apart(s, 0);
      }
      if len == 0 {
        head, tail := node, node;
        node.prev, node.next := null, null;
      } else {
        node.prev := null;
        node.next := head;
        head.prev := node;
        head := node;
      }
      len := len + 1;
      spine := Inserted(s, 0, node);
      InsertedDistinct(s, 0, node);
      InsertedLinked(s, 0, node);
      InsertedEnds(s, 0, node);
    }

    method LinkNodeTail(node: Node<T>)
      requires Valid() && node !in spine
      modifies this, spine`next, node`prev, node`next
      ensures Valid() && spine == Inserted(old(spine), |old(spine)|, node)
    {
      hide Distinct, Linked, Inserted, At;
      ghost var s := spine;
      Neighbours(s);
      Inside(s, |s| - 1);
      Inside(s, |s|);
      if len > 0 {
        Apart(s, |s| - 1);
      }
      if len == 0 {
        head, tail := node, node;
        node.prev, node.next := null, null;
      } else {
        node.prev := tail;
        node.next := null;
        tail.next := node;
        tail := node;
      }
      len := len + 1;
      spine := Inserted(s, |s|, node);
      InsertedDistinct(s, |s|, node);
      InsertedLinked(s, |s|, node);
      InsertedEnds(s, |s|, node);
    }

    method AddNodeHead(value: T)
      requires Valid()
      modifies this, spine`prev
      ensures Valid() && |spine| == |old(spine)| + 1 && fresh(spine[0]) && spine[0].value == value
      ensures spine == Inserted(old(spine), 0, spine[0])
    {
      hide Linked, Distinct, At;
      var node := new Node(value);
      LinkNodeHead(node);
    }

    method AddNodeTail(value: T)
      requires Valid()
      modifies this, spine`next
      ensures Valid() && |spine| == |old(spine)| + 1
      ensures fresh(spine[|spine| - 1]) && spine[|spine| - 1].value == value
      ensures spine == Inserted(old(spine), |old(spine)|, spine[|spine| - 1])
    {
      hide Linked, Distinct, At;
      var node := new Node(value);
      LinkNodeTail(node);
    }

    /** Before or after the node at position `i`. */
    method InsertNode(node0: Node<T>, value: T, after: bool, ghost i: nat) returns (ghost node: Node<T>)
      requires Valid() && i < |spine| && spine[i] == node0
      modifies this, spine`prev, spine`next
      ensures Valid() && fresh(node) && node.value == value
      ensures spine == Inserted(old(spine), if after then i + 1 else i, node)
    {
      hide Distinct, Linked, Inserted, At;
      ghost var s, at := spine, if after then i + 1 else i;
      Neighbours(s);
      Inside(s, at);
      Inside(s, at - 1);
      Inside(s, 0);
      Inside(s, |s| - 1);
      if at < |s| {
        Apart(s, at);
      }
      if at > 0 {
        Apart(s, at - 1);
      }
      var n := new Node(value);
      if after {
        n.prev := node0;
        n.next := node0.next;
        if tail == node0 {
          tail := n;
        }
      } else {
        n.next := node0;
        n.prev := node0.prev;
        if head == node0 {
          head := n;
        }
      }
      if n.prev != null {
        n.prev.next := n;
      }
      if n.next != null {
        n.next.prev := n;
      }
      len := len + 1;
      spine := Inserted(s, at, n);
      InsertedDistinct(s, at, n);
      InsertedLinked(s, at, n);
      InsertedEnds(s, at, n);
      node := n;
    }

    /** Unlinking the node at position `i`. */
    method UnlinkNode(node: Node<T>, ghost i: nat)
      requires Valid() && i < |spine| && spine[i] == node
      modifies this, spine`prev, spine`next
      ensures Valid() && spine == Without(old(spine), i)
      ensures node.prev == null && node.next == null
    {
      hide Distinct, Linked, Without, At;
      ghost var s := spine;
      Neighbours(s);
      Inside(s, i + 1);
      Inside(s, i - 1);
      Apart(s, i);
      if i > 0 {
        Apart(s, i - 1);
      }
      if i + 1 < |s| {
        Apart(s, i + 1);
      }
      if node.prev != null {
        node.prev.next := node.next;
      } else {
        head := node.next;
      }
      if node.next != null {
        node.next.prev := node.prev;
      } else {
        tail := node.prev;
      }
      node.next := null;
      node.prev := null;
      len := len - 1;
      spine := Without(s, i);
      WithoutDistinct(s, i);
      WithoutLinked(s, i);
      WithoutEnds(s, i);
    }

    method RotateTailToHead()
      requires Valid()
      modifies this, spine`prev, spine`next
      ensures Valid() && spine == if |old(spine)| <= 1 then old(spine) else LastFirst(old(spine))
    {
      hide Distinct, Linked, At, LastFirst;
      if len <= 1 {
        return;
      }
      ghost var s := spine;
      Neighbours(s);
      Inside(s, 0);
      Inside(s, |s| - 1);
      Inside(s, |s| - 2);
      Apart(s, 0);
      Apart(s, |s| - 1);
      Apart(s, |s| - 2);
      var last := tail;
      tail := last.prev;
      tail.next := null;
      head.prev := last;
      last.prev := null;
      last.next := head;
      head := last;
      LastFirstLinked(s);
      RotationsDistinct(s);
      spine := LastFirst(s);
    }

    method RotateHeadToTail()
      requires Valid()
      modifies this, spine`prev, spine`next
      ensures Valid() && spine == if |old(spine)| <= 1 then old(spine) else FirstLast(old(spine))
    {
      hide Distinct, Linked, At, FirstLast;
      if len <= 1 {
        return;
      }
      ghost var s := spine;
      Neighbours(s);
      Inside(s, 0);
      Inside(s, 1);
      Inside(s, |s| - 1);
      Apart(s, 0);
      Apart(s, 1);
      Apart(s, |s| - 1);
      var first := head;
      head := first.next;
      head.prev := null;
      tail.next := first;
      first.next := null;
      first.prev := tail;
      tail := first;
      FirstLastLinked(s);
      RotationsDistinct(s);
      spine := FirstLast(s);
    }

    /** All nodes of `other` come to the end; it is left empty. */
    method Join(other: List<T>)
      requires Valid() && other.Valid() && other != this && Disjoint(spine, other.spine)
      modifies this, other, spine`next, other.spine`prev
      ensures Valid() && other.Valid()
      ensures spine == old(spine) + old(other.spine) && other.spine == []
    {
      hide Distinct, Linked, At, Disjoint;
      ghost var a, b := spine, other.spine;
      ApartFrom(a, b);
      if other.len == 0 {
        assert a + b == a;
        return;
      }
      Neighbours(a);
      Neighbours(b);
      Inside(a, 0);
      Inside(a, |a| - 1);
      Inside(b, 0);
      Inside(b, -1);
      Inside(b, |b| - 1);
      Inside(a, |a|);
      Apart(b, 0);
      if |a| > 0 {
        Apart(a, |a| - 1);
      }
      other.head.prev := tail;
      if tail != null {
        tail.next := other.head;
      } else {
        head := other.head;
      }
      tail := other.tail;
      len := len + other.len;
      other.head, other.tail, other.len, other.spine := null, null, 0, [];
      JoinedLinked(a, b);
      JoinedDistinct(a, b);
      spine := a + b;
      EmptySpine<T>();
    }

    /** Positions count from the head, or from the tail if negative. */
    method Index(index: int) returns (node: Node?<T>)
      requires Valid()
      ensures node == At(spine, if index < 0 then |spine| + index else index)
    {
      hide Distinct, Linked, At;
      ghost var at;
      if index < 0 {
        var left := -index - 1;
        node, at := tail, |spine| - 1;
        while left != 0 && node != null
          invariant 0 <= left && at == |spine| + index + left < |spine| && node == At(spine, at)
          decreases left
        {
          Here(spine, at, node);
          node, left, at := node.prev, left - 1, at - 1;
        }
        Here(spine, at, node);
        Inside(spine, |spine| + index);
      } else {
        var left := index;
        node, at := head, 0;
        while left != 0 && node != null
          invariant 0 <= left && 0 <= at == index - left && node == At(spine, at)
          decreases left
        {
          Here(spine, at, node);
          node, left, at := node.next, left - 1, at + 1;
        }
        Here(spine, at, node);
        Inside(spine, index);
      }
    }

    /** The first node with a matching value. */
    method SearchKey(matches: T -> bool) returns (found: Node?<T>)
      requires Valid()
      ensures found == null ==> NoMatch(spine, matches, |spine|)
      ensures found != null ==> exists i :: 0 <= i < |spine| && FirstMatch(spine, matches, i, found)
    {
      hide Distinct, Linked, At, NoMatch;
      var iter := new Iter(this, true);
      ghost var i := 0;
      NoMatchYet(spine, matches, 0);
      var node := iter.Next();
      while node != null
        invariant 0 <= i <= |spine| && node == At(spine, i) && iter.fromHead && Linked(spine)
        invariant node != null ==> iter.next == node.next
        invariant NoMatch(spine, matches, i)
        decreases |spine| - i
      {
        Here(spine, i, node);
        if matches(node.value) {
          assert FirstMatch(spine, matches, i, node);
          return node;
        }
        NoMatchYet(spine, matches, i);
        i := i + 1;
        node := iter.Next();
        Here(spine, i, node);
      }
      Here(spine, i, node);
      found := null;
    }

    /** One node of a copy of `original`. */
    method AppendCopy(value: T, ghost original: seq<Node<T>>, ghost copyValue: T -> Option<T>, ghost i: nat)
      requires Valid() && |spine| == i < |original| && Copied(original, spine, copyValue, i)
      requires copyValue(original[i].value) == Some(value)
      modifies this, spine`next
      ensures Valid() && |spine| == i + 1 && Copied(original, spine, copyValue, i + 1)
      ensures fresh(spine[i]) && forall k :: 0 <= k < i ==> spine[k] == old(spine)[k]
    {
      hide Valid, Copied, Inserted;
      ghost var before := spine;
      AddNodeTail(value);
      InsertedLast(before, spine[i]);
      CopiedNext(original, before, spine, copyValue, i);
    }

    /** A copy with copied values, unless one of them cannot be copied; nothing else changes. */
    method Dup(copyValue: T -> Option<T>) returns (copy: List?<T>)
      requires Valid()
      ensures copy == null <==> !Copyable(spine, copyValue)
      ensures copy != null ==> fresh(copy) && forall k :: 0 <= k < |copy.spine| ==> fresh(copy.spine[k])
      ensures copy != null ==> copy.Valid() && |copy.spine| == |spine|
      ensures copy != null ==> Copied(spine, copy.spine, copyValue, |spine|)
    {
      hide Distinct, Linked, At, Copied, Inserted, Copyable;
      assert Linked(spine) && head == At(spine, 0);
      hide Valid;
      copy := new List<T>();
      var iter := new Iter(this, true);
      ghost var i := 0;
      NothingCopied(spine, copy.spine, copyValue);
      var node := iter.Next();
      Here(spine, i, node);
      while node != null
        invariant 0 <= i <= |spine| && node == At(spine, i) && iter.fromHead && Linked(spine)
        invariant node != null ==> iter.next == At(spine, i + 1)
        invariant fresh(copy) && fresh(iter) && forall k :: 0 <= k < |copy.spine| ==> fresh(copy.spine[k])
        invariant copy.Valid() && |copy.spine| == i
        invariant Copied(spine, copy.spine, copyValue, i)
        decreases |spine| - i
      {
        Here(spine, i, node);
        var value := copyValue(node.value);
        if value.None? {
          NotCopyable(spine, copyValue, i);
          return null;
        }
        copy.AppendCopy(value.value, spine, copyValue, i);
        i := i + 1;
        node := iter.Next();
        Here(spine, i, node);
      }
      Here(spine, i, node);
      CopiedAll(spine, copy.spine, copyValue);
    }

    /**
     One turn of an iteration from the head: the iterator has moved on to the next node, and the
     caller deletes the node it was handed, or does not. The node after the next is still its
     neighbour.
     */
    method TurnFromHead(keep: (nat, T) -> bool, node: Node<T>, i: nat, ghost s0: seq<Node<T>>, ghost vs: seq<T>)
      requires Valid() && |vs| == |s0| && i < |s0| && node == s0[i] && node.value == vs[i]
      requires spine == Left(s0, vs, i, keep)
      modifies this, spine`prev, spine`next
      ensures Valid() && spine == Left(s0, vs, i + 1, keep)
      ensures i + 1 < |s0| ==> s0[i + 1].next == At(s0, i + 2)
    {
      hide Distinct, Linked, Without, At;
      Around(Kept(s0, vs, i, keep), s0, i);
      if !keep(i, node.value) {
        UnlinkNode(node, |Kept(s0, vs, i, keep)|);
      }
      if i + 1 < |s0| {
        ghost var kept := Kept(s0, vs, i + 1, keep);
        Around(kept, s0, i + 1);
        Inside(spine, |kept|);
        Here(spine, |kept|, s0[i + 1]);
      }
    }

    /** An iteration from the head that deletes any of the nodes it is handed. */
    method VisitFromHead(keep: (nat, T) -> bool) returns (visited: seq<T>)
      requires Valid()
      modifies this, spine`prev, spine`next
      ensures Valid() && visited == old(Values(spine)) && Values(spine) == Filter(visited, 0, keep)
      ensures spine == Kept(old(spine), visited, |old(spine)|, keep)
    {
      hide Distinct, Linked, Values, Filter, At, Without, Left;
      ghost var s0, vs := spine, Values(spine);
      var iter := new Iter(this, true);
      var i := 0;
      visited := [];
      LeftStarts(s0, vs, keep);
      var node := iter.Next();
      Here(spine, 0, node);
      hide Valid;
      while node != null
        invariant 0 <= i <= |s0| && node == At(s0, i) && iter.fromHead && fresh(iter)
        invariant node != null ==> iter.next == At(s0, i + 1)
        invariant Valid() && spine == Left(s0, vs, i, keep)
        invariant forall k :: 0 <= k < |s0| ==> s0[k].value == vs[k]
        invariant visited == vs[..i]
        decreases |s0| - i
      {
        Inside(s0, i);
        LeftInside(s0, vs, i, keep);
        visited := visited + [node.value];
        TurnFromHead(keep, node, i, s0, vs);
        i := i + 1;
        node := iter.Next();
        Inside(s0, i);
      }
      Inside(s0, i);
      LeftEnds(s0, vs, keep);
    }

    /** One turn of an iteration from the tail. */
    method TurnFromTail(keep: (nat, T) -> bool, node: Node<T>, at: nat,
                        ghost s0: seq<Node<T>>, ghost vs: seq<T>, ghost i: nat)
      requires Valid() && |vs| == |s0| && i < |s0| && at == |s0| - 1 - i && node == s0[at] && node.value == vs[at]
      requires spine == LeftTail(s0, vs, i, keep)
      modifies this, spine`prev, spine`next
      ensures Valid() && spine == LeftTail(s0, vs, i + 1, keep)
      ensures i + 1 < |s0| ==> s0[|s0| - 2 - i].prev == At(s0, |s0| - 3 - i)
    {
      hide Distinct, Linked, Without, At;
      AroundTail(s0, at, KeptTail(s0, vs, i, keep));
      if !keep(at, node.value) {
        UnlinkNode(node, at);
      }
      if at > 0 {
        AroundTail(s0, at - 1, KeptTail(s0, vs, i + 1, keep));
        Inside(spine, at - 1);
        Here(spine, at - 1, s0[at - 1]);
      }
    }

    /** An iteration from the tail that deletes any of the nodes it is handed. */
    method VisitFromTail(keep: (nat, T) -> bool) returns (visited: seq<T>)
      requires Valid()
      modifies this, spine`prev, spine`next
      ensures Valid() && visited == Reverse(old(Values(spine))) && Values(spine) == Filter(old(Values(spine)), 0, keep)
      ensures spine == KeptTail(old(spine), old(Values(spine)), |old(spine)|, keep)
    {
      hide Distinct, Linked, Values, Filter, At, Without, LeftTail, Reverse;
      ghost var s0, vs := spine, Values(spine);
      var iter := new Iter(this, false);
      var i, n := 0, len;
      visited := [];
      LeftTailStarts(s0, vs, keep);
      var node := iter.Next();
      Here(spine, |spine| - 1, node);
      hide Valid;
      while node != null
        invariant 0 <= i <= |s0| == n && node == At(s0, |s0| - 1 - i) && !iter.fromHead && fresh(iter)
        invariant node != null ==> iter.next == At(s0, |s0| - 2 - i)
        invariant Valid() && spine == LeftTail(s0, vs, i, keep)
        invariant forall k :: 0 <= k < |s0| ==> s0[k].value == vs[k]
        invariant visited == Reverse(vs)[..i]
        decreases |s0| - i
      {
        Inside(s0, |s0| - 1 - i);
        LeftTailInside(s0, vs, i, keep);
        visited := visited + [node.value];
        TurnFromTail(keep, node, n - 1 - i, s0, vs, i);
        i := i + 1;
        node := iter.Next();
        Inside(s0, |s0| - 1 - i);
      }
      Inside(s0, |s0| - 1 - i);
      LeftTailEnds(s0, vs, keep);
    }
  }

  /** The nodes kept of the last `i`. */
  ghost function KeptTail<T>(s0: seq<Node<T>>, vs: seq<T>, i: nat, keep: (nat, T) -> bool): seq<Node<T>>
    requires i <= |s0| == |vs|
  {
    if i == 0 then []
    else (if keep(|s0| - i, vs[|s0| - i]) then [s0[|s0| - i]] else []) + KeptTail(s0, vs, i - 1, keep)
  }

  /** The spine when an iteration from the tail has handed out `i` nodes. */
  ghost function LeftTail<T>(s0: seq<Node<T>>, vs: seq<T>, i: nat, keep: (nat, T) -> bool): seq<Node<T>>
    requires i <= |s0| == |vs|
  {
    s0[..|s0| - i] + KeptTail(s0, vs, i, keep)
  }

  lemma LeftTailStarts<T>(s0: seq<Node<T>>, vs: seq<T>, keep: (nat, T) -> bool)
    requires |s0| == |vs|
    ensures s0 == LeftTail(s0, vs, 0, keep)
  {
  }

  lemma {:induction false} KeptTailInside<T>(s0: seq<Node<T>>, vs: seq<T>, i: nat, keep: (nat, T) -> bool)
    requires i <= |s0| == |vs|
    ensures forall n :: n in KeptTail(s0, vs, i, keep) ==> n in s0
    decreases i
  {
    if i > 0 {
      KeptTailInside(s0, vs, i - 1, keep);
    }
  }

  lemma LeftTailInside<T>(s0: seq<Node<T>>, vs: seq<T>, i: nat, keep: (nat, T) -> bool)
    requires i <= |s0| == |vs|
    ensures forall k :: 0 <= k < |LeftTail(s0, vs, i, keep)| ==> LeftTail(s0, vs, i, keep)[k] in s0
  {
    KeptTailInside(s0, vs, i, keep);
    hide KeptTail;
    var kept := KeptTail(s0, vs, i, keep);
    assert forall k :: 0 <= k < |kept| ==> kept[k] in kept;
  }

  lemma LeftTailEnds<T>(s0: seq<Node<T>>, vs: seq<T>, keep: (nat, T) -> bool)
    requires |s0| == |vs| && forall k :: 0 <= k < |s0| ==> s0[k].value == vs[k]
    ensures LeftTail(s0, vs, |s0|, keep) == KeptTail(s0, vs, |s0|, keep)
    ensures Values(KeptTail(s0, vs, |s0|, keep)) == Filter(vs, 0, keep) && Reverse(vs)[..|s0|] == Reverse(vs)
  {
    hide KeptTail, Values, Filter;
    assert s0[..0] == [] && vs[0..] == vs;
    assert LeftTail(s0, vs, |s0|, keep) == KeptTail(s0, vs, |s0|, keep);
    KeptTailValues(s0, vs, |s0|, keep);
  }

  lemma {:induction false} KeptTailValues<T>(s0: seq<Node<T>>, vs: seq<T>, i: nat, keep: (nat, T) -> bool)
    requires i <= |s0| == |vs| && forall k :: 0 <= k < |s0| ==> s0[k].value == vs[k]
    ensures Values(KeptTail(s0, vs, i, keep)) == Filter(vs[|s0| - i..], |s0| - i, keep)
    decreases i
  {
    hide Values, Filter;
    if i == 0 {
      assert vs[|s0|..] == [];
      NoValues<T>(|s0|, keep);
    } else {
      KeptTailValues(s0, vs, i - 1, keep);
      var at := |s0| - i;
      assert vs[at..] == [vs[at]] + vs[at + 1..];
      FilterPrepend(vs[at], vs[at + 1..], at, keep);
      ValuesPrepend(s0[at], KeptTail(s0, vs, i - 1, keep));
      assert [] + KeptTail(s0, vs, i - 1, keep) == KeptTail(s0, vs, i - 1, keep);
    }
  }

  lemma NoValues<T>(at: nat, keep: (nat, T) -> bool)
    ensures Values<T>([]) == [] && Filter<T>([], at, keep) == []
  {
  }

  lemma ValuesPrepend<T>(node: Node<T>, spine: seq<Node<T>>)
    ensures Values([node] + spine) == [node.value] + Values(spine)
  {
  }

  lemma {:induction false} FilterPrepend<T>(v: T, vs: seq<T>, at: nat, keep: (nat, T) -> bool)
    ensures Filter([v] + vs, at, keep) == (if keep(at, v) then [v] else []) + Filter(vs, at + 1, keep)
    decreases |vs|
  {
    if vs == [] {
      assert [v] + vs == [] + [v];
      FilterNext([], v, at, keep);
    } else {
      var front, last := vs[..|vs| - 1], vs[|vs| - 1];
      FilterPrepend(v, front, at, keep);
      assert ([v] + vs)[..|vs|] == [v] + front;
      assert ([v] + vs)[|vs|] == last;
    }
  }

  /** The spine around the node that an iteration from the tail hands out. */
  lemma AroundTail<T>(s0: seq<Node<T>>, at: nat, kept: seq<Node<T>>)
    requires at < |s0|
    ensures var spine := s0[..at + 1] + kept;
      && at < |spine| && spine[at] == s0[at]
      && Without(spine, at) == s0[..at] + kept
      && spine == s0[..at] + ([s0[at]] + kept)
      && At(spine, at - 1) == At(s0, at - 1)
  {
  }

  /** The nodes kept of the first `i`. */
  ghost function Kept<T>(s0: seq<Node<T>>, vs: seq<T>, i: nat, keep: (nat, T) -> bool): seq<Node<T>>
    requires i <= |s0| == |vs|
  {
    if i == 0 then [] else Kept(s0, vs, i - 1, keep) + if keep(i - 1, vs[i - 1]) then [s0[i - 1]] else []
  }

  /** The spine when an iteration from the head is at node `i`. */
  ghost function Left<T>(s0: seq<Node<T>>, vs: seq<T>, i: nat, keep: (nat, T) -> bool): seq<Node<T>>
    requires i <= |s0| == |vs|
  {
    Kept(s0, vs, i, keep) + s0[i..]
  }

  lemma LeftStarts<T>(s0: seq<Node<T>>, vs: seq<T>, keep: (nat, T) -> bool)
    requires |s0| == |vs|
    ensures s0 == Left(s0, vs, 0, keep)
  {
  }

  lemma {:induction false} KeptInside<T>(s0: seq<Node<T>>, vs: seq<T>, i: nat, keep: (nat, T) -> bool)
    requires i <= |s0| == |vs|
    ensures forall n :: n in Kept(s0, vs, i, keep) ==> n in s0
    decreases i
  {
    if i > 0 {
      KeptInside(s0, vs, i - 1, keep);
    }
  }

  lemma LeftInside<T>(s0: seq<Node<T>>, vs: seq<T>, i: nat, keep: (nat, T) -> bool)
    requires i <= |s0| == |vs|
    ensures forall k :: 0 <= k < |Left(s0, vs, i, keep)| ==> Left(s0, vs, i, keep)[k] in s0
  {
    KeptInside(s0, vs, i, keep);
    hide Kept;
    var kept := Kept(s0, vs, i, keep);
    assert forall k :: 0 <= k < |kept| ==> kept[k] in kept;
  }

  /** What is left at the end are the values to keep. */
  lemma LeftEnds<T>(s0: seq<Node<T>>, vs: seq<T>, keep: (nat, T) -> bool)
    requires |s0| == |vs| && forall k :: 0 <= k < |s0| ==> s0[k].value == vs[k]
    ensures Left(s0, vs, |s0|, keep) == Kept(s0, vs, |s0|, keep)
    ensures Values(Kept(s0, vs, |s0|, keep)) == Filter(vs, 0, keep) && vs[..|s0|] == vs
  {
    hide Kept, Values, Filter;
    assert s0[|s0|..] == [];
    assert Left(s0, vs, |s0|, keep) == Kept(s0, vs, |s0|, keep);
    KeptValues(s0, vs, |s0|, keep);
    assert vs[..|s0|] == vs;
  }

  lemma {:induction false} KeptValues<T>(s0: seq<Node<T>>, vs: seq<T>, i: nat, keep: (nat, T) -> bool)
    requires i <= |s0| == |vs| && forall k :: 0 <= k < |s0| ==> s0[k].value == vs[k]
    ensures Values(Kept(s0, vs, i, keep)) == Filter(vs[..i], 0, keep)
    decreases i
  {
    if i > 0 {
      KeptValues(s0, vs, i - 1, keep);
      assert vs[..i] == vs[..i - 1] + [vs[i - 1]];
      FilterNext(vs[..i - 1], vs[i - 1], 0, keep);
      ValuesAppend(Kept(s0, vs, i - 1, keep), s0[i - 1]);
    }
  }

  /** The spine while an iteration is at node `i`: what was kept so far, and what is to come. */
  lemma Around<T>(kept: seq<Node<T>>, s0: seq<Node<T>>, i: nat)
    requires i < |s0|
    ensures var spine := kept + s0[i..];
      && |kept| < |spine| && spine[|kept|] == s0[i]
      && Without(spine, |kept|) == kept + s0[i + 1..]
      && spine == (kept + [s0[i]]) + s0[i + 1..]
      && At(spine, |kept| + 1) == At(s0, i + 1)
  {
  }

  lemma ValuesAppend<T>(spine: seq<Node<T>>, node: Node<T>)
    ensures Values(spine + [node]) == Values(spine) + [node.value]
  {
    assert (spine + [node])[..|spine|] == spine;
  }

  lemma FilterNext<T>(vs: seq<T>, v: T, at: nat, keep: (nat, T) -> bool)
    ensures Filter(vs + [v], at, keep) == Filter(vs, at, keep) + if keep(at + |vs|, v) then [v] else []
  {
    assert (vs + [v])[..|vs|] == vs;
  }

  lemma EmptySpine<T>()
    ensures Distinct<T>([]) && Linked<T>([]) && At<T>([], 0) == null && At<T>([], -1) == null
  {
  }

  ghost predicate NoMatch<T>(spine: seq<Node<T>>, matches: T -> bool, n: nat)
    requires n <= |spine|
    reads spine`value
  {
    forall i :: 0 <= i < n ==> !matches(spine[i].value)
  }

  ghost predicate FirstMatch<T>(spine: seq<Node<T>>, matches: T -> bool, i: nat, node: Node<T>)
    requires i < |spine|
    reads spine`value
  {
    spine[i] == node && matches(spine[i].value) && NoMatch(spine, matches, i)
  }

  lemma NoMatchYet<T>(spine: seq<Node<T>>, matches: T -> bool, i: nat)
    requires i <= |spine|
    ensures i == 0 ==> NoMatch(spine, matches, 0)
    ensures i < |spine| && NoMatch(spine, matches, i) && !matches(spine[i].value) ==> NoMatch(spine, matches, i + 1)
  {
  }

  ghost predicate Copied<T>(spine: seq<Node<T>>, copy: seq<Node<T>>, copyValue: T -> Option<T>, n: nat)
    requires n <= |spine| && n <= |copy|
    reads spine`value, copy`value
  {
    forall i :: 0 <= i < n ==> copyValue(spine[i].value) == Some(copy[i].value)
  }

  lemma NothingCopied<T>(spine: seq<Node<T>>, copy: seq<Node<T>>, copyValue: T -> Option<T>)
    ensures Copied(spine, copy, copyValue, 0)
  {
  }

  lemma CopiedNext<T>(spine: seq<Node<T>>, before: seq<Node<T>>, copy: seq<Node<T>>, copyValue: T -> Option<T>, i: nat)
    requires i < |spine| && |before| == i && |copy| == i + 1 && copy == Inserted(before, i, copy[i])
    requires Copied(spine, before, copyValue, i) && copyValue(spine[i].value) == Some(copy[i].value)
    ensures Copied(spine, copy, copyValue, i + 1)
  {
    assert forall k :: 0 <= k < i ==> copy[k] == before[k];
  }

  lemma CopiedAll<T>(spine: seq<Node<T>>, copy: seq<Node<T>>, copyValue: T -> Option<T>)
    requires |copy| == |spine| && Copied(spine, copy, copyValue, |spine|)
    ensures Copyable(spine, copyValue)
  {
  }

  ghost predicate Copyable<T>(spine: seq<Node<T>>, copyValue: T -> Option<T>)
    reads spine`value
  {
    forall i :: 0 <= i < |spine| ==> copyValue(spine[i].value).Some?
  }

  lemma NotCopyable<T>(spine: seq<Node<T>>, copyValue: T -> Option<T>, i: nat)
    requires i < |spine| && copyValue(spine[i].value).None?
    ensures !Copyable(spine, copyValue)
  {
  }
}
