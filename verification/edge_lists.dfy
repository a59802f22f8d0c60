/** Edge lists of the automaton: the order a list is kept in, and the pointer
    version that relinks its items in place. */
module EdgeOrder {

  /** Position of the first occurrence of `a`, or the length of `keys`. */
  function IndexOf(keys: seq<nat>, a: nat): (i: nat)
    ensures i <= |keys|
    ensures i < |keys| ==> keys[i] == a
    ensures forall j :: 0 <= j < i ==> keys[j] != a
  {
    if keys == [] || keys[0] == a then 0 else 1 + IndexOf(keys[1..], a)
  }

  /** The list after a successful lookup at position `i`. */
  function MoveToFront<T>(xs: seq<T>, i: nat): (ys: seq<T>)
    requires i < |xs|
    ensures |ys| == |xs| && ys[0] == xs[i]
    ensures forall k :: 0 < k < |xs| ==> ys[k] == if k <= i then xs[k - 1] else xs[k]
  {
    [xs[i]] + xs[..i] + xs[i + 1..]
  }

  lemma MoveToFrontPermutes<T>(xs: seq<T>, i: nat)
    requires i < |xs|
    ensures multiset(MoveToFront(xs, i)) == multiset(xs)
  {
    assert xs == xs[..i] + [xs[i]] + xs[i + 1..];
  }

  predicate Distinct<T(==)>(xs: seq<T>) {
    forall i, j :: 0 <= i < j < |xs| ==> xs[i] != xs[j]
  }

  lemma MoveToFrontDistinct<T>(xs: seq<T>, i: nat)
    requires i < |xs| && Distinct(xs)
    ensures Distinct(MoveToFront(xs, i))
  {
    var ys := MoveToFront(xs, i);
    forall j, k | 0 <= j < k < |ys| ensures ys[j] != ys[k] {
      var j' := if j == 0 then i else if j <= i then j - 1 else j;
      var k' := if k <= i then k - 1 else k;
      assert ys[j] == xs[j'] && ys[k] == xs[k'];
      assert j' != k';
    }
  }
}

module EdgeLists {
  import opened Wrappers
  import opened EdgeOrder

  /** What a list item knows of its edge: which edge it is and the addresses of
      its two nodes, none of which ever changes. */
  datatype EdgeRef = EdgeRef(id: nat, source: nat, target: nat)

  class EdgeListItem {
    const edge: EdgeRef
    var next: EdgeListItem?

    constructor (edge: EdgeRef, next: EdgeListItem?)
      ensures this.edge == edge && this.next == next
    {
      this.edge := edge;
      this.next := next;
    }
  }

  /** Edges denoted by a chain of items. */
  ghost function EdgesOf(items: seq<EdgeListItem>): (es: seq<EdgeRef>)
    ensures |es| == |items|
    ensures forall i :: 0 <= i < |items| ==> es[i] == items[i].edge
  {
    seq(|items|, i requires 0 <= i < |items| => items[i].edge)
  }

  lemma EdgesMoveToFront(items: seq<EdgeListItem>, i: nat)
    requires i < |items|
    ensures EdgesOf(MoveToFront(items, i)) == MoveToFront(EdgesOf(items), i)
    ensures multiset(MoveToFront(items, i)) == multiset(items)
    ensures i == 0 ==> MoveToFront(items, i) == items
  {
    MoveToFrontPermutes(items, i);
  }

  function TargetsOf(es: seq<EdgeRef>): (keys: seq<nat>)
    ensures |keys| == |es|
    ensures forall i :: 0 <= i < |es| ==> keys[i] == es[i].target
  {
    seq(|es|, i requires 0 <= i < |es| => es[i].target)
  }

  /** The out-edge list of one node: a singly linked list relinked by every
      successful lookup. */
  class OutEdgeList {
    var head: EdgeListItem?
    ghost var items: seq<EdgeListItem>

    /** `items` is the whole chain from `head`, without repetition; it is finite
        and ends in null, so the chain is acyclic. */
    ghost predicate Valid()
      reads this, items
    {
      && Distinct(items)
      && (items == [] ==> head == null)
      && (items != [] ==> head == items[0] && items[|items| - 1].next == null)
      && (forall i :: 0 <= i < |items| - 1 ==> items[i].next == items[i + 1])
    }

    ghost function Contents(): seq<EdgeRef>
      reads this
    {
      EdgesOf(items)
    }

    constructor ()
      ensures Valid() && Contents() == []
    {
      head := null;
      items := [];
    }

    method InsertEdge(ed: EdgeRef)
      requires Valid()
      modifies this
      ensures Valid() && Contents() == [ed] + old(Contents())
      ensures fresh(items[0]) && items[1..] == old(items)
    {
      var it := new EdgeListItem(ed, head);
      head := it;
      items := [it] + items;
    }

    /** Lookup by target address: finds the first edge with that address when
        there is one, and leaves that edge at the head and every other edge in
        its order. */
    method FindOutEdge(nextIp: nat) returns (edge: Option<EdgeRef>)
      requires Valid()
      modifies this, items
      ensures Valid() && multiset(items) == multiset(old(items))
      ensures edge.Some? <==> nextIp in TargetsOf(old(Contents()))
      ensures edge.None? ==> Contents() == old(Contents())
      ensures edge.Some? ==>
                var i := IndexOf(TargetsOf(old(Contents())), nextIp);
                && edge.value == old(Contents())[i]
                && edge.value.target == nextIp
                && Contents() == MoveToFront(old(Contents()), i)
    {
      if head == null { return None; }
      if head.edge.target == nextIp {
        assert IndexOf(TargetsOf(Contents()), nextIp) == 0 && MoveToFront(Contents(), 0) == Contents();
        return Some(head.edge);
      }
      var prev, it := Scan(nextIp);
      if it == null { return None; }
      ghost var i := IndexOf(TargetsOf(Contents()), nextIp);
      EdgesMoveToFront(items, i);
      if prev != null {
        // the item found goes to the head
        Relink(prev, it, i);
      }
      return Some(it.edge);
    }

    /** The first item with the address, and the item before it. */
    method Scan(nextIp: nat) returns (prev: EdgeListItem?, it: EdgeListItem?)
      requires Valid()
      ensures var i := IndexOf(TargetsOf(Contents()), nextIp);
              && (it == if i < |items| then items[i] else null)
              && (prev == if i == 0 then null else items[i - 1])
    {
      prev, it := null, head;
      ghost var i := 0;
      while it != null && it.edge.target != nextIp
        invariant i <= |items| && forall j :: 0 <= j < i ==> items[j].edge.target != nextIp
        invariant it == if i < |items| then items[i] else null
        invariant prev == if i == 0 then null else items[i - 1]
        decreases |items| - i
      {
        prev, it := it, it.next;
        i := i + 1;
      }
    }

    /** Unlinks the item at position `i` and links it in front of the head. */
    method Relink(prev: EdgeListItem, it: EdgeListItem, ghost i: nat)
      requires Valid() && 0 < i < |items| && items[i] == it && items[i - 1] == prev
      modifies this, items
      ensures Valid() && items == MoveToFront(old(items), i)
    {
      MoveToFrontDistinct(items, i);
      prev.next := it.next;
      it.next := head;
      head := it;
      items := MoveToFront(items, i);
    }
  }
}
