/** A singly linked list of heap nodes, `LinkedList<T>` with its `Node`.

    The concrete state is what the source keeps: `head` (the first node or
    null) and `size` (the element count). Three ghost fields give the abstract
    view: `Contents` (the values front to back), `Nodes` (the chain of nodes
    front to back) and `Repr` (every object the list uses). `Valid()` is the
    representation invariant tying them together. */
module LinkedLists {
  import opened Reversal

  /** One link of the chain: a value and its successor, null at the end. */
  class Node<T> {
    var data: T
    var next: Node?<T>

    constructor (value: T)
      ensures data == value && next == null
    {
      data := value;
      next := null;
    }
  }

  /** The node after position `i` of a chain, null past the last one. */
  function NextOf<T>(nodes: seq<Node<T>>, i: int): Node?<T>
  {
    if 0 <= i && i + 1 < |nodes| then nodes[i + 1] else null
  }

  /** The node before position `i` of a chain, null before the first one. */
  function PrevOf<T>(nodes: seq<Node<T>>, i: int): Node?<T>
  {
    if 0 < i <= |nodes| then nodes[i - 1] else null
  }

  class LinkedList<T> {
    var head: Node?<T>
    var size: nat

    ghost var Contents: seq<T>
    ghost var Nodes: seq<Node<T>>
    ghost var Repr: set<object>

    /** The representation invariant: following `next` from `head` visits
        exactly the nodes of `Nodes`, in order, each once, carrying the
        values of `Contents`, and ends at null; `size` is the chain length. */
    ghost predicate Valid()
      reads this, Repr
      ensures Valid() ==> this in Repr
    {
      this in Repr &&
      (forall i :: 0 <= i < |Nodes| ==> Nodes[i] in Repr) &&
      |Nodes| == |Contents| == size &&
      head == (if Nodes == [] then null else Nodes[0]) &&
      (forall i {:trigger Nodes[i]} :: 0 <= i < |Nodes| ==> Nodes[i].data == Contents[i]) &&
      (forall i {:trigger Nodes[i].next} :: 0 <= i < |Nodes| ==>
        Nodes[i].next == NextOf(Nodes, i)) &&
      (forall i, j :: 0 <= i < j < |Nodes| ==> Nodes[i] != Nodes[j])
    }

    /** The empty list: no head, size zero. */
    constructor ()
      ensures Valid() && fresh(Repr)
      ensures Contents == [] && head == null && size == 0
    {
      head := null;
      size := 0;
      Contents := [];
      Nodes := [];
      Repr := {this};
    }

    /** The list holding `values` in order, built by appending each one. */
    constructor FromSeq(values: seq<T>)
      ensures Valid() && fresh(Repr)
      ensures Contents == values && size == |values|
    {
      head := null;
      size := 0;
      Contents := [];
      Nodes := [];
      Repr := {this};
      new;
      for i := 0 to |values|
        invariant Valid() && fresh(Repr)
        invariant Contents == values[..i]
      {
        PushBack(values[i]);
        assert values[..i + 1] == values[..i] + [values[i]];
      }
      assert values[..|values|] == values;
    }

    /** Appends `value`: walks from the head to the node whose `next` is null
        and links a fresh node there. The nodes already in the list keep their
        order and values. */
    method PushBack(value: T)
      requires Valid()
      modifies Repr
      ensures Valid() && fresh(Repr - old(Repr))
      ensures Contents == old(Contents) + [value]
      ensures size == old(size) + 1
      ensures |Nodes| == |old(Nodes)| + 1 && Nodes[..|old(Nodes)|] == old(Nodes)
      ensures fresh(Nodes[|Nodes| - 1])
    {
      var newNode := new Node(value);
      if head == null {
        head := newNode;
      } else {
        var current := head;
        ghost var k := 0;
        while current.next != null
          invariant 0 <= k < |Nodes| && current == Nodes[k]
          decreases |Nodes| - k
        {
          current := current.next;
          k := k + 1;
        }
        assert current == Nodes[|Nodes| - 1];
        current.next := newNode;
      }
      size := size + 1;
      Nodes := Nodes + [newNode];
      Contents := Contents + [value];
      Repr := Repr + {newNode};
    }

    /** Prepends `value`: a fresh node pointing at the old head becomes the head. */
    method PushFront(value: T)
      requires Valid()
      modifies this
      ensures Valid() && fresh(Repr - old(Repr))
      ensures Contents == [value] + old(Contents)
      ensures size == old(size) + 1
      ensures |Nodes| == |old(Nodes)| + 1 && Nodes[1..] == old(Nodes) && fresh(Nodes[0])
    {
      var newNode := new Node(value);
      newNode.next := head;
      head := newNode;
      size := size + 1;
      Nodes := [newNode] + Nodes;
      Contents := [value] + Contents;
      Repr := Repr + {newNode};
    }

    /** The element count, which is the length of the chain. */
    function Size(): (n: nat)
      reads this, Repr
      requires Valid()
      ensures n == |Contents| && n == |Nodes|
    {
      size
    }

    /** Whether the list holds no element. */
    function IsEmpty(): (b: bool)
      reads this, Repr
      requires Valid()
      ensures b <==> Contents == []
      ensures b <==> head == null
    {
      size == 0
    }

    /** The first node, null exactly when the list is empty. */
    function GetHead(): (h: Node?<T>)
      reads this, Repr
      requires Valid()
      ensures h == null <==> Contents == []
      ensures h != null ==> h == Nodes[0] && h.data == Contents[0]
    {
      head
    }

    /** Drops the whole chain: the list becomes empty. */
    method Clear()
      requires Valid()
      modifies this
      ensures Valid() && Repr == {this}
      ensures Contents == [] && size == 0 && head == null
    {
      head := null;
      size := 0;
      Contents := [];
      Nodes := [];
      Repr := {this};
    }

    /** The values front to back, read by walking the chain to null. */
    method ToVector() returns (result: seq<T>)
      requires Valid()
      ensures result == Contents && |result| == size
    {
      result := [];
      var current := head;
      ghost var k := 0;
      while current != null
        invariant 0 <= k <= |Nodes|
        invariant current == if k < |Nodes| then Nodes[k] else null
        invariant result == Contents[..k]
        decreases |Nodes| - k
      {
        result := result + [current.data];
        current := current.next;
        k := k + 1;
      }
      assert Contents[..k] == Contents;
    }

    /** Reverses the chain in place with the rolling references `prev`,
        `current` and `next`, and returns the new head. No node is created or
        dropped and no value moves: only the `next` links and `head` change.
        A list of at most one element is left as it is and its head returned. */
    method Reverse() returns (newHead: Node?<T>)
      requires Valid()
      modifies Repr
      ensures Valid() && Repr == old(Repr)
      ensures Contents == Reversal.Reverse(old(Contents))
      ensures Nodes == Reversal.Reverse(old(Nodes))
      ensures size == old(size)
      ensures newHead == head
      ensures |old(Contents)| <= 1 ==> newHead == old(head) && Contents == old(Contents)
    {
      if head == null || head.next == null {
        ReverseShort(Contents);
        ReverseShort(Nodes);
        return head;
      }
      ghost var N, C := Nodes, Contents;
      var prev: Node?<T> := null;
      var current: Node?<T> := head;
      var next: Node?<T> := null;
      ghost var k := 0;
      while current != null
        invariant 0 <= k <= |N|
        modifies Repr - {this}
        invariant prev == PrevOf(N, k)
        invariant current == if k < |N| then N[k] else null
        invariant forall i :: 0 <= i < |N| ==> N[i].data == C[i]
        invariant forall i {:trigger N[i].next} :: 0 <= i < k ==> N[i].next == PrevOf(N, i)
        invariant forall i {:trigger N[i].next} :: k <= i < |N| ==> N[i].next == NextOf(N, i)
        decreases |N| - k
      {
        next := current.next;
        current.next := prev;
        prev := current;
        current := next;
        k := k + 1;
      }
      head := prev;
      Nodes := Reversal.Reverse(N);
      Contents := Reversal.Reverse(C);
      ReversedChainIsValid(N, C);
      newHead := head;
    }

    /** The state `Reverse` leaves behind satisfies the invariant: a chain
        whose every link points back to its predecessor is, read from its
        last node, a chain linked forwards, with the same nodes and values. */
    lemma ReversedChainIsValid(nodes: seq<Node<T>>, values: seq<T>)
      requires this in Repr && |values| == |nodes| == size
      requires Nodes == Reversal.Reverse(nodes) && Contents == Reversal.Reverse(values)
      requires head == if nodes == [] then null else nodes[|nodes| - 1]
      requires forall i :: 0 <= i < |nodes| ==> nodes[i] in Repr
      requires forall i {:trigger nodes[i]} :: 0 <= i < |nodes| ==> nodes[i].data == values[i]
      requires forall i {:trigger nodes[i]} :: 0 <= i < |nodes| ==> nodes[i].next == PrevOf(nodes, i)
      requires forall i, j :: 0 <= i < j < |nodes| ==> nodes[i] != nodes[j]
      ensures Valid()
    {
      ReverseIndices(nodes);
      ReverseIndices(values);
    }

    /** A new list holding the values of `list` in reverse order, built by
        prepending each value met on a front-to-back walk of `list`; `list`
        itself is not touched. */
    static method ReverseCopy(list: LinkedList<T>) returns (result: LinkedList<T>)
      requires list.Valid()
      ensures result.Valid() && fresh(result.Repr)
      ensures result.Contents == Reversal.Reverse(list.Contents)
      ensures result.size == list.size
      ensures list.Valid() && list.Contents == old(list.Contents) && list.size == old(list.size)
    {
      result := new LinkedList();
      var current := list.GetHead();
      ghost var s := list.Contents;
      ghost var k := 0;
      while current != null
        invariant 0 <= k <= |list.Nodes|
        invariant current == if k < |list.Nodes| then list.Nodes[k] else null
        invariant result.Valid() && fresh(result.Repr)
        invariant result.Contents == Reversal.Reverse(s[..k])
        decreases |list.Nodes| - k
      {
        assert s[..k + 1] == s[..k] + [s[k]];
        ReverseSnoc(s[..k], s[k]);
        result.PushFront(current.data);
        current := current.next;
        k := k + 1;
      }
      assert s[..k] == s;
    }
  }

  /** Reversing a list twice in place restores its original order and size. */
  method ReverseTwice<T>(list: LinkedList<T>)
    requires list.Valid()
    modifies list.Repr
    ensures list.Valid() && list.Repr == old(list.Repr)
    ensures list.Contents == old(list.Contents) && list.size == old(list.size)
  {
    var _ := list.Reverse();
    var _ := list.Reverse();
    ReverseInvolution(old(list.Contents));
  }
}
