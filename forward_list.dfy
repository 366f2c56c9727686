/**
 * `IntrusiveForwardList<T>`: a singly linked list whose elements carry their
 * own `next` hook, so that every operation relinks pointers in place and
 * nothing is allocated by the list.
 *
 * The ghost field `nodes` is the abstract view: the linked elements from the
 * front, in order.  `Valid()` ties it to the `head` pointer and the `next`
 * hooks.
 */
module IntrusiveForwardList {

  /** An element with its hook; `value` is the payload the element carries. */
  class Node<T> {
    var next: Node?<T>
    const value: T

    constructor (value: T)
      ensures this.value == value && next == null
    {
      this.value := value;
      next := null;
    }
  }

  /**
   * An iterator: `BeforeBegin` designates the list head, whose `next` is the
   * first element (`before_begin()`); `Item(n)` designates element `n`.
   */
  datatype Cursor<T> = BeforeBegin | Item(node: Node<T>)

  /** The reversal of a sequence, peeling its last element. */
  function Reversed<X>(s: seq<X>): (r: seq<X>)
    ensures |r| == |s|
  {
    if s == [] then [] else [s[|s| - 1]] + Reversed(s[..|s| - 1])
  }

  lemma {:induction false} ReversedAt<X>(s: seq<X>, k: nat)
    requires k < |s|
    ensures |Reversed(s)| == |s| && Reversed(s)[k] == s[|s| - 1 - k]
    decreases |s|
  {
    ReversedLength(s);
    if k > 0 {
      ReversedAt(s[..|s| - 1], k - 1);
    }
  }

  lemma {:induction false} ReversedLength<X>(s: seq<X>)
    ensures |Reversed(s)| == |s|
    decreases |s|
  {
    if s != [] {
      ReversedLength(s[..|s| - 1]);
    }
  }

  /** One round of the in-place reversal, on the abstract view. */
  lemma ReverseStep<X>(s: seq<X>, k: nat)
    requires k + 1 < |s|
    ensures [s[k + 1]] + (Reversed(s[..k + 1]) + s[k + 1..])[..k + 1] + (Reversed(s[..k + 1]) + s[k + 1..])[k + 2..]
            == Reversed(s[..k + 2]) + s[k + 2..]
  {
    assert s[..k + 2][..k + 1] == s[..k + 1];
    assert (Reversed(s[..k + 1]) + s[k + 1..])[..k + 1] == Reversed(s[..k + 1]);
    assert (Reversed(s[..k + 1]) + s[k + 1..])[k + 2..] == s[k + 2..];
  }

  /** Reversing twice gives back the original order. */
  lemma ReversedTwice<X>(s: seq<X>)
    ensures Reversed(Reversed(s)) == s
  {
    var r := Reversed(s);
    ReversedLength(s);
    ReversedLength(r);
    forall k | 0 <= k < |s|
      ensures Reversed(r)[k] == s[k]
    {
      ReversedAt(r, k);
      ReversedAt(s, |s| - 1 - k);
    }
  }

  /** Reversal keeps exactly the same elements, each as often. */
  lemma {:induction false} ReversedSameElements<X>(s: seq<X>)
    ensures multiset(Reversed(s)) == multiset(s)
    decreases |s|
  {
    if s != [] {
      ReversedSameElements(s[..|s| - 1]);
      assert s == s[..|s| - 1] + [s[|s| - 1]];
    }
  }

  /** The payloads of a sequence of elements. */
  function Values<T>(ns: seq<Node<T>>): (vs: seq<T>)
    ensures |vs| == |ns|
    ensures forall i :: 0 <= i < |ns| ==> vs[i] == ns[i].value
  {
    seq(|ns|, i requires 0 <= i < |ns| => ns[i].value)
  }

  /** Reversing the elements reverses their payloads. */
  lemma ReversedValues<T>(ns: seq<Node<T>>)
    ensures Values(Reversed(ns)) == Reversed(Values(ns))
  {
    ReversedLength(ns);
    ReversedLength(Values(ns));
    forall k | 0 <= k < |ns|
      ensures Values(Reversed(ns))[k] == Reversed(Values(ns))[k]
    {
      ReversedAt(ns, k);
      ReversedAt(Values(ns), k);
    }
  }

  class ForwardList<T> {
    /** `head.next`: the first element, or null when the list is empty. */
    var head: Node?<T>
    ghost var nodes: seq<Node<T>>

    ghost predicate Valid()
      reads this, nodes
    {
      && head == (if nodes == [] then null else nodes[0])
      && (forall i :: 0 <= i < |nodes| ==> nodes[i].next == Successor(i))
      && (forall i, j :: 0 <= i < j < |nodes| ==> nodes[i] != nodes[j])
    }

    /** What the hook of the element at position `i` must point to. */
    ghost function Successor(i: int): Node?<T>
      reads this
    {
      if 0 <= i && i + 1 < |nodes| then nodes[i + 1] else null
    }

    /** The payloads from the front, in order. */
    ghost function Contents(): seq<T>
      reads this
    {
      Values(nodes)
    }

    /** The position of a cursor in `nodes`; -1 for `BeforeBegin`. */
    ghost function Index(pos: Cursor<T>): (k: int)
      reads this
      requires pos.Item? ==> pos.node in nodes
      ensures -1 <= k < |nodes|
      ensures pos.BeforeBegin? ==> k == -1
      ensures pos.Item? ==> k >= 0 && nodes[k] == pos.node
    {
      match pos
      case BeforeBegin => -1
      case Item(n) => var k :| 0 <= k < |nodes| && nodes[k] == n; k
    }

    /** The default constructor: an empty list. */
    constructor ()
      ensures Valid() && nodes == []
    {
      head := null;
      nodes := [];
    }

    /** The move constructor: takes over `src`'s elements and leaves `src` empty. */
    constructor Move(src: ForwardList<T>)
      requires src.Valid()
      modifies src
      ensures Valid() && nodes == old(src.nodes)
      ensures src.Valid() && src.nodes == []
    {
      head := src.head;
      nodes := src.nodes;
      new;
      src.head := null;
      src.nodes := [];
    }

    /** Move assignment: swaps the two lists' heads. */
    method MoveAssign(src: ForwardList<T>)
      requires Valid() && src.Valid()
      modifies this, src
      ensures Valid() && nodes == old(src.nodes)
      ensures src.Valid() && src.nodes == old(nodes)
    {
      head, src.head := src.head, head;
      nodes, src.nodes := src.nodes, nodes;
    }

    predicate IsEmpty()
      reads this
    {
      head == null
    }

    /** `empty()` is exactly "no elements". */
    lemma EmptyIffNoElements()
      requires Valid()
      ensures IsEmpty() <==> |Contents()| == 0
    {
    }

    /** `clear()`: forgets all elements without touching them. */
    method Clear()
      modifies this
      ensures Valid() && nodes == [] && IsEmpty()
    {
      head := null;
      nodes := [];
    }

    /** `front()`: the first element. */
    function Front(): (n: Node<T>)
      reads this, nodes
      requires Valid() && !IsEmpty()
      ensures n == nodes[0] && n.value == Contents()[0]
    {
      head
    }

    /** `pop_front()`: unlinks exactly the first element. */
    method PopFront()
      requires Valid() && !IsEmpty()
      modifies this
      ensures Valid() && nodes == old(nodes[1..])
    {
      head := head.next;
      nodes := nodes[1..];
    }

    /** `push_front(t)`: links `t` in as the new first element. */
    method PushFront(t: Node<T>)
      requires Valid() && t !in nodes
      modifies this, t
      ensures Valid() && nodes == [t] + old(nodes)
    {
      t.next := head;
      head := t;
      nodes := [t] + nodes;
    }

    /**
     * `insert_after(pos, t)`: links `t` in right after `pos` and returns a
     * cursor to it; from `BeforeBegin` this inserts at the front.
     */
    method InsertAfter(pos: Cursor<T>, t: Node<T>) returns (it: Cursor<T>)
      requires Valid() && t !in nodes
      requires pos.Item? ==> pos.node in nodes
      modifies this, t, if pos.Item? then {pos.node} else {}
      ensures Valid() && it == Item(t)
      ensures nodes == old(nodes[..Index(pos) + 1] + [t] + nodes[Index(pos) + 1..])
    {
      ghost var s := nodes;
      match pos {
        case BeforeBegin =>
          // the list head is a hook like any other: this is `push_front`
          PushFront(t);
          assert s[..0] + [t] + s[0..] == nodes;
        case Item(n) =>
          LinkAfter(Index(pos), n, t);
      }
      it := Item(t);
    }

    /** The relinking `insert_after` does when `pos` is the element `n` at index `k`. */
    method LinkAfter(ghost k: nat, n: Node<T>, t: Node<T>)
      requires Valid() && t !in nodes
      requires k < |nodes| && nodes[k] == n
      modifies this, t, n
      ensures Valid()
      ensures nodes == old(nodes[..k + 1] + [t] + nodes[k + 1..])
    {
      ghost var s := nodes;
      assert forall j {:trigger s[j]} :: 0 <= j < |s| && j != k ==> s[j] != n && s[j] != t;
      assert forall j {:trigger s[j]} :: 0 <= j < |s| ==> s[j].next == (if j + 1 < |s| then s[j + 1] else null);
      t.next := n.next;
      n.next := t;
      nodes := s[..k + 1] + [t] + s[k + 1..];
      LinkedAfterInsert(s, k + 1);
      DistinctAfterInsert(s, k + 1, t);
    }

    /** The hooks are consistent again after `t` was linked in at position `k`. */
    lemma LinkedAfterInsert(s: seq<Node<T>>, k: nat)
      requires 0 < k <= |s| && |nodes| == |s| + 1
      requires nodes == s[..k] + [nodes[k]] + s[k..]
      requires forall j {:trigger s[j]} :: 0 <= j < |s| && j != k - 1 ==> s[j].next == (if j + 1 < |s| then s[j + 1] else null)
      requires s[k - 1].next == nodes[k]
      requires nodes[k].next == (if k < |s| then s[k] else null)
      ensures forall i :: 0 <= i < |nodes| ==> nodes[i].next == Successor(i)
    {
      forall i | 0 <= i < |nodes|
        ensures nodes[i].next == Successor(i)
      {
        if i < k - 1 {
          assert nodes[i] == s[i] && nodes[i + 1] == s[i + 1];
          assert s[i].next == s[i + 1];
          assert nodes[i].next == Successor(i);
        } else if i > k {
          assert nodes[i] == s[i - 1];
          assert i + 1 < |nodes| ==> nodes[i + 1] == s[i];
          assert s[i - 1].next == (if i < |s| then s[i] else null);
          assert nodes[i].next == Successor(i);
        } else if i == k {
          assert k < |s| ==> nodes[k + 1] == s[k];
          assert nodes[i].next == Successor(i);
        } else {
          assert nodes[i] == s[k - 1];
          assert nodes[i].next == Successor(i);
        }
      }
    }

    /** `erase_after(pos)`: unlinks exactly the element following `pos`. */
    method EraseAfter(pos: Cursor<T>)
      requires Valid()
      requires pos.Item? ==> pos.node in nodes
      requires Index(pos) + 1 < |nodes|
      modifies this, if pos.Item? then {pos.node} else {}
      ensures Valid()
      ensures nodes == old(nodes[..Index(pos) + 1] + nodes[Index(pos) + 2..])
    {
      ghost var k := Index(pos) + 1;
      ghost var s := nodes;
      match pos {
        case BeforeBegin =>
          head := head.next;
        case Item(n) =>
          n.next := n.next.next;
      }
      nodes := s[..k] + s[k + 1..];
      LinkedAfterErase(s, k);
    }

    /** The hooks are consistent again after the element at position `k` was bypassed. */
    lemma LinkedAfterErase(s: seq<Node<T>>, k: nat)
      requires k < |s| && nodes == s[..k] + s[k + 1..]
      requires forall j {:trigger s[j]} :: 0 <= j < |s| && j != k - 1 && j != k ==> s[j].next == (if j + 1 < |s| then s[j + 1] else null)
      requires k > 0 ==> s[k - 1].next == (if k + 1 < |s| then s[k + 1] else null)
      ensures forall i :: 0 <= i < |nodes| ==> nodes[i].next == Successor(i)
    {
      forall i | 0 <= i < |nodes|
        ensures nodes[i].next == Successor(i)
      {
        if i < k - 1 {
          assert nodes[i] == s[i] && nodes[i + 1] == s[i + 1];
        } else if i == k - 1 {
          assert nodes[i] == s[k - 1];
          assert k < |nodes| ==> nodes[k] == s[k + 1];
        } else {
          assert nodes[i] == s[i + 1];
          assert i + 1 < |nodes| ==> nodes[i + 1] == s[i + 2];
        }
      }
    }

    /** Elements stay pairwise distinct when a new one is spliced in at position `k`. */
    static lemma DistinctAfterInsert(s: seq<Node<T>>, k: nat, t: Node<T>)
      requires k <= |s| && t !in s
      requires forall i, j :: 0 <= i < j < |s| ==> s[i] != s[j]
      ensures var r := s[..k] + [t] + s[k..];
        forall i, j :: 0 <= i < j < |r| ==> r[i] != r[j]
    {
      var r := s[..k] + [t] + s[k..];
      forall i, j | 0 <= i < j < |r|
        ensures r[i] != r[j]
      {
        var i' := if i < k then i else i - 1;
        var j' := if j <= k then j else j - 1;
        if i != k && j != k {
          assert r[i] == s[i'] && r[j] == s[j'] && i' < j';
        }
      }
    }

    /**
     * `reverse()`: the first element stays put and every element after it
     * is moved to the front in turn, so the list ends up reversed.
     */
    method Reverse()
      requires Valid()
      modifies this, nodes
      ensures Valid() && nodes == Reversed(old(nodes))
      ensures Contents() == Reversed(old(Contents()))
    {
      ghost var s := nodes;
      if head == null {
        return;
      }
      var middle := head;
      ghost var k := 0;
      while middle.next != null
        invariant Valid()
        invariant 0 <= k < |s| && middle == s[0]
        invariant nodes == Reversed(s[..k + 1]) + s[k + 1..]
        invariant forall n :: n in nodes <==> n in s
        invariant |nodes| == |s| && nodes[k] == middle
        decreases |s| - k
      {
        ReversedLength(s[..k + 1]);
        MoveToFront(k, middle);
        ReverseStep(s, k);
        k := k + 1;
      }
      ReversedLength(s[..k + 1]);
      assert s[..k + 1] == s;
      ReversedValues(s);
    }

    /** One round of `reverse()`: the element after `middle` (at `k`) is unlinked and pushed to the front. */
    method MoveToFront(ghost k: nat, middle: Node<T>)
      requires Valid() && k + 1 < |nodes| && nodes[k] == middle
      modifies this, middle, nodes[k + 1]
      ensures Valid()
      ensures nodes == [old(nodes[k + 1])] + old(nodes[..k + 1]) + old(nodes[k + 2..])
    {
      ghost var s := nodes;
      var i := middle.next;
      IndexOfNode(k);
      EraseAfter(Item(middle));
      assert nodes == s[..k + 1] + s[k + 2..];
      assert i !in nodes by {
        forall j | 0 <= j < |nodes|
          ensures nodes[j] != i
        {
          if j <= k {
            assert nodes[j] == s[j];
          } else {
            assert nodes[j] == s[j + 1];
          }
        }
      }
      PushFront(i);
    }

    /** The cursor to the element at position `k` designates position `k`. */
    lemma IndexOfNode(k: nat)
      requires Valid() && k < |nodes|
      ensures Index(Item(nodes[k])) == k
    {
    }

    /**
     * `clear_and_dispose(disposer)`: unlinks the elements from the front and
     * hands each one to the disposer right after unlinking it; `disposed`
     * is the order of those calls.
     */
    method ClearAndDispose() returns (disposed: seq<Node<T>>)
      requires Valid()
      modifies this
      ensures Valid() && nodes == [] && IsEmpty()
      ensures disposed == old(nodes)
    {
      disposed := [];
      while !IsEmpty()
        invariant Valid()
        invariant disposed + nodes == old(nodes)
        decreases |nodes|
      {
        var item := Front();
        ghost var before := nodes;
        PopFront();
        assert before == [item] + nodes;
        disposed := disposed + [item];
      }
    }
  }
}
