/** The Java linked-list service's data structure: a doubly linked list of
    strings, appended at the tail and capped at eight elements by dropping the
    head, rendered as `[ A <-> B <-> C ]`. */
module LinkedList {
  import opened Text

  /** Longest list `add` keeps. */
  const MaxSize: nat := 8

  const Separator: string := " <-> "
  const EmptyRendering: string := "[ Empty ]"

  // ---------------------------------------------------------------------------
  // The list as a value: its elements from head to tail.

  /** What `add(x)` does to the elements. */
  function AfterAdd(s: seq<string>, x: string): seq<string>
  {
    if |s + [x]| > MaxSize then (s + [x])[1..] else s + [x]
  }

  /** What `removeFirst()` does to the elements. */
  function AfterRemoveFirst(s: seq<string>): seq<string>
  {
    if s == [] then [] else s[1..]
  }

  /** Adding keeps the new element last and never lets a list of at most eight grow past eight. */
  lemma AddKeepsCap(s: seq<string>, x: string)
    requires |s| <= MaxSize
    ensures |AfterAdd(s, x)| <= MaxSize
    ensures AfterAdd(s, x) != [] && AfterAdd(s, x)[|AfterAdd(s, x)| - 1] == x
    ensures |s| < MaxSize ==> AfterAdd(s, x) == s + [x]
  {
  }

  /** The last `n` elements of `s` (all of them when there are fewer). */
  function LastN(s: seq<string>, n: nat): (r: seq<string>)
  {
    if |s| <= n then s else s[|s| - n..]
  }

  /** Adding the values `xs` one by one to a list of at most eight leaves the
      last eight of the old elements followed by `xs`. */
  function AddAll(s: seq<string>, xs: seq<string>): seq<string>
    decreases |xs|
  {
    if xs == [] then s else AddAll(AfterAdd(s, xs[0]), xs[1..])
  }

  lemma {:induction false} AddAllKeepsLastEight(s: seq<string>, xs: seq<string>)
    requires |s| <= MaxSize
    ensures AddAll(s, xs) == LastN(s + xs, MaxSize)
    decreases |xs|
  {
    if xs == [] {
      assert s + xs == s;
    } else {
      var t := AfterAdd(s, xs[0]);
      assert AddAll(s, xs) == AddAll(t, xs[1..]);
      assert t == LastN(s + [xs[0]], MaxSize);
      AddAllKeepsLastEight(t, xs[1..]);
      LastNAppend(s + [xs[0]], xs[1..]);
      assert s + xs == (s + [xs[0]]) + xs[1..];
    }
  }

  /** Keeping the last eight before appending does not change the last eight after it. */
  lemma LastNAppend(s: seq<string>, xs: seq<string>)
    ensures LastN(LastN(s, MaxSize) + xs, MaxSize) == LastN(s + xs, MaxSize)
  {
    if |s| > MaxSize {
      var k := |s| - MaxSize;
      assert s + xs == s[..k] + (s[k..] + xs);
      var l := s[k..] + xs;
      if |l| > MaxSize {
        assert (s + xs)[|s + xs| - MaxSize..] == l[|l| - MaxSize..];
      }
    }
  }

  /** Below the cap, `add` then `removeFirst` drops the head and keeps the new
      element last; on a full list `add` itself is `removeFirst` then append. */
  lemma AddAndRemoveFirst(s: seq<string>, x: string)
    ensures s == [] ==> AfterRemoveFirst(AfterAdd(s, x)) == []
    ensures 1 <= |s| < MaxSize ==> AfterRemoveFirst(AfterAdd(s, x)) == s[1..] + [x]
    ensures |s| == MaxSize ==> AfterAdd(s, x) == AfterRemoveFirst(s) + [x]
  {
    if s != [] {
      assert (s + [x])[1..] == s[1..] + [x];
    }
  }

  // ---------------------------------------------------------------------------
  // Rendering, as `toString` builds it.

  /** The elements joined by " <-> ". */
  function Joined(s: seq<string>): string
    decreases |s|
  {
    if s == [] then ""
    else if |s| == 1 then s[0]
    else Joined(s[..|s| - 1]) + Separator + s[|s| - 1]
  }

  function Render(s: seq<string>): string
  {
    if s == [] then EmptyRendering else "[ " + Joined(s) + " ]"
  }

  /** With two or more elements, " <-> " follows the joined text of all but the
      last element, so the joined text holds a '<'. */
  lemma {:induction false} JoinedHasSeparator(s: seq<string>)
    requires |s| >= 2
    ensures var i := |Joined(s[..|s| - 1])|;
      i + |Separator| <= |Joined(s)| && Joined(s)[i..i + |Separator|] == Separator
    ensures '<' in Joined(s)
  {
    var j := Joined(s[..|s| - 1]);
    assert Joined(s) == j + Separator + s[|s| - 1];
    assert Joined(s)[|j|..|j| + |Separator|] == Separator;
    assert Joined(s)[|j| + 1] == '<';
  }

  /** "[ Empty ]" is the rendering of the empty list and of the one-element list
      holding "Empty", and of nothing else. */
  lemma RenderEmptyIff(s: seq<string>)
    ensures Render(s) == EmptyRendering <==> s == [] || s == ["Empty"]
  {
    if s != [] && Render(s) == EmptyRendering {
      var j := Joined(s);
      assert "[ " + j + " ]" == EmptyRendering;
      assert |j| == 5;
      EmptyRenderingMiddle(j);
      if |s| >= 2 {
        JoinedHasSeparator(s);
        assert false;
      }
      assert s == [s[0]];
    }
  }

  /** The only text rendered between "[ " and " ]" as "[ Empty ]" is "Empty". */
  lemma EmptyRenderingMiddle(j: string)
    requires "[ " + j + " ]" == EmptyRendering
    ensures j == "Empty"
  {
    assert |j| == 5;
    assert j == ("[ " + j + " ]")[2..7];
    assert EmptyRendering == "[ " + "Empty" + " ]";
    assert ("[ " + "Empty" + " ]")[2..7] == "Empty";
  }

  /** The rendering of a non-empty list opens with "[ ", closes with " ]" and
      begins with the head's text. */
  lemma {:induction false} RenderShape(s: seq<string>)
    requires s != []
    ensures StartsWith(Render(s), "[ " + s[0])
    ensures |Render(s)| >= 4 && Render(s)[|Render(s)| - 2..] == " ]"
    decreases |s|
  {
    JoinedStartsWithHead(s);
  }

  lemma {:induction false} JoinedStartsWithHead(s: seq<string>)
    requires s != []
    ensures |s[0]| <= |Joined(s)| && Joined(s)[..|s[0]|] == s[0]
    decreases |s|
  {
    if |s| > 1 {
      var p := s[..|s| - 1];
      JoinedStartsWithHead(p);
      assert p[0] == s[0];
    }
  }

  // ---------------------------------------------------------------------------
  // The heap structure.

  class Node {
    var data: string
    var prev: Node?
    var next: Node?

    constructor (data: string)
      ensures this.data == data && prev == null && next == null
    {
      this.data := data;
      prev, next := null, null;
    }
  }

  class DoublyLinkedList {
    var head: Node?
    var tail: Node?

    /** The elements, head first. */
    ghost var Contents: seq<string>
    /** The nodes reachable from `head`, in order. */
    ghost var Nodes: seq<Node>
    ghost var Repr: set<object>

    /** Link consistency: `head.prev == null`, `tail.next == null`, and each
        node's `next` has it as `prev`; the nodes are distinct and carry `Contents`. */
    ghost predicate Valid()
      reads this, Repr
    {
      && this in Repr
      && (forall i :: 0 <= i < |Nodes| ==> Nodes[i] in Repr)
      && |Nodes| == |Contents|
      && (Nodes == [] ==> head == null && tail == null)
      && (Nodes != [] ==> head == Nodes[0] && tail == Nodes[|Nodes| - 1])
      && (Nodes != [] ==> Nodes[0].prev == null && Nodes[|Nodes| - 1].next == null)
      && (forall i :: 0 <= i < |Nodes| ==> Nodes[i].data == Contents[i])
      && (forall i :: 0 <= i < |Nodes| - 1 ==> Nodes[i].next == Nodes[i + 1])
      && (forall i :: 0 < i < |Nodes| ==> Nodes[i].prev == Nodes[i - 1])
      && (forall i, j :: 0 <= i < j < |Nodes| ==> Nodes[i] != Nodes[j])
    }

    constructor ()
      ensures Valid() && fresh(Repr) && Contents == [] && head == null && tail == null
    {
      head, tail := null, null;
      Contents, Nodes := [], [];
      Repr := {this};
    }

    /** Links a new node after `tail`. */
    method Append(data: string)
      requires Valid()
      modifies Repr
      ensures Valid() && fresh(Repr - old(Repr))
      ensures Contents == old(Contents) + [data]
      ensures old(Contents) == [] ==> head == tail && head != null && head.data == data
    {
      ghost var before := Nodes;
      var node := new Node(data);
      if head == null {
        head, tail := node, node;
      } else {
        assert forall i :: 0 <= i < |before| ==> before[i] != node;
        tail.next := node;
        node.prev := tail;
        tail := node;
        assert forall i :: 0 <= i < |before| - 1 ==> before[i].next == before[i + 1];
        assert forall i :: 0 < i < |before| ==> before[i].prev == before[i - 1];
        assert before[0].prev == null;
      }
      Nodes := Nodes + [node];
      Contents := Contents + [data];
      Repr := Repr + {node};
    }

    /** `add`: append at the tail, then drop the head when more than eight remain. */
    method Add(data: string)
      requires Valid()
      modifies Repr
      ensures Valid() && fresh(Repr - old(Repr))
      ensures Contents == AfterAdd(old(Contents), data)
      ensures old(Contents) == [] ==> head == tail && head != null && head.data == data
    {
      Append(data);
      var n := Size();
      if n > MaxSize {
        RemoveFirst();
      }
    }

    /** `removeFirst`: nothing on an empty list; `head == tail == null` after
        removing the only node; otherwise `head` moves to the second node. */
    method RemoveFirst()
      requires Valid()
      modifies Repr
      ensures Valid() && Repr <= old(Repr)
      ensures Contents == AfterRemoveFirst(old(Contents))
      ensures |old(Contents)| <= 1 ==> head == null && tail == null
    {
      if head == null {
        return;
      }
      ghost var before := Nodes;
      if head == tail {
        assert |before| == 1;
        head, tail := null, null;
        Nodes, Contents := [], [];
        Repr := {this};
      } else {
        assert |before| >= 2 && before[0].next == before[1];
        var first := head;
        var second := head.next;
        head := second;
        second.prev := null;
        assert forall i :: 0 <= i < |before| - 1 ==> before[i].next == before[i + 1];
        assert forall i :: 1 < i < |before| ==> before[i].prev == before[i - 1];
        assert before[|before| - 1].next == null;
        Nodes, Contents := Nodes[1..], Contents[1..];
        Repr := Repr - {first};
      }
    }

    /** `size`: counts the nodes reachable from `head` by `next` links. */
    method Size() returns (count: nat)
      requires Valid()
      ensures count == |Contents|
    {
      count := 0;
      var current := head;
      while current != null
        invariant count <= |Nodes|
        invariant current == if count < |Nodes| then Nodes[count] else null
        decreases |Nodes| - count
      {
        assert current == Nodes[count];
        assert current.next == if count + 1 < |Nodes| then Nodes[count + 1] else null;
        count := count + 1;
        current := current.next;
      }
    }

    /** `toString`: "[ Empty ]" for an empty list, otherwise the elements joined
        by " <-> " between "[ " and " ]". */
    method ToString() returns (text: string)
      requires Valid()
      ensures text == Render(Contents)
    {
      if head == null {
        return EmptyRendering;
      }
      text := "[ ";
      var current := head;
      var k := 0;
      while current != null
        invariant k <= |Nodes|
        invariant current == if k < |Nodes| then Nodes[k] else null
        invariant text == "[ " + Joined(Contents[..k]) + (if 0 < k < |Nodes| then Separator else "")
        decreases |Nodes| - k
      {
        text := text + current.data;
        if current.next != null {
          text := text + Separator;
        }
        assert Contents[..k + 1][..k] == Contents[..k];
        current := current.next;
        k := k + 1;
      }
      assert Contents[..k] == Contents;
      text := text + " ]";
    }
  }
}
