/** util::List: a doubly linked list with a tail pointer and a size. Nodes are numbered
    by the memory they live in; kmalloc hands out the number, or NIL. */
module UtilList {
  import opened Links

  lemma PushBackLinked(head: int, next: seq<int>, prev: seq<int>, s: seq<nat>, b: nat, tail: nat)
    requires Linked(head, next, prev, s) && s != [] && tail == s[|s| - 1] && b < |next| && b !in s
    ensures tail < |next|
    ensures Linked(head, next[b := NIL][tail := b], prev[b := tail], s + [b])
  {
    var n, t := |s|, s + [b];
    assert NodeLinked(next, prev, s, n - 1);
    var next', prev' := next[b := NIL][tail := b], prev[b := tail];
    forall i | 0 <= i < |t|
      ensures NodeLinked(next', prev', t, i)
    {
      if i < n {
        assert NodeLinked(next, prev, s, i);
        assert t[i] == s[i] && s[i] != b;
        assert i < n - 1 ==> s[i] != s[n - 1];
      }
    }
  }

  lemma OneNode(next: seq<int>, prev: seq<int>, b: nat)
    requires |next| == |prev| && b < |next|
    ensures Linked(b, next[b := NIL], prev[b := NIL], [b])
  {
    assert NodeLinked(next[b := NIL], prev[b := NIL], [b], 0);
  }

  lemma PopBackLinked(head: int, next: seq<int>, prev: seq<int>, s: seq<nat>, tail: nat)
    requires Linked(head, next, prev, s) && s != [] && tail == s[|s| - 1]
    ensures tail < |next| && prev[tail] == At(s, |s| - 2)
    ensures |s| == 1 ==> Linked(NIL, next, prev, s[..|s| - 1])
    ensures |s| > 1 ==> 0 <= prev[tail] < |next| && Linked(head, next[prev[tail] := NIL], prev, s[..|s| - 1])
  {
    assert NodeLinked(next, prev, s, |s| - 1);
    Unlink(head, next, prev, s, tail);
    CutLast(s);
  }

  lemma CutFirst(s: seq<nat>)
    requires s != [] && NoDuplicates(s)
    ensures Without(s, s[0]) == s[1..]
  {
    WithoutIsCut(s, 0);
  }

  lemma CutLast(s: seq<nat>)
    requires s != [] && NoDuplicates(s)
    ensures Without(s, s[|s| - 1]) == s[..|s| - 1]
  {
    WithoutIsCut(s, |s| - 1);
  }

  function Values<T>(data: map<nat, T>, nodes: seq<nat>): (r: seq<T>)
    requires forall x :: x in nodes ==> x in data
    ensures |r| == |nodes| && forall i :: 0 <= i < |r| ==> r[i] == data[nodes[i]]
  {
    if nodes == [] then [] else [data[nodes[0]]] + Values(data, nodes[1..])
  }

  class List<T> {
    var head: int
    var tail: int
    var size: nat
    /** The fields of the nodes. */
    var next: seq<int>
    var prev: seq<int>
    var data: map<nat, T>
    /** The nodes, front to back. */
    ghost var nodes: seq<nat>

    ghost predicate Valid()
      reads this
    {
      && Linked(head, next, prev, nodes)
      && tail == At(nodes, |nodes| - 1) && size == |nodes|
      && forall x :: x in nodes ==> x in data
    }

    ghost function Contents(): seq<T>
      requires Valid()
      reads this
    {
      Values(data, nodes)
    }

    constructor (memory: nat)
      ensures Valid() && Contents() == [] && |next| == memory
    {
      head, tail, size := NIL, NIL, 0;
      next, prev, data := seq(memory, _ => NIL), seq(memory, _ => NIL), map[];
      nodes := [];
    }

    /** get_node: from the nearer end, the node at the index. */
    method GetNode(index: nat) returns (current: nat)
      requires Valid() && index < size
      ensures current == nodes[index]
    {
      if index < size / 2 {
        NodeAt(0);
        current := head;
        for i := 0 to index
          invariant current == nodes[i]
        {
          NodeAt(i);
          current := next[current];
        }
      } else {
        NodeAt(size - 1);
        current := tail;
        var i: nat := size - 1;
        while i > index
          invariant index <= i < size && current == nodes[i]
        {
          NodeAt(i);
          current := prev[current];
          i := i - 1;
        }
      }
    }

    lemma NodeAt(i: nat)
      requires Valid() && i < |nodes|
      ensures nodes[i] < |next| && next[nodes[i]] == At(nodes, i + 1) && prev[nodes[i]] == At(nodes, i - 1)
    {
      assert NodeLinked(next, prev, nodes, i);
    }

    /** operator[] */
    method Get(index: nat) returns (value: T)
      requires Valid() && index < size
      ensures value == Contents()[index]
    {
      var node := GetNode(index);
      value := data[node];
    }

    method PushBack(value: T, mem: int) returns (ok: bool)
      requires Valid() && (mem == NIL || (0 <= mem < |next| && mem !in nodes))
      modifies this
      ensures Valid() && |next| == old(|next|) && ok == (mem != NIL)
      ensures nodes == if ok then old(nodes) + [mem as nat] else old(nodes)
      ensures Contents() == if ok then old(Contents()) + [value] else old(Contents())
    {
      if mem == NIL {
        return false;
      }
      var node: nat := mem;
      ValuesAppend(data, nodes, node, value);
      Ends();
      ghost var prev0 := prev;
      if tail == NIL {
        OneNode(next, prev, node);
      } else {
        PushBackLinked(head, next, prev, nodes, node, tail);
      }
      next, prev, data := next[node := NIL], prev[node := NIL], data[node := value];
      if tail == NIL {
        head := node;
        assert nodes + [node] == [node];
      } else {
        next := next[tail := node];
        prev := prev[node := tail];
        assert prev == prev0[node := tail];
      }
      tail, size := node, size + 1;
      ok, nodes := true, nodes + [node];
    }

    /** head and tail are the ends, or both null. */
    lemma Ends()
      requires Valid()
      ensures nodes == [] <==> head == NIL
      ensures nodes == [] <==> tail == NIL
      ensures nodes != [] ==> 0 <= head < |next| && 0 <= tail < |next| && head == nodes[0] && tail == nodes[|nodes| - 1]
    {
      if nodes != [] {
        NodeAt(0);
        NodeAt(|nodes| - 1);
      }
    }

    method PushFront(value: T, mem: int) returns (ok: bool)
      requires Valid() && (mem == NIL || (0 <= mem < |next| && mem !in nodes))
      modifies this
      ensures Valid() && |next| == old(|next|) && ok == (mem != NIL)
      ensures nodes == if ok then [mem as nat] + old(nodes) else old(nodes)
      ensures Contents() == if ok then [value] + old(Contents()) else old(Contents())
    {
      if mem == NIL {
        return false;
      }
      var node: nat := mem;
      ValuesPrepend(data, nodes, node, value);
      Ends();
      Links.PushFront(head, next, prev, nodes, node);
      data := data[node := value];
      LinkFront(node);
      size := size + 1;
      ok := true;
    }

    method LinkFront(node: nat)
      requires node < |next| == |prev|
      requires head == NIL || 0 <= head < |next|
      requires Linked(node, next[node := head], if head == NIL then prev[node := NIL]
                      else prev[node := NIL][head := node],
                      [node] + nodes)
      modifies this`head, this`tail, this`next, this`prev, this`nodes
      ensures Linked(head, next, prev, nodes) && nodes == [node] + old(nodes) && |next| == old(|next|)
      ensures tail == if old(head) == NIL then node else old(tail)
    {
      ghost var next0 := next;
      next, prev := next[node := NIL], prev[node := NIL];
      if head == NIL {
        tail := node;
        assert next == next0[node := head];
      } else {
        prev := prev[head := node];
        next := next[node := head];
        assert next == next0[node := head];
      }
      head, nodes := node, [node] + nodes;
    }

    /** The node that is given to kfree, or NIL. */
    method PopBack() returns (freed: int)
      requires Valid()
      modifies this
      ensures Valid() && |next| == old(|next|) && freed == old(At(nodes, |nodes| - 1))
      ensures nodes == if old(nodes) == [] then [] else old(nodes[..|nodes| - 1])
      ensures Contents() == if old(nodes) == [] then [] else old(Contents()[..|nodes| - 1])
    {
      Ends();
      freed := tail;
      if tail == NIL {
        return;
      }
      PopBackLinked(head, next, prev, nodes, tail);
      ValuesFront(data, nodes);
      tail := prev[tail];
      if tail != NIL {
        next := next[tail := NIL];
      } else {
        head := NIL;
      }
      size := size - 1;
      nodes := nodes[..|nodes| - 1];
    }

    method PopFront() returns (freed: int)
      requires Valid()
      modifies this
      ensures Valid() && |next| == old(|next|) && freed == old(At(nodes, 0))
      ensures nodes == if old(nodes) == [] then [] else old(nodes[1..])
      ensures Contents() == if old(nodes) == [] then [] else old(Contents()[1..])
    {
      Ends();
      freed := head;
      if head == NIL {
        return;
      }
      Unlink(head, next, prev, nodes, head);
      CutFirst(nodes);
      NodeAt(0);
      head := next[head];
      if head != NIL {
        prev := prev[head := NIL];
      } else {
        tail := NIL;
      }
      size := size - 1;
      nodes := nodes[1..];
    }

    /** clear: gives every node to kfree, once and in order, reading its link first. */
    method Clear() returns (freed: seq<nat>)
      requires Valid()
      modifies this
      ensures Valid() && Contents() == [] && |next| == old(|next|) && freed == old(nodes)
    {
      var current := head;
      freed := [];
      while current != NIL
        invariant Valid() && nodes == old(nodes) && next == old(next)
        invariant |freed| <= |nodes| && freed == nodes[..|freed|] && current == At(nodes, |freed|)
        decreases |nodes| - |freed|
      {
        NodeAt(|freed|);
        var following := next[current];
        freed := freed + [current];
        current := following;
      }
      head, tail, size, nodes := NIL, NIL, 0, [];
    }
  }

  lemma ValuesAppend<T>(data: map<nat, T>, nodes: seq<nat>, b: nat, value: T)
    requires (forall x :: x in nodes ==> x in data) && b !in nodes
    ensures Values(data[b := value], nodes + [b]) == Values(data, nodes) + [value]
  {
  }

  lemma ValuesPrepend<T>(data: map<nat, T>, nodes: seq<nat>, b: nat, value: T)
    requires (forall x :: x in nodes ==> x in data) && b !in nodes
    ensures Values(data[b := value], [b] + nodes) == [value] + Values(data, nodes)
  {
  }

  lemma ValuesFront<T>(data: map<nat, T>, nodes: seq<nat>)
    requires (forall x :: x in nodes ==> x in data) && nodes != []
    ensures Values(data, nodes[..|nodes| - 1]) == Values(data, nodes)[..|nodes| - 1]
  {
  }
}
