/** The eleven intrusive free lists of the buddy allocator. The next and prev
    fields live in the first two words of free pages; they are kept here as one array
    each, indexed by PFN, together with a record of the pages whose words were stored. */
module BuddyLists {
  import opened Links
  import opened BuddyBlocks

  const NUM_ORDERS: nat := MAX_ORDER + 1

  /** The pages that hold nodes now and those that held one when the record was begun,
      with the pages whose words were stored since; whether a block was linked since. */
  datatype Stores = Stores(nodes: set<nat>, before: set<nat>, stored: set<nat>, linking: bool) {
    /** A page that becomes a node is stored to, and no page is that is a node neither
        before nor after. */
    predicate Right() {
      && nodes <= before + stored && stored <= before + nodes
      && (!linking ==> nodes <= before && stored <= before)
    }

    /** One block is linked in front of head, if any. */
    function Link(block: nat, head: set<nat>): (r: Stores)
      requires Right() && head <= nodes
      ensures r.Right()
    {
      Stores(nodes + {block}, before, stored + {block} + head, true)
    }

    /** One block is unlinked from its neighbours; no block was linked before. */
    function Cut(block: nat, near: set<nat>): (r: Stores)
      requires Right() && !linking && near <= nodes
      ensures r.Right() && !r.linking
    {
      Stores(nodes - {block}, before, stored + near, false)
    }
  }

  type Record = r: Stores | r.Right() witness Stores({}, {}, {}, false)

  function NodesOf(ls: seq<seq<nat>>): set<nat> {
    set k, x | 0 <= k < |ls| && x in ls[k] :: x
  }

  lemma NodesAfterAdd(ls: seq<seq<nat>>, k: nat, b: nat)
    requires k < |ls|
    ensures NodesOf(ls[k := [b] + ls[k]]) == NodesOf(ls) + {b}
  {
    var ls' := ls[k := [b] + ls[k]];
    assert b in ls'[k];
    forall p | p in NodesOf(ls)
      ensures p in NodesOf(ls')
    {
      var j :| 0 <= j < |ls| && p in ls[j];
      assert p in ls'[j];
    }
  }

  lemma NodesAfterCut(ls: seq<seq<nat>>, k: nat, b: nat)
    requires k < |ls| && NoDuplicates(ls[k]) && b in ls[k]
    requires forall j :: 0 <= j < |ls| && j != k ==> b !in ls[j]
    ensures NodesOf(ls[k := Without(ls[k], b)]) == NodesOf(ls) - {b}
  {
    var ls' := ls[k := Without(ls[k], b)];
    WithoutMembers(ls[k], b);
    forall p | p in NodesOf(ls) - {b}
      ensures p in NodesOf(ls')
    {
      var j :| 0 <= j < |ls| && p in ls[j];
      assert p in ls'[j];
    }
  }

  /** Only the words of the given pages may have changed. */
  ghost predicate WordsKept(ws: seq<int>, ws': seq<int>, stored: set<nat>) {
    |ws'| == |ws| && forall x: nat :: x < |ws| && x !in stored ==> ws'[x] == ws[x]
  }

  class FreeLists {
    var heads: seq<int>
    var next: seq<int>
    var prev: seq<int>
    /** The pages stored to since the record was last begun. */
    var record: Record
    /** The nodes of each list, front to back. */
    ghost var lists: seq<seq<nat>>

    ghost predicate Valid()
      reads this
    {
      && Linkage()
      && record.nodes == NodesOf(lists)
    }

    ghost predicate Linkage()
      reads this`heads, this`next, this`prev, this`lists
    {
      && |heads| == |lists| == NUM_ORDERS
      && (forall k :: 0 <= k < NUM_ORDERS ==> Linked(heads[k], next, prev, lists[k]))
      && (forall j, k, x :: 0 <= j < k < NUM_ORDERS && x in lists[j] ==> x !in lists[k])
    }

    constructor (pages: nat)
      ensures Valid() && |next| == pages
      ensures lists == seq(NUM_ORDERS, _ => [])
    {
      heads := seq(NUM_ORDERS, _ => NIL);
      next := seq(pages, _ => NIL);
      prev := seq(pages, _ => NIL);
      lists := seq(NUM_ORDERS, _ => []);
      record := Stores({}, {}, {}, false);
    }

    /** Begins a new record of stores. */
    method Forget()
      modifies this`record
      ensures record == Stores(old(record).nodes, old(record).nodes, {}, false)
    {
      record := Stores(record.nodes, record.nodes, {}, false);
    }

    /** The heads of a list, or none. */
    function HeadOf(order: nat): set<nat>
      requires order < |heads|
      reads this
    {
      if heads[order] >= 0 then {heads[order]} else {}
    }

    /** The neighbours of a node. */
    function Near(block: nat): set<nat>
      reads this
    {
      (if block < |prev| && prev[block] >= 0 then {prev[block]} else {}) +
      (if block < |next| && next[block] >= 0 then {next[block]} else {})
    }

    /** list_add: pushes a block that is on no list to the front of one. */
    method Add(block: nat, order: nat)
      requires Valid() && order < NUM_ORDERS && block < |next|
      requires forall k :: 0 <= k < NUM_ORDERS ==> block !in lists[k]
      modifies this
      ensures Valid() && |next| == old(|next|)
      ensures lists == old(lists)[order := [block] + old(lists[order])]
      ensures record == Stores(old(record.nodes) + {block}, old(record.before),
                               old(record.stored) + {block} + old(HeadOf(order)), true)
      ensures WordsKept(old(next), next, {block} + old(HeadOf(order)))
      ensures WordsKept(old(prev), prev, {block} + old(HeadOf(order)))
    {
      HeadIsNode(order);
      NodesAfterAdd(lists, order, block);
      record := record.Link(block, HeadOf(order));
      LinkFront(block, order);
    }

    /** The stores of list_add. */
    method LinkFront(block: nat, order: nat)
      requires Linkage() && order < NUM_ORDERS && block < |next|
      requires forall k :: 0 <= k < NUM_ORDERS ==> block !in lists[k]
      modifies this`heads, this`next, this`prev, this`lists
      ensures Linkage() && |next| == old(|next|)
      ensures lists == old(lists)[order := [block] + old(lists[order])]
      ensures WordsKept(old(next), next, {block} + old(HeadOf(order)))
      ensures WordsKept(old(prev), prev, {block} + old(HeadOf(order)))
    {
      HeadInBounds(heads[order], next, prev, lists[order]);
      PushFront(heads[order], next, prev, lists[order], block);
      ghost var next0, prev0 := next, prev;

      prev := prev[block := NIL];
      next := next[block := heads[order]];
      if heads[order] != NIL {
        prev := prev[heads[order] := block];
      }
      heads := heads[order := block];

      forall k | 0 <= k < NUM_ORDERS && k != order
        ensures Linked(heads[k], next, prev, lists[k])
      {
        LinkedFrame(heads[k], next0, prev0, next, prev, lists[k]);
      }
      lists := lists[order := [block] + lists[order]];
    }

    lemma HeadIsNode(order: nat)
      requires Valid() && order < NUM_ORDERS
      ensures HeadOf(order) <= record.nodes
    {
      HeadInBounds(heads[order], next, prev, lists[order]);
      if heads[order] != NIL {
        assert lists[order][0] in lists[order];
      }
    }

    lemma NeighboursAreNodes(block: nat, order: nat)
      requires Valid() && order < NUM_ORDERS && block in lists[order]
      ensures block < |next| && Near(block) <= record.nodes
    {
      Unlink(heads[order], next, prev, lists[order], block);
    }

    /** list_remove: unlinks a member of a list. */
    method Remove(block: nat, order: nat)
      requires Valid() && order < NUM_ORDERS && block in lists[order] && !record.linking
      modifies this
      ensures Valid() && |next| == old(|next|)
      ensures lists == old(lists)[order := Without(old(lists[order]), block)]
      ensures record == Stores(old(record.nodes) - {block}, old(record.before),
                               old(record.stored) + old(Near(block)), false)
      ensures WordsKept(old(next), next, old(Near(block))) && WordsKept(old(prev), prev, old(Near(block)))
    {
      NeighboursAreNodes(block, order);
      NodesAfterCut(lists, order, block);
      record := record.Cut(block, Near(block));
      Cut(block, order);
    }

    /** The stores of list_remove. */
    method Cut(block: nat, order: nat)
      requires Linkage() && order < NUM_ORDERS && block in lists[order] && block < |next| == |prev|
      modifies this`heads, this`next, this`prev, this`lists
      ensures Linkage() && |next| == old(|next|)
      ensures lists == old(lists)[order := Without(old(lists[order]), block)]
      ensures WordsKept(old(next), next, old(Near(block))) && WordsKept(old(prev), prev, old(Near(block)))
    {
      Unlink(heads[order], next, prev, lists[order], block);
      WithoutMembers(lists[order], block);
      ghost var next0, prev0 := next, prev;

      if prev[block] != NIL {
        next := next[prev[block] := next[block]];
      } else {
        heads := heads[order := next[block]];
      }
      if next[block] != NIL {
        prev := prev[next[block] := prev[block]];
      }

      forall k | 0 <= k < NUM_ORDERS && k != order
        ensures Linked(heads[k], next, prev, lists[k])
      {
        LinkedFrame(heads[k], next0, prev0, next, prev, lists[k]);
      }
      lists := lists[order := Without(lists[order], block)];
    }
  }
}
