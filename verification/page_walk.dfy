/** Page tables as a levelled graph of 512-entry tables, and what a single slot write
    does to every walk through them. */
module PageWalk {
  import opened PageEntries

  /** Tables by page frame number. */
  type Tables = map<nat, seq<Entry>>

  datatype Leaf = Leaf(entry: Entry, level: nat)
  datatype Option<T> = None | Some(value: T)

  type Va = f: Fields | f.InRange() witness Fields(0, 0, 0, 0, 0)

  /** An entry that ends the walk at a level: 4 KiB at 1, 2 MiB at 2, 1 GiB at 3. */
  predicate EndsWalk(e: Entry, level: nat) {
    level == 1 || ((level == 2 || level == 3) && e.hugeOrPat)
  }

  /** Every table has 512 entries and a level; a present entry that does not end the
      walk points to a table one level down; only the root is at level 4. Slots may
      share tables, as the boot tables do. */
  ghost predicate Levelled(t: Tables, root: nat, level: map<nat, nat>) {
    && t.Keys == level.Keys && root in t && level[root] == 4
    && (forall p :: p in t ==> |t[p]| == 512 && 1 <= level[p] <= 4)
    && (forall p :: p in t && level[p] == 4 ==> p == root)
    && (forall p, i :: p in t && 0 <= i < 512 ==> SlotOk(t, level, p, i))
  }

  ghost predicate SlotOk(t: Tables, level: map<nat, nat>, p: nat, i: nat)
    requires p in t && p in level && i < |t[p]|
  {
    t[p][i].present && !EndsWalk(t[p][i], level[p]) ==>
      t[p][i].pfn in t && t[p][i].pfn in level && level[t[p][i].pfn] + 1 == level[p]
  }

  ghost predicate IsPointer(t: Tables, level: map<nat, nat>, p: nat, i: nat)
    requires p in t && p in level && i < |t[p]|
  {
    t[p][i].present && !EndsWalk(t[p][i], level[p])
  }

  /** No two slots point to the same table. */
  ghost predicate TreeShaped(t: Tables, root: nat, level: map<nat, nat>)
    requires Levelled(t, root, level)
  {
    forall p, i, q, j ::
      (p in t && q in t && 0 <= i < 512 && 0 <= j < 512
       && IsPointer(t, level, p, i) && IsPointer(t, level, q, j) && t[p][i].pfn == t[q][j].pfn)
      ==> p == q && i == j
  }

  /** The walk the hardware and translate() do, from a table at a level. */
  function LeafFrom(t: Tables, p: nat, f: Va, level: nat): Option<Leaf>
    requires 1 <= level <= 4
    decreases level
  {
    if p !in t || |t[p]| != 512 then None
    else
      var e := t[p][f.Index(level)];
      if !e.present then None
      else if EndsWalk(e, level) then Some(Leaf(e, level))
      else LeafFrom(t, e.pfn, f, level - 1)
  }

  /** The table at level `to` that a walk from p at level `from` reaches. */
  function TableAt(t: Tables, p: nat, f: Va, from: nat, to: nat): Option<nat>
    requires 1 <= to <= from <= 4
    decreases from
  {
    if from == to then Some(p)
    else if p !in t || |t[p]| != 512 then None
    else
      var e := t[p][f.Index(from)];
      if !e.present || EndsWalk(e, from) then None
      else TableAt(t, e.pfn, f, from - 1, to)
  }

  /** Walks for f and g go through the same slot at a level. */
  ghost predicate SameSlot(t: Tables, root: nat, f: Va, g: Va, level: nat)
    requires 1 <= level <= 4
  {
    && TableAt(t, root, f, 4, level).Some?
    && TableAt(t, root, g, 4, level) == TableAt(t, root, f, 4, level)
    && g.Index(level) == f.Index(level)
  }

  /** f and g lie in the same page-sized region of a level. */
  predicate SameRegion(f: Va, g: Va, level: nat)
    requires 1 <= level <= 4
  {
    forall l :: level <= l <= 4 ==> f.Index(l) == g.Index(l)
  }

  /** The page of a level that holds the address with these fields. */
  function PageNumber(f: Va, level: nat): nat
    requires 1 <= level <= 4
    decreases 4 - level
  {
    if level == 4 then f.pml4 else PageNumber(f, level + 1) * 512 + f.Index(level)
  }

  lemma PageNumberIs(va: nat, level: nat)
    requires 1 <= level <= 4
    ensures va % 0x1_0000_0000_0000 / PageBytes(level) == PageNumber(Decompose(va), level)
  {
    var f: Va := Decompose(va);
    TopBits(va);
    assert PageNumber(f, 4) == f.pml4;
    assert PageNumber(f, 3) == f.pml4 * 512 + f.pdpt;
    assert PageNumber(f, 2) == (f.pml4 * 512 + f.pdpt) * 512 + f.pd;
  }

  /** Addresses lie in the same region of a level exactly if bits 0..47 lie in the same page of
      that size. */
  lemma RegionIsPage(a: nat, b: nat, level: nat)
    requires 1 <= level <= 4
    ensures SameRegion(Decompose(a), Decompose(b), level)
       <==> a % 0x1_0000_0000_0000 / PageBytes(level) == b % 0x1_0000_0000_0000 / PageBytes(level)
  {
    PageNumberIs(a, level);
    PageNumberIs(b, level);
    SamePageNumber(Decompose(a), Decompose(b), level);
  }

  lemma {:induction false} SamePageNumber(f: Va, g: Va, level: nat)
    requires 1 <= level <= 4
    ensures PageNumber(f, level) == PageNumber(g, level) <==> SameRegion(f, g, level)
    decreases 4 - level
  {
    if level < 4 {
      SamePageNumber(f, g, level + 1);
      assert SameRegion(f, g, level) <==> SameRegion(f, g, level + 1) && f.Index(level) == g.Index(level);
    } else {
      assert f.Index(4) == f.pml4 && g.Index(4) == g.pml4;
    }
  }

  // ------------------------------------------------------------------------------
  // Walks

  lemma {:induction false} TableLevel(t: Tables, root: nat, level: map<nat, nat>, p: nat, f: Va, from: nat, to: nat)
    requires Levelled(t, root, level) && p in t && level[p] == from && 1 <= to <= from <= 4
    ensures var r := TableAt(t, p, f, from, to); r.Some? ==> r.value in t && level[r.value] == to
    decreases from
  {
    if from > to {
      assert SlotOk(t, level, p, f.Index(from));
      var e := t[p][f.Index(from)];
      if e.present && !EndsWalk(e, from) {
        TableLevel(t, root, level, e.pfn, f, from - 1, to);
      }
    }
  }

  /** A walk is the walk to a table followed by the walk from it. */
  lemma {:induction false} LeafVia(t: Tables, p: nat, f: Va, from: nat, to: nat)
    requires 1 <= to <= from <= 4 && TableAt(t, p, f, from, to).Some?
    ensures LeafFrom(t, p, f, from) == LeafFrom(t, TableAt(t, p, f, from, to).value, f, to)
    decreases from
  {
    if from > to {
      LeafVia(t, t[p][f.Index(from)].pfn, f, from - 1, to);
    }
  }

  lemma {:induction false} TableStep(t: Tables, p: nat, f: Va, from: nat, to: nat)
    requires 1 <= to < from <= 4 && TableAt(t, p, f, from, to + 1).Some?
    requires var q := TableAt(t, p, f, from, to + 1).value; q in t && |t[q]| == 512
    ensures var e := t[TableAt(t, p, f, from, to + 1).value][f.Index(to + 1)];
            TableAt(t, p, f, from, to) == if !e.present || EndsWalk(e, to + 1) then None else Some(e.pfn)
    decreases from
  {
    if from > to + 1 {
      TableStep(t, t[p][f.Index(from)].pfn, f, from - 1, to);
    }
  }

  /** A leaf is in the way at a level: the address is mapped, or its slot there is in use. */
  ghost predicate Occupied(t: Tables, root: nat, f: Va, l: nat)
    requires 1 <= l <= 4
  {
    || LeafFrom(t, root, f, 4).Some?
    || (TableAt(t, root, f, 4, l).Some? && SlotInUse(t, TableAt(t, root, f, 4, l).value, f.Index(l)))
  }

  ghost predicate SlotInUse(t: Tables, q: nat, i: nat) {
    q in t && i < |t[q]| && t[q][i].present
  }

  lemma {:induction false} TableVia(t: Tables, p: nat, f: Va, from: nat, mid: nat, to: nat)
    requires 1 <= to <= mid <= from <= 4 && TableAt(t, p, f, from, mid).Some?
    ensures TableAt(t, p, f, from, to) == TableAt(t, TableAt(t, p, f, from, mid).value, f, mid, to)
    decreases from
  {
    if from > mid {
      TableVia(t, t[p][f.Index(from)].pfn, f, from - 1, mid, to);
    }
  }

  /** Nothing is in the way below an empty slot. */
  lemma EmptyNotOccupied(t: Tables, root: nat, f: Va, l: nat, to: nat)
    requires 1 <= to <= l <= 4 && TableAt(t, root, f, 4, l).Some?
    requires var q := TableAt(t, root, f, 4, l).value; q in t && |t[q]| == 512 && !t[q][f.Index(l)].present
    ensures !Occupied(t, root, f, to)
  {
    LeafVia(t, root, f, 4, l);
    TableVia(t, root, f, 4, l, to);
  }

  // ------------------------------------------------------------------------------
  // Writing one slot

  function SetSlot(t: Tables, q: nat, i: nat, e: Entry): Tables
    requires q in t && i < |t[q]|
  {
    t[q := t[q][i := e]]
  }

  /** Tables at and above the level of the written table are reached as before. */
  lemma {:induction false} WriteKeepsUpper(t: Tables, root: nat, level: map<nat, nat>, q: nat, i: nat, e: Entry,
                                           p: nat, f: Va, from: nat, to: nat)
    requires Levelled(t, root, level) && q in t && i < 512 && level[q] <= to <= from <= 4
    requires p in t && level[p] == from
    ensures TableAt(SetSlot(t, q, i, e), p, f, from, to) == TableAt(t, p, f, from, to)
    decreases from
  {
    if from > to {
      assert SlotOk(t, level, p, f.Index(from));
      var c := t[p][f.Index(from)];
      if c.present && !EndsWalk(c, from) {
        WriteKeepsUpper(t, root, level, q, i, e, c.pfn, f, from - 1, to);
      }
    }
  }

  /** Walks that start below the written table see nothing of the write. */
  lemma {:induction false} WriteKeepsLower(t: Tables, root: nat, level: map<nat, nat>, q: nat, i: nat, e: Entry,
                                           p: nat, f: Va, from: nat)
    requires Levelled(t, root, level) && q in t && i < 512 && 1 <= from < level[q]
    requires p in t && level[p] == from
    ensures LeafFrom(SetSlot(t, q, i, e), p, f, from) == LeafFrom(t, p, f, from)
    decreases from
  {
    assert SlotOk(t, level, p, f.Index(from));
    var c := t[p][f.Index(from)];
    if c.present && !EndsWalk(c, from) {
      WriteKeepsLower(t, root, level, q, i, e, c.pfn, f, from - 1);
    }
  }

  /** A walk changes only if it goes through the written slot. */
  lemma {:induction false} WriteKeepsOthers(t: Tables, root: nat, level: map<nat, nat>, q: nat, i: nat, e: Entry,
                                            p: nat, f: Va, from: nat)
    requires Levelled(t, root, level) && q in t && i < 512
    requires p in t && level[p] == from && level[q] <= from
    requires !(TableAt(t, p, f, from, level[q]) == Some(q) && f.Index(level[q]) == i)
    ensures LeafFrom(SetSlot(t, q, i, e), p, f, from) == LeafFrom(t, p, f, from)
    decreases from
  {
    assert SlotOk(t, level, p, f.Index(from));
    var c := t[p][f.Index(from)];
    if c.present && !EndsWalk(c, from) {
      if from == level[q] {
        WriteKeepsLower(t, root, level, q, i, e, c.pfn, f, from - 1);
      } else {
        WriteKeepsOthers(t, root, level, q, i, e, c.pfn, f, from - 1);
      }
    }
  }

  // ------------------------------------------------------------------------------
  // Trees

  /** In a tree, walks from different tables of a level reach different tables. */
  lemma {:induction false} Apart(t: Tables, root: nat, level: map<nat, nat>, p: nat, q: nat, f: Va, g: Va, from: nat,
                                 to: nat)
    requires Levelled(t, root, level) && TreeShaped(t, root, level)
    requires p in t && q in t && level[p] == level[q] == from && p != q && 1 <= to <= from <= 4
    requires TableAt(t, p, f, from, to).Some?
    ensures TableAt(t, p, f, from, to) != TableAt(t, q, g, from, to)
    decreases from
  {
    if from > to {
      assert SlotOk(t, level, p, f.Index(from)) && SlotOk(t, level, q, g.Index(from));
      assert IsPointer(t, level, p, f.Index(from));
      if IsPointer(t, level, q, g.Index(from)) {
        Apart(t, root, level, t[p][f.Index(from)].pfn, t[q][g.Index(from)].pfn, f, g, from - 1, to);
      }
    }
  }

  lemma {:induction false} SameTableSameIndices(t: Tables, root: nat, level: map<nat, nat>, p: nat, f: Va, g: Va,
                                                from: nat, to: nat)
    requires Levelled(t, root, level) && TreeShaped(t, root, level)
    requires p in t && level[p] == from && 1 <= to <= from <= 4 && TableAt(t, p, f, from, to).Some?
    ensures TableAt(t, p, g, from, to) == TableAt(t, p, f, from, to) <==>
              forall l :: to < l <= from ==> f.Index(l) == g.Index(l)
    decreases from
  {
    if from > to {
      var i, j := f.Index(from), g.Index(from);
      assert SlotOk(t, level, p, i) && SlotOk(t, level, p, j) && IsPointer(t, level, p, i);
      if i == j {
        SameTableSameIndices(t, root, level, t[p][i].pfn, f, g, from - 1, to);
      } else if IsPointer(t, level, p, j) {
        Apart(t, root, level, t[p][i].pfn, t[p][j].pfn, f, g, from - 1, to);
      }
    }
  }

  /** In a tree, the walks through a slot are exactly those of its region. */
  lemma SameSlotIsRegion(t: Tables, root: nat, level: map<nat, nat>, f: Va, g: Va, l: nat)
    requires Levelled(t, root, level) && TreeShaped(t, root, level) && 1 <= l <= 4
    requires TableAt(t, root, f, 4, l).Some?
    ensures SameSlot(t, root, f, g, l) <==> SameRegion(f, g, l)
  {
    SameTableSameIndices(t, root, level, root, f, g, 4, l);
  }

  // ------------------------------------------------------------------------------
  // The two kinds of writes the kernel does

  /** A cleared table. */
  function ZeroTable(): (s: seq<Entry>)
    ensures |s| == 512 && forall i :: 0 <= i < 512 ==> s[i] == EMPTY
  {
    EmptyEntries(512)
  }

  function EmptyEntries(n: nat): (s: seq<Entry>)
    ensures |s| == n && forall i :: 0 <= i < n ==> s[i] == EMPTY
  {
    if n == 0 then [] else EmptyEntries(n - 1) + [EMPTY]
  }

  /** Adding a table that nothing points to changes no walk. */
  lemma {:induction false} UnreachableTable(t: Tables, root: nat, level: map<nat, nat>, n: nat, s: seq<Entry>, p: nat,
                                            f: Va, from: nat)
    requires Levelled(t, root, level) && n !in t && p in t && level[p] == from
    ensures LeafFrom(t[n := s], p, f, from) == LeafFrom(t, p, f, from)
    decreases from
  {
    assert SlotOk(t, level, p, f.Index(from));
    var c := t[p][f.Index(from)];
    if c.present && !EndsWalk(c, from) {
      UnreachableTable(t, root, level, n, s, c.pfn, f, from - 1);
    }
  }

  lemma {:induction false} UnreachableTableAt(t: Tables, root: nat, level: map<nat, nat>, n: nat, s: seq<Entry>,
                                              p: nat, f: Va,
                                              from: nat, to: nat)
    requires Levelled(t, root, level) && n !in t && p in t && level[p] == from && 1 <= to <= from
    ensures TableAt(t[n := s], p, f, from, to) == TableAt(t, p, f, from, to)
    decreases from
  {
    if from > to {
      assert SlotOk(t, level, p, f.Index(from));
      var c := t[p][f.Index(from)];
      if c.present && !EndsWalk(c, from) {
        UnreachableTableAt(t, root, level, n, s, c.pfn, f, from - 1, to);
      }
    }
  }

  lemma LevelledWithZero(t: Tables, root: nat, level: map<nat, nat>, n: nat, l: nat)
    requires Levelled(t, root, level) && n !in t && 1 <= l <= 3
    ensures Levelled(t[n := ZeroTable()], root, level[n := l])
    ensures TreeShaped(t, root, level) ==> TreeShaped(t[n := ZeroTable()], root, level[n := l])
  {
    var t', level' := t[n := ZeroTable()], level[n := l];
    forall p, i: nat | p in t' && i < 512
      ensures SlotOk(t', level', p, i)
    {
      assert p != n ==> SlotOk(t, level, p, i);
    }
    if TreeShaped(t, root, level) {
      forall p, i, q, j | p in t' && q in t' && 0 <= i < 512 && 0 <= j < 512
                          && IsPointer(t', level', p, i) && IsPointer(t', level', q, j) && t'[p][i].pfn == t'[q][j].pfn
        ensures p == q && i == j
      {
        assert IsPointer(t, level, p, i) && IsPointer(t, level, q, j);
      }
    }
  }

  /** A slot may be set to an entry that is empty, ends the walk, or points one level down. */
  lemma LevelledAfterWrite(t: Tables, root: nat, level: map<nat, nat>, q: nat, i: nat, e: Entry)
    requires Levelled(t, root, level) && q in t && i < 512
    requires e.present && !EndsWalk(e, level[q]) ==> e.pfn in t && level[e.pfn] + 1 == level[q]
    ensures Levelled(SetSlot(t, q, i, e), root, level)
  {
    var t' := SetSlot(t, q, i, e);
    forall p, j: nat | p in t' && j < 512
      ensures SlotOk(t', level, p, j)
    {
      assert SlotOk(t, level, p, j);
    }
  }

  lemma TreeAfterWrite(t: Tables, root: nat, level: map<nat, nat>, q: nat, i: nat, e: Entry)
    requires Levelled(t, root, level) && TreeShaped(t, root, level) && q in t && i < 512
    requires e.present && !EndsWalk(e, level[q]) ==> e.pfn in t && level[e.pfn] + 1 == level[q]
    requires e.present && !EndsWalk(e, level[q]) ==>
               forall p, j :: p in t && 0 <= j < 512 && IsPointer(t, level, p, j) ==> t[p][j].pfn != e.pfn
    requires Levelled(SetSlot(t, q, i, e), root, level)
    ensures TreeShaped(SetSlot(t, q, i, e), root, level)
  {
    var t' := SetSlot(t, q, i, e);
    forall p, j, r, m | p in t' && r in t' && 0 <= j < 512 && 0 <= m < 512
                        && IsPointer(t', level, p, j) && IsPointer(t', level, r, m) && t'[p][j].pfn == t'[r][m].pfn
      ensures p == r && j == m
    {
      assert (p, j) != (q, i) ==> IsPointer(t, level, p, j);
      assert (r, m) != (q, i) ==> IsPointer(t, level, r, m);
    }
  }

  /** Writing an entry that is empty or ends the walk: exactly the walks through the slot
      change, and they all become that entry. */
  lemma WriteLeaf(t: Tables, root: nat, level: map<nat, nat>, f: Va, l: nat, e: Entry, g: Va)
    requires Levelled(t, root, level) && 1 <= l <= 4 && TableAt(t, root, f, 4, l).Some?
    requires TableAt(t, root, f, 4, l).value in t
    requires e.present ==> EndsWalk(e, l)
    ensures var t' := SetSlot(t, TableAt(t, root, f, 4, l).value, f.Index(l), e);
            && SameSlot(t', root, f, g, l) == SameSlot(t, root, f, g, l)
            && LeafFrom(t', root, g, 4) ==
                 if !SameSlot(t, root, f, g, l) then LeafFrom(t, root, g, 4)
                 else if e.present then Some(Leaf(e, l)) else None
  {
    var q := TableAt(t, root, f, 4, l).value;
    TableLevel(t, root, level, root, f, 4, l);
    WriteKeepsUpper(t, root, level, q, f.Index(l), e, root, f, 4, l);
    WriteKeepsUpper(t, root, level, q, f.Index(l), e, root, g, 4, l);
    if SameSlot(t, root, f, g, l) {
      LeafVia(SetSlot(t, q, f.Index(l), e), root, g, 4, l);
    } else {
      WriteKeepsOthers(t, root, level, q, f.Index(l), e, root, g, 4);
    }
  }

  function Install(t: Tables, q: nat, i: nat, n: nat, e: Entry): Tables
    requires q in t && i < |t[q]| && n !in t
  {
    SetSlot(t[n := ZeroTable()], q, i, e)
  }

  /** Hanging an empty table into an empty slot changes no walk. */
  lemma InstallKeepsWalks(t: Tables, root: nat, level: map<nat, nat>, f: Va, l: nat, n: nat,
                          e: Entry, g: Va)
    requires Levelled(t, root, level) && 2 <= l <= 4 && n !in t
    requires TableAt(t, root, f, 4, l).Some? && TableAt(t, root, f, 4, l).value in t
    requires !t[TableAt(t, root, f, 4, l).value][f.Index(l)].present
    requires e.present && !EndsWalk(e, l) && e.pfn == n
    ensures LeafFrom(Install(t, TableAt(t, root, f, 4, l).value, f.Index(l), n, e), root, g, 4) == LeafFrom(t, root,
            g, 4)
  {
    var q, i := TableAt(t, root, f, 4, l).value, f.Index(l);
    var t1, level1 := t[n := ZeroTable()], level[n := l - 1];
    var t2 := SetSlot(t1, q, i, e);
    TableLevel(t, root, level, root, f, 4, l);
    LevelledWithZero(t, root, level, n, l - 1);
    UnreachableTable(t, root, level, n, ZeroTable(), root, g, 4);
    UnreachableTableAt(t, root, level, n, ZeroTable(), root, g, 4, l);
    if TableAt(t, root, g, 4, l) == Some(q) && g.Index(l) == i {
      WriteKeepsUpper(t1, root, level1, q, i, e, root, g, 4, l);
      LeafVia(t1, root, g, 4, l);
      LeafVia(t2, root, g, 4, l);
      assert LeafFrom(t2, n, g, l - 1) == None;
    } else {
      WriteKeepsOthers(t1, root, level1, q, i, e, root, g, 4);
    }
  }

  lemma InstallShape(t: Tables, root: nat, level: map<nat, nat>, f: Va, l: nat, n: nat, e: Entry)
    requires Levelled(t, root, level) && 2 <= l <= 4 && n !in t
    requires TableAt(t, root, f, 4, l).Some? && TableAt(t, root, f, 4, l).value in t
    requires !t[TableAt(t, root, f, 4, l).value][f.Index(l)].present
    requires e.present && !EndsWalk(e, l) && e.pfn == n
    ensures var t2 := Install(t, TableAt(t, root, f, 4, l).value, f.Index(l), n, e);
            && Levelled(t2, root, level[n := l - 1])
            && (TreeShaped(t, root, level) ==> TreeShaped(t2, root, level[n := l - 1]))
            && TableAt(t2, root, f, 4, l - 1) == Some(n) && t2[n] == ZeroTable()
  {
    var q, i := TableAt(t, root, f, 4, l).value, f.Index(l);
    var t1, level1 := t[n := ZeroTable()], level[n := l - 1];
    TableLevel(t, root, level, root, f, 4, l);
    LevelledWithZero(t, root, level, n, l - 1);
    LevelledAfterWrite(t1, root, level1, q, i, e);
    UnreachableTableAt(t, root, level, n, ZeroTable(), root, f, 4, l);
    WriteKeepsUpper(t1, root, level1, q, i, e, root, f, 4, l);
    TableStep(SetSlot(t1, q, i, e), root, f, 4, l - 1);
    if TreeShaped(t, root, level) {
      NothingPointsTo(t, root, level, n, l - 1, t1, level1);
      TreeAfterWrite(t1, root, level1, q, i, e);
    }
  }

  lemma NothingPointsTo(t: Tables, root: nat, level: map<nat, nat>, n: nat, l: nat,
                        t1: Tables, level1: map<nat, nat>)
    requires Levelled(t, root, level) && n !in t && 1 <= l <= 3
    requires t1 == t[n := ZeroTable()] && level1 == level[n := l] && Levelled(t1, root, level1)
    ensures forall p, j :: p in t1 && 0 <= j < 512 && IsPointer(t1, level1, p, j) ==> t1[p][j].pfn != n
  {
    forall p, j: nat | p in t1 && j < 512 && IsPointer(t1, level1, p, j)
      ensures t1[p][j].pfn != n
    {
      assert p != n;
      assert SlotOk(t, level, p, j);
    }
  }
}
