/** The paging backend: map_page, unmap_page, protect_page and translate over the
    tables in memory, with the TLB of the core they run on. */
module Paging {
  import opened Shifts
  import opened MemoryLayout
  import opened PhysicalMemory
  import opened PageEntries
  import opened PageWalk

  datatype PagingError = Success | OutOfMemory | AlreadyMapped | NotMapped | InvalidAlignment | HardwareFault

  /** The CPUID features map_page asks for. */
  datatype Cpu = Cpu(hasNx: bool, hasPdpe1gb: bool)

  /** The level at which map_page places a leaf. */
  function LeafLevel(flags: set<Flag>): nat {
    if Huge1G in flags then 3 else if Huge2M in flags then 2 else 1
  }

  lemma NewLeafWord(phys: nat, flags: set<Flag>, cpu: Cpu)
    requires PageAligned(phys)
    ensures LeafWord(NewLeaf(phys, flags, cpu), phys % 0x10_0000_0000_0000, flags, cpu.hasNx)
  {
    LeafWords(phys, flags, cpu.hasNx);
  }

  /** The leaf entry map_page writes. */
  function NewLeaf(phys: nat, flags: set<Flag>, cpu: Cpu): (e: Entry)
    ensures e.present && EndsWalk(e, LeafLevel(flags))
  {
    var e := if LeafLevel(flags) == 1 then MakePage(phys, flags) else MakeHuge(phys, flags);
    if cpu.hasNx then e else e.(noExecute := false)
  }

  ghost predicate SameWalks(t: Tables, t': Tables, root: nat) {
    forall g: Va :: LeafFrom(t', root, g, 4) == LeafFrom(t, root, g, 4)
  }

  /** What map_page does to every walk: on success the walks through one slot, none of
      which led anywhere, become the new leaf; nothing else changes. */
  ghost predicate MapEffect(t: Tables, t': Tables, root: nat, f: Va, l: nat, e: Entry, err: PagingError)
    requires 1 <= l <= 3
  {
    && (forall g: Va :: LeafFrom(t', root, g, 4) ==
                        if err.Success? && SameSlot(t', root, f, g, l) then Some(Leaf(e, l))
                           else LeafFrom(t, root, g, 4))
    && (err.Success? ==> SameSlot(t', root, f, f, l)
                         && forall g: Va :: SameSlot(t', root, f, g, l) ==> LeafFrom(t, root, g, 4) == None)
  }

  /** What replacing or clearing an existing leaf does to every walk. */
  ghost predicate LeafEffect(t: Tables, t': Tables, root: nat, f: Va, l: nat, r: Option<Leaf>)
    requires 1 <= l <= 3
  {
    && SameSlot(t, root, f, f, l)
    && forall g: Va :: LeafFrom(t', root, g, 4) ==
                       if SameSlot(t, root, f, g, l) then r else LeafFrom(t, root, g, 4)
  }

  /** Tables stay, with their levels, and those above a level stay as they are. */
  ghost predicate Extends(t: Tables, lv: map<nat, nat>, t': Tables, lv': map<nat, nat>, l: nat) {
    forall p :: p in t ==>
      p in t' && p in lv && p in lv' && lv'[p] == lv[p] && (lv[p] > l ==> t'[p] == t[p])
  }

  /** Slot i of a table points to the next table: by the entry that was there, or by one that the
      word of table entries describes. */
  ghost predicate EntryMade(t: Tables, t': Tables, q: nat, i: nat, l: nat, child: int, user: bool) {
    && q in t' && |t'[q]| == 512 && i < 512 && t'[q][i].present && !EndsWalk(t'[q][i], l) && t'[q][i].pfn == child
    && if SlotInUse(t, q, i) then t'[q][i] == t[q][i] else TableWord(t'[q][i], t'[q][i].pfn, user)
  }

  /** The entries on the way down to a level: one that was there is kept, and any other is an
      entry for a table. */
  ghost predicate PathBuilt(t: Tables, t': Tables, p: nat, f: Va, l: nat, low: nat, user: bool)
    requires 1 <= low <= l <= 4
    decreases l
  {
    l == low ||
      (&& p in t' && |t'[p]| == 512 && t'[p][f.Index(l)].present && !EndsWalk(t'[p][f.Index(l)], l)
       && (if SlotInUse(t, p, f.Index(l)) then t'[p][f.Index(l)] == t[p][f.Index(l)]
           else TableWord(t'[p][f.Index(l)], t'[p][f.Index(l)].pfn, user))
       && PathBuilt(t, t', t'[p][f.Index(l)].pfn, f, l - 1, low, user))
  }

  class PagingBackend {
    const pmm: Pmm
    const root: nat
    var tables: Tables
    /** Cached translations, by the address of the page they were filled for. */
    var tlb: map<Va, Leaf>
    ghost var level: map<nat, nat>

    ghost predicate Valid()
      reads this, pmm, pmm.lists, pmm.bits
    {
      && pmm.Valid() && pmm.pages <= 0x100_0000_0000
      && Levelled(tables, root, level)
      && (forall p :: p in tables ==> p !in pmm.free)
    }

    ghost predicate Tree()
      requires Levelled(tables, root, level)
      reads this
    {
      TreeShaped(tables, root, level)
    }

    function Walk(g: Va): Option<Leaf>
      reads this
    {
      LeafFrom(tables, root, g, 4)
    }

    /** Every cached translation is the one in the tables, but for the bits the processor sets. */
    ghost predicate Coherent()
      reads this
    {
      CoherentWith(tables, root, tlb)
    }

    /** initialize: adopts the tables the boot code left in CR3, drops the identity map in
        slot 0 of the PML4, and flushes the TLB. */
    constructor (pmm: Pmm, root: nat, boot: Tables, ghost level: map<nat, nat>)
      requires pmm.Valid() && pmm.pages <= 0x100_0000_0000
      requires Levelled(boot, root, level) && forall p :: p in boot ==> p !in pmm.free
      ensures Valid() && Coherent() && this.pmm == pmm && this.root == root
      ensures forall g: Va :: Walk(g) == if g.pml4 == 0 then None else LeafFrom(boot, root, g, 4)
      ensures TreeShaped(boot, root, level) ==> Tree()
    {
      LevelledAfterWrite(boot, root, level, root, 0, EMPTY);
      if TreeShaped(boot, root, level) {
        TreeAfterWrite(boot, root, level, root, 0, EMPTY);
      }
      forall g: Va
        ensures LeafFrom(SetSlot(boot, root, 0, EMPTY), root, g, 4) ==
                  if g.pml4 == 0 then None else LeafFrom(boot, root, g, 4)
      {
        if g.pml4 != 0 {
          WriteKeepsOthers(boot, root, level, root, 0, EMPTY, root, g, 4);
        }
      }
      this.pmm := pmm;
      this.root := root;
      tables := SetSlot(boot, root, 0, EMPTY);
      this.level := level;
      tlb := map[];
    }

    /** get_or_create_subtable for the slot of f at level l. */
    method GetOrCreateSubtable(q: nat, user: bool, f: Va, l: nat) returns (child: int)
      requires Valid() && 2 <= l <= 4 && TableAt(tables, root, f, 4, l) == Some(q) && q in tables
      requires tables[q][f.Index(l)].present ==> !EndsWalk(tables[q][f.Index(l)], l)
      modifies this`tables, this`level, pmm`freeMemory, pmm`usedMemory, pmm`free, pmm.lists, pmm.bits
      ensures Valid() && SameWalks(old(tables), tables, root) && (old(Tree()) ==> Tree())
      ensures Extends(old(tables), old(level), tables, level, l) && Grown(old(tables), tables, q)
      ensures child >= 0 ==> EntryMade(old(tables), tables, q, f.Index(l), l, child, user)
      ensures child >= 0 ==> TableAt(tables, root, f, 4, l - 1) == Some(child) && child in tables
      ensures child < 0 ==> tables == old(tables) && !tables[q][f.Index(l)].present && pmm.free == {}
      ensures old(tables[q][f.Index(l)].present) ==> tables == old(tables)
      ensures child >= 0 ==> forall to :: 1 <= to < l ==>
                Occupied(tables, root, f, to) == old(Occupied(tables, root, f, to))
      ensures child < 0 ==> forall to :: 1 <= to < l ==> !old(Occupied(tables, root, f, to))
    {
      if !tables[q][f.Index(l)].present {
        NothingBelow(q, f, l);
      }
      var entry := tables[q][f.Index(l)];
      TableLevel(tables, root, level, root, f, 4, l);
      if entry.present {
        TableStep(tables, root, f, 4, l - 1);
        TableLevel(tables, root, level, root, f, 4, l - 1);
        return entry.pfn;
      }
      var n := pmm.AllocPage();
      if n == 0 {
        return -1;
      }
      assert n in old(pmm.free);
      InstallSubtable(q, f, l, n, user);
      child := n;
    }

    /** Clears the new table and points the slot of f at it. */
    method InstallSubtable(q: nat, f: Va, l: nat, n: nat, user: bool)
      requires Levelled(tables, root, level) && 2 <= l <= 4 && TableAt(tables, root, f, 4, l) == Some(q) && q in tables
      requires !tables[q][f.Index(l)].present && n !in tables && n < 0x100_0000_0000
      modifies this`tables, this`level
      ensures Extends(old(tables), old(level), tables, level, l) && Grown(old(tables), tables, q)
      ensures EntryMade(old(tables), tables, q, f.Index(l), l, n, user)
      ensures Levelled(tables, root, level) && SameWalks(old(tables), tables, root) && (old(Tree()) ==> Tree())
      ensures TableAt(tables, root, f, 4, l - 1) == Some(n) && tables.Keys == old(tables.Keys) + {n}
      ensures forall to :: 1 <= to < l ==> !Occupied(tables, root, f, to)
    {
      var e := MakeTable(n * 4096, user);
      InstallShape(tables, root, level, f, l, n, e);
      forall g: Va
        ensures LeafFrom(Install(tables, q, f.Index(l), n, e), root, g, 4) == LeafFrom(tables, root, g, 4)
      {
        InstallKeepsWalks(tables, root, level, f, l, n, e, g);
      }
      TableWords(n, user);
      TableLevel(tables, root, level, root, f, 4, l);
      InstallExtends(tables, level, q, f.Index(l), n, e, l);
      tables := Install(tables, q, f.Index(l), n, e);
      level := level[n := l - 1];
      NothingBelow(n, f, l - 1);
    }

    /** Nothing is mapped below an empty slot. */
    lemma NothingBelow(q: nat, f: Va, l: nat)
      requires Levelled(tables, root, level) && 1 <= l <= 4 && TableAt(tables, root, f, 4, l) == Some(q) && q in tables
      requires !tables[q][f.Index(l)].present
      ensures forall to :: 1 <= to <= l ==> !Occupied(tables, root, f, to)
    {
      forall to | 1 <= to <= l
        ensures !Occupied(tables, root, f, to)
      {
        EmptyNotOccupied(tables, root, f, l, to);
      }
    }

    /** Writes a leaf or an empty entry into the slot of f at level l. */
    method SetLeaf(q: nat, f: Va, l: nat, e: Entry)
      requires Levelled(tables, root, level) && 1 <= l <= 3 && TableAt(tables, root, f, 4, l) == Some(q) && q in tables
      requires e.present ==> EndsWalk(e, l)
      modifies this`tables
      ensures tables == SetSlot(old(tables), q, f.Index(l), e)
      ensures Levelled(tables, root, level) && (old(Tree()) ==> Tree()) && tables.Keys == old(tables.Keys)
      ensures LeafEffect(old(tables), tables, root, f, l, if e.present then Some(Leaf(e, l)) else None)
      ensures forall g: Va :: SameSlot(tables, root, f, g, l) == SameSlot(old(tables), root, f, g, l)
    {
      TableLevel(tables, root, level, root, f, 4, l);
      LevelledAfterWrite(tables, root, level, q, f.Index(l), e);
      if TreeShaped(tables, root, level) {
        TreeAfterWrite(tables, root, level, q, f.Index(l), e);
      }
      forall g: Va
        ensures SameSlot(SetSlot(tables, q, f.Index(l), e), root, f, g, l) == SameSlot(tables, root, f, g, l)
        ensures LeafFrom(SetSlot(tables, q, f.Index(l), e), root, g, 4) ==
                  if !SameSlot(tables, root, f, g, l) then LeafFrom(tables, root, g, 4)
                  else if e.present then Some(Leaf(e, l)) else None
      {
        WriteLeaf(tables, root, level, f, l, e, g);
      }
      tables := SetSlot(tables, q, f.Index(l), e);
    }

    /** The new-leaf step of map_page at some level: the slot must be empty. */
    method PlaceLeaf(q: nat, f: Va, l: nat, e: Entry)
      requires Levelled(tables, root, level) && 1 <= l <= 3 && TableAt(tables, root, f, 4, l) == Some(q) && q in tables
      requires e.present && EndsWalk(e, l) && !tables[q][f.Index(l)].present
      modifies this`tables
      ensures Extends(old(tables), level, tables, level, l)
      ensures Levelled(tables, root, level) && (old(Tree()) ==> Tree()) && tables.Keys == old(tables.Keys)
      ensures MapEffect(old(tables), tables, root, f, l, e, Success)
    {
      forall g: Va | SameSlot(tables, root, f, g, l)
        ensures LeafFrom(tables, root, g, 4) == None
      {
        LeafVia(tables, root, g, 4, l);
      }
      TableLevel(tables, root, level, root, f, 4, l);
      WriteExtends(tables, level, q, f.Index(l), e);
      SetLeaf(q, f, l, e);
    }

    /** map_page from the page table down. */
    method MapInPt(pt: nat, f: Va, phys: nat, flags: set<Flag>, cpu: Cpu) returns (err: PagingError)
      requires Valid() && LeafLevel(flags) == 1 && TableAt(tables, root, f, 4, 1) == Some(pt) && pt in tables
      modifies this`tables
      ensures Extends(old(tables), level, tables, level, 1)
      ensures Valid() && (old(Tree()) ==> Tree())
      ensures MapEffect(old(tables), tables, root, f, 1, NewLeaf(phys, flags, cpu), err)
      ensures err == if old(Occupied(tables, root, f, 1)) then AlreadyMapped else Success
    {
      TableLevel(tables, root, level, root, f, 4, 1);
      LeafVia(tables, root, f, 4, 1);
      if tables[pt][f.Index(1)].present {
        return AlreadyMapped;
      }
      PlaceLeaf(pt, f, 1, NewLeaf(phys, flags, cpu));
      return Success;
    }

    /** The huge-page step of map_page at the level of the leaf. */
    method MapHuge(q: nat, f: Va, l: nat, phys: nat, flags: set<Flag>, cpu: Cpu) returns (err: PagingError)
      requires Valid() && 2 <= l <= 3 && LeafLevel(flags) == l && TableAt(tables, root, f, 4, l) == Some(q) &&
               q in tables
      modifies this`tables
      ensures Extends(old(tables), level, tables, level, l)
      ensures Valid() && (old(Tree()) ==> Tree())
      ensures MapEffect(old(tables), tables, root, f, l, NewLeaf(phys, flags, cpu), err)
      ensures err == if old(Occupied(tables, root, f, l)) then AlreadyMapped else Success
    {
      if tables[q][f.Index(l)].present {
        return AlreadyMapped;
      }
      NothingBelow(q, f, l);
      PlaceLeaf(q, f, l, NewLeaf(phys, flags, cpu));
      return Success;
    }

    /** map_page from the page directory down. */
    method MapInPd(pd: nat, f: Va, phys: nat, flags: set<Flag>, cpu: Cpu) returns (err: PagingError)
      requires Valid() && LeafLevel(flags) <= 2 && TableAt(tables, root, f, 4, 2) == Some(pd) && pd in tables
      modifies this`tables, this`level, pmm`freeMemory, pmm`usedMemory, pmm`free, pmm.lists, pmm.bits
      ensures Extends(old(tables), old(level), tables, level, 2)
      ensures err == Success ==> PathBuilt(old(tables), tables, pd, f, 2, LeafLevel(flags), User in flags)
      ensures Valid() && (old(Tree()) ==> Tree())
      ensures MapEffect(old(tables), tables, root, f, LeafLevel(flags), NewLeaf(phys, flags, cpu), err)
      ensures err in {Success, AlreadyMapped, OutOfMemory}
      ensures err == OutOfMemory ==> pmm.free == {}
      ensures err == AlreadyMapped ==> old(Occupied(tables, root, f, LeafLevel(flags)))
      ensures old(Occupied(tables, root, f, LeafLevel(flags))) ==> err == AlreadyMapped
    {
      TableLevel(tables, root, level, root, f, 4, 2);
      LeafVia(tables, root, f, 4, 2);
      var e := tables[pd][f.Index(2)];
      if e.present && e.hugeOrPat {
        return AlreadyMapped;
      }
      if Huge2M in flags {
        err := MapHuge(pd, f, 2, phys, flags, cpu);
        return;
      }
      err := MapSmall(pd, f, phys, flags, cpu);
    }

    /** The 4 KiB step of map_page below a page directory. */
    method MapSmall(pd: nat, f: Va, phys: nat, flags: set<Flag>, cpu: Cpu) returns (err: PagingError)
      requires Valid() && LeafLevel(flags) == 1 && TableAt(tables, root, f, 4, 2) == Some(pd) && pd in tables
      requires tables[pd][f.Index(2)].present ==> !EndsWalk(tables[pd][f.Index(2)], 2)
      modifies this`tables, this`level, pmm`freeMemory, pmm`usedMemory, pmm`free, pmm.lists, pmm.bits
      ensures Extends(old(tables), old(level), tables, level, 2)
      ensures err == Success ==> PathBuilt(old(tables), tables, pd, f, 2, 1, User in flags)
      ensures Valid() && (old(Tree()) ==> Tree())
      ensures MapEffect(old(tables), tables, root, f, 1, NewLeaf(phys, flags, cpu), err)
      ensures err in {Success, AlreadyMapped, OutOfMemory}
      ensures err == OutOfMemory ==> pmm.free == {}
      ensures err == AlreadyMapped <==> old(Occupied(tables, root, f, 1))
    {
      TableLevel(tables, root, level, root, f, 4, 2);
      var pt := GetOrCreateSubtable(pd, User in flags, f, 2);
      if pt < 0 {
        return OutOfMemory;
      }
      ghost var t, lv := tables, level;
      err := MapInPt(pt, f, phys, flags, cpu);
      PathOver(old(tables), old(level), t, lv, tables, level, root, pd, pt, f, 2, 1, User in flags);
    }

    /** The step of map_page from a page-directory-pointer table to a page directory. */
    method MapBelow(pdpt: nat, f: Va, phys: nat, flags: set<Flag>, cpu: Cpu) returns (err: PagingError)
      requires Valid() && LeafLevel(flags) <= 2 && TableAt(tables, root, f, 4, 3) == Some(pdpt) && pdpt in tables
      requires tables[pdpt][f.Index(3)].present ==> !EndsWalk(tables[pdpt][f.Index(3)], 3)
      modifies this`tables, this`level, pmm`freeMemory, pmm`usedMemory, pmm`free, pmm.lists, pmm.bits
      ensures Extends(old(tables), old(level), tables, level, 3)
      ensures err == Success ==> PathBuilt(old(tables), tables, pdpt, f, 3, LeafLevel(flags), User in flags)
      ensures Valid() && (old(Tree()) ==> Tree())
      ensures MapEffect(old(tables), tables, root, f, LeafLevel(flags), NewLeaf(phys, flags, cpu), err)
      ensures err in {Success, AlreadyMapped, OutOfMemory}
      ensures err == OutOfMemory ==> pmm.free == {}
      ensures err == AlreadyMapped ==> old(Occupied(tables, root, f, LeafLevel(flags)))
      ensures old(Occupied(tables, root, f, LeafLevel(flags))) ==> err == AlreadyMapped
    {
      TableLevel(tables, root, level, root, f, 4, 3);
      var pd := GetOrCreateSubtable(pdpt, User in flags, f, 3);
      if pd < 0 {
        return OutOfMemory;
      }
      ghost var t, lv := tables, level;
      err := MapInPd(pd, f, phys, flags, cpu);
      PathOver(old(tables), old(level), t, lv, tables, level, root, pdpt, pd, f, 3, LeafLevel(flags), User in flags);
    }

    /** map_page from the page-directory-pointer table down. */
    method MapInPdpt(pdpt: nat, f: Va, phys: nat, flags: set<Flag>, cpu: Cpu) returns (err: PagingError)
      requires Valid() && TableAt(tables, root, f, 4, 3) == Some(pdpt) && pdpt in tables
      modifies this`tables, this`level, pmm`freeMemory, pmm`usedMemory, pmm`free, pmm.lists, pmm.bits
      ensures Extends(old(tables), old(level), tables, level, 3)
      ensures err == Success ==> PathBuilt(old(tables), tables, pdpt, f, 3, LeafLevel(flags), User in flags)
      ensures Valid() && (old(Tree()) ==> Tree())
      ensures MapEffect(old(tables), tables, root, f, LeafLevel(flags), NewLeaf(phys, flags, cpu), err)
      ensures err != InvalidAlignment && err != NotMapped
      ensures err == HardwareFault ==> Huge1G in flags && !cpu.hasPdpe1gb
      ensures err == Success && Huge1G in flags ==> cpu.hasPdpe1gb
      ensures err == OutOfMemory ==> pmm.free == {}
      ensures err == AlreadyMapped ==> old(Occupied(tables, root, f, LeafLevel(flags)))
      ensures old(Occupied(tables, root, f, LeafLevel(flags))) ==> err == AlreadyMapped || err == HardwareFault
    {
      TableLevel(tables, root, level, root, f, 4, 3);
      LeafVia(tables, root, f, 4, 3);
      var e := tables[pdpt][f.Index(3)];
      if e.present && e.hugeOrPat {
        return AlreadyMapped;
      }
      if Huge1G in flags {
        if !cpu.hasPdpe1gb {
          return HardwareFault;
        }
        err := MapHuge(pdpt, f, 3, phys, flags, cpu);
        return;
      }
      err := MapBelow(pdpt, f, phys, flags, cpu);
    }

    /** map_page from the root down. */
    method MapInPml4(f: Va, phys: nat, flags: set<Flag>, cpu: Cpu) returns (err: PagingError)
      requires Valid()
      modifies this`tables, this`level, pmm`freeMemory, pmm`usedMemory, pmm`free, pmm.lists, pmm.bits
      ensures Extends(old(tables), old(level), tables, level, 4)
      ensures err == Success ==> PathBuilt(old(tables), tables, root, f, 4, LeafLevel(flags), User in flags)
      ensures Valid() && (old(Tree()) ==> Tree())
      ensures MapEffect(old(tables), tables, root, f, LeafLevel(flags), NewLeaf(phys, flags, cpu), err)
      ensures err != InvalidAlignment && err != NotMapped
      ensures err == HardwareFault ==> Huge1G in flags && !cpu.hasPdpe1gb
      ensures err == Success && Huge1G in flags ==> cpu.hasPdpe1gb
      ensures err == OutOfMemory ==> pmm.free == {}
      ensures err == AlreadyMapped ==> old(Occupied(tables, root, f, LeafLevel(flags)))
      ensures old(Occupied(tables, root, f, LeafLevel(flags))) ==> err == AlreadyMapped || err == HardwareFault
    {
      TableLevel(tables, root, level, root, f, 4, 4);
      var pdpt := GetOrCreateSubtable(root, User in flags, f, 4);
      if pdpt < 0 {
        return OutOfMemory;
      }
      ghost var t, lv := tables, level;
      err := MapInPdpt(pdpt, f, phys, flags, cpu);
      PathOver(old(tables), old(level), t, lv, tables, level, root, root, pdpt, f, 4, LeafLevel(flags), User in flags);
    }

    /** map_page */
    method MapPage(virt: nat, phys: nat, flags: set<Flag>, cpu: Cpu) returns (err: PagingError)
      requires Valid()
      modifies this`tables, this`level, pmm`freeMemory, pmm`usedMemory, pmm`free, pmm.lists, pmm.bits
      ensures Valid() && (old(Tree()) ==> Tree())
      ensures MapEffect(old(tables), tables, root, Decompose(virt), LeafLevel(flags), NewLeaf(phys, flags, cpu), err)
      ensures err == Success ==>
                && Walk(Decompose(virt)).Some?
                && Walk(Decompose(virt)).value.level
                   == (if Huge1G in flags then 3 else if Huge2M in flags then 2 else 1)
                && LeafWord(Walk(Decompose(virt)).value.entry, phys % 0x10_0000_0000_0000, flags, cpu.hasNx)
      ensures err == Success && Huge1G in flags ==> cpu.hasPdpe1gb
      ensures err == Success ==>
                PathBuilt(old(tables), tables, root, Decompose(virt), 4, LeafLevel(flags), User in flags)
      ensures err == InvalidAlignment <==> !PageAligned(virt) || !PageAligned(phys)
      ensures err != NotMapped
      ensures err == HardwareFault ==> Huge1G in flags && !cpu.hasPdpe1gb
      ensures err == OutOfMemory ==> pmm.free == {}
      ensures err == AlreadyMapped ==> old(Occupied(tables, root, Decompose(virt), LeafLevel(flags)))
      ensures old(Occupied(tables, root, Decompose(virt), LeafLevel(flags))) ==>
                err in {AlreadyMapped, HardwareFault, InvalidAlignment}
      ensures old(Coherent()) ==> Coherent()
    {
      if !PageAligned(virt) || !PageAligned(phys) {
        return InvalidAlignment;
      }
      NewLeafWord(phys, flags, cpu);
      err := MapInPml4(Decompose(virt), phys, flags, cpu);
      if old(Coherent()) {
        MapStaysCoherent(old(tables), tables, root, Decompose(virt), LeafLevel(flags), NewLeaf(phys, flags, cpu), err,
                         tlb);
      }
    }

    /** invlpg: drops every cached translation of the page that holds f, however many
        entries the processor made of it. */
    method Invlpg(f: Va)
      modifies this`tlb
      ensures tlb == AfterInvlpg(old(tlb), f)
    {
      tlb := AfterInvlpg(tlb, f);
    }

    /** A hardware page walk that caches what it finds. */
    method FillTlb(g: Va)
      modifies this`tlb
      ensures old(Coherent()) ==> Coherent()
      ensures Walk(g).Some? ==> g in tlb && tlb[g] == Walk(g).value
    {
      if Walk(g).Some? {
        tlb := tlb[g := Walk(g).value];
      }
    }

    /** The processor marks the leaf it uses for f as accessed and, on a write, dirty. The bits
        of the entries above take no part in translation. */
    method Access(f: Va, write: bool)
      requires Valid()
      modifies this`tables
      ensures Valid() && (old(Tree()) ==> Tree()) && (old(Coherent()) ==> Coherent())
      ensures old(Walk(f)) == None ==> tables == old(tables)
      ensures old(Walk(f)).Some? ==>
                var l, e := old(Walk(f)).value.level, old(Walk(f)).value.entry;
                && 1 <= l <= 3 && Walk(f) == Some(Leaf(e.(accessed := true, dirty := e.dirty || write), l))
                && LeafEffect(old(tables), tables, root, f, l, Walk(f))
    {
      var e4 := tables[root][f.Index(4)];
      if !e4.present {
        return;
      }
      Descend(tables, root, level, f, 3);
      var e3 := tables[e4.pfn][f.Index(3)];
      if !e3.present {
        return;
      }
      if e3.hugeOrPat {
        MarkLeaf(e4.pfn, f, 3, write);
        return;
      }
      Descend(tables, root, level, f, 2);
      var e2 := tables[e3.pfn][f.Index(2)];
      if !e2.present {
        return;
      }
      if e2.hugeOrPat {
        MarkLeaf(e3.pfn, f, 2, write);
        return;
      }
      Descend(tables, root, level, f, 1);
      if tables[e2.pfn][f.Index(1)].present {
        MarkLeaf(e2.pfn, f, 1, write);
      }
    }

    /** Replaces a leaf by another. */
    method RewriteLeaf(q: nat, f: Va, l: nat, e: Entry)
      requires Valid() && 1 <= l <= 3 && TableAt(tables, root, f, 4, l) == Some(q) && q in tables
      requires |tables[q]| == 512 && tables[q][f.Index(l)].present && EndsWalk(tables[q][f.Index(l)], l)
      requires e.present && EndsWalk(e, l)
      modifies this`tables
      ensures Valid() && (old(Tree()) ==> Tree()) && tlb == old(tlb)
      ensures old(Walk(f)) == Some(Leaf(old(tables[q][f.Index(l)]), l))
      ensures LeafEffect(old(tables), tables, root, f, l, Some(Leaf(e, l)))
    {
      LeafVia(tables, root, f, 4, l);
      SetLeaf(q, f, l, e);
    }

    method MarkLeaf(q: nat, f: Va, l: nat, write: bool)
      requires Valid() && 1 <= l <= 3 && TableAt(tables, root, f, 4, l) == Some(q) && q in tables
      requires |tables[q]| == 512 && tables[q][f.Index(l)].present && EndsWalk(tables[q][f.Index(l)], l)
      modifies this`tables
      ensures Valid() && (old(Tree()) ==> Tree()) && (old(Coherent()) ==> Coherent())
      ensures old(Walk(f)) == Some(Leaf(old(tables[q][f.Index(l)]), l))
      ensures LeafEffect(old(tables), tables, root, f, l, Some(Leaf(Used(old(tables[q][f.Index(l)]), write), l)))
    {
      RewriteLeaf(q, f, l, Used(tables[q][f.Index(l)], write));
      if old(Coherent()) {
        UseStaysCoherent(old(tables), tables, root, f, l, old(tables[q][f.Index(l)]), write, tlb);
      }
    }

    /** The last step of unmap_page: clears the leaf and invalidates its page. */
    method ClearLeaf(q: nat, f: Va, l: nat)
      requires Valid() && 1 <= l <= 3 && TableAt(tables, root, f, 4, l) == Some(q) && q in tables
      requires |tables[q]| == 512 && tables[q][f.Index(l)].present && EndsWalk(tables[q][f.Index(l)], l)
      modifies this`tables, this`tlb
      ensures Valid() && (old(Tree()) ==> Tree())
      ensures old(Walk(f)) == Some(Leaf(old(tables[q][f.Index(l)]), l))
      ensures LeafEffect(old(tables), tables, root, f, l, None) && tlb == AfterInvlpg(old(tlb), f)
      ensures old(Tree()) && old(Coherent()) ==> Coherent()
    {
      LeafVia(tables, root, f, 4, l);
      SetLeaf(q, f, l, EMPTY);
      Invlpg(f);
      if TreeShaped(old(tables), root, level) && old(Coherent()) {
        TreeStaysCoherent(old(tables), tables, root, level, f, l, None, old(tlb));
      }
    }

    /** unmap_page */
    method UnmapPage(virt: nat) returns (err: PagingError)
      requires Valid()
      modifies this`tables, this`tlb
      ensures Valid() && (old(Tree()) ==> Tree())
      ensures err == InvalidAlignment <==> !PageAligned(virt)
      ensures PageAligned(virt) ==> err == if old(Walk(Decompose(virt))).Some? then Success else NotMapped
      ensures err != Success ==> tables == old(tables) && tlb == old(tlb)
      ensures err == Success ==>
                && 1 <= old(Walk(Decompose(virt))).value.level <= 3
                && LeafEffect(old(tables), tables, root, Decompose(virt), old(Walk(Decompose(virt))).value.level, None)
                && tlb == AfterInvlpg(old(tlb), Decompose(virt))
      ensures old(Tree()) && old(Coherent()) ==> Coherent()
    {
      if !PageAligned(virt) {
        return InvalidAlignment;
      }
      var f := Decompose(virt);
      var e4 := tables[root][f.Index(4)];
      if !e4.present {
        return NotMapped;
      }
      Descend(tables, root, level, f, 3);
      var pdpt := e4.pfn;
      var e3 := tables[pdpt][f.Index(3)];
      if !e3.present {
        return NotMapped;
      }
      if e3.hugeOrPat {
        ClearLeaf(pdpt, f, 3);
        return Success;
      }
      Descend(tables, root, level, f, 2);
      var pd := e3.pfn;
      var e2 := tables[pd][f.Index(2)];
      if !e2.present {
        return NotMapped;
      }
      if e2.hugeOrPat {
        ClearLeaf(pd, f, 2);
        return Success;
      }
      Descend(tables, root, level, f, 1);
      var pt := e2.pfn;
      if !tables[pt][f.Index(1)].present {
        return NotMapped;
      }
      ClearLeaf(pt, f, 1);
      return Success;
    }

    /** The last step of protect_page: replaces the flags of a 4 KiB leaf. */
    method ReplaceFlags(pt: nat, f: Va, flags: set<Flag>, cpu: Cpu)
      requires Valid() && TableAt(tables, root, f, 4, 1) == Some(pt) && pt in tables
      requires |tables[pt]| == 512 && tables[pt][f.Index(1)].present
      modifies this`tables, this`tlb
      ensures Valid() && (old(Tree()) ==> Tree())
      ensures old(Walk(f)) == Some(Leaf(old(tables[pt][f.Index(1)]), 1))
      ensures LeafEffect(old(tables), tables, root, f, 1,
                         Some(Leaf(Reflagged(old(tables[pt][f.Index(1)]), flags, cpu), 1)))
      ensures tlb == AfterInvlpg(old(tlb), f)
      ensures old(Tree()) && old(Coherent()) ==> Coherent()
    {
      var e := Reflagged(tables[pt][f.Index(1)], flags, cpu);
      RewriteLeaf(pt, f, 1, e);
      Invlpg(f);
      if TreeShaped(old(tables), root, level) && old(Coherent()) {
        TreeStaysCoherent(old(tables), tables, root, level, f, 1, Some(Leaf(e, 1)), old(tlb));
      }
    }

    /** protect_page. It takes any present upper entry for a table, so the page must not be
        mapped by a huge leaf. */
    method ProtectPage(virt: nat, flags: set<Flag>, cpu: Cpu) returns (err: PagingError)
      requires Valid()
      requires Walk(Decompose(virt)).Some? ==> Walk(Decompose(virt)).value.level == 1
      modifies this`tables, this`tlb
      ensures Valid() && (old(Tree()) ==> Tree())
      ensures err == InvalidAlignment <==> !PageAligned(virt)
      ensures PageAligned(virt) ==> err == if old(Walk(Decompose(virt))).Some? then Success else NotMapped
      ensures err != Success ==> tables == old(tables) && tlb == old(tlb)
      ensures err == Success ==>
                && Walk(Decompose(virt)).Some? && Walk(Decompose(virt)).value.level == 1
                && LeafWord(Walk(Decompose(virt)).value.entry, old(Walk(Decompose(virt))).value.entry.pfn * 4096, flags,
                            cpu.hasNx)
                && LeafEffect(old(tables), tables, root, Decompose(virt), 1, Walk(Decompose(virt)))
                && tlb == AfterInvlpg(old(tlb), Decompose(virt))
      ensures old(Tree()) && old(Coherent()) ==> Coherent()
    {
      if !PageAligned(virt) {
        return InvalidAlignment;
      }
      var f := Decompose(virt);
      var e4 := tables[root][f.Index(4)];
      if !e4.present {
        return NotMapped;
      }
      Descend(tables, root, level, f, 3);
      var e3 := tables[e4.pfn][f.Index(3)];
      if !e3.present {
        return NotMapped;
      }
      Descend(tables, root, level, f, 2);
      var e2 := tables[e3.pfn][f.Index(2)];
      if !e2.present {
        return NotMapped;
      }
      Descend(tables, root, level, f, 1);
      if !tables[e2.pfn][f.Index(1)].present {
        return NotMapped;
      }
      ReflaggedWord(tables[e2.pfn][f.Index(1)], flags, cpu);
      ReplaceFlags(e2.pfn, f, flags, cpu);
      return Success;
    }

    /** translate, with None for the 0 it returns on an unmapped address. */
    method Translate(virt: nat) returns (r: Option<nat>)
      requires Valid()
      ensures r == Physical(Walk(Decompose(virt)), virt)
      ensures r.Some? <==> Walk(Decompose(virt)).Some?
      ensures r.Some? ==>
                var leaf := Walk(Decompose(virt)).value;
                leaf.entry.pfn * 4096 % PageBytes(leaf.level) == 0 ==>
                  r == Some(leaf.entry.pfn * 4096 + virt % PageBytes(leaf.level))
    {
      var f := Decompose(virt);
      TranslationOf(tables, root, virt);
      var e4 := tables[root][f.Index(4)];
      if !e4.present {
        return None;
      }
      Descend(tables, root, level, f, 3);
      var e3 := tables[e4.pfn][f.Index(3)];
      if !e3.present {
        return None;
      }
      if e3.hugeOrPat {
        return Some(Or(e3.PhysicalAddress(), virt % 0x4000_0000));
      }
      Descend(tables, root, level, f, 2);
      var e2 := tables[e3.pfn][f.Index(2)];
      if !e2.present {
        return None;
      }
      if e2.hugeOrPat {
        return Some(Or(e2.PhysicalAddress(), virt % 0x20_0000));
      }
      Descend(tables, root, level, f, 1);
      var e1 := tables[e2.pfn][f.Index(1)];
      if !e1.present {
        return None;
      }
      return Some(Or(e1.PhysicalAddress(), f.offset));
    }
  }

  /** One table may have changed, and new ones are empty. */
  ghost predicate Grown(t: Tables, t': Tables, q: nat) {
    && (forall p :: p in t && p != q ==> p in t' && t'[p] == t[p])
    && forall p, i :: p in t' && p !in t && 0 <= i < |t'[p]| ==> !t'[p][i].present
  }

  lemma WriteExtends(t: Tables, level: map<nat, nat>, q: nat, i: nat, e: Entry)
    requires q in t && i < |t[q]| && t.Keys == level.Keys
    ensures Extends(t, level, SetSlot(t, q, i, e), level, level[q])
  {
  }

  lemma InstallExtends(t: Tables, level: map<nat, nat>, q: nat, i: nat, n: nat, e: Entry, l: nat)
    requires q in t && i < |t[q]| && t.Keys == level.Keys && n !in t && level[q] == l >= 1
    ensures Extends(t, level, Install(t, q, i, n, e), level[n := l - 1], l) && Grown(t, Install(t, q, i, n, e), q)
  {
  }

  lemma ExtendsTrans(t0: Tables, lv0: map<nat, nat>, t1: Tables, lv1: map<nat, nat>, t2: Tables, lv2: map<nat, nat>,
                     l: nat, l': nat)
    requires Extends(t0, lv0, t1, lv1, l) && Extends(t1, lv1, t2, lv2, l') && l' <= l
    ensures Extends(t0, lv0, t2, lv2, l)
  {
  }

  /** The path below an entry, seen from before that entry was made. */
  lemma {:induction false} PathFromBefore(t0: Tables, t1: Tables, t2: Tables, lv: map<nat, nat>, root: nat, q: nat,
                                          p: nat, f: Va, l: nat, low: nat, user: bool)
    requires Grown(t0, t1, q) && Levelled(t2, root, lv) && q in t2 && 1 <= low <= l < lv[q] && l <= 3
    requires PathBuilt(t1, t2, p, f, l, low, user) && p in t2 && lv[p] == l
    ensures PathBuilt(t0, t2, p, f, l, low, user)
    decreases l
  {
    if l > low {
      assert SlotOk(t2, lv, p, f.Index(l));
      assert SlotInUse(t0, p, f.Index(l)) ==> SlotInUse(t1, p, f.Index(l)) && t1[p] == t0[p];
      assert SlotInUse(t1, p, f.Index(l)) ==> p in t0 && t1[p] == t0[p];
      PathFromBefore(t0, t1, t2, lv, root, q, t2[p][f.Index(l)].pfn, f, l - 1, low, user);
    }
  }

  lemma PathOver(t0: Tables, lv0: map<nat, nat>, t1: Tables, lv1: map<nat, nat>, t2: Tables, lv2: map<nat, nat>,
                 root: nat, q: nat, child: nat, f: Va, l: nat, low: nat, user: bool)
    requires 1 <= low < l <= 4 && Extends(t0, lv0, t1, lv1, l) && Grown(t0, t1, q) && Extends(t1, lv1, t2, lv2, l - 1)
    requires Levelled(t2, root, lv2) && q in t0 && lv0[q] == l
    requires EntryMade(t0, t1, q, f.Index(l), l, child, user)
    ensures Extends(t0, lv0, t2, lv2, l)
    ensures PathBuilt(t1, t2, child, f, l - 1, low, user) ==> PathBuilt(t0, t2, q, f, l, low, user)
  {
    ExtendsTrans(t0, lv0, t1, lv1, t2, lv2, l, l - 1);
    assert t2[q] == t1[q];
    if PathBuilt(t1, t2, child, f, l - 1, low, user) {
      assert SlotOk(t2, lv2, q, f.Index(l));
      PathFromBefore(t0, t1, t2, lv2, root, q, child, f, l - 1, low, user);
    }
  }

  lemma ReflaggedWord(previous: Entry, flags: set<Flag>, cpu: Cpu)
    ensures LeafWord(Reflagged(previous, flags, cpu), previous.pfn * 4096, flags, cpu.hasNx)
  {
    PageAddress(previous.pfn);
    LeafWords(previous.PhysicalAddress(), flags, cpu.hasNx);
  }

  lemma PageAddress(pfn: nat)
    requires pfn < 0x100_0000_0000
    ensures pfn * 4096 % 4096 == 0 && pfn * 4096 % 0x10_0000_0000_0000 == pfn * 4096
  {
  }

  /** make_page on the address of an entry, with NX cleared where the CPU lacks it. */
  function Reflagged(previous: Entry, flags: set<Flag>, cpu: Cpu): (e: Entry)
    ensures e.present
  {
    var e := MakePage(previous.PhysicalAddress(), flags);
    if cpu.hasNx then e else e.(noExecute := false)
  }

  /** The physical address of a virtual address under a leaf: the offset in its page is laid over
      the base. */
  function Physical(leaf: Option<Leaf>, virt: nat): Option<nat> {
    match leaf
    case None => None
    case Some(Leaf(e, l)) => if 1 <= l <= 3 then Some(Or(e.PhysicalAddress(), virt % PageBytes(l))) else None
  }

  function AfterInvlpg(tlb: map<Va, Leaf>, f: Va): map<Va, Leaf> {
    map p | p in tlb && !(1 <= tlb[p].level <= 4 && SameRegion(f, p, tlb[p].level)) :: tlb[p]
  }

  /** One step down from a table whose slot for f is a present pointer. */
  lemma Descend(t: Tables, root: nat, level: map<nat, nat>, f: Va, l: nat)
    requires Levelled(t, root, level) && 1 <= l <= 3 && TableAt(t, root, f, 4, l + 1).Some?
    ensures var q := TableAt(t, root, f, 4, l + 1).value;
            && q in t && |t[q]| == 512
            && LeafFrom(t, root, f, 4) == LeafFrom(t, q, f, l + 1)
            && (t[q][f.Index(l + 1)].present && !EndsWalk(t[q][f.Index(l + 1)], l + 1) ==>
                  var c := t[q][f.Index(l + 1)].pfn;
                  && TableAt(t, root, f, 4, l) == Some(c) && c in t && |t[c]| == 512
                  && LeafFrom(t, root, f, 4) == LeafFrom(t, c, f, l))
  {
    TableLevel(t, root, level, root, f, 4, l + 1);
    LeafVia(t, root, f, 4, l + 1);
    var q := TableAt(t, root, f, 4, l + 1).value;
    assert SlotOk(t, level, q, f.Index(l + 1));
    TableStep(t, root, f, 4, l);
  }

  // ------------------------------------------------------------------------------
  // The TLB

  /** What counts of a leaf for translation: the accessed and dirty bits do not. */
  function Seen(leaf: Leaf): Leaf {
    leaf.(entry := leaf.entry.(accessed := false, dirty := false))
  }

  function SeenIn(r: Option<Leaf>): Option<Leaf> {
    if r.Some? then Some(Seen(r.value)) else None
  }

  /** A leaf once the processor has used it. */
  function Used(e: Entry, write: bool): (r: Entry)
    ensures r.present == e.present && r.hugeOrPat == e.hugeOrPat
  {
    e.(accessed := true, dirty := e.dirty || write)
  }

  ghost predicate CoherentWith(t: Tables, root: nat, tlb: map<Va, Leaf>) {
    forall p :: p in tlb ==> SeenIn(LeafFrom(t, root, p, 4)) == Some(Seen(tlb[p]))
  }

  /** The processor's own stores to a leaf make no cached translation wrong, shared tables or
      not. */
  lemma UseStaysCoherent(t: Tables, t': Tables, root: nat, f: Va, l: nat, e: Entry, write: bool, tlb: map<Va, Leaf>)
    requires 1 <= l <= 3 && CoherentWith(t, root, tlb) && LeafFrom(t, root, f, 4) == Some(Leaf(e, l))
    requires LeafEffect(t, t', root, f, l, Some(Leaf(Used(e, write), l)))
    ensures CoherentWith(t', root, tlb)
  {
    forall p | p in tlb
      ensures SeenIn(LeafFrom(t', root, p, 4)) == Some(Seen(tlb[p]))
    {
      if SameSlot(t, root, f, p, l) {
        SameSlotSameLeaf(t, root, f, p, l);
      }
    }
  }

  /** map_page needs no invalidation: what was not present was not cached. */
  lemma MapStaysCoherent(t: Tables, t': Tables, root: nat, f: Va, l: nat, e: Entry, err: PagingError,
                         tlb: map<Va, Leaf>)
    requires 1 <= l <= 3 && MapEffect(t, t', root, f, l, e, err) && CoherentWith(t, root, tlb)
    ensures CoherentWith(t', root, tlb)
  {
  }

  /** Walks through the slot of a leaf all give that leaf. */
  lemma SameSlotSameLeaf(t: Tables, root: nat, f: Va, p: Va, l: nat)
    requires 1 <= l <= 3 && SameSlot(t, root, f, p, l)
    requires LeafFrom(t, root, f, 4).Some? && LeafFrom(t, root, f, 4).value.level == l
    ensures LeafFrom(t, root, p, 4) == LeafFrom(t, root, f, 4)
  {
    LeafVia(t, root, f, 4, l);
    LeafVia(t, root, p, 4, l);
    LeafLevelBound(t, TableAt(t, root, f, 4, l).value, f, l);
  }

  lemma {:induction false} LeafLevelBound(t: Tables, p: nat, f: Va, l: nat)
    requires 1 <= l <= 4
    ensures var r := LeafFrom(t, p, f, l); r.Some? ==>
              && 1 <= r.value.level <= l && r.value.level <= 3
              && (r.value.level == l ==> p in t && |t[p]| == 512 && r.value.entry == t[p][f.Index(l)])
    decreases l
  {
    if p in t && |t[p]| == 512 && t[p][f.Index(l)].present && !EndsWalk(t[p][f.Index(l)], l) {
      LeafLevelBound(t, t[p][f.Index(l)].pfn, f, l - 1);
    }
  }

  /** On tree-shaped tables, changing a leaf and invalidating its page keeps every other
      cached translation right. */
  lemma TreeStaysCoherent(t: Tables, t': Tables, root: nat, level: map<nat, nat>, f: Va, l: nat,
                          r: Option<Leaf>, tlb: map<Va, Leaf>)
    requires Levelled(t, root, level) && TreeShaped(t, root, level) && 1 <= l <= 3
    requires LeafEffect(t, t', root, f, l, r) && CoherentWith(t, root, tlb)
    requires LeafFrom(t, root, f, 4).Some? && LeafFrom(t, root, f, 4).value.level == l
    ensures CoherentWith(t', root, AfterInvlpg(tlb, f))
  {
    forall p | p in AfterInvlpg(tlb, f)
      ensures SeenIn(LeafFrom(t', root, p, 4)) == Some(Seen(tlb[p]))
    {
      if SameSlot(t, root, f, p, l) {
        SameSlotSameLeaf(t, root, f, p, l);
        SameSlotIsRegion(t, root, level, f, p, l);
        assert false;
      }
    }
  }

  /** On any tables, shared ones included: after unmap_page and protect_page the TLB is right
      exactly when no other page that shares the written slot was cached, or the leaf is the
      same as before, accessed and dirty bits aside. */
  lemma LeafCoherentIff(t: Tables, t': Tables, root: nat, f: Va, l: nat, r: Option<Leaf>,
                        tlb: map<Va, Leaf>)
    requires 1 <= l <= 3 && LeafEffect(t, t', root, f, l, r) && CoherentWith(t, root, tlb)
    requires LeafFrom(t, root, f, 4).Some? && LeafFrom(t, root, f, 4).value.level == l
    ensures CoherentWith(t', root, AfterInvlpg(tlb, f)) <==>
              || SeenIn(r) == SeenIn(LeafFrom(t, root, f, 4))
              || forall p :: p in tlb && SameSlot(t, root, f, p, l) ==> SameRegion(f, p, l)
  {
    var same := SeenIn(r) == SeenIn(LeafFrom(t, root, f, 4));
    forall p | p in tlb && SameSlot(t, root, f, p, l)
      ensures p in AfterInvlpg(tlb, f) <==> !SameRegion(f, p, l)
      ensures SeenIn(LeafFrom(t', root, p, 4)) == Some(Seen(tlb[p])) <==> same
    {
      SharedEntry(t, t', root, f, l, r, tlb, p);
    }
    forall p | p in tlb && !SameSlot(t, root, f, p, l)
      ensures SeenIn(LeafFrom(t', root, p, 4)) == Some(Seen(tlb[p]))
    {
    }
  }

  /** A cached page that shares the written slot. */
  lemma SharedEntry(t: Tables, t': Tables, root: nat, f: Va, l: nat, r: Option<Leaf>, tlb: map<Va, Leaf>, p: Va)
    requires 1 <= l <= 3 && LeafEffect(t, t', root, f, l, r) && CoherentWith(t, root, tlb)
    requires LeafFrom(t, root, f, 4).Some? && LeafFrom(t, root, f, 4).value.level == l
    requires p in tlb && SameSlot(t, root, f, p, l)
    ensures p in AfterInvlpg(tlb, f) <==> !SameRegion(f, p, l)
    ensures SeenIn(LeafFrom(t', root, p, 4)) == Some(Seen(tlb[p])) <==> SeenIn(r) == SeenIn(LeafFrom(t, root, f, 4))
  {
    SameSlotSameLeaf(t, root, f, p, l);
  }

  // ------------------------------------------------------------------------------
  // Tables as a partial map

  /** On tree-shaped tables map_page changes exactly one page-sized region. */
  lemma MapOnTree(t: Tables, t': Tables, root: nat, level: map<nat, nat>, f: Va, l: nat, e: Entry,
                  err: PagingError, g: Va)
    requires Levelled(t', root, level) && TreeShaped(t', root, level) && 1 <= l <= 3
    requires MapEffect(t, t', root, f, l, e, err)
    ensures LeafFrom(t', root, g, 4) ==
              if err.Success? && SameRegion(f, g, l) then Some(Leaf(e, l)) else LeafFrom(t, root, g, 4)
    ensures err.Success? && SameRegion(f, g, l) ==> LeafFrom(t, root, g, 4) == None
  {
    if err.Success? {
      SameSlotIsRegion(t', root, level, f, g, l);
    }
  }

  /** So do unmap_page and protect_page. */
  lemma LeafOnTree(t: Tables, t': Tables, root: nat, level: map<nat, nat>, f: Va, l: nat,
                   r: Option<Leaf>, g: Va)
    requires Levelled(t, root, level) && TreeShaped(t, root, level) && 1 <= l <= 3
    requires LeafEffect(t, t', root, f, l, r)
    ensures LeafFrom(t', root, g, 4) == if SameRegion(f, g, l) then r else LeafFrom(t, root, g, 4)
  {
    SameSlotIsRegion(t, root, level, f, g, l);
  }

  /** Two PML4 slots that share a PDPT, as the boot code leaves them, see every change
      made through either of them. */
  lemma SharedPdptAliases(t: Tables, root: nat, level: map<nat, nat>, f: Va, g: Va)
    requires Levelled(t, root, level) && t[root][f.pml4].present && t[root][g.pml4].present
    requires t[root][f.pml4].pfn == t[root][g.pml4].pfn && f.pdpt == g.pdpt
    ensures SameSlot(t, root, f, g, 3)
    ensures f.pml4 != g.pml4 ==> !SameRegion(f, g, 3)
  {
    assert SlotOk(t, level, root, f.pml4);
    TableStep(t, root, f, 4, 3);
    TableStep(t, root, g, 4, 3);
    assert f.Index(4) == f.pml4 && g.Index(4) == g.pml4;
  }

  /** log2 of the size of a page with its leaf at a level. */
  function SizeBits(l: nat): nat {
    if l == 1 then 12 else if l == 2 then 21 else 30
  }

  lemma PageBytesIs(l: nat)
    requires 1 <= l <= 3
    ensures PageBytes(l) == Pow2(SizeBits(l))
  {
    assert Pow2(12) == 0x1000 && Pow2(21) == 0x20_0000 && Pow2(30) == 0x4000_0000;
  }

  lemma AlignedTo(x: nat, k: nat)
    ensures Pow2(k) > 0
    ensures x % Pow2(k) == 0 <==> x == Shl(Shr(x, k), k)
  {
    Pow2Positive(k);
    var q := x / Pow2(k);
    ShlIsTimes(Shr(x, k), k);
    if x % Pow2(k) == 0 {
      ShlIsTimes(q, k);
      ShrShl(q, k);
    } else {
      MultipleOf(Shr(x, k), Pow2(k));
    }
  }

  lemma MultipleOf(q: nat, m: nat)
    requires m > 0
    ensures q * m % m == 0
  {
    var d := q * m / m;
    assert q * m == d * m + q * m % m;
    assert (q - d) * m == q * m - d * m;
    if q != d {
      ProductIsLarge(q - d, m);
    }
  }

  /** Under a leaf whose address is aligned to its page size, translation adds the offset. */
  lemma AlignedTranslation(e: Entry, l: nat, virt: nat)
    requires 1 <= l <= 3 && e.pfn * 4096 % PageBytes(l) == 0
    ensures Physical(Some(Leaf(e, l)), virt) == Some(e.pfn * 4096 + virt % PageBytes(l))
  {
    PageBytesIs(l);
    AlignedTo(e.pfn * 4096, SizeBits(l));
    OrIsAdd(Shr(e.PhysicalAddress(), SizeBits(l)), virt % PageBytes(l), SizeBits(l));
  }

  /** Without that alignment it does not: some offset of the page translates wrongly. */
  lemma TranslationExactIff(e: Entry, l: nat)
    requires 1 <= l <= 3
    ensures (forall offset: nat :: offset < PageBytes(l) ==> Or(e.PhysicalAddress(), offset) == e.pfn * 4096 + offset)
       <==> e.pfn * 4096 % PageBytes(l) == 0
  {
    PageBytesIs(l);
    AlignedTo(e.pfn * 4096, SizeBits(l));
    OrExact(e.PhysicalAddress(), SizeBits(l));
  }

  lemma TranslationOf(t: Tables, root: nat, virt: nat)
    ensures var r := LeafFrom(t, root, Decompose(virt), 4);
            && (r.Some? ==> 1 <= r.value.level <= 3)
            && (r.Some? && r.value.entry.pfn * 4096 % PageBytes(r.value.level) == 0 ==>
                  Physical(r, virt) == Some(r.value.entry.pfn * 4096 + virt % PageBytes(r.value.level)))
  {
    LeafLevelBound(t, root, Decompose(virt), 4);
    var r := LeafFrom(t, root, Decompose(virt), 4);
    if r.Some? && r.value.entry.pfn * 4096 % PageBytes(r.value.level) == 0 {
      AlignedTranslation(r.value.entry, r.value.level, virt);
    }
  }
}
