/** What holds between two memory accesses of a core that has the lock: how far it has
    come on the way from one moment of the slab invariant to the next. */
module CacheSection {
  import opened Links
  import opened SlabPages
  import opened SlabCaches
  import opened KernelHeap
  import opened CacheSteps

  /** The slab invariant. The idle slabs may have no object in use. */
  ghost predicate Ok(c: nat, b: Mem, slabs: Slabs, lists: seq<seq<nat>>, arena: set<nat>, idle: set<nat>) {
    && |b.next| == |b.prev| == |b.mem| && c < |b.partial|
    && ShapesOk(b.mem, |b.partial|, slabs) && ListsOk(b.partial, b.next, b.prev, lists, slabs)
    && HeapOk(b.mem, slabs, map[], b.free, arena, idle)
    && (forall x :: x in b.free ==> 0 < x < |b.mem|)
    && (forall x :: x in slabs ==> slabs[x].cache == c)
  }

  /** The memory at the last moment at which the slab invariant held, with its slabs and
      lists; the slot that is being given back. */
  datatype Aux = Aux(base: Mem, slabs: Slabs, lists: seq<seq<nat>>, slot: nat)

  predicate Sized(c: nat, g: Aux) {
    |g.base.next| == |g.base.prev| == |g.base.mem| && c < |g.base.partial|
  }

  ghost predicate OkAux(c: nat, g: Aux, arena: set<nat>, idle: set<nat>) {
    Ok(c, g.base, g.slabs, g.lists, arena, idle)
  }

  /** The slab that may be without an object in use at a point of the code. */
  function IdleAt(k: Core, g: Aux): set<nat> {
    if Fronting(k.pc) || (Emptying(k.pc) && PageAt(g.base, k.target).inuse == 0) then {k.target} else {}
  }

  predicate Fronting(pc: Pc) {
    pc == First || pc == Advance || pc == CountUp || Dropping(pc)
  }

  predicate Dropping(pc: Pc) {
    pc == DropHead || pc == DropBack || pc == ClearNext || pc == ClearPrev
  }

  predicate Emptying(pc: Pc) {
    pc == TestEmpty || pc == CutNext || pc == CutPrev || pc == ReleasePage
  }

  /** The pushed slab: a fresh one, or one that was full until now. */
  ghost predicate LinkBase(c: nat, m: Mem, op: Op, t: nat, obj: nat, g: Aux) {
    var b := g.base;
    && 0 < t < |b.mem|
    && m.mem == b.mem[t := PageAt(m, t)] && m.partial == b.partial && |m.next| == |m.prev| == |b.mem|
    && SlabShape(PageAt(m, t), t, c, NewChain(c, op, g))
    && (op == Alloc ==> t in b.free && m.free == b.free - {t})
    && (op == Free ==> m.free == b.free && t in g.slabs && g.slabs[t].chain == [] && GivenBack(c, t, obj, g))
  }

  ghost predicate GivenBack(c: nat, t: nat, obj: nat, g: Aux) {
    LiveSlot(g.slabs, t, g.slot) && obj == SlotAddress(t, c % 8, g.slot)
  }

  function NewChain(c: nat, op: Op, g: Aux): seq<nat> {
    if op == Alloc then AllSlots(Capacity(c % 8)) else [g.slot]
  }

  ghost predicate LinkPhase(c: nat, m: Mem, k: Core, g: Aux)
    requires Sized(c, g)
  {
    var b, t := g.base, k.target;
    && LinkBase(c, m, k.op, t, k.obj, g)
    && match k.pc
       case LinkNext => m.next[t := NIL] == b.next[t := NIL] && m.prev[t := NIL] == b.prev[t := NIL]
       case LinkPrev => m.next == b.next[t := b.partial[c]] && m.prev[t := NIL] == b.prev[t := NIL]
       case LinkBack => m.next == b.next[t := b.partial[c]] && m.prev == b.prev[t := NIL]
       case _ => m.next == b.next[t := b.partial[c]] && m.prev == Put(b.prev[t := NIL], b.partial[c], t)
  }

  /** The slab at the front of the list, whose first object is being taken. */
  ghost predicate FrontSlab(c: nat, t: nat, g: Aux) {
    && c < |g.lists| && g.lists[c] != [] && g.lists[c][0] == t
    && Partial(g.slabs, c, t) && 0 < t < |g.base.mem|
  }

  /** The word behind the first free object. */
  function Behind(p: Page, t: nat): nat {
    WordAt(p, p.freelist - t * 4096)
  }

  /** The taken page, which no one else knows of, is being formatted. */
  ghost predicate FormatPhase(c: nat, m: Mem, t: nat, g: Aux)
    requires Sized(c, g)
  {
    var b := g.base;
    && 0 < t < |b.mem| && t in b.free && t !in g.slabs
    && m.free == b.free - {t} && m.partial == b.partial && |m.next| == |m.prev| == |b.mem|
    && m.mem == b.mem[t := PageAt(m, t)] && m.next[t := NIL] == b.next[t := NIL] && m.prev[t := NIL] == b.prev[t := NIL]
  }

  ghost predicate AllocPhase(c: nat, m: Mem, k: Core, g: Aux)
    requires Sized(c, g)
  {
    var b, t := g.base, k.target;
    match k.pc
    case Head => m == b
    case TakePage => m == b && b.partial[c] == NIL
    case Format => FormatPhase(c, m, t, g)
    case First => m == b && FrontSlab(c, t, g)
    case Advance => m == b && FrontSlab(c, t, g) && k.obj == b.mem[t].freelist
    case CountUp =>
      && FrontSlab(c, t, g) && k.obj == b.mem[t].freelist
      && m == b.(mem := b.mem[t := b.mem[t].(freelist := Behind(b.mem[t], t))])
    case Unlock => m == b && (k.obj == 0 ==> b.partial[c] == NIL && b.free == {})
    case _ => DropPhase(c, m, k, g)
  }

  /** The slab has become full and leaves the list. */
  ghost predicate DropPhase(c: nat, m: Mem, k: Core, g: Aux)
    requires Sized(c, g)
  {
    var b, t := g.base, k.target;
    && FrontSlab(c, t, g) && k.obj == b.mem[t].freelist && Behind(b.mem[t], t) == 0
    && m.mem == b.mem[t := Pop(b.mem[t], 0)] && m.free == b.free
    && match k.pc
       case DropHead => m.partial == b.partial && m.next == b.next && m.prev == b.prev
       case DropBack => m.partial == b.partial[c := b.next[t]] && m.next == b.next && m.prev == b.prev
       case ClearNext => m.partial == b.partial[c := b.next[t]] && m.next == b.next &&
           m.prev == Put(b.prev, b.next[t], NIL)
       case ClearPrev =>
         m.partial == b.partial[c := b.next[t]] && m.next == b.next[t := NIL] && m.prev == Put(b.prev, b.next[t], NIL)
       case _ => false
  }

  /** The slab an object has just gone back to. */
  ghost predicate ListedSlab(c: nat, t: nat, g: Aux) {
    Partial(g.slabs, c, t) && 0 < t < |g.base.mem|
  }

  ghost predicate FreePhase(c: nat, m: Mem, k: Core, g: Aux)
    requires Sized(c, g)
  {
    var b, t := g.base, k.target;
    match k.pc
    case StoreWord => Giving(c, t, k.obj, g) && m == b
    case StoreFree => Giving(c, t, k.obj, g) && m == b.(mem := b.mem[t := Stored(b.mem[t], t, k.obj)])
    case CountDown => Giving(c, t, k.obj, g) && m == b.(mem := b.mem[t := Stored(b.mem[t], t,
        k.obj).(freelist := k.obj)])
    case TestEmpty => m == b && ListedSlab(c, t, g)
    case CutNext => m == b && ListedSlab(c, t, g) && b.mem[t].inuse == 0
    case CutPrev => ListedSlab(c, t, g) && b.mem[t].inuse == 0 && m == CutBefore(c, b, t)
    case ReleasePage =>
      && ListedSlab(c, t, g) && b.mem[t].inuse == 0
      && m == CutBefore(c, b, t).(prev := Put(b.prev, b.next[t], b.prev[t]))
    case Unlock => m == b
    case _ => false
  }

  function CutBefore(c: nat, b: Mem, t: nat): Mem {
    if Get(b.prev, t) != NIL then b.(next := Put(b.next, Get(b.prev, t), Get(b.next, t)))
    else b.(partial := Put(b.partial, c, Get(b.next, t)))
  }

  ghost predicate Giving(c: nat, t: nat, obj: nat, g: Aux) {
    GivenBack(c, t, obj, g) && 0 < t < |g.base.mem| && obj >= t * 4096
  }

  /** Where between two moments of the slab invariant the memory is. */
  ghost predicate Along(c: nat, m: Mem, k: Core, g: Aux)
    requires Sized(c, g)
  {
    if Linking(k.pc) then LinkPhase(c, m, k, g)
    else if k.op == Alloc then AllocPhase(c, m, k, g)
    else FreePhase(c, m, k, g)
  }

  ghost predicate Phase(c: nat, m: Mem, k: Core, g: Aux, arena: set<nat>) {
    OkAux(c, g, arena, IdleAt(k, g)) && Along(c, m, k, g)
  }

  /** The bookkeeping that accounts for the memory at a point of the code. */
  ghost function Accounts(c: nat, m: Mem, k: Core, arena: set<nat>): iset<Aux> {
    iset g: Aux | Phase(c, m, k, g, arena)
  }

  // ------------------------------------------------------------------------------
  // The steps between lock and unlock, one at a time

  lemma SameBut(a: seq<int>, b: seq<int>, t: nat, v: int)
    requires t < |a| == |b| && a[t := NIL] == b[t := NIL]
    ensures a[t := v] == b[t := v]
  {
    assert a[t := v] == a[t := NIL][t := v];
    assert b[t := v] == b[t := NIL][t := v];
  }

  lemma LinkStoreKeeps(c: nat, m: Mem, k: Core, g: Aux)
    requires Sized(c, g) && LinkPhase(c, m, k, g) && Linking(k.pc) && k.pc != LinkHead
    ensures LinkPhase(c, LinkStep(c, m, k).0, LinkStep(c, m, k).1, g) && Linking(LinkStep(c, m, k).1.pc)
  {
    if k.pc == LinkNext {
      SameBut(m.next, g.base.next, k.target, g.base.partial[c]);
    }
  }

  /** The bookkeeping after the slab is on the list. */
  function Listed(c: nat, m: Mem, k: Core, g: Aux): Aux
    requires c < |g.lists| && c < |m.partial|
  {
    Aux(m.(partial := m.partial[c := k.target]), g.slabs[k.target := Slab(c, NewChain(c, k.op, g))],
        g.lists[c := [k.target] + g.lists[c]], g.slot)
  }

  lemma LinkedListOk(c: nat, m: Mem, k: Core, g: Aux, arena: set<nat>)
    requires Phase(c, m, k, g, arena) && k.pc == LinkHead
    ensures c < |g.lists| && c < |m.partial|
    ensures var g' := Listed(c, m, k, g);
            && ListsOk(g'.base.partial, g'.base.next, g'.base.prev, g'.lists, g'.slabs)
            && ShapesOk(g'.base.mem, |g'.base.partial|, g'.slabs)
  {
    var b, t, chain := g.base, k.target, NewChain(c, k.op, g);
    if k.op == Alloc {
      assert t !in g.slabs.Keys;
    }
    ListPush(b.partial, b.next, b.prev, g.lists, g.slabs, c, t, chain);
    ShapeUpdate(b.mem, |b.partial|, g.slabs, t, m.mem[t], Slab(c, chain));
  }

  lemma FreshSlabListed(c: nat, m: Mem, k: Core, g: Aux, arena: set<nat>)
    requires Phase(c, m, k, g, arena) && k.pc == LinkHead && k.op == Alloc
    ensures c < |g.lists| && c < |m.partial|
    ensures OkAux(c, Listed(c, m, k, g), arena, {k.target})
    ensures SmallLive(Listed(c, m, k, g).slabs) == SmallLive(g.slabs)
  {
    LinkedListOk(c, m, k, g, arena);
    AfterRefill(g.base.mem, m.mem, g.slabs, Listed(c, m, k, g).slabs, map[], g.base.free, arena, k.target, c);
  }

  /** The heap after an object is given back: the slab is idle if it was the last one. */
  lemma GivenHeap(b: Mem, mem': seq<Page>, slabs: Slabs, slabs': Slabs, arena: set<nat>, t: nat,
                  slot: nat, obj: nat)
    requires HeapOk(b.mem, slabs, map[], b.free, arena, {}) && ShapesOk(mem', |b.partial|, slabs')
    requires LiveSlot(slabs, t, slot) && obj == SlotAddress(t, slabs[t].cache % 8, slot) && t < |b.mem|
    requires |mem'| == |b.mem| && mem' == b.mem[t := mem'[t]] &&
             slabs' == slabs[t := Slab(slabs[t].cache, [slot] + slabs[t].chain)]
    ensures HeapOk(mem', slabs', map[], b.free, arena, if mem'[t].inuse == 0 then {t} else {})
    ensures SmallLive(slabs') == SmallLive(slabs) - {obj}
  {
    AfterGive(b.mem, mem', |b.partial|, slabs, slabs', map[], b.free, arena, t, slot);
    NoLarge(SmallLive(slabs'), SmallLive(slabs), obj);
  }

  lemma FullSlabListed(c: nat, m: Mem, k: Core, g: Aux, arena: set<nat>)
    requires Phase(c, m, k, g, arena) && k.pc == LinkHead && k.op == Free
    ensures c < |g.lists| && c < |m.partial| && k.target < |m.mem|
    ensures OkAux(c, Listed(c, m, k, g), arena, if m.mem[k.target].inuse == 0 then {k.target} else {})
    ensures SmallLive(Listed(c, m, k, g).slabs) == SmallLive(g.slabs) - {k.obj}
  {
    LinkedListOk(c, m, k, g, arena);
    assert [g.slot] + g.slabs[k.target].chain == [g.slot];
    GivenHeap(g.base, m.mem, g.slabs, Listed(c, m, k, g).slabs, arena, k.target, g.slot, k.obj);
  }

  lemma NoLarge(after: set<nat>, before: set<nat>, obj: nat)
    ensures after + LargeLive(map[]) == before + LargeLive(map[]) - {obj} ==> after == before - {obj}
    ensures after + LargeLive(map[]) == before + LargeLive(map[]) + {obj} ==> after == before + {obj}
    ensures obj !in before + LargeLive(map[]) ==> obj !in before
  {
    assert LargeLive(map[]) == {};
    assert after + LargeLive(map[]) == after && before + LargeLive(map[]) == before;
  }

  /** The first object of the front slab, and what lies behind it. */
  lemma FrontObject(c: nat, t: nat, g: Aux, arena: set<nat>)
    requires OkAux(c, g, arena, {t}) && FrontSlab(c, t, g)
    ensures var p, chain := g.base.mem[t], g.slabs[t].chain;
            && p.freelist == SlotAddress(t, c % 8, chain[0])
            && (Behind(p, t) == 0 <==> chain[1..] == [])
            && SlabShape(Pop(p, Behind(p, t)), t, c, chain[1..])
  {
    var p, chain := g.base.mem[t], g.slabs[t].chain;
    assert ShapeOk(g.base.mem, |g.base.partial|, g.slabs, t);
    PopShape(p, t, c, chain);
    RestEmpty(p, t, c, chain);
    SlotInPage(t, c % 8, chain[0]);
  }

  /** The slabs after the object is taken. */
  function Taken(c: nat, g: Aux, t: nat): Slabs
    requires t in g.slabs && g.slabs[t].chain != []
  {
    g.slabs[t := Slab(c, g.slabs[t].chain[1..])]
  }

  lemma TakenOk(c: nat, t: nat, g: Aux, arena: set<nat>)
    requires OkAux(c, g, arena, {t}) && FrontSlab(c, t, g)
    ensures var b, p := g.base, g.base.mem[t];
            && ShapesOk(b.mem[t := Pop(p, Behind(p, t))], |b.partial|, Taken(c, g, t))
            && HeapOk(b.mem[t := Pop(p, Behind(p, t))], Taken(c, g, t), map[], b.free, arena, {})
            && p.freelist !in SmallLive(g.slabs) && p.freelist != 0
            && SmallLive(Taken(c, g, t)) == SmallLive(g.slabs) + {p.freelist}
  {
    FrontObject(c, t, g, arena);
    var b, p, chain := g.base, g.base.mem[t], g.slabs[t].chain;
    ShapeUpdate(b.mem, |b.partial|, g.slabs, t, Pop(p, Behind(p, t)), Slab(c, chain[1..]));
    AfterTake(b.mem, b.mem[t := Pop(p, Behind(p, t))], |b.partial|, g.slabs, Taken(c, g, t), map[], b.free, arena, c,
              t, p.freelist);
    NoLarge(SmallLive(Taken(c, g, t)), SmallLive(g.slabs), p.freelist);
  }

  /** The slab still has objects: alloc is done. */
  lemma StillPartial(c: nat, t: nat, g: Aux, arena: set<nat>)
    requires OkAux(c, g, arena, {t}) && FrontSlab(c, t, g) && Behind(g.base.mem[t], t) != 0
    ensures var b, p := g.base, g.base.mem[t];
            Ok(c, b.(mem := b.mem[t := Pop(p, Behind(p, t))]), Taken(c, g, t), g.lists, arena, {})
  {
    TakenOk(c, t, g, arena);
    TakenListed(c, t, g, arena);
  }

  lemma TakenListed(c: nat, t: nat, g: Aux, arena: set<nat>)
    requires OkAux(c, g, arena, {t}) && FrontSlab(c, t, g) && Behind(g.base.mem[t], t) != 0
    ensures ListsOk(g.base.partial, g.base.next, g.base.prev, g.lists, Taken(c, g, t))
  {
    FrontObject(c, t, g, arena);
    ListSame(g.base.partial, g.base.next, g.base.prev, g.lists, g.slabs, t, g.slabs[t].chain[1..]);
  }

  lemma CountUpStep(c: nat, m: Mem, k: Core, page: nat, formatted: Page, g: Aux)
    requires Sized(c, g) && AllocPhase(c, m, k, g) && k.pc == CountUp
    ensures FrontSlab(c, k.target, g) && k.obj == g.base.mem[k.target].freelist
    ensures var b, t, r := g.base, k.target, AllocStep(c, m, k, page, formatted);
            && r.0 == b.(mem := b.mem[t := Pop(b.mem[t], Behind(b.mem[t], t))])
            && r.1 == k.(pc := if Behind(b.mem[t], t) == 0 then DropHead else Unlock)
            && (Behind(b.mem[t], t) == 0 ==> DropPhase(c, r.0, r.1, g))
  {
    var b, t := g.base, k.target;
    assert m.mem[t := m.mem[t].(inuse := m.mem[t].inuse + 1)] == b.mem[t := Pop(b.mem[t], Behind(b.mem[t], t))];
  }

  lemma CountUpKeeps(c: nat, m: Mem, k: Core, page: nat, formatted: Page, g: Aux,
                     arena: set<nat>) returns (g': Aux)
    requires g in Accounts(c, m, k, arena) && k.op == Alloc && k.pc == CountUp
    ensures var r := AllocStep(c, m, k, page, formatted);
            && g' in Accounts(c, r.0, r.1, arena)
            && LiveStep(k, r.1, SmallLive(g.slabs), SmallLive(g'.slabs))
  {
    OpenAlloc(c, m, k, g, arena);
    CountUpStep(c, m, k, page, formatted, g);
    var b, t := g.base, k.target;
    if Behind(b.mem[t], t) == 0 {
      CloseDrop(c, AllocStep(c, m, k, page, formatted).0, AllocStep(c, m, k, page, formatted).1, g, arena);
      g' := g;
    } else {
      g' := TakenKeeps(c, k, g, arena);
    }
  }

  // From the parts of the account to the account, and back.

  lemma OpenLink(c: nat, m: Mem, k: Core, g: Aux, arena: set<nat>)
    requires g in Accounts(c, m, k, arena) && Linking(k.pc)
    ensures OkAux(c, g, arena, {}) && LinkPhase(c, m, k, g)
  {
  }

  lemma CloseLink(c: nat, m: Mem, k: Core, g: Aux, arena: set<nat>)
    requires OkAux(c, g, arena, {}) && LinkPhase(c, m, k, g) && Linking(k.pc)
    ensures g in Accounts(c, m, k, arena)
  {
  }

  lemma OpenAlloc(c: nat, m: Mem, k: Core, g: Aux, arena: set<nat>)
    requires g in Accounts(c, m, k, arena) && k.op == Alloc && !Linking(k.pc)
    ensures OkAux(c, g, arena, if Fronting(k.pc) then {k.target} else IdleAt(k, g)) && AllocPhase(c, m, k, g)
  {
  }

  lemma CloseDrop(c: nat, m: Mem, k: Core, g: Aux, arena: set<nat>)
    requires OkAux(c, g, arena, {k.target}) && DropPhase(c, m, k, g) && k.op == Alloc
    ensures g in Accounts(c, m, k, arena)
  {
  }

  lemma CloseAlloc(c: nat, m: Mem, k: Core, g: Aux, arena: set<nat>)
    requires OkAux(c, g, arena, IdleAt(k, g)) && AllocPhase(c, m, k, g) && k.op == Alloc && !Linking(k.pc)
    ensures g in Accounts(c, m, k, arena)
  {
  }

  lemma OpenFree(c: nat, m: Mem, k: Core, g: Aux, arena: set<nat>)
    requires g in Accounts(c, m, k, arena) && k.op == Free && !Linking(k.pc)
    ensures OkAux(c, g, arena, IdleAt(k, g)) && FreePhase(c, m, k, g)
  {
  }

  lemma CloseFree(c: nat, m: Mem, k: Core, g: Aux, arena: set<nat>)
    requires OkAux(c, g, arena, IdleAt(k, g)) && FreePhase(c, m, k, g) && k.op == Free && !Linking(k.pc)
    ensures g in Accounts(c, m, k, arena)
  {
  }

  lemma TakenKeeps(c: nat, k: Core, g: Aux, arena: set<nat>) returns (g': Aux)
    requires OkAux(c, g, arena, {k.target}) && FrontSlab(c, k.target, g) && Behind(g.base.mem[k.target], k.target) != 0
    requires k.obj == g.base.mem[k.target].freelist
    ensures var b, t := g.base, k.target;
            && g' in Accounts(c, b.(mem := b.mem[t := Pop(b.mem[t], Behind(b.mem[t], t))]), k.(pc := Unlock), arena)
            && k.obj !in SmallLive(g.slabs) && k.obj != 0 && SmallLive(g'.slabs) == SmallLive(g.slabs) + {k.obj}
  {
    var b, t := g.base, k.target;
    TakenOk(c, t, g, arena);
    StillPartial(c, t, g, arena);
    g' := Aux(b.(mem := b.mem[t := Pop(b.mem[t], Behind(b.mem[t], t))]), Taken(c, g, t), g.lists, g.slot);
    EnterUnlock(c, k.(pc := Unlock), g', arena);
  }

  lemma EnterUnlock(c: nat, k: Core, g: Aux, arena: set<nat>)
    requires k.pc == Unlock && OkAux(c, g, arena, {}) && (k.op == Alloc ==> k.obj != 0)
    ensures g in Accounts(c, g.base, k, arena)
  {
  }

  lemma EnterFirst(c: nat, k: Core, g: Aux, arena: set<nat>)
    requires k.op == Alloc && k.pc == First && OkAux(c, g, arena, {k.target}) && FrontSlab(c, k.target, g)
    ensures g in Accounts(c, g.base, k, arena)
  {
  }

  lemma EnterTest(c: nat, k: Core, g: Aux, arena: set<nat>)
    requires k.op == Free && k.pc == TestEmpty && ListedSlab(c, k.target, g)
    requires OkAux(c, g, arena, if g.base.mem[k.target].inuse == 0 then {k.target} else {})
    ensures g in Accounts(c, g.base, k, arena)
  {
  }

  /** The front slab has no predecessor. */
  lemma FrontLinks(c: nat, t: nat, g: Aux, arena: set<nat>)
    requires OkAux(c, g, arena, {t}) && FrontSlab(c, t, g)
    ensures g.base.prev[t] == NIL
    ensures g.base.next[t] != NIL ==> 0 <= g.base.next[t] < |g.base.next| && g.base.next[t] != t
  {
    var b := g.base;
    HeadInBounds(b.partial[c], b.next, b.prev, g.lists[c]);
    Unlink(b.partial[c], b.next, b.prev, g.lists[c], t);
    NeighboursDiffer(b.partial[c], b.next, b.prev, g.lists[c], t);
  }

  lemma NeighboursDiffer(head: int, next: seq<int>, prev: seq<int>, s: seq<nat>, b: nat)
    requires Linked(head, next, prev, s) && b in s
    ensures b < |next| == |prev| && next[b] != b && prev[b] != b
  {
    var i := MemberLinked(head, next, prev, s, b);
  }

  lemma DropStoreKeeps(c: nat, m: Mem, k: Core, page: nat, formatted: Page, g: Aux)
    requires Sized(c, g) && DropPhase(c, m, k, g) && k.pc != ClearPrev
    ensures var r := AllocStep(c, m, k, page, formatted); DropPhase(c, r.0, r.1, g) && r.1.target == k.target
  {
  }

  /** The memory when a full slab has left the list. */
  function WithoutFull(c: nat, b: Mem, t: nat): Mem
    requires t < |b.mem| == |b.next| == |b.prev| && c < |b.partial|
  {
    Mem(b.mem[t := Pop(b.mem[t], 0)], b.next[t := NIL], Put(b.prev, b.next[t], NIL)[t := NIL],
        b.partial[c := b.next[t]], b.free)
  }

  lemma ClearPrevStep(c: nat, m: Mem, k: Core, page: nat, formatted: Page, g: Aux)
    requires Sized(c, g) && DropPhase(c, m, k, g) && k.pc == ClearPrev
    ensures AllocStep(c, m, k, page, formatted) == (WithoutFull(c, g.base, k.target), k.(pc := Unlock))
  {
  }

  lemma FullDropped(c: nat, t: nat, g: Aux, arena: set<nat>)
    requires OkAux(c, g, arena, {t}) && FrontSlab(c, t, g) && Behind(g.base.mem[t], t) == 0
    ensures Ok(c, WithoutFull(c, g.base, t), Taken(c, g, t), g.lists[c := Without(g.lists[c], t)], arena, {})
  {
    var b, slabs' := g.base, Taken(c, g, t);
    FrontObject(c, t, g, arena);
    FrontLinks(c, t, g, arena);
    TakenOk(c, t, g, arena);
    ListDrop(b.partial, b.next, b.prev, g.lists, g.slabs, c, t, slabs');
    Clear(b.partial[c := b.next[t]], b.next, Put(b.prev, b.next[t], NIL), g.lists[c := Without(g.lists[c], t)],
          slabs', t);
  }

  /** The page after the object is given back. */
  lemma GivenPage(c: nat, t: nat, obj: nat, g: Aux, arena: set<nat>)
    requires OkAux(c, g, arena, {}) && Giving(c, t, obj, g)
    ensures var p := g.base.mem[t];
            && p.inuse > 0
            && Stored(p, t, obj).(freelist := obj, inuse := p.inuse - 1) == Push(p, t, c % 8, g.slot)
            && SlabShape(Push(p, t, c % 8, g.slot), t, c, [g.slot] + g.slabs[t].chain)
            && (p.inuse == p.maxObjs <==> g.slabs[t].chain == [])
  {
    var p := g.base.mem[t];
    assert ShapeOk(g.base.mem, |g.base.partial|, g.slabs, t);
    InUse(p, t, g.slabs[t], g.slot);
    PushShape(p, t, c, g.slabs[t].chain, g.slot);
    SlotInPage(t, c % 8, g.slot);
  }

  /** The bookkeeping after the object is given back to a slab that was on the list. */
  function Given(c: nat, g: Aux, t: nat): Aux
    requires t in g.slabs && t < |g.base.mem| && g.base.mem[t].inuse > 0
  {
    Aux(g.base.(mem := g.base.mem[t := Push(g.base.mem[t], t, c % 8, g.slot)]),
        g.slabs[t := Slab(c, [g.slot] + g.slabs[t].chain)], g.lists, g.slot)
  }

  lemma StaysListed(c: nat, t: nat, obj: nat, g: Aux, arena: set<nat>)
    requires OkAux(c, g, arena, {}) && Giving(c, t, obj, g) && g.slabs[t].chain != [] && g.base.mem[t].inuse > 0
    ensures OkAux(c, Given(c, g, t), arena, if g.base.mem[t].inuse == 1 then {t} else {})
    ensures SmallLive(Given(c, g, t).slabs) == SmallLive(g.slabs) - {obj}
  {
    var b, g' := g.base, Given(c, g, t);
    GivenPage(c, t, obj, g, arena);
    ShapeUpdate(b.mem, |b.partial|, g.slabs, t, g'.base.mem[t], g'.slabs[t]);
    ListSame(b.partial, b.next, b.prev, g.lists, g.slabs, t, g'.slabs[t].chain);
    GivenHeap(b, g'.base.mem, g.slabs, g'.slabs, arena, t, g.slot, obj);
  }

  lemma CountDownStep(c: nat, m: Mem, k: Core, g: Aux, arena: set<nat>)
    requires g in Accounts(c, m, k, arena) && k.pc == CountDown && k.op == Free
    ensures OkAux(c, g, arena, {}) && Giving(c, k.target, k.obj, g) && g.base.mem[k.target].inuse > 0
    ensures var b, t, r := g.base, k.target, FreeStep(c, m, k);
            && r.0 == b.(mem := b.mem[t := Push(b.mem[t], t, c % 8, g.slot)])
            && r.1.pc == if g.slabs[t].chain == [] then LinkNext else TestEmpty
  {
    GivenPage(c, k.target, k.obj, g, arena);
    assert FreeStep(c, m, k).0.mem == g.base.mem[k.target := Push(g.base.mem[k.target], k.target, c % 8, g.slot)];
  }

  /** The slab was full: it has to go on the list. */
  lemma FullGetsLinked(c: nat, m: Mem, k: Core, g: Aux, arena: set<nat>)
    requires g in Accounts(c, m, k, arena) && k.pc == CountDown && k.op == Free
    requires k.target in g.slabs && g.slabs[k.target].chain == []
    ensures g in Accounts(c, FreeStep(c, m, k).0, FreeStep(c, m, k).1, arena) && FreeStep(c, m, k).1.pc == LinkNext
  {
    CountDownStep(c, m, k, g, arena);
    GivenPage(c, k.target, k.obj, g, arena);
    assert [g.slot] + g.slabs[k.target].chain == [g.slot];
  }

  lemma CutKeeps(c: nat, m: Mem, k: Core, g: Aux)
    requires Sized(c, g) && FreePhase(c, m, k, g) && (k.pc == CutNext || k.pc == CutPrev)
    requires g.base.prev[k.target] != k.target
    ensures var r := FreeStep(c, m, k); FreePhase(c, r.0, r.1, g) && Emptying(r.1.pc) && r.1.target == k.target
  {
  }

  lemma TestKeeps(c: nat, m: Mem, k: Core, g: Aux)
    requires Sized(c, g) && FreePhase(c, m, k, g) && k.pc == TestEmpty
    ensures var r := FreeStep(c, m, k); FreePhase(c, r.0, r.1, g) && IdleAt(r.1, g) == IdleAt(k, g)
  {
  }

  lemma StoreKeeps(c: nat, m: Mem, k: Core, g: Aux)
    requires Sized(c, g) && FreePhase(c, m, k, g) && (k.pc == StoreWord || k.pc == StoreFree)
    ensures var r := FreeStep(c, m, k); FreePhase(c, r.0, r.1, g) && IdleAt(r.1, g) == IdleAt(k, g)
  {
  }

  lemma SlabReleased(c: nat, m: Mem, t: nat, g: Aux, arena: set<nat>)
    requires OkAux(c, g, arena, {t}) && ListedSlab(c, t, g) && g.base.mem[t].inuse == 0
    requires m == CutBefore(c, g.base, t).(prev := Put(g.base.prev, g.base.next[t], g.base.prev[t]),
                                           free := g.base.free + {t})
    ensures c < |g.lists| && Ok(c, m, g.slabs - {t}, g.lists[c := Without(g.lists[c], t)], arena, {})
    ensures SmallLive(g.slabs - {t}) == SmallLive(g.slabs)
  {
    var b, slabs' := g.base, g.slabs - {t};
    ListDrop(b.partial, b.next, b.prev, g.lists, g.slabs, c, t, slabs');
    IdleOrNot(b.mem, |b.partial|, g.slabs, t);
    AfterDrop(b.mem, g.slabs, map[], b.free, arena, t);
    forall x | x in slabs'
      ensures ShapeOk(b.mem, |b.partial|, slabs', x)
    {
      assert ShapeOk(b.mem, |b.partial|, g.slabs, x);
    }
  }

  lemma MoreIdle(c: nat, g: Aux, arena: set<nat>, t: nat)
    requires OkAux(c, g, arena, {})
    ensures OkAux(c, g, arena, {t})
  {
  }

  /** The head of the list is a slab with a free object. */
  lemma HeadIsFront(c: nat, g: Aux, arena: set<nat>)
    requires OkAux(c, g, arena, {}) && g.base.partial[c] != NIL
    ensures 0 <= g.base.partial[c] && FrontSlab(c, g.base.partial[c], g)
  {
    var b := g.base;
    HeadInBounds(b.partial[c], b.next, b.prev, g.lists[c]);
    assert g.lists[c][0] in g.lists[c];
    assert ShapeOk(b.mem, |b.partial|, g.slabs, g.lists[c][0]);
  }

  /** What a step does to the set of live objects. */
  ghost predicate LiveStep(k: Core, k': Core, before: set<nat>, after: set<nat>) {
    if k.op == Alloc && k'.pc == Unlock && k'.obj != 0 then k'.obj !in before && after == before + {k'.obj}
    else if k.op == Free && k'.pc == TestEmpty then after == before - {k.obj}
    else after == before
  }

  lemma LinkKeeps(c: nat, m: Mem, k: Core, g: Aux, arena: set<nat>) returns (g': Aux)
    requires g in Accounts(c, m, k, arena) && Linking(k.pc)
    ensures g' in Accounts(c, LinkStep(c, m, k).0, LinkStep(c, m, k).1, arena)
    ensures LiveStep(k, LinkStep(c, m, k).1, SmallLive(g.slabs), SmallLive(g'.slabs))
  {
    if k.pc != LinkHead {
      OpenLink(c, m, k, g, arena);
      LinkStoreKeeps(c, m, k, g);
      CloseLink(c, LinkStep(c, m, k).0, LinkStep(c, m, k).1, g, arena);
      g' := g;
    } else if k.op == Alloc {
      FreshSlabListed(c, m, k, g, arena);
      g' := Listed(c, m, k, g);
      EnterFirst(c, k.(pc := First), g', arena);
    } else {
      FullSlabListed(c, m, k, g, arena);
      g' := Listed(c, m, k, g);
      EnterTest(c, k.(pc := TestEmpty), g', arena);
    }
  }

  lemma HeadKeeps(c: nat, m: Mem, k: Core, page: nat, formatted: Page, g: Aux, arena: set<nat>)
    requires g in Accounts(c, m, k, arena) && k.op == Alloc && k.pc == Head
    ensures var r := AllocStep(c, m, k, page, formatted); g in Accounts(c, r.0, r.1, arena) && r.1.pc != Unlock
  {
    var head := g.base.partial[c];
    if head != NIL {
      HeadIsFront(c, g, arena);
      MoreIdle(c, g, arena, head);
      EnterFirst(c, k.(target := head, pc := First), g, arena);
    }
  }

  /** alloc_pages, by its contract. */
  lemma TakePageKeeps(c: nat, m: Mem, k: Core, page: nat, formatted: Page, g: Aux)
    requires Sized(c, g) && AllocPhase(c, m, k, g) && PageChoice(c, m, k, page, formatted) && k.pc == TakePage
    requires page in g.base.free ==> 0 < page < |g.base.mem| && page !in g.slabs
    ensures var r := AllocStep(c, m, k, page, formatted);
            AllocPhase(c, r.0, r.1, g) && IdleAt(r.1, g) == {} && (r.1.pc == Unlock ==> r.1.obj == 0)
  {
  }

  /** One store of format_new_slab. */
  lemma FormatKeeps(c: nat, m: Mem, k: Core, page: nat, formatted: Page, g: Aux)
    requires Sized(c, g) && FormatPhase(c, m, k.target, g) && k.op == Alloc && k.pc == Format && page == 0
    ensures var r := AllocStep(c, m, k, page, formatted); FormatPhase(c, r.0, k.target, g) && r.1 == k
  {
    FormatStores(c, m, k.target, formatted, g);
  }

  /** The last one. */
  lemma FormatEnds(c: nat, m: Mem, k: Core, page: nat, formatted: Page, g: Aux)
    requires Sized(c, g) && FormatPhase(c, m, k.target, g) && PageChoice(c, m, k, page, formatted)
    requires k.op == Alloc && k.pc == Format && page != 0
    ensures var r := AllocStep(c, m, k, page, formatted); LinkPhase(c, r.0, r.1, g) && r.1 == k.(pc := LinkNext)
  {
    FormatStores(c, m, k.target, formatted, g);
  }

  lemma FormatStores(c: nat, m: Mem, t: nat, formatted: Page, g: Aux)
    requires Sized(c, g) && FormatPhase(c, m, t, g)
    ensures m.mem[t := formatted] == g.base.mem[t := formatted]
    ensures m.next[t := NIL][t := NIL] == g.base.next[t := NIL] && m.prev[t := NIL][t := NIL] == g.base.prev[t := NIL]
  {
  }

  lemma FirstKeeps(c: nat, m: Mem, k: Core, page: nat, formatted: Page, g: Aux)
    requires Sized(c, g) && AllocPhase(c, m, k, g) && (k.pc == First || k.pc == Advance)
    ensures var r := AllocStep(c, m, k, page, formatted);
            AllocPhase(c, r.0, r.1, g) && Fronting(r.1.pc) && r.1.target == k.target
  {
  }

  lemma ClearPrevKeeps(c: nat, m: Mem, k: Core, page: nat, formatted: Page, g: Aux,
                       arena: set<nat>) returns (g': Aux)
    requires g in Accounts(c, m, k, arena) && k.op == Alloc && k.pc == ClearPrev
    ensures var r := AllocStep(c, m, k, page, formatted);
            && g' in Accounts(c, r.0, r.1, arena)
            && LiveStep(k, r.1, SmallLive(g.slabs), SmallLive(g'.slabs))
  {
    OpenAlloc(c, m, k, g, arena);
    ClearPrevStep(c, m, k, page, formatted, g);
    TakenOk(c, k.target, g, arena);
    FullDropped(c, k.target, g, arena);
    g' := Aux(WithoutFull(c, g.base, k.target), Taken(c, g, k.target), g.lists[c := Without(g.lists[c], k.target)],
              g.slot);
    EnterUnlock(c, k.(pc := Unlock), g', arena);
  }

  lemma AllocKeeps(c: nat, m: Mem, k: Core, page: nat, formatted: Page, g: Aux,
                   arena: set<nat>) returns (g': Aux)
    requires g in Accounts(c, m, k, arena) && k.op == Alloc && PageChoice(c, m, k, page, formatted)
    requires Fronting(k.pc) || k.pc == Head || k.pc == TakePage || k.pc == Format
    ensures var r := AllocStep(c, m, k, page, formatted);
            && g' in Accounts(c, r.0, r.1, arena)
            && LiveStep(k, r.1, SmallLive(g.slabs), SmallLive(g'.slabs))
  {
    if k.pc == Head {
      HeadKeeps(c, m, k, page, formatted, g, arena);
      g' := g;
    } else if k.pc == CountUp {
      g' := CountUpKeeps(c, m, k, page, formatted, g, arena);
    } else if k.pc == ClearPrev {
      g' := ClearPrevKeeps(c, m, k, page, formatted, g, arena);
    } else {
      if Dropping(k.pc) {
        DropAdvances(c, m, k, page, formatted, g, arena);
      } else if Fronting(k.pc) {
        FirstAdvances(c, m, k, page, formatted, g, arena);
      } else if k.pc == TakePage {
        PageAdvances(c, m, k, page, formatted, g, arena);
      } else {
        FormatAdvances(c, m, k, page, formatted, g, arena);
      }
      g' := g;
    }
  }

  lemma DropAdvances(c: nat, m: Mem, k: Core, page: nat, formatted: Page, g: Aux, arena: set<nat>)
    requires g in Accounts(c, m, k, arena) && k.op == Alloc && Dropping(k.pc) && k.pc != ClearPrev
    ensures var r := AllocStep(c, m, k, page, formatted); g in Accounts(c, r.0, r.1, arena) && r.1.pc != Unlock
  {
    OpenAlloc(c, m, k, g, arena);
    DropStoreKeeps(c, m, k, page, formatted, g);
    CloseDrop(c, AllocStep(c, m, k, page, formatted).0, AllocStep(c, m, k, page, formatted).1, g, arena);
  }

  lemma FirstAdvances(c: nat, m: Mem, k: Core, page: nat, formatted: Page, g: Aux, arena: set<nat>)
    requires g in Accounts(c, m, k, arena) && k.op == Alloc && (k.pc == First || k.pc == Advance)
    ensures var r := AllocStep(c, m, k, page, formatted); g in Accounts(c, r.0, r.1, arena) && r.1.pc != Unlock
  {
    OpenAlloc(c, m, k, g, arena);
    FirstKeeps(c, m, k, page, formatted, g);
    CloseAlloc(c, AllocStep(c, m, k, page, formatted).0, AllocStep(c, m, k, page, formatted).1, g, arena);
  }

  lemma PageAdvances(c: nat, m: Mem, k: Core, page: nat, formatted: Page, g: Aux, arena: set<nat>)
    requires g in Accounts(c, m, k, arena) && k.op == Alloc && PageChoice(c, m, k, page, formatted) && k.pc == TakePage
    ensures var r := AllocStep(c, m, k, page, formatted);
            g in Accounts(c, r.0, r.1, arena) && (r.1.pc == Unlock ==> r.1.obj == 0)
  {
    OpenAlloc(c, m, k, g, arena);
    FreeNotSlab(c, g, arena, page);
    TakePageKeeps(c, m, k, page, formatted, g);
    CloseAlloc(c, AllocStep(c, m, k, page, formatted).0, AllocStep(c, m, k, page, formatted).1, g, arena);
  }

  lemma FreeNotSlab(c: nat, g: Aux, arena: set<nat>, page: nat)
    requires OkAux(c, g, arena, {})
    ensures page in g.base.free ==> 0 < page < |g.base.mem| && page !in g.slabs.Keys
  {
  }

  lemma FormatAdvances(c: nat, m: Mem, k: Core, page: nat, formatted: Page, g: Aux, arena: set<nat>)
    requires g in Accounts(c, m, k, arena) && k.op == Alloc && PageChoice(c, m, k, page, formatted) && k.pc == Format
    ensures var r := AllocStep(c, m, k, page, formatted); g in Accounts(c, r.0, r.1, arena) && r.1.pc != Unlock
  {
    OpenAlloc(c, m, k, g, arena);
    if page == 0 {
      FormatKeeps(c, m, k, page, formatted, g);
      CloseFormat(c, AllocStep(c, m, k, page, formatted).0, k, g, arena);
    } else {
      FormatEnds(c, m, k, page, formatted, g);
      CloseLink(c, AllocStep(c, m, k, page, formatted).0, k.(pc := LinkNext), g, arena);
    }
  }

  lemma CloseFormat(c: nat, m: Mem, k: Core, g: Aux, arena: set<nat>)
    requires OkAux(c, g, arena, {}) && FormatPhase(c, m, k.target, g) && k.op == Alloc && k.pc == Format
    ensures g in Accounts(c, m, k, arena)
  {
  }

  lemma CountDownKeeps(c: nat, m: Mem, k: Core, g: Aux, arena: set<nat>) returns (g': Aux)
    requires g in Accounts(c, m, k, arena) && k.op == Free && k.pc == CountDown
    ensures g' in Accounts(c, FreeStep(c, m, k).0, FreeStep(c, m, k).1, arena)
    ensures LiveStep(k, FreeStep(c, m, k).1, SmallLive(g.slabs), SmallLive(g'.slabs))
  {
    CountDownStep(c, m, k, g, arena);
    if g.slabs[k.target].chain == [] {
      FullGetsLinked(c, m, k, g, arena);
      g' := g;
    } else {
      StaysListed(c, k.target, k.obj, g, arena);
      g' := Given(c, g, k.target);
      EnterTest(c, k.(pc := TestEmpty), g', arena);
    }
  }

  lemma ReleaseKeeps(c: nat, m: Mem, k: Core, g: Aux, arena: set<nat>) returns (g': Aux)
    requires g in Accounts(c, m, k, arena) && k.op == Free && k.pc == ReleasePage
    ensures g' in Accounts(c, FreeStep(c, m, k).0, FreeStep(c, m, k).1, arena)
    ensures SmallLive(g'.slabs) == SmallLive(g.slabs)
  {
    var m' := m.(free := m.free + {k.target});
    SlabReleased(c, m', k.target, g, arena);
    g' := Aux(m', g.slabs - {k.target}, g.lists[c := Without(g.lists[c], k.target)], g.slot);
    EnterUnlock(c, k.(pc := Unlock), g', arena);
  }

  lemma FreeKeeps(c: nat, m: Mem, k: Core, g: Aux, arena: set<nat>) returns (g': Aux)
    requires g in Accounts(c, m, k, arena) && k.op == Free && !Linking(k.pc) && k.pc != Unlock
    ensures g' in Accounts(c, FreeStep(c, m, k).0, FreeStep(c, m, k).1, arena)
    ensures LiveStep(k, FreeStep(c, m, k).1, SmallLive(g.slabs), SmallLive(g'.slabs))
  {
    if k.pc == CountDown {
      g' := CountDownKeeps(c, m, k, g, arena);
    } else if k.pc == ReleasePage {
      g' := ReleaseKeeps(c, m, k, g, arena);
    } else {
      FreeAdvances(c, m, k, g, arena);
      g' := g;
    }
  }

  lemma FreeAdvances(c: nat, m: Mem, k: Core, g: Aux, arena: set<nat>)
    requires g in Accounts(c, m, k, arena) && k.op == Free && !Linking(k.pc)
    requires k.pc != CountDown && k.pc != ReleasePage && k.pc != Unlock
    ensures g in Accounts(c, FreeStep(c, m, k).0, FreeStep(c, m, k).1, arena) && FreeStep(c, m, k).1.pc != TestEmpty
  {
    OpenFree(c, m, k, g, arena);
    if k.pc == TestEmpty {
      TestKeeps(c, m, k, g);
    } else if Emptying(k.pc) {
      NeighboursDiffer(g.base.partial[c], g.base.next, g.base.prev, g.lists[c], k.target);
      CutKeeps(c, m, k, g);
    } else {
      StoreKeeps(c, m, k, g);
    }
    CloseFree(c, FreeStep(c, m, k).0, FreeStep(c, m, k).1, g, arena);
  }

  /** Every step between lock and unlock keeps to its path. */
  lemma SectionKeeps(c: nat, m: Mem, k: Core, page: nat, formatted: Page, g: Aux,
                     arena: set<nat>) returns (g': Aux)
    requires g in Accounts(c, m, k, arena) && InSection(k.pc) && k.pc != Unlock && PageChoice(c, m, k, page, formatted)
    ensures var r := SectionStep(c, m, k, page, formatted);
            && g' in Accounts(c, r.0, r.1, arena)
            && LiveStep(k, r.1, SmallLive(g.slabs), SmallLive(g'.slabs))
  {
    if Linking(k.pc) {
      g' := LinkKeeps(c, m, k, g, arena);
    } else if k.op == Free {
      g' := FreeKeeps(c, m, k, g, arena);
    } else {
      g' := AllocKeeps(c, m, k, page, formatted, g, arena);
    }
  }
}
