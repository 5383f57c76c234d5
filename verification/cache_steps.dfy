/** KmemCache::alloc and KmemCache::free on one cache, called by many cores: the spinlock,
    and between lock and unlock every store, with the reads it depends on, as a step of its
    own. Formatting a page is any number of stores to it, of which the last leaves a slab.
    Calls into the page allocator are single steps that keep its contract. */
module CacheSteps {
  import opened Links
  import opened SlabPages

  /** Memory shared by the cores: pages, slab links, partial lists and the free pages. */
  datatype Mem = Mem(mem: seq<Page>, next: seq<int>, prev: seq<int>, partial: seq<int>, free: set<nat>)

  datatype Pc = Idle | Check | Lock
    | Head | TakePage | Format
    | LinkNext | LinkPrev | LinkBack | LinkHead
    | First | Advance | CountUp | DropHead | DropBack | ClearNext | ClearPrev
    | StoreWord | StoreFree | CountDown | TestEmpty | CutNext | CutPrev | ReleasePage
    | Unlock | Panicked

  datatype Op = Alloc | Free

  /** A core and its local variables. */
  datatype Core = Core(pc: Pc, op: Op, target: nat, obj: nat)

  /** owned: the objects in the hands of the callers. */
  datatype State = State(locked: bool, m: Mem, cores: seq<Core>, owned: set<nat>)

  datatype Step =
    | CallAlloc(core: nat)
    | CallFree(core: nat, obj: nat)
    | Go(core: nat, page: nat, formatted: Page)

  function Put<T>(s: seq<T>, i: int, v: T): (r: seq<T>)
    ensures |r| == |s|
  {
    if 0 <= i < |s| then s[i := v] else s
  }

  function Get(s: seq<int>, i: int): int {
    if 0 <= i < |s| then s[i] else NIL
  }

  function PageAt(m: Mem, t: nat): Page {
    if t < |m.mem| then m.mem[t] else Page(0, 0, 0, 0, 0, 0, map[])
  }

  function WordAt(p: Page, offset: int): nat {
    if offset >= 0 && offset in p.words then p.words[offset] else 0
  }

  /** The page with the free pointer of an object set to the head of the free list. */
  function Stored(p: Page, t: nat, obj: nat): Page {
    if obj >= t * 4096 then p.(words := p.words[obj - t * 4096 := p.freelist]) else p
  }

  predicate InSection(pc: Pc) {
    pc != Idle && pc != Check && pc != Lock && pc != Panicked
  }

  /** Push onto the partial list: four stores, then on to the next part of the operation. */
  function LinkStep(c: nat, m: Mem, k: Core): (Mem, Core) {
    var t := k.target;
    match k.pc
    case LinkNext => (m.(next := Put(m.next, t, Get(m.partial, c))), k.(pc := LinkPrev))
    case LinkPrev => (m.(prev := Put(m.prev, t, NIL)), k.(pc := LinkBack))
    case LinkBack => (m.(prev := Put(m.prev, Get(m.partial, c), t)), k.(pc := LinkHead))
    case _ => (m.(partial := Put(m.partial, c, t)), k.(pc := if k.op == Alloc then First else TestEmpty))
  }

  function AllocStep(c: nat, m: Mem, k: Core, page: nat, formatted: Page): (Mem, Core) {
    var t := k.target;
    match k.pc
    case Head =>
      var head := Get(m.partial, c);
      (m, if head < 0 then k.(pc := TakePage) else k.(target := head, pc := First))
    case TakePage =>
      if page == 0 then (m, k.(obj := 0, pc := Unlock)) else (m.(free := m.free - {page}),
                                                              k.(target := page, pc := Format))
    case Format =>
      (m.(mem := Put(m.mem, t, formatted), next := Put(m.next, t, NIL), prev := Put(m.prev, t, NIL)),
       if page == 0 then k else k.(pc := LinkNext))
    case First => (m, k.(obj := PageAt(m, t).freelist, pc := Advance))
    case Advance =>
      (m.(mem := Put(m.mem, t, PageAt(m, t).(freelist := WordAt(PageAt(m, t), k.obj - t * 4096)))), k.(pc := CountUp))
    case CountUp =>
      (m.(mem := Put(m.mem, t, PageAt(m, t).(inuse := PageAt(m, t).inuse + 1))),
       k.(pc := if PageAt(m, t).freelist == 0 then DropHead else Unlock))
    case DropHead => (m.(partial := Put(m.partial, c, Get(m.next, t))), k.(pc := DropBack))
    case DropBack => (m.(prev := Put(m.prev, Get(m.partial, c), NIL)), k.(pc := ClearNext))
    case ClearNext => (m.(next := Put(m.next, t, NIL)), k.(pc := ClearPrev))
    case _ => (m.(prev := Put(m.prev, t, NIL)), k.(pc := Unlock))
  }

  function FreeStep(c: nat, m: Mem, k: Core): (Mem, Core) {
    var t, p := k.target, PageAt(m, k.target);
    match k.pc
    case StoreWord =>
      (m.(mem := Put(m.mem, t, Stored(p, t, k.obj))),
       k.(pc := StoreFree))
    case StoreFree => (m.(mem := Put(m.mem, t, p.(freelist := k.obj))), k.(pc := CountDown))
    case CountDown =>
      var p' := p.(inuse := if p.inuse > 0 then p.inuse - 1 else 0);
      (m.(mem := Put(m.mem, t, p')), k.(pc := if p'.inuse == p'.maxObjs - 1 then LinkNext else TestEmpty))
    case TestEmpty => (m, k.(pc := if p.inuse == 0 then CutNext else Unlock))
    case CutNext =>
      (if Get(m.prev, t) != NIL then m.(next := Put(m.next, Get(m.prev, t), Get(m.next, t)))
       else m.(partial := Put(m.partial, c, Get(m.next, t))), k.(pc := CutPrev))
    case CutPrev => (m.(prev := Put(m.prev, Get(m.next, t), Get(m.prev, t))), k.(pc := ReleasePage))
    case _ => (m.(free := m.free + {t}), k.(pc := Unlock))
  }

  predicate Linking(pc: Pc) {
    pc == LinkNext || pc == LinkPrev || pc == LinkBack || pc == LinkHead
  }

  function SectionStep(c: nat, m: Mem, k: Core, page: nat, formatted: Page): (Mem, Core) {
    if Linking(k.pc) then LinkStep(c, m, k)
    else if k.op == Alloc then AllocStep(c, m, k, page, formatted)
    else FreeStep(c, m, k)
  }

  function GoNext(c: nat, s: State, i: nat, page: nat, formatted: Page): State
    requires i < |s.cores|
  {
    var k := s.cores[i];
    match k.pc
    case Idle => s
    case Panicked => s
    case Check =>
      var p := PageAt(s.m, k.target);
      s.(cores := s.cores[i := k.(pc := if p.magic != SLAB_MAGIC || p.cache != c then Panicked else Lock)])
    case Lock =>
      // lock(): test-and-set, again and again while it finds the flag set.
      if s.locked then s
      else s.(locked := true, cores := s.cores[i := k.(pc := if k.op == Alloc then Head else StoreWord)])
    case Unlock =>
      s.(locked := false, owned := if k.op == Alloc && k.obj != 0 then s.owned + {k.obj} else s.owned,
         cores := s.cores[i := k.(pc := Idle)])
    case _ =>
      var r := SectionStep(c, s.m, k, page, formatted);
      s.(m := r.0, cores := s.cores[i := r.1])
  }

  function Next(c: nat, s: State, step: Step): State {
    match step
    case CallAlloc(i) =>
      if i < |s.cores| && s.cores[i].pc == Idle then s.(cores := s.cores[i := Core(Lock, Alloc, 0, 0)]) else s
    case CallFree(i, obj) =>
      if i < |s.cores| && s.cores[i].pc == Idle && obj in s.owned
      then s.(cores := s.cores[i := Core(Check, Free, obj / 4096, obj)], owned := s.owned - {obj}) else s
    case Go(i, page, formatted) => if i < |s.cores| then GoNext(c, s, i, page, formatted) else s
  }

  /** alloc_pages returns a free page, or null when there is none. While a page is being
      formatted it holds anything; the last store of format_new_slab completes the slab. */
  ghost predicate PageChoice(c: nat, m: Mem, k: Core, page: nat, formatted: Page) {
    && (k.pc == TakePage ==> if page == 0 then m.free == {} else page in m.free)
    && (k.pc == Format && page != 0 ==> SlabShape(formatted, k.target, c, AllSlots(Capacity(c % 8))))
  }

  ghost predicate Possible(c: nat, s: State, step: Step) {
    step.Go? && step.core < |s.cores| ==> PageChoice(c, s.m, s.cores[step.core], step.page, step.formatted)
  }
}
