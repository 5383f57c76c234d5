/** What the calls on a cache achieve, in every interleaving: when alloc returns null and
    what it returns otherwise, when pages move between the cache and the page allocator, and
    that all calls can return. */
module CacheRuns {
  import opened Links
  import opened SlabPages
  import opened SlabCaches
  import Heap = KernelHeap
  import opened CacheSteps
  import opened CacheSection
  import opened CacheLock

  /** The object lies in a page that is a slab of the cache. */
  ghost predicate ObjectOfCache(c: nat, m: Mem, obj: nat) {
    && obj / 4096 < |m.mem| && obj / 4096 !in m.free
    && m.mem[obj / 4096].magic == SLAB_MAGIC && m.mem[obj / 4096].cache == c
    && exists i: nat :: i < Capacity(c % 8) && obj == SlotAddress(obj / 4096, c % 8, i)
  }

  /** An alloc that is about to unlock returns null only if the partial list is empty and no
      page is free. Otherwise its object is one of the cache, in nobody's hands, and the step
      that unlocks hands it to the caller. */
  lemma AllocOutcome(c: nat, s: State, steps: seq<Step>, i: nat, page: nat, formatted: Page)
    requires Initial(c, s) && Feasible(c, s, steps) && i < |Run(c, s, steps).cores|
    requires Run(c, s, steps).cores[i].op == Alloc && Run(c, s, steps).cores[i].pc == Unlock
    ensures Outcome(c, Run(c, s, steps), Run(c, s, steps).cores[i].obj, i,
                    Next(c, Run(c, s, steps), Go(i, page, formatted)))
  {
    var g := InitialInv(c, s);
    var g', holder := RunKeeps(c, s, steps, g, s.m.free, NIL);
    OutcomeAt(c, Run(c, s, steps), i, page, formatted, g', s.m.free, holder);
  }

  ghost predicate Outcome(c: nat, t: State, obj: nat, i: nat, after: State) {
    && !after.locked && after.m == t.m && i < |after.cores| && after.cores[i].pc == Idle && c < |t.m.partial|
    && if obj == 0 then t.m.partial[c] == NIL && t.m.free == {} && after.owned == t.owned
       else obj !in t.owned && after.owned == t.owned + {obj} && ObjectOfCache(c, t.m, obj)
  }

  lemma OutcomeAt(c: nat, t: State, i: nat, page: nat, formatted: Page, g: Aux, arena: set<nat>, holder: int)
    requires Inv(c, t, g, arena, holder) && i < |t.cores| && t.cores[i].op == Alloc && t.cores[i].pc == Unlock
    ensures Outcome(c, t, t.cores[i].obj, i, Next(c, t, Go(i, page, formatted)))
  {
    assert i == holder;
    AllocAtUnlock(c, t.m, t.cores[i], g, arena);
    if t.cores[i].obj != 0 {
      assert InTransit(t.cores[i]);
      assert t.cores[i].obj in Transit(t.cores);
      LiveIsObject(c, t.m, t.cores[i].obj, g, arena);
    }
  }

  lemma AllocAtUnlock(c: nat, m: Mem, k: Core, g: Aux, arena: set<nat>)
    requires g in Accounts(c, m, k, arena) && k.pc == Unlock && k.op == Alloc
    ensures m == g.base && OkAux(c, g, arena, {}) && c < |m.partial|
    ensures k.obj == 0 ==> m.partial[c] == NIL && m.free == {}
  {
  }

  lemma LiveIsObject(c: nat, m: Mem, obj: nat, g: Aux, arena: set<nat>)
    requires OkAux(c, g, arena, {}) && m == g.base && obj in Heap.SmallLive(g.slabs)
    ensures ObjectOfCache(c, m, obj)
  {
    var x, slot := Heap.SmallLiveIn(g.slabs, obj);
    assert ShapeOk(m.mem, |m.partial|, g.slabs, x);
    assert x in g.slabs.Keys;
  }

  /** A page leaves the free ones only for an alloc that found the partial list empty, one at a
      time, and comes back only from a free of the last object in it. */
  lemma PagesMove(c: nat, s: State, steps: seq<Step>, i: nat, page: nat, formatted: Page)
    requires Initial(c, s) && Feasible(c, s, steps) && Possible(c, Run(c, s, steps), Go(i, page, formatted))
    requires Next(c, Run(c, s, steps), Go(i, page, formatted)).m.free != Run(c, s, steps).m.free
    ensures var t := Run(c, s, steps);
            var after := Next(c, t, Go(i, page, formatted));
            && i < |t.cores| && InSection(t.cores[i].pc) && c < |t.m.partial|
            && if t.cores[i].op == Alloc then
                 t.m.partial[c] == NIL && page in t.m.free && after.m.free == t.m.free - {page}
               else
                 var x := t.cores[i].target;
                 x < |t.m.mem| && t.m.mem[x].inuse == 0 && x !in t.m.free && after.m.free == t.m.free + {x}
  {
    var g := InitialInv(c, s);
    var g', holder := RunKeeps(c, s, steps, g, s.m.free, NIL);
    var t := Run(c, s, steps);
    if i < |t.cores| && t.cores[i].op == Free {
      FreeStaysOnPath(c, t, g', s.m.free, holder, i);
    }
    MovingStep(c, t, i, page, formatted);
    assert i == holder;
    if t.cores[i].op == Alloc {
      PageTaken(c, t.m, t.cores[i], g', s.m.free);
    } else {
      PageGiven(c, t.m, t.cores[i], g', s.m.free);
    }
  }

  /** Two steps touch the free pages. */
  lemma MovingStep(c: nat, t: State, i: nat, page: nat, formatted: Page)
    requires Possible(c, t, Go(i, page, formatted)) && Next(c, t, Go(i, page, formatted)).m.free != t.m.free
    requires i < |t.cores| && t.cores[i].op == Free ==> OnFreePath(t.cores[i].pc)
    ensures i < |t.cores| && InSection(t.cores[i].pc)
    ensures var k, free' := t.cores[i], Next(c, t, Go(i, page, formatted)).m.free;
            if k.op == Alloc then k.pc == TakePage && page in t.m.free && free' == t.m.free - {page}
            else k.pc == ReleasePage && free' == t.m.free + {k.target}
  {
    if t.cores[i].op == Alloc {
      TakeMoves(c, t.m, t.cores[i], page, formatted);
    } else {
      ReleaseMoves(c, t.m, t.cores[i]);
    }
  }

  predicate OnFreePath(pc: Pc) {
    InSection(pc) ==>
      pc == StoreWord || pc == StoreFree || pc == CountDown || Linking(pc) || Emptying(pc) || pc == Unlock
  }

  lemma TakeMoves(c: nat, m: Mem, k: Core, page: nat, formatted: Page)
    requires k.op == Alloc && InSection(k.pc) && k.pc != Unlock && PageChoice(c, m, k, page, formatted)
    ensures SectionStep(c, m, k, page, formatted).0.free ==
              if k.pc == TakePage && page in m.free && page != 0 then m.free - {page} else m.free
  {
  }

  lemma ReleaseMoves(c: nat, m: Mem, k: Core)
    requires k.op == Free && InSection(k.pc) && k.pc != Unlock && OnFreePath(k.pc)
    ensures SectionStep(c, m, k, 0, PageAt(m, 0)).0.free == if k.pc == ReleasePage then m.free + {k.target} else m.free
    ensures forall page: nat, formatted: Page ::
              SectionStep(c, m, k, page, formatted) == SectionStep(c, m, k, 0, PageAt(m, 0))
  {
  }

  lemma FreeStaysOnPath(c: nat, s: State, g: Aux, arena: set<nat>, holder: int, i: nat)
    requires Inv(c, s, g, arena, holder) && i < |s.cores| && s.cores[i].op == Free
    ensures OnFreePath(s.cores[i].pc)
  {
    if InSection(s.cores[i].pc) && !Linking(s.cores[i].pc) {
      OpenFree(c, s.m, s.cores[i], g, arena);
    }
  }

  lemma PageTaken(c: nat, m: Mem, k: Core, g: Aux, arena: set<nat>)
    requires g in Accounts(c, m, k, arena) && k.op == Alloc && k.pc == TakePage
    ensures c < |m.partial| && m.partial[c] == NIL
  {
  }

  lemma PageGiven(c: nat, m: Mem, k: Core, g: Aux, arena: set<nat>)
    requires g in Accounts(c, m, k, arena) && k.op == Free && k.pc == ReleasePage
    ensures c < |m.partial| && k.target < |m.mem| && m.mem[k.target].inuse == 0 && k.target !in m.free
  {
    OpenFree(c, m, k, g, arena);
    assert k.target in g.slabs.Keys;
  }

  // ------------------------------------------------------------------------------
  // Every call can return

  /** How much a core has yet to do. */
  function Pending(k: Core): nat {
    match k.pc
    case Idle => 0
    case Panicked => 0
    case Check => 21
    case Lock => 20
    case _ => 20 - Rank(k.pc)
  }

  function TotalPending(cores: seq<Core>): nat {
    if cores == [] then 0 else Pending(cores[0]) + TotalPending(cores[1..])
  }

  lemma {:induction false} PendingUpdate(cores: seq<Core>, i: nat, k: Core)
    requires i < |cores|
    ensures TotalPending(cores[i := k]) == TotalPending(cores) - Pending(cores[i]) + Pending(k)
  {
    if i > 0 {
      PendingUpdate(cores[1..], i - 1, k);
      assert cores[i := k][1..] == cores[1..][i - 1 := k];
    } else {
      assert cores[i := k][1..] == cores[1..];
    }
  }

  /** A page that format_new_slab could leave. */
  lemma FreshSlab(s: nat, cache: nat) returns (p: Page)
    ensures SlabShape(p, s, cache, AllSlots(Capacity(cache % 8)))
  {
    var k := cache % 8;
    var chain := AllSlots(Capacity(k));
    var words := FreshWords(s, k, chain, |chain|);
    p := Page(SLAB_MAGIC, cache, ChainAddress(s, k, chain, 0), 0, Capacity(k), 0, words);
  }

  lemma {:induction false} FreshWords(s: nat, k: nat, chain: seq<nat>, n: nat) returns (words: map<nat, nat>)
    requires k < NUM_CLASSES && n <= |chain| == Capacity(k) && forall j :: 0 <= j < |chain| ==> chain[j] == j
    ensures forall j :: 0 <= j < n ==> SlotLinked(words, s, k, chain, j)
  {
    words := map[];
    if n > 0 {
      var before := FreshWords(s, k, chain, n - 1);
      words := before[SlotOffset(k, n - 1) := ChainAddress(s, k, chain, n)];
      NodesAfterStep(before, words, s, k, chain, n - 1);
    }
  }

  /** While some call is under way, some core can get on with it. */
  lemma NextWork(c: nat, s: State, g: Aux, arena: set<nat>, holder: int) returns (step: Step)
    requires Inv(c, s, g, arena, holder) && exists i :: 0 <= i < |s.cores| && s.cores[i].pc != Idle
    ensures Possible(c, s, step) && |Next(c, s, step).cores| == |s.cores|
    ensures TotalPending(Next(c, s, step).cores) < TotalPending(s.cores)
  {
    if holder != NIL {
      step := HolderWork(c, s, g, arena, holder);
    } else {
      var i: nat :| i < |s.cores| && s.cores[i].pc != Idle;
      step := Go(i, 0, PageAt(s.m, 0));
      assert s.cores[i].pc == Check || s.cores[i].pc == Lock;
      if s.cores[i].pc == Check {
        CheckPasses(c, s, i, g, arena);
      }
      var after := Next(c, s, step);
      PendingUpdate(s.cores, i, after.cores[i]);
      assert after.cores == s.cores[i := after.cores[i]];
    }
  }

  lemma CheckPasses(c: nat, s: State, i: nat, g: Aux, arena: set<nat>)
    requires Inv(c, s, g, arena, NIL) && i < |s.cores| && s.cores[i].pc == Check
    ensures PageAt(s.m, s.cores[i].target).magic == SLAB_MAGIC && PageAt(s.m, s.cores[i].target).cache == c
  {
    var slot := LiveTarget(c, s, i, g, arena, NIL);
    InvHeaders(c, s, g, arena, NIL);
  }

  /** The core with the lock, with whatever page alloc_pages may answer. */
  lemma HolderWork(c: nat, s: State, g: Aux, arena: set<nat>, holder: nat) returns (step: Step)
    requires Inv(c, s, g, arena, holder)
    ensures Possible(c, s, step) && |Next(c, s, step).cores| == |s.cores|
    ensures TotalPending(Next(c, s, step).cores) < TotalPending(s.cores)
  {
    var k := s.cores[holder];
    var formatted := FreshSlab(k.target, c);
    var page := if k.pc == TakePage then SomeFree(s.m.free) else 1;
    step := Go(holder, page, formatted);
    if k.pc == TakePage && page in s.m.free {
      FreeIsPage(c, s.m, k, g, arena, page);
    }
    StepWorks(c, s, holder, page, formatted);
  }

  lemma StepWorks(c: nat, s: State, i: nat, page: nat, formatted: Page)
    requires i < |s.cores| && InSection(s.cores[i].pc) && (s.cores[i].pc == Format ==> page != 0)
    ensures |GoNext(c, s, i, page, formatted).cores| == |s.cores|
    ensures TotalPending(GoNext(c, s, i, page, formatted).cores) < TotalPending(s.cores)
  {
    var k := s.cores[i];
    var k' := if k.pc == Unlock then k.(pc := Idle) else SectionStep(c, s.m, k, page, formatted).1;
    if k.pc != Unlock {
      TowardsUnlock(c, s.m, k, page, formatted);
    }
    PendingUpdate(s.cores, i, k');
    assert GoNext(c, s, i, page, formatted).cores == s.cores[i := k'];
  }

  lemma FreeIsPage(c: nat, m: Mem, k: Core, g: Aux, arena: set<nat>, page: nat)
    requires g in Accounts(c, m, k, arena) && k.op == Alloc && k.pc == TakePage && page in m.free
    ensures page != 0
  {
  }

  ghost function SomeFree(free: set<nat>): (page: nat)
    ensures free != {} ==> page in free
    ensures free == {} ==> page == 0
  {
    if free == {} then 0 else var page :| page in free; page
  }

  /** From wherever an interleaving has led, all calls can return. */
  lemma AllCallsReturn(c: nat, s: State, steps: seq<Step>) returns (more: seq<Step>)
    requires Initial(c, s) && Feasible(c, s, steps)
    ensures Feasible(c, Run(c, s, steps), more)
    ensures forall k :: k in Run(c, Run(c, s, steps), more).cores ==> k.pc == Idle
  {
    var g := InitialInv(c, s);
    var g', holder := RunKeeps(c, s, steps, g, s.m.free, NIL);
    more := Returning(c, Run(c, s, steps), g', s.m.free, holder);
  }

  lemma {:induction false} Returning(c: nat, s: State, g: Aux, arena: set<nat>, holder: int) returns (steps: seq<Step>)
    requires Inv(c, s, g, arena, holder)
    ensures Feasible(c, s, steps)
    ensures forall k :: k in Run(c, s, steps).cores ==> k.pc == Idle
    decreases TotalPending(s.cores)
  {
    if forall i :: 0 <= i < |s.cores| ==> s.cores[i].pc == Idle {
      return [];
    }
    var step := NextWork(c, s, g, arena, holder);
    var g', holder' := StepKeeps(c, s, step, g, arena, holder);
    var rest := Returning(c, Next(c, s, step), g', arena, holder');
    steps := [step] + rest;
    assert steps[1..] == rest;
  }
}
