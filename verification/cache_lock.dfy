/** All cores together: mutual exclusion, and the slab invariant whenever the lock is
    free, in every interleaving. */
module CacheLock {
  import opened Links
  import opened SlabPages
  import opened SlabCaches
  import opened KernelHeap
  import opened CacheSteps
  import opened CacheSection

  /** An object that is live but in nobody's hands: on its way in or out. */
  predicate InTransit(k: Core) {
    if k.op == Alloc then k.pc == Unlock && k.obj != 0
    else k.pc == Check || k.pc == Lock || k.pc == StoreWord || k.pc == StoreFree || k.pc == CountDown || Linking(k.pc)
  }

  ghost function Transit(cores: seq<Core>): set<nat> {
    set i | 0 <= i < |cores| && InTransit(cores[i]) :: cores[i].obj
  }

  /** Every live object is owned once, or in transit on one core. */
  ghost predicate LiveOk(s: State, live: set<nat>) {
    && live == s.owned + Transit(s.cores) && s.owned !! Transit(s.cores)
    && forall i, j :: 0 <= i < j < |s.cores| && InTransit(s.cores[i]) && InTransit(s.cores[j]) ==>
        s.cores[i].obj != s.cores[j].obj
  }

  /** The core between lock and unlock, if any. */
  ghost predicate Holds(s: State, holder: int) {
    && (s.locked <==> holder != NIL) && (holder == NIL || 0 <= holder < |s.cores|)
    && forall i :: 0 <= i < |s.cores| ==> (InSection(s.cores[i].pc) <==> i == holder)
  }

  /** The header check of free, which is made without the lock, finds a slab of this cache. */
  ghost predicate HeadersOk(c: nat, m: Mem, slabs: Slabs) {
    forall x :: x in slabs ==> x < |m.mem| && m.mem[x].magic == SLAB_MAGIC && m.mem[x].cache == c
  }

  ghost predicate NoPanic(s: State) {
    forall i :: 0 <= i < |s.cores| ==>
      && s.cores[i].pc != Panicked && (s.cores[i].pc == Check ==> s.cores[i].op == Free)
      && (s.cores[i].op == Free && InTransit(s.cores[i]) ==> s.cores[i].target == s.cores[i].obj / 4096)
  }

  ghost predicate Inv(c: nat, s: State, g: Aux, arena: set<nat>, holder: int) {
    && Holds(s, holder) && NoPanic(s) && LiveOk(s, SmallLive(g.slabs))
    && (holder == NIL ==> s.m == g.base && OkAux(c, g, arena, {}))
    && (holder != NIL ==> g in Accounts(c, s.m, s.cores[holder], arena))
  }

  // Transit.

  lemma TransitSame(cores: seq<Core>, i: nat, k: Core)
    requires i < |cores| && (InTransit(k) <==> InTransit(cores[i])) && (InTransit(k) ==> k.obj == cores[i].obj)
    ensures Transit(cores[i := k]) == Transit(cores)
  {
    var after := cores[i := k];
    forall p | p in Transit(cores) ensures p in Transit(after) {
      var j :| 0 <= j < |cores| && InTransit(cores[j]) && cores[j].obj == p;
      assert InTransit(after[j]) && after[j].obj == p;
    }
    forall p | p in Transit(after) ensures p in Transit(cores) {
      var j :| 0 <= j < |after| && InTransit(after[j]) && after[j].obj == p;
      assert InTransit(cores[j]) && cores[j].obj == p;
    }
  }

  lemma TransitEnter(cores: seq<Core>, i: nat, k: Core)
    requires i < |cores| && InTransit(k) && !InTransit(cores[i])
    ensures Transit(cores[i := k]) == Transit(cores) + {k.obj}
  {
    var after := cores[i := k];
    assert InTransit(after[i]);
    forall p | p in Transit(cores) ensures p in Transit(after) {
      var j :| 0 <= j < |cores| && InTransit(cores[j]) && cores[j].obj == p;
      assert InTransit(after[j]) && after[j].obj == p;
    }
    forall p | p in Transit(after) ensures p in Transit(cores) + {k.obj} {
      var j :| 0 <= j < |after| && InTransit(after[j]) && after[j].obj == p;
      assert j != i ==> InTransit(cores[j]) && cores[j].obj == p;
    }
  }

  lemma TransitLeave(cores: seq<Core>, i: nat, k: Core)
    requires i < |cores| && !InTransit(k) && InTransit(cores[i])
    requires forall a, b :: 0 <= a < b < |cores| && InTransit(cores[a]) && InTransit(cores[b]) ==>
             cores[a].obj != cores[b].obj
    ensures Transit(cores[i := k]) == Transit(cores) - {cores[i].obj} && cores[i].obj in Transit(cores)
  {
    var after := cores[i := k];
    TransitEnter(after, i, cores[i]);
    assert after[i := cores[i]] == cores;
  }

  /** The cores but one keep their objects apart. */
  lemma LiveKept(s: State, s': State, i: nat, k: Core, live: set<nat>)
    requires LiveOk(s, live) && i < |s.cores| && s'.cores == s.cores[i := k] && s'.owned == s.owned
    requires (InTransit(k) <==> InTransit(s.cores[i])) && (InTransit(k) ==> k.obj == s.cores[i].obj)
    ensures LiveOk(s', live)
  {
    TransitSame(s.cores, i, k);
  }

  lemma LiveEnters(s: State, s': State, i: nat, k: Core, live: set<nat>, live': set<nat>)
    requires LiveOk(s, live) && i < |s.cores| && s'.cores == s.cores[i := k] && InTransit(k) && !InTransit(s.cores[i])
    requires k.obj !in Transit(s.cores)
    requires (s'.owned == s.owned - {k.obj} && live' == live && k.obj in live) ||
             (s'.owned == s.owned && live' == live + {k.obj} && k.obj !in live)
    ensures LiveOk(s', live')
  {
    TransitEnter(s.cores, i, k);
    forall j | 0 <= j < |s.cores| && j != i && InTransit(s.cores[j]) ensures s.cores[j].obj != k.obj {
      assert s.cores[j].obj in Transit(s.cores);
    }
  }

  lemma LiveLeaves(s: State, s': State, i: nat, k: Core, live: set<nat>, live': set<nat>)
    requires LiveOk(s, live) && i < |s.cores| && s'.cores == s.cores[i := k] && !InTransit(k) && InTransit(s.cores[i])
    requires (s'.owned == s.owned + {s.cores[i].obj} && live' == live) ||
             (s'.owned == s.owned && live' == live - {s.cores[i].obj})
    ensures LiveOk(s', live')
  {
    TransitLeave(s.cores, i, k);
  }

  // Steps of the section, as seen from outside.

  function Rank(pc: Pc): nat {
    match pc
    case Idle => 0 case Check => 0 case Lock => 0 case Panicked => 0
    case Head => 1 case TakePage => 2 case Format => 3
    case StoreWord => 1 case StoreFree => 2 case CountDown => 3
    case LinkNext => 4 case LinkPrev => 5 case LinkBack => 6 case LinkHead => 7
    case First => 8 case Advance => 9 case CountUp => 10
    case DropHead => 11 case DropBack => 12 case ClearNext => 13 case ClearPrev => 14
    case TestEmpty => 15 case CutNext => 16 case CutPrev => 17 case ReleasePage => 18
    case Unlock => 19
  }

  /** Whatever the branches, a core that has the lock moves on towards unlock, and reaches
      it after at most 18 of its own steps, besides the stores of formatting. */
  lemma TowardsUnlock(c: nat, m: Mem, k: Core, page: nat, formatted: Page)
    requires InSection(k.pc) && k.pc != Unlock
    ensures var k' := SectionStep(c, m, k, page, formatted).1;
            && InSection(k'.pc) && k'.op == k.op
            && (if k.op == Alloc && k.pc == Format && page == 0 then k' == k
                else Rank(k.pc) < Rank(k'.pc) <= Rank(Unlock))
  {
    if !Linking(k.pc) {
      if k.op == Alloc {
        AllocTowardsUnlock(c, m, k, page, formatted);
      } else {
        FreeTowardsUnlock(c, m, k);
      }
    }
  }

  lemma AllocTowardsUnlock(c: nat, m: Mem, k: Core, page: nat, formatted: Page)
    requires InSection(k.pc) && k.pc != Unlock && !Linking(k.pc)
    ensures var k' := AllocStep(c, m, k, page, formatted).1;
            && InSection(k'.pc) && k'.op == k.op
            && (if k.pc == Format && page == 0 then k' == k else Rank(k.pc) < Rank(k'.pc) <= Rank(Unlock))
  {
  }

  lemma FreeTowardsUnlock(c: nat, m: Mem, k: Core)
    requires InSection(k.pc) && k.pc != Unlock && !Linking(k.pc)
    ensures var k' := FreeStep(c, m, k).1;
            InSection(k'.pc) && Rank(k.pc) < Rank(k'.pc) <= Rank(Unlock) && k'.op == k.op
  {
  }

  /** How a step of the section moves its object. */
  lemma SectionTransit(c: nat, m: Mem, k: Core, page: nat, formatted: Page)
    requires InSection(k.pc) && k.pc != Unlock
    ensures var k' := SectionStep(c, m, k, page, formatted).1;
            && (k.op == Free ==> k'.obj == k.obj && k'.target == k.target)
            && (k.op == Alloc ==> !InTransit(k))
            && (k.op == Free ==> (InTransit(k') <==> InTransit(k) && k'.pc != TestEmpty))
            && (k.op == Free && k'.pc == TestEmpty ==> InTransit(k))
  {
  }

  lemma SectionLive(c: nat, s: State, s': State, i: nat, page: nat, formatted: Page,
                    live: set<nat>, live': set<nat>)
    requires i < |s.cores| && InSection(s.cores[i].pc) && s.cores[i].pc != Unlock
    requires s' == s.(m := SectionStep(c, s.m, s.cores[i], page, formatted).0,
                      cores := s.cores[i := SectionStep(c, s.m, s.cores[i], page, formatted).1])
    requires LiveOk(s, live) && LiveStep(s.cores[i], s'.cores[i], live, live')
    ensures LiveOk(s', live')
  {
    var k, k' := s.cores[i], s'.cores[i];
    SectionTransit(c, s.m, k, page, formatted);
    TowardsUnlock(c, s.m, k, page, formatted);
    if k.op == Alloc && k'.pc == Unlock && k'.obj != 0 {
      LiveEnters(s, s', i, k', live, live');
    } else if k.op == Free && k'.pc == TestEmpty {
      LiveLeaves(s, s', i, k', live, live');
    } else {
      LiveKept(s, s', i, k', live);
    }
  }

  // The headers.

  lemma BaseHeaders(c: nat, g: Aux, arena: set<nat>, idle: set<nat>)
    requires OkAux(c, g, arena, idle)
    ensures HeadersOk(c, g.base, g.slabs)
  {
    forall x | x in g.slabs
      ensures x < |g.base.mem| && g.base.mem[x].magic == SLAB_MAGIC && g.base.mem[x].cache == c
    {
      assert ShapeOk(g.base.mem, |g.base.partial|, g.slabs, x);
    }
  }

  lemma AlongHeaders(c: nat, m: Mem, k: Core, g: Aux)
    requires Sized(c, g) && Along(c, m, k, g) && HeadersOk(c, g.base, g.slabs)
    ensures HeadersOk(c, m, g.slabs)
  {
    var t := k.target;
    assert |m.mem| == |g.base.mem|;
    assert forall x :: 0 <= x < |m.mem| && x != t ==> m.mem[x] == g.base.mem[x];
    assert t < |m.mem| && t in g.slabs ==> m.mem[t].magic == SLAB_MAGIC && m.mem[t].cache == c;
  }

  lemma HeadersHold(c: nat, m: Mem, k: Core, g: Aux, arena: set<nat>)
    requires g in Accounts(c, m, k, arena)
    ensures HeadersOk(c, m, g.slabs)
  {
    assert Phase(c, m, k, g, arena);
    BaseHeaders(c, g, arena, IdleAt(k, g));
    AlongHeaders(c, m, k, g);
  }

  // The steps of the machine.

  lemma CallAllocKeeps(c: nat, s: State, i: nat, g: Aux, arena: set<nat>, holder: int)
    requires Inv(c, s, g, arena, holder) && i < |s.cores| && s.cores[i].pc == Idle
    ensures Inv(c, Next(c, s, CallAlloc(i)), g, arena, holder)
  {
    var s' := Next(c, s, CallAlloc(i));
    LiveKept(s, s', i, Core(Lock, Alloc, 0, 0), SmallLive(g.slabs));
    StaysOutside(s, s', i, Core(Lock, Alloc, 0, 0), holder);
  }

  lemma CallFreeKeeps(c: nat, s: State, i: nat, obj: nat, g: Aux, arena: set<nat>, holder: int)
    requires Inv(c, s, g, arena, holder) && i < |s.cores| && s.cores[i].pc == Idle && obj in s.owned
    ensures Inv(c, Next(c, s, CallFree(i, obj)), g, arena, holder)
  {
    var s' := Next(c, s, CallFree(i, obj));
    CallFreeLive(s, s', i, obj, SmallLive(g.slabs));
    StaysOutside(s, s', i, Core(Check, Free, obj / 4096, obj), holder);
  }

  lemma CallFreeLive(s: State, s': State, i: nat, obj: nat, live: set<nat>)
    requires LiveOk(s, live) && i < |s.cores| && s.cores[i].pc == Idle && obj in s.owned
    requires s'.cores == s.cores[i := Core(Check, Free, obj / 4096, obj)] && s'.owned == s.owned - {obj}
    ensures LiveOk(s', live)
  {
    LiveEnters(s, s', i, Core(Check, Free, obj / 4096, obj), live, live);
  }

  /** A core without the lock that takes a step without it changes nobody else's place. */
  lemma StaysOutside(s: State, s': State, i: nat, k: Core, holder: int)
    requires Holds(s, holder) && NoPanic(s) && i < |s.cores| && !InSection(s.cores[i].pc)
    requires s'.cores == s.cores[i := k] && s'.locked == s.locked && !InSection(k.pc) && k.pc != Panicked
    requires (k.pc == Check ==> k.op == Free) && (k.op == Free && InTransit(k) ==> k.target == k.obj / 4096)
    ensures Holds(s', holder) && NoPanic(s')
  {
  }

  /** The slab of a live object. */
  lemma LiveTarget(c: nat, s: State, i: nat, g: Aux, arena: set<nat>,
                   holder: int) returns (slot: nat)
    requires Inv(c, s, g, arena, holder) && i < |s.cores| && s.cores[i].op == Free && InTransit(s.cores[i])
    ensures LiveSlot(g.slabs, s.cores[i].target, slot)
    ensures s.cores[i].obj == SlotAddress(s.cores[i].target, g.slabs[s.cores[i].target].cache % 8, slot)
  {
    assert s.cores[i].obj in Transit(s.cores);
    var x;
    x, slot := SmallLiveIn(g.slabs, s.cores[i].obj);
  }

  lemma InvHeaders(c: nat, s: State, g: Aux, arena: set<nat>, holder: int)
    requires Inv(c, s, g, arena, holder)
    ensures HeadersOk(c, s.m, g.slabs)
  {
    if holder == NIL {
      BaseHeaders(c, g, arena, {});
    } else {
      HeadersHold(c, s.m, s.cores[holder], g, arena);
    }
  }

  lemma CheckKeeps(c: nat, s: State, i: nat, page: nat, formatted: Page, g: Aux, arena: set<nat>,
                   holder: int)
    requires Inv(c, s, g, arena, holder) && i < |s.cores| && s.cores[i].pc == Check && s.cores[i].op == Free
    ensures Inv(c, GoNext(c, s, i, page, formatted), g, arena, holder)
  {
    var slot := LiveTarget(c, s, i, g, arena, holder);
    InvHeaders(c, s, g, arena, holder);
    var s' := GoNext(c, s, i, page, formatted);
    assert s'.cores[i] == s.cores[i].(pc := Lock);
    LiveKept(s, s', i, s'.cores[i], SmallLive(g.slabs));
    StaysOutside(s, s', i, s'.cores[i], holder);
  }

  /** The core that finds the flag clear starts from memory in which the slab invariant holds. */
  lemma EnterSection(c: nat, m: Mem, k: Core, g: Aux, arena: set<nat>)
    requires m == g.base && OkAux(c, g, arena, {})
    requires if k.op == Alloc then k.pc == Head else k.pc == StoreWord && GivenBack(c, k.target, k.obj, g)
    ensures g in Accounts(c, m, k, arena)
  {
    if k.op == Free {
      assert ShapeOk(m.mem, |m.partial|, g.slabs, k.target);
    }
  }

  lemma LockKeeps(c: nat, s: State, i: nat, page: nat, formatted: Page, g: Aux, arena: set<nat>,
                  holder: int)
    returns (g': Aux)
    requires Inv(c, s, g, arena, holder) && i < |s.cores| && s.cores[i].pc == Lock && !s.locked
    ensures Inv(c, GoNext(c, s, i, page, formatted), g', arena, i)
  {
    g' := g;
    if s.cores[i].op == Free {
      var slot := LiveTarget(c, s, i, g, arena, holder);
      g' := g.(slot := slot);
    }
    var s' := GoNext(c, s, i, page, formatted);
    EnterSection(c, s.m, s'.cores[i], g', arena);
    LiveKept(s, s', i, s'.cores[i], SmallLive(g.slabs));
  }

  lemma AtUnlock(c: nat, m: Mem, k: Core, g: Aux, arena: set<nat>)
    requires g in Accounts(c, m, k, arena) && k.pc == Unlock
    ensures m == g.base && OkAux(c, g, arena, {})
  {
  }

  lemma UnlockKeeps(c: nat, s: State, i: nat, page: nat, formatted: Page, g: Aux, arena: set<nat>,
                    holder: int)
    requires Inv(c, s, g, arena, holder) && i < |s.cores| && s.cores[i].pc == Unlock
    ensures Inv(c, GoNext(c, s, i, page, formatted), g, arena, NIL)
  {
    var s' := GoNext(c, s, i, page, formatted);
    AtUnlock(c, s.m, s.cores[i], g, arena);
    if InTransit(s.cores[i]) {
      LiveLeaves(s, s', i, s'.cores[i], SmallLive(g.slabs), SmallLive(g.slabs));
    } else {
      LiveKept(s, s', i, s'.cores[i], SmallLive(g.slabs));
    }
  }

  lemma StaysHolder(c: nat, s: State, i: nat, page: nat, formatted: Page, holder: int)
    requires Holds(s, holder) && NoPanic(s) && i < |s.cores| && InSection(s.cores[i].pc) && s.cores[i].pc != Unlock
    ensures i == holder
    ensures var s' := GoNext(c, s, i, page, formatted);
            && Holds(s', holder) && NoPanic(s')
            && s'.m == SectionStep(c, s.m, s.cores[i], page, formatted).0
            && s'.cores[i] == SectionStep(c, s.m, s.cores[i], page, formatted).1
  {
    TowardsUnlock(c, s.m, s.cores[i], page, formatted);
    SectionTransit(c, s.m, s.cores[i], page, formatted);
  }

  lemma HolderKeeps(c: nat, s: State, i: nat, page: nat, formatted: Page, g: Aux, arena: set<nat>,
                    holder: int)
    returns (g': Aux)
    requires Inv(c, s, g, arena, holder) && i < |s.cores| && InSection(s.cores[i].pc) && s.cores[i].pc != Unlock
    requires PageChoice(c, s.m, s.cores[i], page, formatted)
    ensures Inv(c, GoNext(c, s, i, page, formatted), g', arena, holder)
  {
    g' := SectionKeeps(c, s.m, s.cores[i], page, formatted, g, arena);
    StaysHolder(c, s, i, page, formatted, holder);
    SectionLive(c, s, GoNext(c, s, i, page, formatted), i, page, formatted, SmallLive(g.slabs), SmallLive(g'.slabs));
  }

  /** Every step of every core keeps the invariant. */
  lemma StepKeeps(c: nat, s: State, step: Step, g: Aux, arena: set<nat>, holder: int)
    returns (g': Aux, holder': int)
    requires Inv(c, s, g, arena, holder) && Possible(c, s, step)
    ensures Inv(c, Next(c, s, step), g', arena, holder')
  {
    g', holder' := g, holder;
    if Next(c, s, step) == s {
      return;
    }
    match step
    case CallAlloc(i) => CallAllocKeeps(c, s, i, g, arena, holder);
    case CallFree(i, obj) => CallFreeKeeps(c, s, i, obj, g, arena, holder);
    case Go(i, page, formatted) =>
      if s.cores[i].pc == Check {
        CheckKeeps(c, s, i, page, formatted, g, arena, holder);
      } else if s.cores[i].pc == Lock {
        g' := LockKeeps(c, s, i, page, formatted, g, arena, holder);
        holder' := i;
      } else if s.cores[i].pc == Unlock {
        UnlockKeeps(c, s, i, page, formatted, g, arena, holder);
        holder' := NIL;
      } else {
        g' := HolderKeeps(c, s, i, page, formatted, g, arena, holder);
      }
  }

  /** A new cache: no slab, no call under way. */
  ghost predicate Initial(c: nat, s: State) {
    && !s.locked && s.owned == {} && |s.m.next| == |s.m.prev| == |s.m.mem| && c < |s.m.partial|
    && (forall d :: 0 <= d < |s.m.partial| ==> s.m.partial[d] == NIL)
    && (forall x :: x in s.m.free ==> 0 < x < |s.m.mem|)
    && forall i :: 0 <= i < |s.cores| ==> s.cores[i].pc == Idle
  }

  function NoSlabs(n: nat): (r: seq<seq<nat>>)
    ensures |r| == n && forall d :: 0 <= d < n ==> r[d] == []
  {
    if n == 0 then [] else NoSlabs(n - 1) + [[]]
  }

  lemma InitialInv(c: nat, s: State) returns (g: Aux)
    requires Initial(c, s)
    ensures Inv(c, s, g, s.m.free, NIL)
  {
    g := Aux(s.m, map[], NoSlabs(|s.m.partial|), 0);
    assert RunPages(map[]) == {};
    assert SmallLive(map[]) == {};
    assert Transit(s.cores) == {};
  }

  function Run(c: nat, s: State, steps: seq<Step>): State
    decreases |steps|
  {
    if steps == [] then s else Run(c, Next(c, s, steps[0]), steps[1..])
  }

  ghost predicate Feasible(c: nat, s: State, steps: seq<Step>)
    decreases |steps|
  {
    steps == [] || (Possible(c, s, steps[0]) && Feasible(c, Next(c, s, steps[0]), steps[1..]))
  }

  lemma {:induction false} RunKeeps(c: nat, s: State, steps: seq<Step>, g: Aux, arena: set<nat>, holder: int)
    returns (g': Aux, holder': int)
    requires Inv(c, s, g, arena, holder) && Feasible(c, s, steps)
    ensures Inv(c, Run(c, s, steps), g', arena, holder')
    decreases |steps|
  {
    g', holder' := g, holder;
    if steps != [] {
      g', holder' := StepKeeps(c, s, steps[0], g, arena, holder);
      g', holder' := RunKeeps(c, Next(c, s, steps[0]), steps[1..], g', arena, holder');
    }
  }

  /** In every interleaving at most one core is between lock and unlock, and the flag is set
      exactly when there is one; no header check fails. */
  lemma MutualExclusion(c: nat, s: State, steps: seq<Step>)
    requires Initial(c, s) && Feasible(c, s, steps)
    ensures var t := Run(c, s, steps);
            && (forall i, j :: 0 <= i < j < |t.cores| ==> !(InSection(t.cores[i].pc) && InSection(t.cores[j].pc)))
            && (t.locked <==> exists i :: 0 <= i < |t.cores| && InSection(t.cores[i].pc))
            && (forall i :: 0 <= i < |t.cores| ==> t.cores[i].pc != Panicked)
  {
    var g := InitialInv(c, s);
    var g', holder := RunKeeps(c, s, steps, g, s.m.free, NIL);
    var t := Run(c, s, steps);
    if t.locked {
      assert InSection(t.cores[holder].pc);
    }
  }

  /** The slab invariant, as a property of the memory: some set of slabs explains it, whose
      live objects are those given, and which shares the pages with the free ones. */
  ghost predicate SlabsHold(c: nat, m: Mem, live: set<nat>, arena: set<nat>) {
    exists slabs: Slabs, lists: seq<seq<nat>> :: Ok(c, m, slabs, lists, arena, {}) && SmallLive(slabs) == live
  }

  /** Whenever the lock is free, the slab invariant holds, and the objects that are out are
      those the callers own and those in calls of free that have not got the lock yet. */
  lemma UnlockedIsSound(c: nat, s: State, steps: seq<Step>)
    requires Initial(c, s) && Feasible(c, s, steps) && !Run(c, s, steps).locked
    ensures var t := Run(c, s, steps);
            && SlabsHold(c, t.m, t.owned + Transit(t.cores), s.m.free)
            && t.owned !! Transit(t.cores)
            && forall i :: 0 <= i < |t.cores| && InTransit(t.cores[i]) ==>
                  t.cores[i].op == Free && t.cores[i].pc in {Check, Lock}
  {
    var g := InitialInv(c, s);
    var g', holder := RunKeeps(c, s, steps, g, s.m.free, NIL);
    var t := Run(c, s, steps);
    assert Ok(c, t.m, g'.slabs, g'.lists, s.m.free, {}) && SmallLive(g'.slabs) == t.owned + Transit(t.cores);
  }
}
