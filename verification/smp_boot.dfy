/** smp_start_aps and ap_entry: how the bootstrap processor (BSP) starts the application
    processors (APs) one after the other through one trampoline. */
module SmpBoot {
  import opened ApCpus

  datatype BspPc = PatchCr3 | PatchRsp | PatchEntry | PatchCpu | SendInit | SendSipi1 | SendSipi2 | Wait | Finished

  datatype ApPc = Halted | WaitForSipi
    | LoadCr3 | LoadRsp | LoadCpu | JumpEntry
    | InitCpu | BuildCaches | ReadTail | PushBack | CountOnline
    | Online | Lost

  datatype Ipi = Init | Sipi

  /** The patched words of the trampoline; a CPU pointer is an index into ap_cpus. */
  datatype Slots = Slots(cr3: nat, rsp: nat, entry: nat, cpu: nat)

  /** An AP: interrupts under way to it, its registers, its GS base, and the list tail it
      read while appending its caches. */
  datatype Core = Core(pc: ApPc, queue: seq<Ipi>, cr3: nat, rsp: nat, cpu: nat, gs: nat, tail: nat)

  /** sent: the interrupts sent so far, with the APIC id they went to. caches is
      ap_kmalloc_caches, each entry by the id of the processor that built it. */
  datatype State = State(bsp: BspPc, i: nat, expected: nat, slots: Slots, cores: seq<Core>, sent: seq<(nat, Ipi)>,
                         caches: seq<nat>, online: nat)

  datatype Boot = Boot(aps: seq<Cpu>, cr3: nat, entry: nat)

  datatype Step = BspStep | ApStep(core: nat) | Deliver(core: nat)

  function LoopHead(b: Boot, i: nat): BspPc {
    if i < |b.aps| then PatchCr3 else Finished
  }

  /** A write to the interrupt command register reaches every core with that APIC id. */
  function Send(b: Boot, cores: seq<Core>, lapic: nat, ipi: Ipi): seq<Core>
    requires |cores| == |b.aps|
  {
    seq(|cores|, c requires 0 <= c < |cores| =>
      if b.aps[c].lapicId == lapic then cores[c].(queue := cores[c].queue + [ipi]) else cores[c])
  }

  /** Sends an interrupt to the current AP. */
  function Signal(b: Boot, s: State, ipi: Ipi): State
    requires |s.cores| == |b.aps| && s.i < |b.aps|
  {
    var lapic := b.aps[s.i].lapicId;
    s.(cores := Send(b, s.cores, lapic, ipi), sent := s.sent + [(lapic, ipi)])
  }

  function BspNext(b: Boot, s: State): State
    requires |s.cores| == |b.aps|
  {
    if s.i >= |b.aps| then s
    else match s.bsp
      case PatchCr3 => s.(slots := s.slots.(cr3 := b.cr3), bsp := PatchRsp)
      case PatchRsp => s.(slots := s.slots.(rsp := b.aps[s.i].kernelStack), bsp := PatchEntry)
      case PatchEntry => s.(slots := s.slots.(entry := b.entry), bsp := PatchCpu)
      case PatchCpu => s.(slots := s.slots.(cpu := s.i), bsp := SendInit)
      case SendInit => Signal(b, s, Init).(bsp := SendSipi1)
      case SendSipi1 => Signal(b, s, Sipi).(bsp := SendSipi2)
      case SendSipi2 => Signal(b, s, Sipi).(expected := s.expected + 1, bsp := Wait)
      case Wait => if s.online < s.expected then s else s.(i := s.i + 1, bsp := LoopHead(b, s.i + 1))
      case Finished => s
  }

  /** cpu_id of the object a CPU pointer refers to. */
  function CpuIdAt(b: Boot, cpu: nat): nat {
    if cpu < |b.aps| then b.aps[cpu].cpuId else 0
  }

  function ApNext(b: Boot, s: State, c: nat): State
    requires c < |s.cores|
  {
    var k := s.cores[c];
    match k.pc
    case LoadCr3 => s.(cores := s.cores[c := k.(cr3 := s.slots.cr3, pc := LoadRsp)])
    case LoadRsp => s.(cores := s.cores[c := k.(rsp := s.slots.rsp, pc := LoadCpu)])
    case LoadCpu => s.(cores := s.cores[c := k.(cpu := s.slots.cpu, pc := JumpEntry)])
    case JumpEntry => s.(cores := s.cores[c := k.(pc := if s.slots.entry == b.entry then InitCpu else Lost)])
    case InitCpu => s.(cores := s.cores[c := k.(gs := k.cpu, pc := BuildCaches)])
    case BuildCaches => s.(cores := s.cores[c := k.(pc := ReadTail)])
    case ReadTail => s.(cores := s.cores[c := k.(tail := |s.caches|, pc := PushBack)])
    case PushBack =>
      var kept := if k.tail <= |s.caches| then s.caches[..k.tail] else s.caches;
      s.(cores := s.cores[c := k.(pc := CountOnline)], caches := kept + [CpuIdAt(b, k.gs)])
    case CountOnline => s.(cores := s.cores[c := k.(pc := Online)], online := s.online + 1)
    case _ => s
  }

  /** Interrupts arrive in the order sent, at any later time. INIT resets a core; a SIPI
      starts one that waits for it, and is ignored by any other. */
  function DeliverNext(s: State, c: nat): State
    requires c < |s.cores|
  {
    var k := s.cores[c];
    if k.queue == [] then s
    else
      var k' := k.(queue := k.queue[1..]);
      match k.queue[0]
      case Init => s.(cores := s.cores[c := k'.(pc := WaitForSipi)])
      case Sipi => s.(cores := s.cores[c := if k.pc == WaitForSipi then k'.(pc := LoadCr3) else k'])
  }

  function Next(b: Boot, s: State, step: Step): (t: State)
    requires |s.cores| == |b.aps|
    ensures |t.cores| == |b.aps|
  {
    match step
    case BspStep => BspNext(b, s)
    case ApStep(c) => if c < |s.cores| then ApNext(b, s, c) else s
    case Deliver(c) => if c < |s.cores| then DeliverNext(s, c) else s
  }

  /** The APs wait for INIT with an empty queue; all else is left over from before. */
  ghost predicate Initial(b: Boot, s: State) {
    && s.bsp == LoopHead(b, 0) && s.i == 0 && s.expected == 0 && s.sent == [] && s.caches == [] && s.online == 0
    && |s.cores| == |b.aps|
    && forall c :: 0 <= c < |s.cores| ==> CoreIdle(s.cores[c])
  }

  ghost predicate CoreIdle(k: Core) {
    k.pc == Halted && k.queue == []
  }

  ghost predicate AllSipi(queue: seq<Ipi>) {
    forall m :: 0 <= m < |queue| ==> queue[m] == Sipi
  }

  ghost predicate CoreDone(k: Core) {
    k.pc == Online && AllSipi(k.queue)
  }

  function ApRank(pc: ApPc): nat {
    match pc
    case Halted => 0
    case WaitForSipi => 1
    case LoadCr3 => 2
    case LoadRsp => 3
    case LoadCpu => 4
    case JumpEntry => 5
    case InitCpu => 6
    case BuildCaches => 7
    case ReadTail => 8
    case PushBack => 9
    case CountOnline => 10
    case Online => 11
    case Lost => 0
  }

  function BspRank(pc: BspPc): nat {
    match pc
    case PatchCr3 => 0
    case PatchRsp => 1
    case PatchEntry => 2
    case PatchCpu => 3
    case SendInit => 4
    case SendSipi1 => 5
    case SendSipi2 => 6
    case Wait => 7
    case Finished => 8
  }

  /** The core the BSP is working on, after its INIT was sent. */
  ghost predicate CoreBooting(k: Core, bsp: BspPc) {
    && k.pc != Lost
    && (k.pc == Halted ==>
          && |k.queue| >= 1 && k.queue[0] == Init && AllSipi(k.queue[1..])
          && (bsp == SendSipi1 <==> |k.queue| == 1))
    && (k.pc == WaitForSipi ==> AllSipi(k.queue) && (bsp == SendSipi1 <==> k.queue == []))
    && (ApRank(k.pc) >= 2 ==> AllSipi(k.queue) && bsp != SendSipi1)
  }

  ghost predicate CurrentOk(k: Core, bsp: BspPc) {
    if BspRank(bsp) <= 4 then CoreIdle(k) else CoreBooting(k, bsp)
  }

  /** Once loaded, the registers are those meant for this core. */
  ghost predicate RegistersOk(b: Boot, k: Core, c: nat)
    requires c < |b.aps|
  {
    && (ApRank(k.pc) > 2 ==> k.cr3 == b.cr3)
    && (ApRank(k.pc) > 3 ==> k.rsp == b.aps[c].kernelStack)
    && (ApRank(k.pc) > 4 ==> k.cpu == c)
    && (ApRank(k.pc) > 6 ==> k.gs == c)
  }

  ghost predicate SlotsOk(b: Boot, s: State)
    requires s.i < |b.aps|
  {
    && (BspRank(s.bsp) > 0 ==> s.slots.cr3 == b.cr3)
    && (BspRank(s.bsp) > 1 ==> s.slots.rsp == b.aps[s.i].kernelStack)
    && (BspRank(s.bsp) > 2 ==> s.slots.entry == b.entry)
    && (BspRank(s.bsp) > 3 ==> s.slots.cpu == s.i)
  }

  /** 1 if the current core has come as far as a rank. */
  function Reached(s: State, rank: nat): nat {
    if s.i < |s.cores| && ApRank(s.cores[s.i].pc) >= rank then 1 else 0
  }

  ghost predicate CoresOk(b: Boot, s: State)
    requires |s.cores| == |b.aps|
  {
    && (forall c :: 0 <= c < |s.cores| && c < s.i ==> CoreDone(s.cores[c]))
    && (forall c :: 0 <= c < |s.cores| && c > s.i ==> CoreIdle(s.cores[c]))
    && (forall c :: 0 <= c < |s.cores| ==> RegistersOk(b, s.cores[c], c))
  }

  ghost predicate CachesOk(b: Boot, caches: seq<nat>) {
    |caches| <= |b.aps| && forall j :: 0 <= j < |caches| ==> caches[j] == b.aps[j].cpuId
  }

  ghost predicate CountsOk(b: Boot, s: State) {
    && s.online == s.i + Reached(s, 11)
    && s.expected == s.i + (if s.bsp == Wait then 1 else 0)
    && |s.caches| == s.i + Reached(s, 10)
    && CachesOk(b, s.caches)
  }

  ghost predicate Inv(b: Boot, s: State) {
    && |s.cores| == |b.aps| && s.i <= |b.aps|
    && (s.bsp == Finished <==> s.i == |b.aps|)
    && CoresOk(b, s)
    && (s.i < |b.aps| ==>
          && CurrentOk(s.cores[s.i], s.bsp) && SlotsOk(b, s)
          && (s.cores[s.i].pc == PushBack ==> s.cores[s.i].tail == |s.caches|))
    && CountsOk(b, s)
  }

  ghost predicate DistinctLapics(b: Boot) {
    forall i, j :: 0 <= i < j < |b.aps| ==> b.aps[i].lapicId != b.aps[j].lapicId
  }

  lemma InitialInv(b: Boot, s: State)
    requires Initial(b, s)
    ensures Inv(b, s)
  {
  }

  /** With distinct APIC ids an interrupt goes to one core. */
  lemma SendsToOne(b: Boot, cores: seq<Core>, i: nat, ipi: Ipi)
    requires |cores| == |b.aps| && i < |cores| && DistinctLapics(b)
    ensures Send(b, cores, b.aps[i].lapicId, ipi) == cores[i := cores[i].(queue := cores[i].queue + [ipi])]
  {
  }

  lemma PatchKeeps(b: Boot, s: State)
    requires Inv(b, s) && s.i < |b.aps| && BspRank(s.bsp) <= 3
    ensures Inv(b, BspNext(b, s))
  {
    var t := BspNext(b, s);
    assert t.cores == s.cores && t.i == s.i && t.caches == s.caches && t.online == s.online && t.expected == s.expected;
  }

  /** Only the queue of the current core changes. */
  lemma SendKeeps(b: Boot, s: State)
    requires Inv(b, s) && s.i < |b.aps| && 4 <= BspRank(s.bsp) <= 6 && DistinctLapics(b)
    ensures Inv(b, BspNext(b, s))
  {
    var t := BspNext(b, s);
    var k, ipi := s.cores[s.i], if s.bsp == SendInit then Init else Sipi;
    SendsToOne(b, s.cores, s.i, ipi);
    QueueGrows(k, s.bsp, ipi);
    assert forall c :: 0 <= c < |s.cores| && c != s.i ==> t.cores[c] == s.cores[c];
    assert t.cores[s.i] == k.(queue := k.queue + [ipi]);
  }

  lemma QueueGrows(k: Core, bsp: BspPc, ipi: Ipi)
    requires 4 <= BspRank(bsp) <= 6 && CurrentOk(k, bsp) && (ipi == Init <==> bsp == SendInit)
    ensures CoreBooting(k.(queue := k.queue + [ipi]), if bsp == SendInit then SendSipi1
                        else if bsp == SendSipi1 then SendSipi2 else Wait)
  {
    var q := k.queue + [ipi];
    assert |k.queue| >= 1 ==> q[1..] == k.queue[1..] + [ipi];
  }

  /** The BSP goes on only when the current core is online. */
  lemma WaitKeeps(b: Boot, s: State)
    requires Inv(b, s) && s.i < |b.aps| && s.bsp == Wait
    ensures Inv(b, BspNext(b, s))
  {
    var t := BspNext(b, s);
    if s.online >= s.expected {
      assert s.cores[s.i].pc == Online;
      assert t.cores == s.cores && t.i == s.i + 1;
      assert Reached(t, 11) == 0 && Reached(t, 10) == 0;
    }
  }

  lemma BspKeeps(b: Boot, s: State)
    requires Inv(b, s) && DistinctLapics(b)
    ensures Inv(b, BspNext(b, s))
  {
    if s.i < |b.aps| {
      if BspRank(s.bsp) <= 3 {
        PatchKeeps(b, s);
      } else if BspRank(s.bsp) <= 6 {
        SendKeeps(b, s);
      } else {
        WaitKeeps(b, s);
      }
    }
  }

  /** Only the core the BSP is waiting for takes steps. */
  lemma OnlyCurrentRuns(b: Boot, s: State, c: nat)
    requires Inv(b, s) && c < |s.cores| && ApNext(b, s, c) != s
    ensures c == s.i && 2 <= ApRank(s.cores[c].pc) <= 10 && BspRank(s.bsp) >= 6
  {
  }

  /** A change to one core that leaves it as its position demands. */
  lemma CoresFrame(b: Boot, s: State, t: State, c: nat, k: Core)
    requires Inv(b, s) && c < |s.cores| && t.cores == s.cores[c := k] && t.i == s.i && RegistersOk(b, k, c)
    requires (c < s.i ==> CoreDone(k)) && (c > s.i ==> CoreIdle(k))
    ensures CoresOk(b, t)
  {
  }

  /** In the trampoline, the current core loads its own values. */
  lemma TrampolineKeeps(b: Boot, s: State)
    requires Inv(b, s) && s.i < |s.cores| && 2 <= ApRank(s.cores[s.i].pc) <= 5
    ensures Inv(b, ApNext(b, s, s.i))
  {
    var t := ApNext(b, s, s.i);
    assert RegistersOk(b, s.cores[s.i], s.i);
    CoresFrame(b, s, t, s.i, t.cores[s.i]);
  }

  /** In ap_entry, it appends its own caches and then counts itself. */
  lemma EntryKeeps(b: Boot, s: State)
    requires Inv(b, s) && s.i < |s.cores| && 6 <= ApRank(s.cores[s.i].pc) <= 10
    ensures Inv(b, ApNext(b, s, s.i))
  {
    var t := ApNext(b, s, s.i);
    assert RegistersOk(b, s.cores[s.i], s.i);
    CoresFrame(b, s, t, s.i, t.cores[s.i]);
    if s.cores[s.i].pc == PushBack {
      assert s.caches[..|s.caches|] == s.caches;
    }
  }

  lemma ApKeeps(b: Boot, s: State, c: nat)
    requires Inv(b, s) && c < |s.cores|
    ensures Inv(b, ApNext(b, s, c))
  {
    if ApNext(b, s, c) != s {
      OnlyCurrentRuns(b, s, c);
      if ApRank(s.cores[c].pc) <= 5 {
        TrampolineKeeps(b, s);
      } else {
        EntryKeeps(b, s);
      }
    }
  }

  lemma DeliverKeeps(b: Boot, s: State, c: nat)
    requires Inv(b, s) && c < |s.cores|
    ensures Inv(b, DeliverNext(s, c))
  {
    var t := DeliverNext(s, c);
    var k := s.cores[c];
    if k.queue != [] {
      assert c <= s.i && RegistersOk(b, k, c);
      if c == s.i {
        QueueShrinks(k, s.bsp, t.cores[c]);
      }
      CoresFrame(b, s, t, c, t.cores[c]);
    }
  }

  lemma QueueShrinks(k: Core, bsp: BspPc, k': Core)
    requires CurrentOk(k, bsp) && k.queue != [] && k'.queue == k.queue[1..]
    requires k'.pc == if k.queue[0] == Init then WaitForSipi else if k.pc == WaitForSipi then LoadCr3 else k.pc
    ensures CoreBooting(k', bsp) && BspRank(bsp) > 4
    ensures k.queue[0] == Init ==> k.pc == Halted
  {
  }

  lemma StepKeeps(b: Boot, s: State, step: Step)
    requires Inv(b, s) && DistinctLapics(b)
    ensures Inv(b, Next(b, s, step))
  {
    match step
    case BspStep => BspKeeps(b, s);
    case ApStep(c) => if c < |s.cores| { ApKeeps(b, s, c); }
    case Deliver(c) => if c < |s.cores| { DeliverKeeps(b, s, c); }
  }

  /** Any interleaving: a sequence of steps of the BSP, the APs and the interrupt lines. */
  function Run(b: Boot, s: State, steps: seq<Step>): (t: State)
    requires |s.cores| == |b.aps|
    ensures |t.cores| == |b.aps|
    decreases |steps|
  {
    if steps == [] then s else Run(b, Next(b, s, steps[0]), steps[1..])
  }

  lemma {:induction false} RunKeeps(b: Boot, s: State, steps: seq<Step>)
    requires Inv(b, s) && DistinctLapics(b)
    ensures Inv(b, Run(b, s, steps))
    decreases |steps|
  {
    if steps != [] {
      StepKeeps(b, s, steps[0]);
      RunKeeps(b, Next(b, s, steps[0]), steps[1..]);
    }
  }

  /** Between its first SIPI and its ap_online_count++. */
  ghost predicate InFlight(k: Core) {
    2 <= ApRank(k.pc) < 11 || (ApRank(k.pc) < 2 && Sipi in k.queue)
  }

  lemma InFlightIsCurrent(b: Boot, s: State, c: nat)
    requires Inv(b, s) && c < |s.cores| && InFlight(s.cores[c])
    ensures c == s.i && BspRank(s.bsp) > 4
  {
    assert c > s.i ==> CoreIdle(s.cores[c]);
    assert c < s.i ==> CoreDone(s.cores[c]);
  }

  /** In every interleaving at most one AP is in flight, and the trampoline holds its values
      and its alone. */
  lemma OneInFlight(b: Boot, s: State, steps: seq<Step>, c: nat)
    requires Initial(b, s) && DistinctLapics(b)
    requires c < |b.aps| && InFlight(Run(b, s, steps).cores[c])
    ensures var t := Run(b, s, steps);
            && t.slots == Slots(b.cr3, b.aps[c].kernelStack, b.entry, c)
            && forall d :: 0 <= d < |t.cores| && InFlight(t.cores[d]) ==> d == c
  {
    InitialInv(b, s);
    RunKeeps(b, s, steps);
    var t := Run(b, s, steps);
    forall d | 0 <= d < |t.cores| && InFlight(t.cores[d]) ensures d == t.i && BspRank(t.bsp) > 4 {
      InFlightIsCurrent(b, t, d);
    }
  }

  /** No AP ever runs on another's stack, or as another, or leaves the path. */
  lemma OwnIdentity(b: Boot, s: State, steps: seq<Step>, c: nat)
    requires Initial(b, s) && DistinctLapics(b) && c < |b.aps|
    ensures var t := Run(b, s, steps);
            && t.cores[c].pc != Lost
            && (ApRank(t.cores[c].pc) > 6 ==>
                  && t.cores[c].cr3 == b.cr3 && t.cores[c].rsp == b.aps[c].kernelStack
                  && t.cores[c].cpu == c && t.cores[c].gs == c)
  {
    InitialInv(b, s);
    RunKeeps(b, s, steps);
    var t := Run(b, s, steps);
    assert RegistersOk(b, t.cores[c], c);
    assert c < t.i ==> CoreDone(t.cores[c]);
    assert c > t.i ==> CoreIdle(t.cores[c]);
  }

  /** The APs that are online are the first ones, each behind its own entry of the list of
      caches: get_kmalloc_cache on processor id finds the caches of that processor at id - 1. */
  lemma CachesInOrder(b: Boot, s: State, steps: seq<Step>)
    requires Initial(b, s) && DistinctLapics(b)
    requires forall j :: 0 <= j < |b.aps| ==> b.aps[j].cpuId == j + 1
    ensures var t := Run(b, s, steps);
            && (forall c :: 0 <= c < |t.cores| ==> (t.cores[c].pc == Online <==> c < t.online))
            && t.online <= |t.caches| <= t.online + 1
            && (forall j :: 0 <= j < |t.caches| ==> t.caches[j] == j + 1)
            && (t.bsp == Finished ==> t.online == |t.caches| == |b.aps|)
  {
    InitialInv(b, s);
    RunKeeps(b, s, steps);
    var t := Run(b, s, steps);
    forall c | 0 <= c < |t.cores| ensures t.cores[c].pc == Online <==> c < t.online {
      assert c < t.i ==> CoreDone(t.cores[c]);
      assert c > t.i ==> CoreIdle(t.cores[c]);
    }
  }

  /** INIT, SIPI, SIPI, to each AP in turn. */
  function Sequence(b: Boot, n: nat): seq<(nat, Ipi)>
    requires n <= |b.aps|
  {
    if n == 0 then []
    else
      var lapic := b.aps[n - 1].lapicId;
      Sequence(b, n - 1) + [(lapic, Init), (lapic, Sipi), (lapic, Sipi)]
  }

  /** Those to one AP, up to a point of the loop. */
  function SentTo(lapic: nat, bsp: BspPc): seq<(nat, Ipi)> {
    if BspRank(bsp) <= 4 then []
    else if BspRank(bsp) == 5 then [(lapic, Init)]
    else if BspRank(bsp) == 6 then [(lapic, Init), (lapic, Sipi)]
    else [(lapic, Init), (lapic, Sipi), (lapic, Sipi)]
  }

  ghost predicate SentInOrder(b: Boot, s: State) {
    && s.i <= |b.aps| && (s.bsp == Finished <==> s.i == |b.aps|)
    && s.sent == Sequence(b, s.i) + if s.i == |b.aps| then [] else SentTo(b.aps[s.i].lapicId, s.bsp)
  }

  lemma SendingKeeps(b: Boot, s: State, step: Step)
    requires |s.cores| == |b.aps| && SentInOrder(b, s)
    ensures SentInOrder(b, Next(b, s, step))
  {
    if step.BspStep? && s.i < |b.aps| {
      var lapic := b.aps[s.i].lapicId;
      if s.bsp == SendInit || s.bsp == SendSipi1 || s.bsp == SendSipi2 {
        Appended(Sequence(b, s.i), SentTo(lapic, s.bsp), (lapic, if s.bsp == SendInit then Init else Sipi));
      } else if s.bsp == Wait {
        assert Sequence(b, s.i + 1) == Sequence(b, s.i) + SentTo(lapic, Wait);
      }
    }
  }

  lemma Appended(a: seq<(nat, Ipi)>, c: seq<(nat, Ipi)>, x: (nat, Ipi))
    ensures a + c + [x] == a + (c + [x])
  {
  }

  lemma {:induction false} RunSends(b: Boot, s: State, steps: seq<Step>)
    requires |s.cores| == |b.aps| && SentInOrder(b, s)
    ensures SentInOrder(b, Run(b, s, steps))
    decreases |steps|
  {
    if steps != [] {
      SendingKeeps(b, s, steps[0]);
      RunSends(b, Next(b, s, steps[0]), steps[1..]);
    }
  }

  /** In every interleaving the BSP has sent INIT, SIPI, SIPI to each AP before the current one, in
      turn, and to the current one before it waits. */
  lemma SequenceSent(b: Boot, s: State, steps: seq<Step>)
    requires Initial(b, s)
    ensures var t := Run(b, s, steps);
            && t.i <= |b.aps| && Sequence(b, t.i) <= t.sent
            && (t.bsp == Wait ==> t.i < |b.aps| && t.sent == Sequence(b, t.i + 1))
            && (t.bsp == Finished ==> t.sent == Sequence(b, |b.aps|))
  {
    RunSends(b, s, steps);
    var t := Run(b, s, steps);
    if t.bsp == Wait {
      assert Sequence(b, t.i + 1) == Sequence(b, t.i) + SentTo(b.aps[t.i].lapicId, Wait);
    }
  }

  // Progress.

  function CoreWork(k: Core): nat {
    11 - ApRank(k.pc) + |k.queue|
  }

  function Work(cores: seq<Core>): nat {
    if cores == [] then 0 else CoreWork(cores[0]) + Work(cores[1..])
  }

  function BspWork(b: Boot, s: State): int {
    if s.i >= |b.aps| then 0 else 8 * (|b.aps| - s.i) - BspRank(s.bsp)
  }

  /** What is left to do, in steps that change anything. */
  function Remaining(b: Boot, s: State): int {
    2 * BspWork(b, s) + Work(s.cores)
  }

  lemma {:induction false} WorkUpdate(cores: seq<Core>, c: nat, k: Core)
    requires c < |cores|
    ensures Work(cores[c := k]) == Work(cores) - CoreWork(cores[c]) + CoreWork(k)
  {
    var u := cores[c := k];
    if c == 0 {
      assert u[1..] == cores[1..];
    } else {
      assert u[1..] == cores[1..][c - 1 := k];
      WorkUpdate(cores[1..], c - 1, k);
    }
  }

  lemma BspProgress(b: Boot, s: State)
    requires Inv(b, s) && DistinctLapics(b) && BspNext(b, s) != s
    ensures Remaining(b, BspNext(b, s)) < Remaining(b, s)
  {
    if 4 <= BspRank(s.bsp) <= 6 {
      var ipi := if s.bsp == SendInit then Init else Sipi;
      SendsToOne(b, s.cores, s.i, ipi);
      WorkUpdate(s.cores, s.i, s.cores[s.i].(queue := s.cores[s.i].queue + [ipi]));
    }
  }

  lemma ApProgress(b: Boot, s: State, c: nat)
    requires Inv(b, s) && c < |s.cores| && ApNext(b, s, c) != s
    ensures Remaining(b, ApNext(b, s, c)) < Remaining(b, s)
  {
    OnlyCurrentRuns(b, s, c);
    ApStepShape(b, s, c);
    WorkUpdate(s.cores, c, ApNext(b, s, c).cores[c]);
  }

  lemma ApStepShape(b: Boot, s: State, c: nat)
    requires c < |s.cores| && 2 <= ApRank(s.cores[c].pc) <= 10 && s.slots.entry == b.entry
    ensures var t := ApNext(b, s, c);
            && t.i == s.i && t.bsp == s.bsp && |t.cores| == |s.cores| && t.cores == s.cores[c := t.cores[c]]
            && CoreWork(t.cores[c]) < CoreWork(s.cores[c])
  {
  }

  lemma DeliverProgress(b: Boot, s: State, c: nat)
    requires Inv(b, s) && c < |s.cores| && s.cores[c].queue != []
    ensures Remaining(b, DeliverNext(s, c)) < Remaining(b, s)
  {
    assert c <= s.i;
    if c == s.i {
      QueueShrinks(s.cores[c], s.bsp, DeliverNext(s, c).cores[c]);
    }
    WorkUpdate(s.cores, c, DeliverNext(s, c).cores[c]);
  }

  /** Every step that changes the state uses up work, so no interleaving goes on for ever
      without idling. */
  lemma StepsRunOut(b: Boot, s: State, step: Step)
    requires Inv(b, s) && DistinctLapics(b) && Next(b, s, step) != s
    ensures 0 <= Remaining(b, Next(b, s, step)) < Remaining(b, s)
  {
    StepKeeps(b, s, step);
    match step
    case BspStep => BspProgress(b, s);
    case ApStep(c) => ApProgress(b, s, c);
    case Deliver(c) => DeliverProgress(b, s, c);
  }

  /** Until the BSP has finished, some step changes the state. */
  lemma NeverStuck(b: Boot, s: State) returns (step: Step)
    requires Inv(b, s) && s.bsp != Finished
    ensures Next(b, s, step) != s
  {
    var k := s.cores[s.i];
    if s.bsp != Wait || s.online >= s.expected {
      return BspStep;
    }
    if ApRank(k.pc) >= 2 {
      step := ApStep(s.i);
      assert ApNext(b, s, s.i).cores[s.i].pc != k.pc;
    } else {
      step := Deliver(s.i);
      assert |DeliverNext(s, s.i).cores[s.i].queue| < |k.queue|;
    }
  }

  /** From wherever an interleaving has led, the boot can still complete. */
  lemma BootCompletes(b: Boot, s: State, steps: seq<Step>) returns (more: seq<Step>)
    requires Initial(b, s) && DistinctLapics(b)
    ensures Run(b, Run(b, s, steps), more).bsp == Finished
  {
    InitialInv(b, s);
    RunKeeps(b, s, steps);
    more := Completion(b, Run(b, s, steps));
  }

  lemma {:induction false} Completion(b: Boot, s: State) returns (steps: seq<Step>)
    requires Inv(b, s) && DistinctLapics(b)
    ensures Run(b, s, steps).bsp == Finished
    decreases Remaining(b, s)
  {
    if s.bsp == Finished {
      return [];
    }
    var step := NeverStuck(b, s);
    StepKeeps(b, s, step);
    StepsRunOut(b, s, step);
    var rest := Completion(b, Next(b, s, step));
    steps := [step] + rest;
    assert steps[1..] == rest;
  }
}
