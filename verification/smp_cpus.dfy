/** alloc_ap_cpus: one CPU object for every application processor (AP). */
module ApCpus {
  import opened MemoryLayout
  import opened Links

  datatype Cpu = Cpu(cpuId: nat, lapicId: nat, kernelStack: nat)

  /** The local APIC ids other than the bootstrap processor's, in order. */
  function Others(infos: seq<nat>, bsp: nat): seq<nat> {
    if infos == [] then []
    else
      var front, last := Others(infos[..|infos| - 1], bsp), infos[|infos| - 1];
      if last == bsp then front else front + [last]
  }

  /** Processor ids count up from 1 in one byte. */
  ghost predicate Numbered(aps: seq<Cpu>, lapics: seq<nat>) {
    && |aps| == |lapics|
    && forall j :: 0 <= j < |aps| ==> aps[j].lapicId == lapics[j] && aps[j].cpuId == (j + 1) % 256
  }

  /** stacks[j] is the memory obtained for the kernel stack of the j-th processor. */
  method AllocApCpus(infos: seq<nat>, bspLapic: nat, stacks: seq<nat>) returns (aps: seq<Cpu>)
    requires |stacks| == |infos|
    ensures Numbered(aps, Others(infos, bspLapic)) && |aps| <= |infos|
    ensures forall j :: 0 <= j < |aps| ==> aps[j].kernelStack == stacks[j] + 16384
  {
    aps := [];
    var apIdCounter := 1;
    for k := 0 to |infos|
      invariant apIdCounter == (|aps| + 1) % 256 && |aps| <= k
      invariant Numbered(aps, Others(infos[..k], bspLapic))
      invariant forall j :: 0 <= j < |aps| ==> aps[j].kernelStack == stacks[j] + 16384
    {
      assert infos[..k + 1][..k] == infos[..k];
      if infos[k] != bspLapic {
        aps := aps + [Cpu(apIdCounter, infos[k], stacks[|aps|] + 16384)];
        apIdCounter := (apIdCounter + 1) % 256;
      }
    }
    assert infos[..|infos|] == infos;
  }

  lemma {:induction false} OthersMembers(infos: seq<nat>, bsp: nat)
    requires NoDuplicates(infos)
    ensures NoDuplicates(Others(infos, bsp))
    ensures forall x :: x in Others(infos, bsp) <==> x in infos && x != bsp
  {
    if infos != [] {
      var n := |infos| - 1;
      OthersMembers(infos[..n], bsp);
      assert infos == infos[..n] + [infos[n]];
      assert infos[n] !in infos[..n];
      AppendDistinct(Others(infos[..n], bsp), infos[n]);
    }
  }

  lemma AppendDistinct(s: seq<nat>, x: nat)
    requires NoDuplicates(s) && x !in s
    ensures NoDuplicates(s + [x])
  {
    forall i, j | 0 <= i < j < |s| + 1 ensures (s + [x])[i] != (s + [x])[j] {
      assert (s + [x])[i] == s[i] && s[i] in s;
    }
  }

  lemma {:induction false} DistinctFits(s: seq<nat>, room: set<nat>)
    requires NoDuplicates(s) && forall x :: x in s ==> x in room
    ensures |s| <= |room|
  {
    if s != [] {
      var n := |s| - 1;
      forall x | x in s[..n] ensures x in room - {s[n]} {
      }
      DistinctFits(s[..n], room - {s[n]});
    }
  }

  lemma {:induction false} RangeSize(n: nat)
    ensures |PfnRange(0, n)| == n
  {
    if n > 0 {
      RangeSize(n - 1);
    }
  }

  /** With distinct one-byte ids of which one is the bootstrap processor's, there are at most
      255 others, so the j-th is processor j + 1. */
  lemma IdsFollowIndex(infos: seq<nat>, bsp: nat, aps: seq<Cpu>)
    requires NoDuplicates(infos) && bsp in infos && (forall x :: x in infos ==> x < 256)
    requires Numbered(aps, Others(infos, bsp))
    ensures |aps| <= 255
    ensures forall j :: 0 <= j < |aps| ==> aps[j].cpuId == j + 1
    ensures forall i, j :: 0 <= i < j < |aps| ==> aps[i].lapicId != aps[j].lapicId
  {
    OthersMembers(infos, bsp);
    FewerOthers(infos, bsp, 256);
    IdsFollowIndexIff(aps, Others(infos, bsp));
  }

  lemma FewerOthers(infos: seq<nat>, bsp: nat, n: nat)
    requires NoDuplicates(infos) && bsp in infos && (forall x :: x in infos ==> x < n)
    ensures |Others(infos, bsp)| < n
  {
    OthersMembers(infos, bsp);
    RangeSize(n);
    DistinctFits(Others(infos, bsp), PfnRange(0, n) - {bsp});
  }

  /** One more processor, and the byte wraps: the 256th would be processor 0. */
  lemma IdsFollowIndexIff(aps: seq<Cpu>, lapics: seq<nat>)
    requires Numbered(aps, lapics)
    ensures (forall j :: 0 <= j < |aps| ==> aps[j].cpuId == j + 1) <==> |aps| <= 255
  {
    if |aps| > 255 {
      assert aps[255].cpuId == 0;
    }
  }
}
