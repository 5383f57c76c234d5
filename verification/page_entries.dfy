/** Page-table entries and virtual addresses: the bit fields of the 64-bit words, and
    the constructors that fill them. */
module PageEntries {

  datatype Flag =
    | Read | Write | Execute | User | Global | WriteThrough | NoCache | Huge2M | Huge1G | WriteCombining

  type Bits3 = n: nat | n < 8
  type Bits11 = n: nat | n < 2048
  type Bits40 = n: nat | n < 0x100_0000_0000

  /** The bit-field view of a PageTableEntry. */
  datatype Entry = Entry(
    present: bool, writable: bool, user: bool, writeThrough: bool, cacheDisable: bool,
    accessed: bool, dirty: bool, hugeOrPat: bool, global: bool,
    available0: Bits3, pfn: Bits40, available1: Bits11, noExecute: bool)
  {
    /** physical_address() */
    function PhysicalAddress(): nat {
      pfn * 4096
    }

    /** set_physical_address(): keeps bits 12..51 of the address. */
    function SetPhysicalAddress(pa: nat): Entry {
      this.(pfn := pa / 4096 % 0x100_0000_0000)
    }

    /** apply_flags() */
    function ApplyFlags(flags: set<Flag>): Entry {
      this.(writable := Write in flags,
            user := User in flags,
            writeThrough := WriteThrough in flags,
            cacheDisable := NoCache in flags || WriteCombining in flags,
            global := Global in flags,
            noExecute := Execute !in flags,
            hugeOrPat := Huge2M in flags || Huge1G in flags || WriteCombining in flags)
    }
  }

  const EMPTY: Entry :=
    Entry(false, false, false, false, false, false, false, false, false, 0, 0, 0, false)

  function MakeTable(nextPhys: nat, user: bool): Entry {
    EMPTY.(present := true, writable := true, user := user).SetPhysicalAddress(nextPhys)
  }

  function MakePage(phys: nat, flags: set<Flag>): Entry {
    EMPTY.(present := true).SetPhysicalAddress(phys).ApplyFlags(flags)
  }

  function MakeHuge(phys: nat, flags: set<Flag>): Entry {
    EMPTY.(present := true, hugeOrPat := true).SetPhysicalAddress(phys).ApplyFlags(flags)
  }

  function Bit(b: bool): nat {
    if b then 1 else 0
  }

  /** Places a field of some width below the bits already laid out. */
  function Put(value: nat, range: nat, above: nat): nat {
    value + range * above
  }

  lemma PutSplits(value: nat, range: nat, above: nat)
    requires value < range
    ensures Put(value, range, above) % range == value && Put(value, range, above) / range == above
  {
    var x := Put(value, range, above);
    var q := x / range;
    assert x == q * range + x % range;
    assert (q - above) * range == value - x % range;
    if q != above {
      ProductIsLarge(q - above, range);
      assert false;
    }
  }

  lemma ProductIsLarge(d: int, range: nat)
    requires d != 0
    ensures d * range >= range || d * range <= 0 - range
  {
  }

  const NUM_FIELDS: nat := 13

  /** The fields in layout order, from bit 0 up, and how many values each can take. */
  function FieldValue(e: Entry, n: nat): nat {
    match n
    case 0 => Bit(e.present)
    case 1 => Bit(e.writable)
    case 2 => Bit(e.user)
    case 3 => Bit(e.writeThrough)
    case 4 => Bit(e.cacheDisable)
    case 5 => Bit(e.accessed)
    case 6 => Bit(e.dirty)
    case 7 => Bit(e.hugeOrPat)
    case 8 => Bit(e.global)
    case 9 => e.available0
    case 10 => e.pfn
    case 11 => e.available1
    case _ => Bit(e.noExecute)
  }

  function FieldRange(n: nat): (r: nat)
    ensures r > 0
  {
    if n == 9 then 8 else if n == 10 then 0x100_0000_0000 else if n == 11 then 2048 else 2
  }

  /** The fields from number n up, packed. */
  function Packed(e: Entry, n: nat): nat
    requires n <= NUM_FIELDS
    decreases NUM_FIELDS - n
  {
    if n == NUM_FIELDS then 0 else Put(FieldValue(e, n), FieldRange(n), Packed(e, n + 1))
  }

  /** The 64-bit word of an entry. */
  function Raw(e: Entry): nat {
    Packed(e, 0)
  }

  /** The word shifted down to where field n starts. */
  function ShiftedTo(raw: nat, n: nat): nat {
    if n == 0 then raw else ShiftedTo(raw, n - 1) / FieldRange(n - 1)
  }

  /** Field n of a word: shift, then mask. */
  function ReadField(raw: nat, n: nat): nat {
    ShiftedTo(raw, n) % FieldRange(n)
  }

  lemma FieldFits(e: Entry, n: nat)
    ensures FieldValue(e, n) < FieldRange(n)
  {
  }

  lemma PackedSplits(e: Entry, n: nat)
    requires n < NUM_FIELDS
    ensures Packed(e, n) % FieldRange(n) == FieldValue(e, n) && Packed(e, n) / FieldRange(n) == Packed(e, n + 1)
  {
    FieldFits(e, n);
    PutSplits(FieldValue(e, n), FieldRange(n), Packed(e, n + 1));
  }

  lemma {:induction false} ShiftedIsPacked(e: Entry, n: nat)
    requires n <= NUM_FIELDS
    ensures ShiftedTo(Raw(e), n) == Packed(e, n)
  {
    if n > 0 {
      ShiftedIsPacked(e, n - 1);
      PackedSplits(e, n - 1);
    }
  }

  /** The fields do not overlap: every field of the word reads back as it was set. */
  lemma ReadFieldOfRaw(e: Entry, n: nat)
    requires n < NUM_FIELDS
    ensures ReadField(Raw(e), n) == FieldValue(e, n)
  {
    ShiftedIsPacked(e, n);
    PackedSplits(e, n);
  }

  /** Hence the word determines the entry. */
  lemma RawInjective(e: Entry, e': Entry)
    requires Raw(e) == Raw(e')
    ensures e == e'
  {
    forall n: nat | n < NUM_FIELDS
      ensures FieldValue(e, n) == FieldValue(e', n)
    {
      ReadFieldOfRaw(e, n);
      ReadFieldOfRaw(e', n);
    }
    assert FieldValue(e, 0) == FieldValue(e', 0) && FieldValue(e, 1) == FieldValue(e', 1);
    assert FieldValue(e, 2) == FieldValue(e', 2) && FieldValue(e, 3) == FieldValue(e', 3);
    assert FieldValue(e, 4) == FieldValue(e', 4) && FieldValue(e, 5) == FieldValue(e', 5);
    assert FieldValue(e, 6) == FieldValue(e', 6) && FieldValue(e, 7) == FieldValue(e', 7);
    assert FieldValue(e, 8) == FieldValue(e', 8) && FieldValue(e, 9) == FieldValue(e', 9);
    assert FieldValue(e, 10) == FieldValue(e', 10) && FieldValue(e, 11) == FieldValue(e', 11);
    assert FieldValue(e, 12) == FieldValue(e', 12);
  }

  /** Below 2^52, every constructor keeps the page address and builds a present entry. */
  lemma ConstructorsKeepAddress(phys: nat, flags: set<Flag>, user: bool)
    requires phys < 0x10_0000_0000_0000 && phys % 4096 == 0
    ensures MakeTable(phys, user).PhysicalAddress() == phys && MakeTable(phys, user).present
    ensures !MakeTable(phys, user).hugeOrPat
    ensures MakePage(phys, flags).PhysicalAddress() == phys && MakePage(phys, flags).present
    ensures MakeHuge(phys, flags).PhysicalAddress() == phys && MakeHuge(phys, flags).present
    ensures Huge2M in flags || Huge1G in flags ==> MakeHuge(phys, flags).hugeOrPat
  {
  }

  /** What the hardware is to read from the fields of a leaf. Flags that share a bit, such as
      NoCache and WriteCombining, cannot be told apart by it. */
  function HardwareField(phys: nat, flags: set<Flag>, n: nat): nat {
    match n
    case 0 => 1
    case 1 => Bit(Write in flags)
    case 2 => Bit(User in flags)
    case 3 => Bit(WriteThrough in flags)
    case 4 => Bit(NoCache in flags || WriteCombining in flags)
    case 7 => Bit(Huge2M in flags || Huge1G in flags || WriteCombining in flags)
    case 8 => Bit(Global in flags)
    case 10 => phys / 4096
    case 12 => Bit(Execute !in flags)
    case _ => 0
  }

  /** Every flag ends up in its field of the packed word. */
  lemma PageWord(phys: nat, flags: set<Flag>, n: nat)
    requires phys < 0x10_0000_0000_0000 && phys % 4096 == 0 && n < NUM_FIELDS
    ensures ReadField(Raw(MakePage(phys, flags)), n) == HardwareField(phys, flags, n)
  {
    LeafField(phys, flags, n);
    ReadFieldOfRaw(MakePage(phys, flags), n);
  }

  lemma LeafField(phys: nat, flags: set<Flag>, n: nat)
    requires phys < 0x10_0000_0000_0000 && phys % 4096 == 0 && n < NUM_FIELDS
    ensures FieldValue(MakePage(phys, flags), n) == HardwareField(phys, flags, n)
  {
  }

  /** The word of a leaf for an address and flags; without NX support, its bit is clear. */
  ghost predicate LeafWord(e: Entry, phys: nat, flags: set<Flag>, hasNx: bool) {
    forall n: nat :: n < NUM_FIELDS ==>
      ReadField(Raw(e), n) == if n == 12 then Bit(hasNx && Execute !in flags) else HardwareField(phys, flags, n)
  }

  /** The word of an entry for the next table: writable and executable, so that the leaf decides
      on both. */
  ghost predicate TableWord(e: Entry, table: nat, user: bool) {
    forall n: nat :: n < NUM_FIELDS ==>
      ReadField(Raw(e), n) == if n <= 1 then 1 else if n == 2 then Bit(user) else if n == 10 then table else 0
  }

  lemma LeafWords(phys: nat, flags: set<Flag>, hasNx: bool)
    requires phys % 4096 == 0
    ensures var e := MakePage(phys, flags);
            LeafWord(if hasNx then e else e.(noExecute := false), phys % 0x10_0000_0000_0000, flags, hasNx)
    ensures Huge2M in flags || Huge1G in flags ==>
              var e := MakeHuge(phys, flags);
              LeafWord(if hasNx then e else e.(noExecute := false), phys % 0x10_0000_0000_0000, flags, hasNx)
  {
    PfnBits(phys);
    var e := MakePage(phys, flags);
    WordOf(if hasNx then e else e.(noExecute := false), phys % 0x10_0000_0000_0000, flags, hasNx);
    assert MakeHuge(phys, flags) == e;
  }

  lemma WordOf(e: Entry, phys: nat, flags: set<Flag>, hasNx: bool)
    requires forall n: nat :: n < NUM_FIELDS ==>
               FieldValue(e, n) == if n == 12 then Bit(hasNx && Execute !in flags) else HardwareField(phys, flags, n)
    ensures LeafWord(e, phys, flags, hasNx)
  {
    forall n: nat | n < NUM_FIELDS
      ensures ReadField(Raw(e), n) == FieldValue(e, n)
    {
      ReadFieldOfRaw(e, n);
    }
  }

  lemma PfnBits(phys: nat)
    requires phys % 4096 == 0
    ensures phys / 4096 % 0x100_0000_0000 == phys % 0x10_0000_0000_0000 / 4096
  {
  }

  lemma TableWords(table: nat, user: bool)
    requires table < 0x100_0000_0000
    ensures TableWord(MakeTable(table * 4096, user), table, user)
  {
    var e := MakeTable(table * 4096, user);
    assert e.pfn == table;
    forall n: nat | n < NUM_FIELDS
      ensures ReadField(Raw(e), n) == if n <= 1 then 1 else if n == 2 then Bit(user) else if n == 10 then table else 0
    {
      ReadFieldOfRaw(e, n);
    }
  }

  // ------------------------------------------------------------------------------
  // Virtual addresses

  datatype Fields = Fields(pml4: nat, pdpt: nat, pd: nat, pt: nat, offset: nat) {

    predicate InRange() {
      pml4 < 512 && pdpt < 512 && pd < 512 && pt < 512 && offset < 4096
    }

    /** The index into the table of a level: 4 is the PML4, 1 the page table. */
    function Index(level: nat): (i: nat)
      requires 1 <= level <= 4
      ensures InRange() ==> i < 512
    {
      if level == 4 then pml4 else if level == 3 then pdpt else if level == 2 then pd else pt
    }
  }

  /** decompose(): shifts and masks, from the low end. */
  function Decompose(va: nat): (f: Fields)
    ensures f.InRange()
  {
    Fields(VaFrom(va, 4) % 512, VaFrom(va, 3) % 512, VaFrom(va, 2) % 512, VaFrom(va, 1) % 512, va % 4096)
  }

  /** va >> 12, 21, 30, 39, 48 for level 1, 2, 3, 4, 5. */
  function VaFrom(va: nat, level: nat): nat {
    if level == 0 then va else if level == 1 then va / 4096 else VaFrom(va, level - 1) / 512
  }

  /** The bytes of a page whose leaf entry is at a level. */
  function PageBytes(level: nat): (size: nat)
    ensures size > 0
  {
    if level == 1 then 0x1000 else if level == 2 then 0x20_0000 else if level == 3 then 0x4000_0000
    else 0x80_0000_0000
  }

  lemma TopBits(va: nat)
    ensures var f := Decompose(va);
            && va % 0x1_0000_0000_0000 / 0x80_0000_0000 == f.pml4
            && va % 0x1_0000_0000_0000 / 0x4000_0000 == f.pml4 * 512 + f.pdpt
            && va % 0x1_0000_0000_0000 / 0x20_0000 == (f.pml4 * 512 + f.pdpt) * 512 + f.pd
            && va % 0x1_0000_0000_0000 / 0x1000 == ((f.pml4 * 512 + f.pdpt) * 512 + f.pd) * 512 + f.pt
  {
    Cascade(va / 0x1000 % 512, va / 0x1000 / 512 % 512, va / 0x1000 / 512 / 512 % 512,
            va / 0x1000 / 512 / 512 / 512 % 512, va % 0x1000, va / 0x1000 / 512 / 512 / 512 / 512, va);
  }

  /** An address from its fields, with what is above bit 47. */
  lemma Cascade(pt: nat, pd: nat, pdpt: nat, pml4: nat, offset: nat, high: nat, va: nat)
    requires pt < 512 && pd < 512 && pdpt < 512 && pml4 < 512 && offset < 0x1000
    requires va == ((((high * 512 + pml4) * 512 + pdpt) * 512 + pd) * 512 + pt) * 0x1000 + offset
    ensures va % 0x1_0000_0000_0000 / 0x80_0000_0000 == pml4
    ensures va % 0x1_0000_0000_0000 / 0x4000_0000 == pml4 * 512 + pdpt
    ensures va % 0x1_0000_0000_0000 / 0x20_0000 == (pml4 * 512 + pdpt) * 512 + pd
    ensures va % 0x1_0000_0000_0000 / 0x1000 == ((pml4 * 512 + pdpt) * 512 + pd) * 512 + pt
  {
    var r1 := pt * 0x1000 + offset;
    var r2 := pd * 0x20_0000 + r1;
    var r3 := pdpt * 0x4000_0000 + r2;
    var low := pml4 * 0x80_0000_0000 + r3;
    assert va == high * 0x1_0000_0000_0000 + low && low < 0x1_0000_0000_0000;
    assert va % 0x1_0000_0000_0000 == low;
    assert low / 0x80_0000_0000 == pml4 && r3 < 0x80_0000_0000;
    assert low == (pml4 * 512 + pdpt) * 0x4000_0000 + r2 && r2 < 0x4000_0000;
    assert low == ((pml4 * 512 + pdpt) * 512 + pd) * 0x20_0000 + r1 && r1 < 0x20_0000;
  }

  /** The address from a level up, with the sign bits above bit 47. */
  function AddressFrom(f: Fields, level: nat): nat
    requires level <= 5
    decreases 5 - level
  {
    if level == 5 then (if f.pml4 >= 256 then 0xFFFF else 0)
    else if level == 0 then Put(f.offset, 4096, AddressFrom(f, 1))
    else Put(f.Index(level), 512, AddressFrom(f, level + 1))
  }

  /** compose(): the canonical address of in-range fields. */
  function Compose(f: Fields): nat {
    AddressFrom(f, 0)
  }

  /** Bits 48..63 repeat bit 47. */
  predicate Canonical(va: nat) {
    VaFrom(va, 5) == (if VaFrom(va, 4) % 512 >= 256 then 0xFFFF else 0)
  }

  lemma {:induction false} VaFromCompose(f: Fields, level: nat)
    requires f.InRange() && level <= 5
    ensures VaFrom(Compose(f), level) == AddressFrom(f, level)
  {
    if level > 0 {
      VaFromCompose(f, level - 1);
      PutSplits(if level == 1 then f.offset else f.Index(level - 1), if level == 1 then 4096 else 512,
                AddressFrom(f, level));
    }
  }

  lemma IndexReads(f: Fields, level: nat)
    requires f.InRange() && 1 <= level <= 4
    ensures VaFrom(Compose(f), level) % 512 == f.Index(level)
  {
    VaFromCompose(f, level);
    PutSplits(f.Index(level), 512, AddressFrom(f, level + 1));
  }

  lemma DecomposeCompose(f: Fields)
    requires f.InRange()
    ensures Canonical(Compose(f)) && Decompose(Compose(f)) == f
  {
    IndexReads(f, 1);
    IndexReads(f, 2);
    IndexReads(f, 3);
    IndexReads(f, 4);
    VaFromCompose(f, 5);
    PutSplits(f.offset, 4096, AddressFrom(f, 1));
  }

  /** Composing gives an address back exactly when it is canonical. */
  lemma ComposeDecompose(va: nat)
    ensures Compose(Decompose(va)) == va <==> Canonical(va)
  {
    var f := Decompose(va);
    if Canonical(va) {
      AddressFromIs(va, 0);
    } else {
      DecomposeCompose(f);
    }
  }

  lemma {:induction false} AddressFromIs(va: nat, level: nat)
    requires level <= 5 && Canonical(va)
    ensures AddressFrom(Decompose(va), level) == VaFrom(va, level)
    decreases 5 - level
  {
    if level < 5 {
      AddressFromIs(va, level + 1);
    }
  }
}
