/** The emulated distributor registers that hold one byte per interrupt: the GICD_IPRIORITYR and
    GICD_ITARGETSR arms of vgicd_read and vgicd_write (vgicv3.c). */
module VgicRegs {
  import opened Bits
  import opened Memory

  // ---- four fields as one register ----

  /** One byte per interrupt. */
  type Fields = map<nat, byte>

  predicate Four(f: Fields, irq: nat) {
    irq in f && irq + 1 in f && irq + 2 in f && irq + 3 in f
  }

  function FourBytes(f: Fields, irq: nat): (s: seq<byte>)
    requires Four(f, irq)
    ensures |s| == 4
  {
    [f[irq], f[irq + 1], f[irq + 2], f[irq + 3]]
  }

  /** The register at irq, least significant byte first. */
  function ReadFields(f: Fields, irq: nat): nat
    requires Four(f, irq)
  {
    Bytes(FourBytes(f, irq), 0, 4)
  }

  function WriteFields(f: Fields, irq: nat, val: nat): Fields {
    f[irq := ByteOf(val, 0)][irq + 1 := ByteOf(val, 1)][irq + 2 := ByteOf(val, 2)][irq + 3 := ByteOf(val, 3)]
  }

  /** What is added above the m low bytes does not show in them. */
  lemma {:induction false} AboveBytes(w: nat, q: nat, k: nat, m: nat)
    requires k < m
    ensures ByteOf(w + q * Pow2(8 * m), k) == ByteOf(w, k)
    decreases k
  {
    var p := Pow2(8 * (m - 1));
    Pow2Byte(8 * (m - 1));
    TimesByte(q, p);
    AddMultiple(w, q * p);
    if k > 0 { AboveBytes(w / 0x100, q, k - 1, m - 1); }
  }

  lemma AddMultiple(w: nat, z: nat)
    ensures (w + 0x100 * z) / 0x100 == w / 0x100 + z && (w + 0x100 * z) % 0x100 == w % 0x100
  {}

  lemma LowBytes(w: nat, k: nat)
    requires k < 4
    ensures ByteOf(w % 0x1_0000_0000, k) == ByteOf(w, k)
  {
    Powers();
    AboveBytes(w % 0x1_0000_0000, w / 0x1_0000_0000, k, 4);
  }

  lemma WriteThenRead(f: Fields, irq: nat, val: nat)
    ensures ReadFields(WriteFields(f, irq, val), irq) == val % 0x1_0000_0000
  {
    var s := FourBytes(WriteFields(f, irq, val), irq);
    forall k | 0 <= k < 4 ensures s[k] == ByteOf(val % 0x1_0000_0000, k) {
      LowBytes(val, k);
    }
    Powers();
    StoreLoad(s, 0, 4, val % 0x1_0000_0000);
  }

  lemma WriteElsewhere(f: Fields, irq: nat, val: nat)
    requires Four(f, irq)
    ensures WriteFields(f, irq, val).Keys == f.Keys
    ensures forall i: nat :: i in f && (i < irq || irq + 4 <= i) ==> WriteFields(f, irq, val)[i] == f[i]
  {}

  /** A register offset reads back the low 32 bits of every value written to it exactly when it is
      4-aligned: the write rounds the offset down, the read does not. */
  lemma AlignedReadsBack(f: Fields, offset: nat)
    requires Four(f, offset)
    ensures (forall val: u64 :: Reads(f, offset, val) == val % 0x1_0000_0000) <==> offset % 4 == 0
  {
    hide ReadFields, WriteFields, Bytes, ByteOf;
    if offset % 4 == 0 {
      forall val: u64 ensures Reads(f, offset, val) == val % 0x1_0000_0000 {
        WriteThenRead(f, offset, val);
      }
    } else {
      UnalignedDiffers(f, offset);
    }
  }

  lemma UnalignedDiffers(f: Fields, offset: nat)
    requires Four(f, offset) && offset % 4 != 0
    ensures Reads(f, offset, 0x0101_0100) != 0x0101_0100
  {
    var val: u64 := 0x0101_0100;
    assert ByteOf(val, 0) == 0 && ByteOf(val, 1) == 1 && ByteOf(val, 2) == 1 && ByteOf(val, 3) == 1;
    hide ByteOf;
    var g := WriteFields(f, offset / 4 * 4, val);
    assert g[offset] == 1;
    hide Bytes, WriteFields;
    FirstByte(FourBytes(g, offset));
  }

  lemma FirstByte(s: seq<byte>)
    requires |s| == 4
    ensures Bytes(s, 0, 4) % 0x100 == s[0]
  {
    var rest := Bytes(s, 1, 3);
    assert Bytes(s, 0, 4) == s[0] + 0x100 * rest;
  }

  function Reads(f: Fields, offset: nat, val: u64): nat
    requires Four(f, offset)
  {
    ReadFields(WriteFields(f, offset / 4 * 4, val), offset)
  }

  // ---- the loops' steps ----

  /** The first n bytes written. */
  function WriteFirst(f: Fields, irq: nat, val: nat, n: nat): Fields {
    if n == 0 then f else WriteFirst(f, irq, val, n - 1)[irq + n - 1 := ByteOf(val, n - 1)]
  }

  lemma WriteAll(f: Fields, irq: nat, val: nat)
    ensures WriteFirst(f, irq, val, 0) == f && WriteFirst(f, irq, val, 4) == WriteFields(f, irq, val)
  {
    assert WriteFirst(f, irq, val, 0) == f;
    WriteNext(f, irq, val, 0);
    WriteNext(f, irq, val, 1);
    WriteNext(f, irq, val, 2);
    WriteNext(f, irq, val, 3);
    hide WriteFirst, ByteOf;
  }

  lemma WriteNext(f: Fields, irq: nat, val: nat, n: nat)
    ensures WriteFirst(f, irq, val, n + 1) == WriteFirst(f, irq, val, n)[irq + n := ByteOf(val, n)]
  {}

  lemma {:induction false} ShiftedByte(w: nat, k: nat)
    ensures And(Shr(w, 8 * k), 0xff) == ByteOf(w, k)
    decreases k
  {
    assert Ones(8) == 0xff;
    Powers();
    if k == 0 {
      AndOnes(w, 8);
    } else {
      ShiftedByte(w / 0x100, k - 1);
      EightMore(w, 8 * (k - 1));
    }
  }

  lemma EightMore(w: nat, n: nat)
    ensures Shr(w, n + 8) == Shr(w / 0x100, n)
  {
    var a, b, c := w / 2 / 2, w / 2 / 2 / 2 / 2, w / 2 / 2 / 2 / 2 / 2 / 2;
    assert Shr(w, n + 8) == Shr(a, n + 6);
    assert Shr(a, n + 6) == Shr(b, n + 4);
    assert Shr(b, n + 4) == Shr(c, n + 2);
    assert c / 2 / 2 == w / 0x100;
  }

  /** One more byte or-ed in above the k already there. */
  lemma OrByte(s: seq<byte>, k: nat)
    requires k < |s|
    ensures Or(Bytes(s, 0, k), Shl(s[k], 8 * k)) == Bytes(s, 0, k + 1)
  {
    var low, p := Bytes(s, 0, k), Pow2(8 * k);
    ShlIsMul(s[k], 8 * k);
    AddByte(s, 0, k);
    var high := Shl(s[k], 8 * k);
    assert high == s[k] * p;
    DivModUnique(high, p, s[k], 0);
    OrSwap(low, high);
    OrDisjoint(high, low, 8 * k);
  }

  lemma {:induction false} AddByte(s: seq<byte>, a: nat, k: nat)
    requires a + k < |s|
    ensures Bytes(s, a, k + 1) == Bytes(s, a, k) + s[a + k] * Pow2(8 * k)
    decreases k
  {
    if k > 0 {
      AddByte(s, a + 1, k - 1);
      Pow2Byte(8 * (k - 1));
      TimesByte(s[a + k], Pow2(8 * (k - 1)));
    }
  }

  lemma TimesByte(x: int, p: int)
    ensures 0x100 * (x * p) == x * (0x100 * p)
  {}

  // ---- the registers ----

  /** struct vgicv3_irq_config */
  datatype IrqConfig = IrqConfig(priority: byte, affinity: byte, enabled: byte, group: byte)

  /** Which of its fields. */
  datatype Kind = Priority | Affinity | Enabled | Group

  function Get(c: IrqConfig, k: Kind): byte {
    match k
    case Priority => c.priority
    case Affinity => c.affinity
    case Enabled => c.enabled
    case Group => c.group
  }

  function With(c: IrqConfig, k: Kind, b: byte): IrqConfig {
    match k
    case Priority => c.(priority := b)
    case Affinity => c.(affinity := b)
    case Enabled => c.(enabled := b)
    case Group => c.(group := b)
  }

  /** vgic_irq_get: where in the two tables an interrupt is. */
  predicate Known(nspis: nat, irq: nat) {
    irq < 16 || 32 <= irq < 32 + nspis
  }

  predicate KnownFour(nspis: nat, irq: nat) {
    Known(nspis, irq) && Known(nspis, irq + 1) && Known(nspis, irq + 2) && Known(nspis, irq + 3)
  }

  /** One field of every SGI and SPI. */
  function View(sgis: seq<IrqConfig>, spis: seq<IrqConfig>, k: Kind): Fields
    requires |sgis| == 16
  {
    map irq: nat | irq < 32 + |spis| && Known(|spis|, irq) :: Get(if irq < 16 then sgis[irq] else spis[irq - 32], k)
  }

  lemma SetSgi(sgis: seq<IrqConfig>, spis: seq<IrqConfig>, irq: nat, k: Kind, b: byte, j: Kind)
    requires |sgis| == 16 && irq < 16
    ensures View(sgis[irq := With(sgis[irq], k, b)], spis, j)
            == if j == k then View(sgis, spis, j)[irq := b] else View(sgis, spis, j)
  {}

  lemma SetSpi(sgis: seq<IrqConfig>, spis: seq<IrqConfig>, irq: nat, k: Kind, b: byte, j: Kind)
    requires |sgis| == 16 && 32 <= irq < 32 + |spis|
    ensures View(sgis, spis[irq - 32 := With(spis[irq - 32], k, b)], j)
            == if j == k then View(sgis, spis, j)[irq := b] else View(sgis, spis, j)
  {}

  lemma ViewFour(sgis: seq<IrqConfig>, spis: seq<IrqConfig>, k: Kind, irq: nat)
    requires |sgis| == 16 && KnownFour(|spis|, irq)
    ensures Four(View(sgis, spis, k), irq)
    ensures forall i :: 0 <= i < 4 ==>
                          FourBytes(View(sgis, spis, k), irq)[i]
                          == Get(if irq + i < 16 then sgis[irq + i] else spis[irq + i - 32], k)
  {}

  // ---- the registers on the tables ----

  /** The record of an interrupt: SGIs first, SPIs from 32 on. */
  function RecordOf(sgis: seq<IrqConfig>, spis: seq<IrqConfig>, irq: nat): IrqConfig
    requires |sgis| == 16 && Known(|spis|, irq)
  {
    if irq < 16 then sgis[irq] else spis[irq - 32]
  }

  /** The four bytes of val are the priorities of the interrupts from irq on. */
  ghost predicate PrioritiesAre(val: nat, sgis: seq<IrqConfig>, spis: seq<IrqConfig>, irq: nat) {
    && |sgis| == 16 && KnownFour(|spis|, irq)
    && forall i :: 0 <= i < 4 ==> ByteOf(val, i) == RecordOf(sgis, spis, irq + i).priority
  }

  ghost predicate AffinitiesAre(val: nat, sgis: seq<IrqConfig>, spis: seq<IrqConfig>, irq: nat) {
    && |sgis| == 16 && KnownFour(|spis|, irq)
    && forall i :: 0 <= i < 4 ==> ByteOf(val, i) == RecordOf(sgis, spis, irq + i).affinity
  }

  ghost predicate SameTables(sgis: seq<IrqConfig>, spis: seq<IrqConfig>, sgis': seq<IrqConfig>, spis': seq<IrqConfig>) {
    |sgis| == |sgis'| == 16 && |spis'| == |spis|
  }

  /** Nothing but the priorities of irq to irq + 3 has changed. */
  ghost predicate OnlyPriorities(sgis: seq<IrqConfig>, spis: seq<IrqConfig>,
                                 sgis': seq<IrqConfig>, spis': seq<IrqConfig>, irq: nat) {
    && SameTables(sgis, spis, sgis', spis')
    && forall n: nat :: Known(|spis|, n) ==>
                     var c, c' := RecordOf(sgis, spis, n), RecordOf(sgis', spis', n);
                     c' == if irq <= n < irq + 4 then c.(priority := c'.priority) else c
  }

  ghost predicate OnlyAffinities(sgis: seq<IrqConfig>, spis: seq<IrqConfig>,
                                 sgis': seq<IrqConfig>, spis': seq<IrqConfig>, irq: nat) {
    && SameTables(sgis, spis, sgis', spis')
    && forall n: nat :: Known(|spis|, n) ==>
                     var c, c' := RecordOf(sgis, spis, n), RecordOf(sgis', spis', n);
                     c' == if irq <= n < irq + 4 then c.(affinity := c'.affinity) else c
  }

  lemma {:induction false} BytesBack(s: seq<byte>, a: nat, n: nat, i: nat)
    requires a + n <= |s| && i < n
    ensures ByteOf(Bytes(s, a, n), i) == s[a + i]
    decreases n
  {
    AddMultiple(s[a], Bytes(s, a + 1, n - 1));
    if i > 0 { BytesBack(s, a + 1, n - 1, i - 1); }
  }

  /** What is read is what the tables hold. */
  lemma ReadSeen(sgis: seq<IrqConfig>, spis: seq<IrqConfig>, k: Kind, irq: nat)
    requires |sgis| == 16 && KnownFour(|spis|, irq)
    ensures Four(View(sgis, spis, k), irq)
    ensures ReadFields(View(sgis, spis, k), irq) < 0x1_0000_0000
    ensures forall i :: 0 <= i < 4 ==>
                          ByteOf(ReadFields(View(sgis, spis, k), irq), i) == Get(RecordOf(sgis, spis, irq + i), k)
  {
    ViewFour(sgis, spis, k, irq);
    Powers();
    var s := FourBytes(View(sgis, spis, k), irq);
    hide View, Bytes, ByteOf, FourBytes;
    forall i | 0 <= i < 4 ensures ByteOf(ReadFields(View(sgis, spis, k), irq), i) == s[i] {
      BytesBack(s, 0, 4, i);
    }
  }

  lemma WrittenByte(f: Fields, irq: nat, val: nat, i: nat)
    requires i < 4
    ensures irq + i in WriteFields(f, irq, val) && WriteFields(f, irq, val)[irq + i] == ByteOf(val, i)
  {}

  lemma ViewAt(sgis: seq<IrqConfig>, spis: seq<IrqConfig>, k: Kind, irq: nat)
    requires |sgis| == 16 && Known(|spis|, irq)
    ensures irq in View(sgis, spis, k) && View(sgis, spis, k)[irq] == Get(RecordOf(sgis, spis, irq), k)
  {}

  /** What is written is what the tables then hold, and the rest of them is as it was. */
  lemma WriteSeen(sgis: seq<IrqConfig>, spis: seq<IrqConfig>, sgis': seq<IrqConfig>, spis': seq<IrqConfig>,
                  k: Kind, irq: nat, val: nat)
    requires SameTables(sgis, spis, sgis', spis') && KnownFour(|spis|, irq)
    requires forall j :: View(sgis', spis', j) == if j != k then View(sgis, spis, j)
                                                  else WriteFields(View(sgis, spis, j), irq, val)
    ensures forall i :: 0 <= i < 4 ==> Get(RecordOf(sgis', spis', irq + i), k) == ByteOf(val, i)
    ensures forall n: nat, j {:trigger Get(RecordOf(sgis', spis', n), j)} ::
              Known(|spis|, n) && (j != k || n < irq || irq + 4 <= n) ==>
                Get(RecordOf(sgis', spis', n), j) == Get(RecordOf(sgis, spis, n), j)
  {
    var f := View(sgis, spis, k);
    ViewFour(sgis, spis, k, irq);
    WriteElsewhere(f, irq, val);
    hide View, WriteFields, ByteOf, RecordOf, Get, FourBytes;
    forall i | 0 <= i < 4 ensures Get(RecordOf(sgis', spis', irq + i), k) == ByteOf(val, i) {
      ViewAt(sgis', spis', k, irq + i);
      WrittenByte(f, irq, val, i);
    }
    forall n: nat, j | Known(|spis|, n) && (j != k || n < irq || irq + 4 <= n)
      ensures Get(RecordOf(sgis', spis', n), j) == Get(RecordOf(sgis, spis, n), j)
    {
      ViewAt(sgis', spis', j, n);
      ViewAt(sgis, spis, j, n);
    }
  }

  lemma SameRecord(c: IrqConfig, c': IrqConfig)
    ensures (forall j :: Get(c', j) == Get(c, j)) ==> c' == c
    ensures (forall j :: j != Priority ==> Get(c', j) == Get(c, j)) ==> c' == c.(priority := c'.priority)
    ensures (forall j :: j != Affinity ==> Get(c', j) == Get(c, j)) ==> c' == c.(affinity := c'.affinity)
  {
    assert Get(c, Priority) == c.priority && Get(c', Priority) == c'.priority;
    assert Get(c, Affinity) == c.affinity && Get(c', Affinity) == c'.affinity;
    assert Get(c, Enabled) == c.enabled && Get(c', Enabled) == c'.enabled;
    assert Get(c, Group) == c.group && Get(c', Group) == c'.group;
  }

  lemma WriteShown(sgis: seq<IrqConfig>, spis: seq<IrqConfig>, sgis': seq<IrqConfig>, spis': seq<IrqConfig>,
                   k: Kind, irq: nat, val: nat)
    requires SameTables(sgis, spis, sgis', spis') && KnownFour(|spis|, irq)
    requires forall j :: View(sgis', spis', j) == if j != k then View(sgis, spis, j)
                                                  else WriteFields(View(sgis, spis, j), irq, val)
    ensures k == Priority ==> PrioritiesAre(val, sgis', spis', irq) && OnlyPriorities(sgis, spis, sgis', spis', irq)
    ensures k == Affinity ==> AffinitiesAre(val, sgis', spis', irq) && OnlyAffinities(sgis, spis, sgis', spis', irq)
  {
    hide View, WriteFields, ByteOf, RecordOf, Known;
    WriteSeen(sgis, spis, sgis', spis', k, irq, val);
    forall n: nat | Known(|spis|, n)
      ensures var c, c' := RecordOf(sgis, spis, n), RecordOf(sgis', spis', n);
              && (n < irq || irq + 4 <= n ==> c' == c)
              && (k == Priority ==> c' == c.(priority := c'.priority))
              && (k == Affinity ==> c' == c.(affinity := c'.affinity))
    {
      hide Get;
      SameRecord(RecordOf(sgis, spis, n), RecordOf(sgis', spis', n));
    }
  }

  predicate IsPriority(offset: nat) {
    0x400 <= offset <= 0x7fb
  }

  predicate IsTarget(offset: nat) {
    0x800 <= offset <= 0xbfb
  }

  function KindOf(offset: nat): Kind {
    if IsPriority(offset) then Priority else Affinity
  }

  /** offset - GICD_IPRIORITYR(0) or offset - GICD_ITARGETSR(0) */
  function Reduced(offset: nat): nat
    requires IsPriority(offset) || IsTarget(offset)
  {
    if IsPriority(offset) then offset - 0x400 else offset - 0x800
  }

  /** The two arms, offset by offset. */
  ghost predicate Shows(val: nat, sgis: seq<IrqConfig>, spis: seq<IrqConfig>, offset: nat) {
    && (0x400 <= offset <= 0x7fb ==> PrioritiesAre(val, sgis, spis, offset - 0x400))
    && (0x800 <= offset <= 0xbfb ==> AffinitiesAre(val, sgis, spis, offset - 0x800))
  }

  ghost predicate OnlyShown(sgis: seq<IrqConfig>, spis: seq<IrqConfig>,
                            sgis': seq<IrqConfig>, spis': seq<IrqConfig>, offset: nat) {
    && (0x400 <= offset <= 0x7fb ==> OnlyPriorities(sgis, spis, sgis', spis', offset - 0x400))
    && (0x800 <= offset <= 0xbfb ==> OnlyAffinities(sgis, spis, sgis', spis', offset - 0x800))
  }

  lemma ReadShown(sgis: seq<IrqConfig>, spis: seq<IrqConfig>, offset: nat)
    requires IsPriority(offset) || IsTarget(offset)
    requires |sgis| == 16 && KnownFour(|spis|, Reduced(offset))
    ensures Four(View(sgis, spis, KindOf(offset)), Reduced(offset))
    ensures var val := ReadFields(View(sgis, spis, KindOf(offset)), Reduced(offset));
            val < 0x1_0000_0000 && Shows(val, sgis, spis, offset)
  {
    ReadSeen(sgis, spis, KindOf(offset), Reduced(offset));
    hide View, RecordOf, ByteOf, ReadFields;
  }

  lemma WriteShownAt(sgis: seq<IrqConfig>, spis: seq<IrqConfig>, sgis': seq<IrqConfig>, spis': seq<IrqConfig>,
                     offset: nat, val: nat)
    requires IsPriority(offset) || IsTarget(offset)
    requires SameTables(sgis, spis, sgis', spis') && KnownFour(|spis|, Reduced(offset) / 4 * 4)
    requires forall j :: View(sgis', spis', j) == if j != KindOf(offset) then View(sgis, spis, j)
                                                  else WriteFields(View(sgis, spis, j), Reduced(offset) / 4 * 4, val)
    ensures Shows(val, sgis', spis', offset / 4 * 4) && OnlyShown(sgis, spis, sgis', spis', offset / 4 * 4)
  {
    hide View, WriteFields, PrioritiesAre, AffinitiesAre, OnlyPriorities, OnlyAffinities;
    var o := Reduced(offset);
    assert offset / 4 * 4 == o / 4 * 4 + if IsPriority(offset) then 0x400 else 0x800;
    WriteShown(sgis, spis, sgis', spis', KindOf(offset), o / 4 * 4, val);
  }

  /** The software-generated and shared peripheral interrupts of one vcpu. */
  class Distributor {
    const sgis: array<IrqConfig>
    const spis: array<IrqConfig>   // nspis entries

    ghost predicate Valid() {
      sgis.Length == 16 && sgis != spis
    }

    ghost function Fields(k: Kind): Fields
      requires Valid()
      reads sgis, spis
    {
      View(sgis[..], spis[..], k)
    }

    /** The tables, with any contents. */
    constructor (sgi: seq<IrqConfig>, spi: seq<IrqConfig>)
      requires |sgi| == 16
      ensures Valid() && fresh(sgis) && fresh(spis) && sgis[..] == sgi && spis[..] == spi
    {
      sgis := new IrqConfig[16](i requires 0 <= i < 16 => sgi[i]);
      spis := new IrqConfig[|spi|](i requires 0 <= i < |spi| => spi[i]);
    }

    /** *vgic_irq_get(vcpu, irq) */
    function Config(irq: nat): IrqConfig
      requires Valid() && Known(spis.Length, irq)
      reads sgis, spis
    {
      if irq < 16 then sgis[irq] else spis[irq - 32]
    }

    /** One field of *vgic_irq_get(vcpu, irq) = b */
    method SetField(irq: nat, k: Kind, b: byte)
      requires Valid() && Known(spis.Length, irq)
      modifies sgis, spis
      ensures forall j :: Fields(j) == if j == k then old(Fields(j))[irq := b] else old(Fields(j))
    {
      ghost var a, s := sgis[..], spis[..];
      if irq < 16 {
        sgis[irq] := With(sgis[irq], k, b);
        assert sgis[..] == a[irq := With(a[irq], k, b)] && spis[..] == s;
        forall j ensures Fields(j) == if j == k then View(a, s, j)[irq := b] else View(a, s, j) {
          SetSgi(a, s, irq, k, b, j);
        }
      } else {
        spis[irq - 32] := With(spis[irq - 32], k, b);
        assert spis[..] == s[irq - 32 := With(s[irq - 32], k, b)] && sgis[..] == a;
        forall j ensures Fields(j) == if j == k then View(a, s, j)[irq := b] else View(a, s, j) {
          SetSpi(a, s, irq, k, b, j);
        }
      }
    }

    /** The IPRIORITYR and ITARGETSR arms of vgicd_read. */
    method Read(offset: nat) returns (val: nat)
      requires Valid() && (0x400 <= offset <= 0x7fb || 0x800 <= offset <= 0xbfb)
      requires KnownFour(spis.Length, if offset <= 0x7fb then offset - 0x400 else offset - 0x800)
      ensures val < 0x1_0000_0000
      ensures 0x400 <= offset <= 0x7fb ==> PrioritiesAre(val, sgis[..], spis[..], offset - 0x400)
      ensures 0x800 <= offset <= 0xbfb ==> AffinitiesAre(val, sgis[..], spis[..], offset - 0x800)
      ensures Four(Fields(KindOf(offset)), Reduced(offset))
      ensures val == ReadFields(Fields(KindOf(offset)), Reduced(offset))
    {
      hide PrioritiesAre, AffinitiesAre, RecordOf, ByteOf, Bytes, Shl, Or, View, FourBytes;
      val := 0;
      var irqNum, k := Reduced(offset), KindOf(offset);
      ViewFour(sgis[..], spis[..], k, irqNum);
      ReadShown(sgis[..], spis[..], offset);
      ghost var s := FourBytes(Fields(k), irqNum);
      for i := 0 to 4
        invariant val == Bytes(s, 0, i)
      {
        var irq := Config(irqNum + i);
        OrByte(s, i);
        val := Or(val, Shl(Get(irq, k), i * 8));
      }
    }

    /** The IPRIORITYR and ITARGETSR arms of vgicd_write: the bytes go to the interrupts of the
        register that contains the offset. */
    method Write(offset: nat, val: u64)
      requires Valid() && (0x400 <= offset <= 0x7fb || 0x800 <= offset <= 0xbfb)
      requires KnownFour(spis.Length, (if offset <= 0x7fb then offset - 0x400 else offset - 0x800) / 4 * 4)
      modifies sgis, spis
      ensures Shows(val, sgis[..], spis[..], offset / 4 * 4)
      ensures OnlyShown(old(sgis[..]), old(spis[..]), sgis[..], spis[..], offset / 4 * 4)
      ensures forall j :: Fields(j) == if j != KindOf(offset) then old(Fields(j))
                                       else WriteFields(old(Fields(j)), Reduced(offset) / 4 * 4, val)
    {
      var irqNum, k := Reduced(offset) / 4 * 4, KindOf(offset);
      ViewFour(sgis[..], spis[..], k, irqNum);
      WriteAll(Fields(k), irqNum, val);
      ghost var a, s := sgis[..], spis[..];
      hide Shows, OnlyShown, View, WriteFields, WriteFirst, FourBytes;
      for i := 0 to 4
        invariant Fields(k) == WriteFirst(View(a, s, k), irqNum, val, i)
        invariant forall j :: j != k ==> Fields(j) == View(a, s, j)
      {
        WriteByte(irqNum, i, k, val, View(a, s, k));
      }
      WriteShownAt(a, s, sgis[..], spis[..], offset, val);
    }

    /** One turn of its loop. */
    method WriteByte(irqNum: nat, i: nat, k: Kind, val: u64, ghost f: Fields)
      requires Valid() && i < 4 && KnownFour(spis.Length, irqNum) && Fields(k) == WriteFirst(f, irqNum, val, i)
      modifies sgis, spis
      ensures Fields(k) == WriteFirst(f, irqNum, val, i + 1) && forall j :: j != k ==> Fields(j) == old(Fields(j))
    {
      ShiftedByte(val, i);
      WriteNext(f, irqNum, val, i);
      assert Known(spis.Length, irqNum + i);
      hide *;
      SetField(irqNum + i, k, And(Shr(val, i * 8), 0xff));
    }

    /** A write, then a read of the same register: the low 32 bits come back, and no other
        interrupt's and no other field's configuration has changed. */
    method RoundTrip(offset: nat, val: u64) returns (r: nat)
      requires Valid() && (IsPriority(offset) || IsTarget(offset)) && offset % 4 == 0
      requires KnownFour(spis.Length, Reduced(offset))
      modifies sgis, spis
      ensures r == val % 0x1_0000_0000
      ensures forall j :: Fields(j).Keys == old(Fields(j)).Keys
      ensures forall j, irq: nat ::
                irq in Fields(j) && (j != KindOf(offset) || irq < Reduced(offset) || Reduced(offset) + 4 <= irq) ==>
                  Fields(j)[irq] == old(Fields(j))[irq]
    {
      ghost var irqNum, k := Reduced(offset), KindOf(offset);
      ViewFour(sgis[..], spis[..], k, irqNum);
      ghost var f := Fields(k);
      assert irqNum / 4 * 4 == irqNum;
      WriteThenRead(f, irqNum, val);
      WriteElsewhere(f, irqNum, val);
      hide WriteFields, ReadFields, View;
      Write(offset, val);
      r := Read(offset);
    }
  }
}
