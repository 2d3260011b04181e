/** Stage-2 translation tables in physical memory: descriptor bits of vmm.h, the walk the
    hardware does (ARM DDI 0487, section D5.3), and the invariant that ties flat memory to an
    abstract map from IPA page to frame. */
module Stage2 {
  import opened Bits
  import opened Memory

  // ---- vmm.h: descriptor bits, as the source writes them ----

  const PTE_VALID := 0x1
  const PTE_TABLE := 0x2
  const PTE_V := 0x3
  const PTE_AF := 0x400
  const S2PTE_RW := 0xC0      // S2PTE_S2AP(3)
  const S2PTE_NORMAL := 0x4   // S2PTE_ATTR(NORMAL_NC_INDEX)
  const S2PTE_DEVICE := 0x0   // S2PTE_ATTR(DEVICE_nGnRnE_INDEX)

  /** The attributes the source passes for guest memory and for the UART. */
  lemma MappingAttrs()
    ensures Or(S2PTE_NORMAL, S2PTE_RW) == 0xC4 && Or(S2PTE_DEVICE, S2PTE_RW) == 0xC0
  {
    Powers();
    OrDisjoint(0xC0, 4, 3);
    OrSwap(4, 0xC0);
  }

  function PINDEX(level: nat, ipa: u64): nat
    requires level <= 3
  {
    And(Shr(ipa, 39 - level * 9), 0x1ff)
  }

  function PTE_PA(pte: u64): nat {
    And(pte, 0xFFFFFFFFF000)
  }

  function TableDesc(pa: u64): nat {
    Or(Or(PTE_PA(pa), PTE_TABLE), PTE_VALID)
  }

  function PageDesc(pa: u64, mattr: nat): nat {
    Or(Or(Or(PTE_PA(pa), PTE_AF), mattr), PTE_V)
  }

  // ---- the fields in div/mod form ----

  /** Index of page v's entry in the level's table: nine bits of the IPA. */
  function Index(v: nat, level: nat): (i: nat)
    requires level <= 3
    ensures i < 512
  {
    match level
    case 0 => v / 0x800_0000 % 512
    case 1 => v / 0x4_0000 % 512
    case 2 => v / 512 % 512
    case 3 => v % 512
  }

  lemma DivDiv(x: nat, a: nat)
    requires a > 0
    ensures x / (4096 * a) == x / 4096 / a
  {
    var y := x / 4096;
    var q, r := y / a, y % a;
    assert y == q * a + r;
    var p := 4096 * a;
    assert x == q * p + (r * 4096 + x % 4096) by {
      assert q * p == q * a * 4096;
    }
    DivModUnique(x, p, q, r * 4096 + x % 4096);
  }

  lemma PIndexIsIndex(level: nat, ipa: u64)
    requires level <= 3
    ensures PINDEX(level, ipa) == Index(ipa / 4096, level) == ipa / Pow2(39 - level * 9) % 512
  {
    var s := 39 - level * 9;
    assert PINDEX(level, ipa) == Shr(ipa, s) % 512 by {
      Powers();
      assert Ones(9) == 0x1ff;
      AndOnes(Shr(ipa, s), 9);
    }
    ShrIsDiv(ipa, s);
    Powers();
    hide And, Shr, Pow2, PINDEX;
    match level
    case 0 => DivDiv(ipa, 0x800_0000);
    case 1 => DivDiv(ipa, 0x4_0000);
    case 2 => DivDiv(ipa, 512);
    case 3 =>
  }

  lemma PtePaIsField(pte: u64)
    ensures PTE_PA(pte) == pte / 4096 % 0x10_0000_0000 * 4096
  {
    Powers();
    assert Ones(12) == 0xFFF && Ones(24) == 0xFF_FFFF && Ones(36) == 0xF_FFFF_FFFF;
    ShlIsMul(0xF_FFFF_FFFF, 12);
    hide And, Shl, Ones, Pow2;
    AndField(pte, 36, 12);
  }

  lemma FlagBits(pte: u64)
    ensures And(pte, PTE_VALID) != 0 <==> pte % 2 == 1
    ensures And(pte, PTE_TABLE) != 0 <==> pte / 2 % 2 == 1
    ensures And(pte, PTE_AF) != 0 <==> pte / 0x400 % 2 == 1
  {
    Powers();
    assert Shl(1, 1) == 2 && Shl(1, 5) == 32 && Shl(1, 10) == 0x400;
    AndBit(pte, 0);
    AndBit(pte, 1);
    AndBit(pte, 10);
  }

  datatype Leaf = Leaf(frame: nat, attr: nat)   // attr: descriptor bits 9:2

  ghost predicate LeafFits(l: Leaf) {
    l.frame < 0x10_0000_0000 && l.attr < 256
  }

  function TableWord(f: nat): nat {
    f * 4096 + 3
  }

  function LeafWord(l: Leaf): nat {
    l.frame * 4096 + 0x400 + l.attr * 4 + 3
  }

  lemma Or1024(a: nat, b: nat)
    requires a % 1024 == 0 && b < 1024
    ensures Or(a, b) == a + b
  {
    Powers();
    OrDisjoint(a, b, 10);
  }

  lemma Or4096(a: nat, b: nat)
    requires a % 4096 == 0 && b < 4096
    ensures Or(a, b) == a + b
  {
    Powers();
    OrDisjoint(a, b, 12);
  }

  lemma Or4(a: nat, b: nat)
    requires a % 4 == 0 && b < 4
    ensures Or(a, b) == a + b
  {
    Powers();
    OrDisjoint(a, b, 2);
  }

  lemma Or2(a: nat, b: nat)
    requires a % 2 == 0 && b < 2
    ensures Or(a, b) == a + b
  {
    Powers();
    OrDisjoint(a, b, 1);
  }

  /** What the two descriptor expressions of the source encode. */
  lemma TableDescWord(f: nat)
    requires f < 0x10_0000_0000
    ensures TableDesc(f * 4096) == TableWord(f)
  {
    hide And, Or, Pow2, PTE_PA;
    var pa := f * 4096;
    PtePaIsField(pa);
    Or4096(pa, PTE_TABLE);
    DivModUnique(pa + 2, 2, f * 2048 + 1, 0);
    Or2(pa + 2, PTE_VALID);
  }

  lemma PageDescWord(pa: u64, mattr: nat, l: Leaf)
    requires LeafFits(l) && pa == l.frame * 4096 && mattr == l.attr * 4
    ensures PageDesc(pa, mattr) == LeafWord(l)
  {
    hide And, Or, Pow2, PTE_PA;
    PtePaIsField(pa);
    Or4096(pa, PTE_AF);
    DivModUnique(pa + 1024, 1024, l.frame * 4 + 1, 0);
    var p2 := pa + 1024 + l.attr * 4;
    Or1024(pa + 1024, l.attr * 4);
    DivModUnique(p2, 4, l.frame * 1024 + 256 + l.attr, 0);
    Or4(p2, PTE_V);
  }

  /** And what the hardware decodes them to. */
  lemma TableFields(f: nat)
    requires f < 0x10_0000_0000
    ensures var w := TableWord(f); w % 2 == 1 && w / 2 % 2 == 1 && w / 4096 == f && PTE_PA(w) == f * 4096
  {
    var w := TableWord(f);
    DivModUnique(w, 4096, f, 3);
    DivModUnique(w, 2, f * 2048 + 1, 1);
    DivModUnique(f * 2048 + 1, 2, f * 1024, 1);
    PtePaIsField(w);
  }

  lemma LeafFields(l: Leaf)
    requires LeafFits(l)
    ensures var w := LeafWord(l);
            && w % 2 == 1 && w / 2 % 2 == 1 && w / 0x400 % 2 == 1 && w / 4 % 256 == l.attr
            && w / 4096 == l.frame && PTE_PA(w) == l.frame * 4096
  {
    hide LeafFits, PTE_PA;
    assert l.attr < 256 && l.frame < 0x10_0000_0000 by { LeafBounds(l); }
    LeafHigh(l.frame, l.attr);
    LeafLow(l.frame, l.attr);
    PtePaIsField(LeafWord(l));
  }

  lemma LeafBounds(l: Leaf)
    requires LeafFits(l)
    ensures l.attr < 256 && l.frame < 0x10_0000_0000
  {}

  lemma LeafHigh(f: nat, a: nat)
    requires a < 256
    ensures var w := f * 4096 + 0x400 + a * 4 + 3; w / 4096 == f && w / 0x400 % 2 == 1
  {
    var w := f * 4096 + 0x400 + a * 4 + 3;
    DivModUnique(w, 4096, f, 1024 + 4 * a + 3);
    DivModUnique(w, 1024, 4 * f + 1, 4 * a + 3);
    DivModUnique(4 * f + 1, 2, 2 * f, 1);
  }

  lemma LeafLow(f: nat, a: nat)
    requires a < 256
    ensures var w := f * 4096 + 0x400 + a * 4 + 3; w % 2 == 1 && w / 2 % 2 == 1 && w / 4 % 256 == a
  {
    var w := f * 4096 + 0x400 + a * 4 + 3;
    DivModUnique(w, 4, 1024 * f + 256 + a, 3);
    DivModUnique(1024 * f + 256 + a, 256, 4 * f + 1, a);
    DivModUnique(w, 2, 2048 * f + 512 + 2 * a + 1, 1);
    DivModUnique(2048 * f + 512 + 2 * a + 1, 2, 1024 * f + 256 + a, 1);
  }

  // ---- the hardware's walk ----

  datatype Translation = Fault | Page(leaf: Leaf)

  /** S2AP, descriptor bits 7:6: bit 6 lets the guest read the page, bit 7 lets it write. */
  predicate MayRead(l: Leaf) {
    l.attr / 16 % 2 == 1
  }

  predicate MayWrite(l: Leaf) {
    l.attr / 32 % 2 == 1
  }

  /** Descriptor bits 4:2, which vmm.h takes for the index of the memory type in MAIR_EL2. */
  function AttrIndex(l: Leaf): nat {
    l.attr % 8
  }

  /** To the hardware those bits are part of MemAttr, bits 5:2, which is the memory type itself:
      Normal when bits 5:4 are not zero, and Device otherwise (ARM DDI 0487, section D5.5). */
  predicate HwNormal(l: Leaf) {
    l.attr / 4 % 4 != 0
  }

  const NORMAL_NC_INDEX := 1
  const DEVICE_NGNRNE_INDEX := 0

  datatype Step = Invalid | Next(table: nat) | Output(leaf: Leaf)

  /** One descriptor: bit 0 is valid, bit 1 separates tables and pages from blocks, bits 47:12 are
      the address, bit 10 the access flag, bits 9:2 the attributes. */
  function Decode(d: u64, level: nat, v: nat): Step
    requires level <= 3
  {
    var frame := d / 4096 % 0x10_0000_0000;
    var attr := d / 4 % 256;
    if d % 2 == 0 then Invalid
    else if d / 2 % 2 == 1 && level < 3 then Next(frame)
    else if d / 0x400 % 2 == 0 then Invalid
    else if level == 3 then if d / 2 % 2 == 1 then Output(Leaf(frame, attr)) else Invalid
    else if level == 0 then Invalid
    else if level == 1 then Output(Leaf(frame / 0x4_0000 * 0x4_0000 + v % 0x4_0000, attr))
    else Output(Leaf(frame / 512 * 512 + v % 512, attr))
  }

  /** Stage-2 lookup of page v, starting in the table in frame t. */
  function HwWalk(m: Mem, t: nat, level: nat, v: nat): Translation
    requires level <= 3
    decreases 3 - level
  {
    if !HasFrame(m, t) then Fault else
    match Decode(Entry(Frame(m, t), Index(v, level)), level, v)
    case Invalid => Fault
    case Output(l) => Page(l)
    case Next(next) => if level < 3 then HwWalk(m, next, level + 1, v) else Fault
  }

  lemma DecodeTable(f: nat, level: nat, v: nat)
    requires f < 0x10_0000_0000 && level < 3
    ensures Decode(TableWord(f), level, v) == Next(f)
  {
    TableFields(f);
  }

  lemma DecodeLeaf(l: Leaf, v: nat)
    requires LeafFits(l)
    ensures Decode(LeafWord(l), 3, v) == Output(l)
  {
    hide And, PTE_PA;
    LeafFields(l);
  }

  /** So with bit 5 clear, as S2PTE_ATTR leaves it, an index makes memory Normal exactly from 4 on. */
  lemma NormalIndex(l: Leaf)
    requires l.attr / 8 % 2 == 0
    ensures HwNormal(l) <==> AttrIndex(l) >= 4
  {}

  /** The access rights and the index as bits of the descriptor. */
  lemma AttrBits(d: u64, v: nat)
    requires Decode(d, 3, v).Output?   // S2AP is bits 7:6, the index bits 4:2
    ensures var l := Decode(d, 3, v).leaf;
            && (MayRead(l) <==> d / 0x40 % 2 == 1) && (MayWrite(l) <==> d / 0x80 % 2 == 1)
            && AttrIndex(l) == d / 4 % 8
  {
    var x := d / 4;
    var q, a := x / 256, x % 256;
    DivModUnique(x, 8, 32 * q + a / 8, a % 8);
    BitOf(x, q, a, 16);
    BitOf(x, q, a, 32);
    Quarter(d, 16);
    Quarter(d, 32);
  }

  lemma BitOf(x: nat, q: nat, a: nat, p: nat)
    requires x == 256 * q + a && a < 256 && (p == 16 || p == 32)
    ensures x / p % 2 == a / p % 2
  {
    if p == 16 {
      DivModUnique(x, 16, 16 * q + a / 16, a % 16);
      EvenMore(8 * q, a / 16);
    } else {
      DivModUnique(x, 32, 8 * q + a / 32, a % 32);
      EvenMore(4 * q, a / 32);
    }
  }

  lemma EvenMore(k: nat, r: nat)
    ensures (2 * k + r) % 2 == r % 2
  {}

  lemma Quarter(d: nat, p: nat)
    requires p == 16 || p == 32
    ensures d / 4 / p == d / (4 * p)
  {
    var y := d / 4;
    var q, r := y / p, y % p;
    DivModUnique(d, 4 * p, q, 4 * r + d % 4);
  }

  // ---- the table graph ----

  /** A table is named by its level and the IPA bits above the ones it indexes. */
  datatype Node = Node(level: nat, prefix: nat)

  const ROOT := Node(0, 0)

  function Child(n: Node, i: nat): Node {
    Node(n.level + 1, 512 * n.prefix + i)
  }

  function Parent(n: Node): Node
    requires n.level > 0
  {
    Node(n.level - 1, n.prefix / 512)
  }

  /** The level's table on the path to page v. */
  function OnPath(v: nat, level: nat): Node
    requires level <= 3
  {
    Node(level, match level
                case 0 => v / 0x10_0000_0000
                case 1 => v / 0x800_0000
                case 2 => v / 0x4_0000
                case 3 => v / 512)
  }

  /** The tables below the root that page v needs. */
  function Path(v: nat): set<Node> {
    {OnPath(v, 1), OnPath(v, 2), OnPath(v, 3)}
  }

  lemma PathStep(v: nat, level: nat)
    requires level < 3
    ensures OnPath(v, level + 1) == Child(OnPath(v, level), Index(v, level))
  {
    match level
    case 0 => DivStep(v, 0x800_0000, 0x10_0000_0000);
    case 1 => DivStep(v, 0x4_0000, 0x800_0000);
    case 2 => DivStep(v, 512, 0x4_0000);
  }

  /** Nine bits more of a prefix. */
  lemma DivStep(v: nat, d: nat, e: nat)
    requires d > 0 && e == 512 * d
    ensures v / d == 512 * (v / e) + v / d % 512
  {
    var y := v / d;
    var q, r := y / 512, y % 512;
    assert v == y * d + v % d && y == q * 512 + r;
    var rest := r * d + v % d;
    Regroup(q, r, d);
    assert v == q * e + rest;
    MulDistributes(512, r + 1, d);
    if r < 511 { MulAtLeast(511 - r, d); }
    DivModUnique(v, e, q, rest);
  }

  lemma Regroup(q: int, r: int, d: int)
    ensures (q * 512 + r) * d == q * (512 * d) + r * d && (r + 1) * d == r * d + d
    ensures (512 - (r + 1)) * d == (511 - r) * d
  {}

  lemma ChildInjective(n: Node, i: nat, n': Node, i': nat)
    requires i < 512 && i' < 512 && Child(n, i) == Child(n', i')
    ensures n == n' && i == i'
  {}

  type Tables = map<Node, nat>
  type Pages = map<nat, Leaf>

  /** Every table but the root hangs off a table one level up; depth is at most 3. */
  ghost predicate IsTree(T: Tables) {
    && (forall n :: n in T ==> n.level <= 3 && (n.level == 0 ==> n == ROOT))
    && (forall n {:trigger Parent(n)} :: n in T && n.level > 0 ==> Parent(n) in T)
  }

  /** What entry i of table n must hold. */
  function Expected(T: Tables, M: Pages, n: Node, i: nat): nat {
    if n.level < 3 then if Child(n, i) in T then TableWord(T[Child(n, i)]) else 0
    else if 512 * n.prefix + i in M then LeafWord(M[512 * n.prefix + i]) else 0
  }

  ghost predicate TableHolds(m: Mem, f: nat, T: Tables, M: Pages, n: Node)
    requires HasFrame(m, f)
  {
    forall i :: 0 <= i < 512 ==> Entry(Frame(m, f), i) == Expected(T, M, n, i)
  }

  ghost predicate InMemory(m: Mem, T: Tables) {
    forall n :: n in T ==> HasFrame(m, T[n]) && T[n] < 0x10_0000_0000
  }

  ghost predicate PagesFit(T: Tables, M: Pages) {
    && (forall v :: v in M ==> v < 0x10_0000_0000 && LeafFits(M[v]))
    && (forall v {:trigger OnPath(v, 3)} :: v in M ==> OnPath(v, 3) in T)
  }

  /** Memory m holds exactly the tables T and the leaf entries M. */
  ghost predicate Mapping(m: Mem, T: Tables, M: Pages) {
    && IsTree(T) && InMemory(m, T) && PagesFit(T, M)
    && forall n :: n in T ==> TableHolds(m, T[n], T, M, n)
  }

  lemma {:induction false} AncestorsInTree(T: Tables, v: nat, level: nat, up: nat)
    requires IsTree(T) && up <= level <= 3 && OnPath(v, level) in T
    ensures OnPath(v, up) in T
    decreases level
  {
    if up < level {
      assert Parent(OnPath(v, level)) == OnPath(v, level - 1);
      AncestorsInTree(T, v, level - 1, up);
    }
  }

  /** Refinement: the hardware's walk of flat memory is the abstract map. */
  lemma WalkIsMap(m: Mem, T: Tables, M: Pages, v: nat)
    requires Mapping(m, T, M) && ROOT in T && v < 0x10_0000_0000
    ensures HwWalk(m, T[ROOT], 0, v) == if v in M then Page(M[v]) else Fault
  {
    assert OnPath(v, 0) == ROOT;
    WalkFrom(m, T, M, v, 0);
  }

  /** One level of the walk follows the table graph. */
  lemma WalkStep(m: Mem, f: nat, T: Tables, M: Pages, v: nat, level: nat)
    requires level < 3 && HasFrame(m, f) && TableHolds(m, f, T, M, OnPath(v, level))
    requires OnPath(v, level + 1) in T ==> T[OnPath(v, level + 1)] < 0x10_0000_0000
    ensures var c := OnPath(v, level + 1);
            HwWalk(m, f, level, v) == if c in T then HwWalk(m, T[c], level + 1, v) else Fault
  {
    var n, c := OnPath(v, level), OnPath(v, level + 1);
    assert Entry(Frame(m, f), Index(v, level)) == Expected(T, M, n, Index(v, level));
    PathStep(v, level);
    if c in T { DecodeTable(T[c], level, v); }
  }

  lemma WalkLeaf(m: Mem, f: nat, T: Tables, M: Pages, n: Node, i: nat, v: nat)
    requires n.level == 3 && v == 512 * n.prefix + i && i == Index(v, 3)
    requires HasFrame(m, f) && TableHolds(m, f, T, M, n)
    requires v in M ==> LeafFits(M[v])
    ensures HwWalk(m, f, 3, v) == if v in M then Page(M[v]) else Fault
  {
    var d := Entry(Frame(m, f), i);
    assert d == Expected(T, M, n, i);
    if v in M { DecodeLeaf(M[v], v); }
  }

  lemma {:induction false} WalkFrom(m: Mem, T: Tables, M: Pages, v: nat, level: nat)
    requires Mapping(m, T, M) && level <= 3 && OnPath(v, level) in T
    ensures HwWalk(m, T[OnPath(v, level)], level, v) == if v in M then Page(M[v]) else Fault
    decreases 3 - level
  {
    var n := OnPath(v, level);
    assert TableHolds(m, T[n], T, M, n);
    if level == 3 {
      WalkLeaf(m, T[n], T, M, n, v % 512, v);
    } else {
      WalkStep(m, T[n], T, M, v, level);
      if OnPath(v, level + 1) in T {
        WalkFrom(m, T, M, v, level + 1);
      } else if v in M {
        AncestorsInTree(T, v, 3, level + 1);
      }
    }
  }
}
