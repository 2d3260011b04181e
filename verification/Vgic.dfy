/** Virtual interrupt injection: list registers, the used_lr bitmap, and their part in the life of
    a physical interrupt (gicv3.c, vgicv3.c, el1_sync.c; ARM IHI 0069, section 4.1). */
module Vgic {
  import opened Bits

  // ---- bits of a word ----

  predicate Bit(x: nat, i: nat) {
    if i == 0 then x % 2 == 1 else Bit(x / 2, i - 1)
  }

  lemma {:induction false} OrBit(a: nat, b: nat, i: nat)
    ensures Bit(Or(a, b), i) <==> Bit(a, i) || Bit(b, i)
    decreases i
  {
    if a == 0 || b == 0 {
      ZeroBit(i);
    } else if i > 0 {
      OrBit(a / 2, b / 2, i - 1);
    }
  }

  lemma {:induction false} AndBits(a: nat, b: nat, i: nat)
    ensures Bit(And(a, b), i) <==> Bit(a, i) && Bit(b, i)
    decreases i
  {
    if a == 0 || b == 0 {
      ZeroBit(i);
    } else if i > 0 {
      AndBits(a / 2, b / 2, i - 1);
    }
  }

  lemma {:induction false} ZeroBit(i: nat)
    ensures !Bit(0, i)
  {
    if i > 0 { ZeroBit(i - 1); }
  }

  lemma {:induction false} OneBit(i: nat, j: nat)
    ensures Bit(Shl(1, i), j) <==> i == j
  {
    if i > 0 && j > 0 {
      OneBit(i - 1, j - 1);
    } else if j > 0 {
      ZeroBit(j - 1);
    }
  }

  /** The complement of a bit among the n low ones. */
  lemma {:induction false} ComplementBit(n: nat, i: nat, j: nat)
    requires i < n
    ensures Shl(1, i) <= Ones(n)
    ensures Bit(Ones(n) - Shl(1, i), j) <==> j < n && j != i
    decreases n
  {
    if i == 0 {
      if j > 0 { OnesBit(n - 1, j - 1); }
    } else {
      ComplementBit(n - 1, i - 1, if j > 0 then j - 1 else 0);
      assert Ones(n) - Shl(1, i) == 2 * (Ones(n - 1) - Shl(1, i - 1)) + 1;
    }
  }

  lemma {:induction false} OnesBit(n: nat, j: nat)
    ensures Bit(Ones(n), j) <==> j < n
    decreases n
  {
    if n == 0 {
      ZeroBit(j);
    } else if j > 0 {
      OnesBit(n - 1, j - 1);
    }
  }

  /** The source's test of one bit. */
  lemma {:induction false} TestBit(x: nat, i: nat)
    ensures And(x, Shl(1, i)) != 0 <==> Bit(x, i)
  {
    if i > 0 {
      TestBit(x / 2, i - 1);
      if x == 0 { ZeroBit(i); }
    }
  }

  lemma {:induction false} FewBits(x: nat, n: nat)
    requires forall j :: j >= n ==> !Bit(x, j)
    ensures x < Pow2(n)
    decreases x, n
  {
    if n == 0 {
      if x > 0 {
        assert !Bit(x, 0);
        forall j: nat ensures !Bit(x / 2, j) { assert !Bit(x, j + 1); }
        FewBits(x / 2, 0);
      }
    } else {
      forall j: nat | j >= n - 1 ensures !Bit(x / 2, j) { assert !Bit(x, j + 1); }
      FewBits(x / 2, n - 1);
    }
  }

  // ---- list registers ----

  const LR_PENDING := 1
  const LR_ACTIVE := 2

  function LrState(n: nat): nat { Shl(And(n, 3), 62) }
  function LrGroup(n: nat): nat { Shl(And(n, 1), 60) }
  function LrPintid(n: nat): nat { Shl(And(n, 0x3ff), 32) }
  function LrVintid(n: nat): nat { And(n, 0xffffffff) }

  /** gic_create_lr */
  function CreateLr(pirq: u32, virq: u32): nat {
    Or(Or(Or(Or(LrState(LR_PENDING), Shl(1, 61)), LrGroup(1)), LrPintid(pirq)), LrVintid(virq))
  }

  /** LR_IS_INACTIVE */
  predicate LrIsInactive(lr: u64) {
    And(Shr(lr, 62), 3) == 0
  }

  /** ICH_LR<n>_EL2: state 63:62, HW 61, group 60, pINTID 41:32, vINTID 31:0. */
  datatype Fields = Fields(state: nat, hw: nat, group: nat, pintid: nat, vintid: nat)

  function Decode(lr: u64): Fields {
    Fields(lr / 0x4000_0000_0000_0000 % 4, lr / 0x2000_0000_0000_0000 % 2, lr / 0x1000_0000_0000_0000 % 2,
           lr / 0x1_0000_0000 % 1024, lr % 0x1_0000_0000)
  }

  /** The register with another state. */
  function WithState(lr: u64, state: nat): u64
    requires state < 4
  {
    lr % 0x4000_0000_0000_0000 + state * 0x4000_0000_0000_0000
  }

  lemma ShlConst(x: nat)
    ensures Shl(x, 62) == x * 0x4000_0000_0000_0000 && Shl(x, 61) == x * 0x2000_0000_0000_0000
    ensures Shl(x, 60) == x * 0x1000_0000_0000_0000 && Shl(x, 32) == x * 0x1_0000_0000
  {
    Powers();
    ShlIsMul(x, 62);
    ShlIsMul(x, 61);
    ShlIsMul(x, 60);
    ShlIsMul(x, 32);
  }

  lemma Masks(x: nat)
    ensures And(x, 3) == x % 4 && And(x, 1) == x % 2
    ensures And(x, 0x3ff) == x % 1024 && And(x, 0xffffffff) == x % 0x1_0000_0000
  {
    Powers();
    assert Ones(1) == 1 && Ones(2) == 3 && Ones(8) == 0xff && Ones(10) == 0x3ff;
    assert Ones(16) == 0xffff && Ones(24) == 0xff_ffff && Ones(32) == 0xffff_ffff;
    AndOnes(x, 1);
    AndOnes(x, 2);
    AndOnes(x, 10);
    AndOnes(x, 32);
  }

  lemma DivAdd(x: nat, k: nat, d: nat)
    requires d > 0
    ensures (x + k * d) / d == x / d + k && (x + k * d) % d == x % d
  {
    var q, r := x / d, x % d;
    assert x + k * d == (q + k) * d + r;
    DivModUnique(x + k * d, d, q + k, r);
  }

  /** Adding a multiple of 2^62 leaves the fields below bit 62 alone. */
  lemma HwBelow(low: nat, q: nat)
    ensures (low + q * 0x4000_0000_0000_0000) / 0x2000_0000_0000_0000 % 2 == low / 0x2000_0000_0000_0000 % 2
  {
    DivAdd(low, 2 * q, 0x2000_0000_0000_0000);
    DivAdd(low / 0x2000_0000_0000_0000, q, 2);
  }

  lemma GroupBelow(low: nat, q: nat)
    ensures (low + q * 0x4000_0000_0000_0000) / 0x1000_0000_0000_0000 % 2 == low / 0x1000_0000_0000_0000 % 2
  {
    DivAdd(low, 4 * q, 0x1000_0000_0000_0000);
    DivAdd(low / 0x1000_0000_0000_0000, 2 * q, 2);
  }

  lemma IdsBelow(low: nat, q: nat)
    ensures (low + q * 0x4000_0000_0000_0000) / 0x1_0000_0000 % 1024 == low / 0x1_0000_0000 % 1024
    ensures (low + q * 0x4000_0000_0000_0000) % 0x1_0000_0000 == low % 0x1_0000_0000
  {
    DivAdd(low, q * 0x4000_0000, 0x1_0000_0000);
    DivAdd(low / 0x1_0000_0000, q * 0x10_0000, 1024);
  }

  lemma FieldsBelow(low: nat, q: nat)
    requires low < 0x4000_0000_0000_0000 && q < 4
    ensures low + q * 0x4000_0000_0000_0000 < 0x1_0000_0000_0000_0000
    ensures Decode(low + q * 0x4000_0000_0000_0000)
            == Fields(q, low / 0x2000_0000_0000_0000 % 2, low / 0x1000_0000_0000_0000 % 2,
                      low / 0x1_0000_0000 % 1024, low % 0x1_0000_0000)
  {
    var lr := low + q * 0x4000_0000_0000_0000;
    DivModUnique(lr, 0x4000_0000_0000_0000, q, low);
    HwBelow(low, q);
    GroupBelow(low, q);
    IdsBelow(low, q);
  }

  lemma OrTops()
    ensures Or(Or(0x4000_0000_0000_0000, 0x2000_0000_0000_0000), 0x1000_0000_0000_0000) == 0x7000_0000_0000_0000
  {
    Powers();
    OrDisjoint(0x4000_0000_0000_0000, 0x2000_0000_0000_0000, 62);
    OrDisjoint(0x6000_0000_0000_0000, 0x1000_0000_0000_0000, 61);
  }

  lemma OrIds(p: nat, virq: u32)
    requires p < 1024
    ensures Or(Or(0x7000_0000_0000_0000, p * 0x1_0000_0000), virq) == 0x7000_0000_0000_0000 + p * 0x1_0000_0000 + virq
  {
    var a, b := 0x7000_0000_0000_0000, p * 0x1_0000_0000;
    assert Or(a, b) == a + b by { Powers(); OrDisjoint(a, b, 60); }
    assert (a + b) % 0x1_0000_0000 == 0 by { DivModUnique(a + b, 0x1_0000_0000, 0x7000_0000 + p, 0); }
    assert Or(a + b, virq) == a + b + virq by { Powers(); OrDisjoint(a + b, virq, 32); }
  }

  /** The fields gic_create_lr sets do not overlap. */
  lemma CreateLrSum(pirq: u32, virq: u32)
    ensures CreateLr(pirq, virq) == 0x7000_0000_0000_0000 + pirq % 1024 * 0x1_0000_0000 + virq
  {
    hide And, Or, Shl;
    assert LrPintid(pirq) == pirq % 1024 * 0x1_0000_0000 by { Masks(pirq); ShlConst(pirq % 1024); }
    assert LrVintid(virq) == virq by { Masks(virq); }
    assert LrState(LR_PENDING) == 0x4000_0000_0000_0000 && LrGroup(1) == 0x1000_0000_0000_0000
           && Shl(1, 61) == 0x2000_0000_0000_0000 by { Masks(1); ShlConst(1); }
    hide LrState, LrGroup, LrPintid, LrVintid;
    OrTops();
    OrIds(pirq % 1024, virq);
  }

  /** The hardware reads back a pending, HW-linked Group 1 interrupt with these ids. */
  lemma CreateLrFields(pirq: u32, virq: u32)
    ensures CreateLr(pirq, virq) < 0x1_0000_0000_0000_0000
    ensures Decode(CreateLr(pirq, virq)) == Fields(LR_PENDING, 1, 1, pirq % 1024, virq)
  {
    CreateLrSum(pirq, virq);
    var p := pirq % 1024;
    var low := 0x3000_0000_0000_0000 + p * 0x1_0000_0000 + virq;
    FieldsBelow(low, 1);
    DivModUnique(low, 0x1_0000_0000, 0x3000_0000 + p, virq);
    DivModUnique(0x3000_0000 + p, 1024, 0xc_0000, p);
    DivModUnique(low, 0x2000_0000_0000_0000, 1, low - 0x2000_0000_0000_0000);
    DivModUnique(low, 0x1000_0000_0000_0000, 3, low - 0x3000_0000_0000_0000);
  }

  lemma InactiveIsZeroState(lr: u64)
    ensures LrIsInactive(lr) <==> Decode(lr).state == 0
  {
    Powers();
    ShrIsDiv(lr, 62);
    Masks(Shr(lr, 62));
  }

  lemma StateOnly(lr: u64, state: nat)
    requires state < 4
    ensures Decode(WithState(lr, state)) == Decode(lr).(state := state)
  {
    var low := lr % 0x4000_0000_0000_0000;
    FieldsBelow(low, lr / 0x4000_0000_0000_0000);
    FieldsBelow(low, state);
  }

  // ---- the machine ----

  /** The life of a physical interrupt. */
  datatype Phys = Inactive | Pending | Active | ActivePending

  predicate IsActive(p: Phys) {
    p == Active || p == ActivePending
  }

  /** One core's interrupt state: the bitmap as a set, the list registers, the physical interrupts,
      and how often each was acknowledged for the guest, taken by the guest and deactivated by it. */
  datatype Gic = Gic(maxLrs: nat, used: set<nat>, lrs: seq<u64>, phys: seq<Phys>,
                     acked: seq<nat>, taken: seq<nat>, done: seq<nat>)

  const IDS := 1020   // INTIDs of SGIs, PPIs and SPIs; 1020 to 1023 are special

  ghost predicate GicShape(g: Gic) {
    g.maxLrs <= 16 && |g.lrs| == 16 && |g.phys| == IDS && |g.acked| == IDS && |g.taken| == IDS && |g.done| == IDS
  }

  predicate Live(g: Gic, i: nat) {
    i < |g.lrs| && !LrIsInactive(g.lrs[i])
  }

  function Pintid(g: Gic, i: nat): nat
    requires i < |g.lrs|
  {
    Decode(g.lrs[i]).pintid
  }

  // ---- the hypervisor's part ----

  /** virq_enter: the used bits whose register went inactive are dropped. */
  function Entered(g: Gic): Gic {
    g.(used := set i | i in g.used && (i < g.maxLrs ==> Live(g, i)))
  }

  /** The first unused register from i on, or maxLrs. */
  function FirstFree(used: set<nat>, max: nat, i: nat): nat
    decreases max - i
  {
    if i >= max then max else if i !in used then i else FirstFree(used, max, i + 1)
  }

  datatype Outcome = Ran(g: Gic) | NoListRegister

  /** virq_inject */
  function Injected(g: Gic, pirq: u32, virq: u32): Outcome {
    CreateLrFields(pirq, virq);
    var n := FirstFree(g.used, g.maxLrs, 0);
    if n < g.maxLrs && n < |g.lrs| then Ran(g.(used := g.used + {n}, lrs := g.lrs[n := CreateLr(pirq, virq)]))
    else NoListRegister
  }

  /** Reading ICC_IAR1_EL1: a pending interrupt becomes active (and stays pending too if its level
      is still asserted); a special id acknowledges nothing. */
  predicate CanAck(g: Gic, irq: nat) {
    irq < 1024 && (irq < |g.phys| ==> g.phys[irq] == Pending)
  }

  function Acked(g: Gic, irq: nat, again: bool): Gic {
    if irq < |g.phys| && irq < |g.acked| then
      g.(phys := g.phys[irq := if again then ActivePending else Active], acked := g.acked[irq := g.acked[irq] + 1])
    else g
  }

  /** gic_guest_eoi: with split EOI mode the write to ICC_EOIR1_EL1 only drops the priority; without
      it the interrupt would be deactivated. */
  function Eoi(g: Gic, irq: nat, split: bool): Gic {
    if !split && irq < |g.phys| then g.(phys := g.phys[irq := Deactivated(g.phys[irq])]) else g
  }

  function Deactivated(p: Phys): Phys {
    match p
    case Active => Inactive
    case ActivePending => Pending
    case _ => p
  }

  /** el1_irq_proc: synchronise, acknowledge, drop priority, inject. */
  function IrqProc(g: Gic, irq: nat, again: bool, split: bool): Outcome
    requires irq < 1024
  {
    Injected(Eoi(Acked(Entered(g), irq, again), irq, split), irq, irq)
  }

  // ---- the rest of the world ----

  function Raised(p: Phys): Phys {
    match p
    case Inactive => Pending
    case Active => ActivePending
    case _ => p
  }

  function Lowered(p: Phys): Phys {
    match p
    case Pending => Inactive
    case ActivePending => Active
    case _ => p
  }

  datatype Event =
    | GuestIrq(irq: nat, again: bool)   // a physical interrupt is taken from the guest
    | HypIrq(irq: nat, again: bool)     // one is taken and finished in the hypervisor
    | Raise(irq: nat)
    | Lower(irq: nat)
    | Take(n: nat)                      // the guest acknowledges list register n
    | Finish(n: nat)                    // the guest deactivates list register n's interrupt

  predicate Possible(g: Gic, e: Event) {
    match e
    case GuestIrq(irq, again) => irq < |g.phys| && g.phys[irq] == Pending
    case HypIrq(irq, again) => irq < |g.phys| && g.phys[irq] == Pending
    case Raise(irq) => irq < |g.phys|
    case Lower(irq) => irq < |g.phys|
    case Take(n) => n < |g.lrs| && Decode(g.lrs[n]).state == LR_PENDING && Decode(g.lrs[n]).vintid < |g.taken|
    case Finish(n) =>
      && n < |g.lrs| && Decode(g.lrs[n]).state == LR_ACTIVE
      && Pintid(g, n) < |g.phys| && Pintid(g, n) < |g.done|
  }

  /** What an event does. Deactivating a register with the HW bit set also deactivates the physical
      interrupt it names. */
  function Happens(g: Gic, e: Event): Outcome
    requires |g.phys| <= 1024 && Possible(g, e)
  {
    match e
    case GuestIrq(irq, again) => IrqProc(g, irq, again, true)
    case HypIrq(irq, again) => Ran(g.(phys := g.phys[irq := if again then Pending else Inactive]))
    case Raise(irq) =>
      Ran(g.(phys := g.phys[irq := Raised(g.phys[irq])]))
    case Lower(irq) =>
      Ran(g.(phys := g.phys[irq := Lowered(g.phys[irq])]))
    case Take(n) =>
      var id := Decode(g.lrs[n]).vintid;
      Ran(g.(lrs := g.lrs[n := WithState(g.lrs[n], LR_ACTIVE)], taken := g.taken[id := g.taken[id] + 1]))
    case Finish(n) =>
      var id := Pintid(g, n);
      Ran(g.(lrs := g.lrs[n := WithState(g.lrs[n], 0)],
             phys := if Decode(g.lrs[n]).hw == 1 then g.phys[id := Deactivated(g.phys[id])] else g.phys,
             done := g.done[id := g.done[id] + 1]))
  }

  // ---- the invariant ----

  /** A live register is implemented, marked used, and forwards an interrupt that is active. */
  ghost predicate LrOk(g: Gic, i: nat)
    requires GicShape(g) && i < 16
  {
    var f := Decode(g.lrs[i]);
    && i < g.maxLrs && i in g.used && f.hw == 1 && (f.state == LR_PENDING || f.state == LR_ACTIVE)
    && f.pintid == f.vintid < IDS && IsActive(g.phys[f.pintid])
    && g.acked[f.pintid] == g.done[f.pintid] + 1
    && g.taken[f.pintid] == g.done[f.pintid] + if f.state == LR_ACTIVE then 1 else 0
  }

  ghost predicate InSomeLr(g: Gic, id: nat) {
    exists i :: 0 <= i < 16 && Live(g, i) && Pintid(g, i) == id
  }

  /** Forwarding: live registers and active interrupts correspond one to one, and the counts say
      that each acknowledged interrupt was taken once, or will be, and deactivated once. */
  ghost predicate Forwarding(g: Gic) {
    && GicShape(g) && (forall i :: i in g.used ==> i < g.maxLrs)
    && (forall i :: 0 <= i < 16 && Live(g, i) ==> LrOk(g, i))
    && (forall i, j :: 0 <= i < j < 16 && Live(g, i) && Live(g, j) ==> Pintid(g, i) != Pintid(g, j))
    && (forall id :: 0 <= id < IDS && IsActive(g.phys[id]) ==> InSomeLr(g, id))
    && (forall id :: 0 <= id < IDS && !IsActive(g.phys[id]) ==> g.acked[id] == g.taken[id] == g.done[id])
  }

  lemma LiveState(g: Gic, i: nat)
    requires i < |g.lrs|
    ensures Live(g, i) <==> Decode(g.lrs[i]).state != 0
  {
    InactiveIsZeroState(g.lrs[i]);
  }

  /** virq_enter makes the bitmap exactly the set of live registers, and changes nothing else. */
  lemma EnteredExact(g: Gic)
    requires Forwarding(g)
    ensures Forwarding(Entered(g)) && Entered(g) == g.(used := Entered(g).used)
    ensures forall i :: i in Entered(g).used <==> i < 16 && Live(g, i)
  {
    var e := Entered(g);
    assert forall i :: Live(e, i) == Live(g, i);
    forall i | 0 <= i < 16 && Live(e, i) ensures LrOk(e, i) {
      assert LrOk(g, i);
    }
    forall id | 0 <= id < IDS && IsActive(e.phys[id]) ensures InSomeLr(e, id) {
      assert InSomeLr(g, id);
    }
  }

  lemma {:induction false} FirstFreeIs(used: set<nat>, max: nat, i: nat)
    requires i <= max
    ensures var n := FirstFree(used, max, i);
            i <= n <= max && (n < max ==> n !in used) && forall j :: i <= j < n ==> j in used
    decreases max - i
  {
    if i < max && i in used { FirstFreeIs(used, max, i + 1); }
  }

  /** Registers other than n, and the interrupts they hold, are as before. */
  ghost predicate OthersSame(g: Gic, g': Gic, n: nat, id: nat)
    requires GicShape(g)
  {
    && GicShape(g') && g'.maxLrs == g.maxLrs && g.used <= g'.used && n < 16
    && (forall i :: 0 <= i < 16 && i != n ==> g'.lrs[i] == g.lrs[i])
    && (forall d :: 0 <= d < IDS && d != id ==> g'.phys[d] == g.phys[d] && g'.acked[d] == g.acked[d]
                                                && g'.taken[d] == g.taken[d] && g'.done[d] == g.done[d])
  }

  /** A change confined to register n and interrupt id keeps forwarding if they still agree. */
  lemma OneRegister(g: Gic, g': Gic, n: nat, id: nat)
    requires Forwarding(g) && OthersSame(g, g', n, id) && id < IDS && (forall i :: i in g'.used ==> i < g.maxLrs)
    requires forall i :: 0 <= i < 16 && i != n && Live(g, i) ==> Pintid(g, i) != id
    requires Live(g, n) ==> Pintid(g, n) == id
    requires Live(g', n) ==> Pintid(g', n) == id && LrOk(g', n)
    requires IsActive(g'.phys[id]) ==> Live(g', n)
    requires !IsActive(g'.phys[id]) ==> g'.acked[id] == g'.taken[id] == g'.done[id]
    ensures Forwarding(g')
  {
    hide Decode, LrIsInactive;
    forall i | 0 <= i < 16 && Live(g', i) ensures LrOk(g', i) {
      if i != n { assert Live(g, i) && LrOk(g, i); }
    }
    forall i, j | 0 <= i < j < 16 && Live(g', i) && Live(g', j) ensures Pintid(g', i) != Pintid(g', j) {
      if i != n { assert Live(g, i); }
      if j != n { assert Live(g, j); }
    }
    forall d | 0 <= d < IDS && IsActive(g'.phys[d]) ensures InSomeLr(g', d) {
      if d != id {
        assert InSomeLr(g, d);
        var i :| 0 <= i < 16 && Live(g, i) && Pintid(g, i) == d;
        assert Live(g', i) && Pintid(g', i) == d;
      } else {
        assert Live(g', n) && Pintid(g', n) == id;
      }
    }
  }

  /** Nothing forwards an interrupt that is not active. */
  lemma NotHeld(g: Gic, id: nat)
    requires Forwarding(g) && id < IDS && !IsActive(g.phys[id])
    ensures forall i :: 0 <= i < 16 && Live(g, i) ==> Pintid(g, i) != id
  {
    forall i | 0 <= i < 16 && Live(g, i) ensures Pintid(g, i) != id {
      assert LrOk(g, i);
    }
  }

  /** The only register that holds id. */
  lemma HeldOnce(g: Gic, n: nat)
    requires Forwarding(g) && n < 16 && Live(g, n)
    ensures forall i :: 0 <= i < 16 && i != n && Live(g, i) ==> Pintid(g, i) != Pintid(g, n)
  {}

  /** The state after acknowledging irq and writing lr to register n. */
  function Given(e: Gic, irq: nat, again: bool, split: bool, n: nat, lr: u64): Gic {
    var a := Eoi(Acked(e, irq, again), irq, split);
    if n < |a.lrs| then a.(used := a.used + {n}, lrs := a.lrs[n := lr]) else a
  }

  /** el1_irq_proc aborts exactly when every implemented register is live, and it never overwrites
      a live one. */
  lemma IrqProcRegister(g: Gic, irq: nat, again: bool, split: bool)
    requires Forwarding(g) && irq < 1024
    ensures CreateLr(irq, irq) < 0x1_0000_0000_0000_0000
    ensures var r, n := IrqProc(g, irq, again, split), FirstFree(Entered(g).used, g.maxLrs, 0);
            && (r.NoListRegister? <==> forall i :: 0 <= i < g.maxLrs ==> Live(g, i))
            && (r.Ran? ==> n < g.maxLrs && !Live(g, n) && n !in Entered(g).used
                           && r.g == Given(Entered(g), irq, again, split, n, CreateLr(irq, irq)))
  {
    EnteredExact(g);
    FirstFreeIs(Entered(g).used, g.maxLrs, 0);
    CreateLrFields(irq, irq);
    hide LrIsInactive, Decode, Forwarding, CreateLr, Live;
    var e := Entered(g);
    var a := Eoi(Acked(e, irq, again), irq, split);
    assert a.used == e.used && a.maxLrs == g.maxLrs && |a.lrs| == 16;
    hide Entered, Acked, Eoi;
  }

  lemma RealIrq(e: Gic, irq: nat, again: bool, n: nat, lr: u64)
    requires Forwarding(e) && irq < IDS && CanAck(e, irq) && n < e.maxLrs && !Live(e, n) && n !in e.used
    requires Decode(lr) == Fields(LR_PENDING, 1, 1, irq, irq)
    ensures Forwarding(Given(e, irq, again, true, n, lr))
  {
    var g' := Given(e, irq, again, true, n, lr);
    NotHeld(e, irq);
    LiveState(g', n);
    hide LrIsInactive, Decode, Live;
    OneRegister(e, g', n, irq);
  }

  /** A special id, or an EOI that deactivates, leaves a live register for no active interrupt. */
  lemma BadIrq(e: Gic, irq: nat, again: bool, split: bool, n: nat, lr: u64)
    requires GicShape(e) && CanAck(e, irq) && !(irq < IDS && split) && n < e.maxLrs
    requires Decode(lr) == Fields(LR_PENDING, 1, 1, irq, irq)
    ensures !Forwarding(Given(e, irq, again, split, n, lr))
  {
    var g' := Given(e, irq, again, split, n, lr);
    LiveState(g', n);
    assert GicShape(g') && (irq < IDS ==> !IsActive(g'.phys[irq]));
    hide LrIsInactive, Decode;
    assert Live(g', n) && !LrOk(g', n);
  }

  lemma GivenForwards(e: Gic, irq: nat, again: bool, split: bool, n: nat, lr: u64)
    requires Forwarding(e) && GicShape(e) && CanAck(e, irq) && n < e.maxLrs && !Live(e, n) && n !in e.used
    requires Decode(lr) == Fields(LR_PENDING, 1, 1, irq, irq)
    ensures Forwarding(Given(e, irq, again, split, n, lr)) <==> irq < IDS && split
  {
    hide *;
    if irq < IDS && split {
      RealIrq(e, irq, again, n, lr);
    } else {
      BadIrq(e, irq, again, split, n, lr);
    }
  }

  /** Whatever id the acknowledge returned, el1_irq_proc keeps forwarding exactly when it was a real
      interrupt's and EOI mode is split. */
  lemma IrqProcForwards(g: Gic, irq: nat, again: bool, split: bool)
    requires irq < 1024 && Forwarding(g) && CanAck(g, irq) && IrqProc(g, irq, again, split).Ran?
    ensures Forwarding(IrqProc(g, irq, again, split).g) <==> irq < IDS && split
  {
    hide *;
    IrqProcRegister(g, irq, again, split);
    EnteredSame(g, irq);
    CreateLrFields(irq, irq);
    GivenForwards(Entered(g), irq, again, split, FirstFree(Entered(g).used, g.maxLrs, 0), CreateLr(irq, irq));
  }

  /** A special id gets there from the first state on: the read of the acknowledge register finds no
      interrupt, and a list register then presents id 1023 to the guest. */
  lemma SpecialIdForwarded(g: Gic)
    requires GicInit(g) && g.maxLrs > 0
    ensures Forwarding(g) && CanAck(g, 1023) && IrqProc(g, 1023, false, true).Ran?
    ensures var r := IrqProc(g, 1023, false, true).g;
            && r.phys == g.phys && 0 in r.used && |r.lrs| == 16
            && Decode(r.lrs[0]) == Fields(LR_PENDING, 1, 1, 1023, 1023) && !Forwarding(r)
  {
    hide Decode, LrIsInactive, CreateLr;
    assert !Live(g, 0);
    IrqProcRegister(g, 1023, false, true);
    IrqProcForwards(g, 1023, false, true);
    CreateLrFields(1023, 1023);
  }

  lemma EnteredSame(g: Gic, irq: nat)
    requires Forwarding(g) && CanAck(g, irq)
    ensures Forwarding(Entered(g)) && GicShape(Entered(g)) && CanAck(Entered(g), irq) && Entered(g).maxLrs == g.maxLrs
    ensures forall i :: Live(Entered(g), i) == Live(g, i)
  {
    EnteredExact(g);
  }

  /** An interrupt taken from the guest ends up in a free list register; the live ones are as
      they were. */
  lemma IrqTaken(g: Gic, irq: nat, again: bool)
    requires Forwarding(g) && irq < IDS && g.phys[irq] == Pending && IrqProc(g, irq, again, true).Ran?
    ensures var r := IrqProc(g, irq, again, true).g;
            && Forwarding(r) && InSomeLr(r, irq) && |r.lrs| == 16 && |r.phys| == IDS
            && r.phys[irq] == (if again then ActivePending else Active)
            && forall i :: 0 <= i < 16 && Live(g, i) ==> r.lrs[i] == g.lrs[i]
  {
    hide Forwarding, IrqProc, LrIsInactive, CreateLr, Decode, InSomeLr, Live;
    IrqProcRegister(g, irq, again, true);
    IrqProcForwards(g, irq, again, true);
    EnteredSame(g, irq);
    var r := IrqProc(g, irq, again, true).g;
    assert |r.lrs| == 16 && |r.phys| == IDS && r.phys[irq] == if again then ActivePending else Active;
    ActiveIsHeld(r, irq);
  }

  lemma ActiveIsHeld(g: Gic, id: nat)
    requires Forwarding(g) && id < |g.phys| == IDS && IsActive(g.phys[id])
    ensures InSomeLr(g, id)
  {}

  lemma TakeForwards(g: Gic, n: nat)
    requires Forwarding(g) && Possible(g, Take(n))
    ensures Forwarding(Happens(g, Take(n)).g)
  {
    var g' := Happens(g, Take(n)).g;
    LiveState(g, n);
    LiveState(g', n);
    StateOnly(g.lrs[n], LR_ACTIVE);
    assert LrOk(g, n);
    HeldOnce(g, n);
    OneRegister(g, g', n, Pintid(g, n));
  }

  lemma FinishForwards(g: Gic, n: nat)
    requires Forwarding(g) && Possible(g, Finish(n))
    ensures Forwarding(Happens(g, Finish(n)).g) && !IsActive(Happens(g, Finish(n)).g.phys[Pintid(g, n)])
  {
    var g' := Happens(g, Finish(n)).g;
    LiveState(g, n);
    LiveState(g', n);
    StateOnly(g.lrs[n], 0);
    assert LrOk(g, n);
    HeldOnce(g, n);
    OneRegister(g, g', n, Pintid(g, n));
  }

  /** A change of the pending half of one interrupt's state. */
  lemma PendingForwards(g: Gic, id: nat, p: Phys)
    requires Forwarding(g) && id < IDS && IsActive(p) == IsActive(g.phys[id])
    ensures Forwarding(g.(phys := g.phys[id := p]))
  {
    var g' := g.(phys := g.phys[id := p]);
    hide Decode, LrIsInactive;
    forall i | 0 <= i < 16 && Live(g', i) ensures LrOk(g', i) {
      assert Live(g, i) && LrOk(g, i);
    }
    forall i, j | 0 <= i < j < 16 && Live(g', i) && Live(g', j) ensures Pintid(g', i) != Pintid(g', j) {
      assert Live(g, i) && Live(g, j);
    }
    forall d | 0 <= d < IDS && IsActive(g'.phys[d]) ensures InSomeLr(g', d) {
      assert InSomeLr(g, d);
      var i :| 0 <= i < 16 && Live(g, i) && Pintid(g, i) == d;
      assert Live(g', i) && Pintid(g', i) == d;
    }
  }

  /** Every event keeps forwarding, unless it stops the machine for want of a register. */
  lemma EventForwards(g: Gic, e: Event)
    requires Forwarding(g) && Possible(g, e)
    ensures Happens(g, e).Ran? ==> Forwarding(Happens(g, e).g)
    ensures Happens(g, e).NoListRegister? ==> e.GuestIrq? && forall i :: 0 <= i < g.maxLrs ==> Live(g, i)
  {
    match e {
      case GuestIrq(irq, again) =>
        IrqProcRegister(g, irq, again, true);
        if Happens(g, e).Ran? { IrqProcForwards(g, irq, again, true); }
      case HypIrq(irq, again) => PendingForwards(g, irq, if again then Pending else Inactive);
      case Raise(irq) => PendingForwards(g, irq, Raised(g.phys[irq]));
      case Lower(irq) => PendingForwards(g, irq, Lowered(g.phys[irq]));
      case Take(n) => TakeForwards(g, n);
      case Finish(n) => FinishForwards(g, n);
    }
  }

  /** An active interrupt stays active until the guest deactivates it. */
  lemma StaysActive(g: Gic, e: Event, id: nat)
    requires Forwarding(g) && Possible(g, e) && id < IDS && IsActive(g.phys[id]) && Happens(g, e).Ran?
    ensures GicShape(Happens(g, e).g)
    ensures IsActive(Happens(g, e).g.phys[id]) <==> !(e.Finish? && Pintid(g, e.n) == id)
  {
    EventForwards(g, e);
    if e.GuestIrq? {
      EnteredExact(g);
    } else if e.Finish? {
      LiveState(g, e.n);
      assert LrOk(g, e.n);
    }
  }

  /** The guest can always go on with a forwarded interrupt: take it if its register is pending,
      deactivate it if it is active, and there is no third state. */
  lemma AlwaysPossible(g: Gic, n: nat)
    requires Forwarding(g) && n < 16 && Live(g, n)
    ensures Possible(g, Take(n)) <==> Decode(g.lrs[n]).state == LR_PENDING
    ensures Possible(g, Finish(n)) <==> Decode(g.lrs[n]).state == LR_ACTIVE
    ensures Possible(g, Take(n)) || Possible(g, Finish(n))
  {
    hide Decode, LrIsInactive;
    assert LrOk(g, n);
  }

  // ---- runs ----

  ghost predicate GicInit(g: Gic) {
    && GicShape(g) && g.used == {} && (forall i :: 0 <= i < 16 ==> !Live(g, i))
    && forall id :: 0 <= id < IDS ==> !IsActive(g.phys[id]) && g.acked[id] == g.taken[id] == g.done[id] == 0
  }

  /** A run that is not stopped. */
  ghost predicate Runs(g: Gic, es: seq<Event>)
    decreases |es|
  {
    es == [] || (|g.phys| <= 1024 && Possible(g, es[0]) && Happens(g, es[0]).Ran? && Runs(Happens(g, es[0]).g, es[1..]))
  }

  ghost function Final(g: Gic, es: seq<Event>): Gic
    requires Runs(g, es)
    decreases |es|
  {
    if es == [] then g else Final(Happens(g, es[0]).g, es[1..])
  }

  lemma {:induction false} RunForwards(g: Gic, es: seq<Event>)
    requires Forwarding(g) && Runs(g, es)
    ensures Forwarding(Final(g, es))
    decreases |es|
  {
    if es != [] {
      EventForwards(g, es[0]);
      RunForwards(Happens(g, es[0]).g, es[1..]);
    }
  }

  /** So from every reachable state an active interrupt can be finished: the guest takes it, unless
      it has, and deactivates it. */
  lemma CanFinish(g: Gic, id: nat) returns (es: seq<Event>)
    requires Forwarding(g) && id < IDS && IsActive(g.phys[id])
    ensures Runs(g, es) && GicShape(Final(g, es)) && !IsActive(Final(g, es).phys[id])
    ensures Final(g, es).done[id] == g.done[id] + 1
  {
    assert InSomeLr(g, id);
    var n :| 0 <= n < 16 && Live(g, n) && Pintid(g, n) == id;
    hide Live, InSomeLr, LrIsInactive;
    AlwaysPossible(g, n);
    if Possible(g, Finish(n)) {
      es := FinishRun(g, n);
    } else {
      es := TakeRun(g, n, id);
    }
  }

  lemma FinishRun(g: Gic, n: nat) returns (es: seq<Event>)
    requires Forwarding(g) && Possible(g, Finish(n))
    ensures es == [Finish(n)] && Runs(g, es) && GicShape(Final(g, es)) && !IsActive(Final(g, es).phys[Pintid(g, n)])
    ensures Final(g, es).done[Pintid(g, n)] == g.done[Pintid(g, n)] + 1
  {
    es := [Finish(n)];
    assert |g.phys| == IDS;
    hide Forwarding, Decode;
    OneEvent(g, Finish(n));
    FinishForwards(g, n);
    FinishedOnce(g, n);
  }

  lemma FinishedOnce(g: Gic, n: nat)
    requires Forwarding(g) && Possible(g, Finish(n))
    ensures GicShape(Happens(g, Finish(n)).g)
    ensures Happens(g, Finish(n)).g.done[Pintid(g, n)] == g.done[Pintid(g, n)] + 1
  {}

  lemma OneEvent(g: Gic, e: Event)
    requires |g.phys| <= 1024 && Possible(g, e) && Happens(g, e).Ran?
    ensures Runs(g, [e]) && Final(g, [e]) == Happens(g, e).g
  {
    var g' := Happens(g, e).g;
    assert [e][1..] == [] && Runs(g', []) && Final(g', []) == g';
  }

  lemma TakeRun(g: Gic, n: nat, id: nat) returns (es: seq<Event>)
    requires Forwarding(g) && Possible(g, Take(n)) && Pintid(g, n) == id && id < IDS
    ensures Runs(g, es) && GicShape(Final(g, es)) && !IsActive(Final(g, es).phys[id])
    ensures Final(g, es).done[id] == g.done[id] + 1
  {
    var g' := Happens(g, Take(n)).g;
    TakeForwards(g, n);
    TakenState(g, n);
    hide Forwarding, Decode;
    AlwaysPossible(g', n);
    var rest := FinishRun(g', n);
    es := [Take(n)] + rest;
    assert es[1..] == rest;
  }

  lemma TakenState(g: Gic, n: nat)
    requires Forwarding(g) && Possible(g, Take(n))
    ensures var g' := Happens(g, Take(n)).g;
            && |g.phys| == IDS && n < 16 && |g'.lrs| == 16 && g'.done == g.done && Live(g', n)
            && Decode(g'.lrs[n]).state == LR_ACTIVE && Pintid(g', n) == Pintid(g, n)
  {
    StateOnly(g.lrs[n], LR_ACTIVE);
    LiveState(Happens(g, Take(n)).g, n);
  }

  // ---- no acknowledge without a signal ----

  /** The interrupt still has a signal nobody has acknowledged. */
  function Waiting(p: Phys): nat {
    if p == Pending || p == ActivePending then 1 else 0
  }

  /** An event acknowledges id. */
  function AckOf(e: Event, id: nat): nat {
    match e
    case GuestIrq(irq, _) => if irq == id then 1 else 0
    case HypIrq(irq, _) => if irq == id then 1 else 0
    case _ => 0
  }

  /** An event signals id: its line rises, or is found still high when it is acknowledged. */
  function SignalOf(e: Event, id: nat): nat {
    match e
    case GuestIrq(irq, again) => if irq == id && again then 1 else 0
    case HypIrq(irq, again) => if irq == id && again then 1 else 0
    case Raise(irq) => if irq == id then 1 else 0
    case _ => 0
  }

  function Acks(es: seq<Event>, id: nat): nat {
    if es == [] then 0 else AckOf(es[0], id) + Acks(es[1..], id)
  }

  function Signals(es: seq<Event>, id: nat): nat {
    if es == [] then 0 else SignalOf(es[0], id) + Signals(es[1..], id)
  }

  /** Every event, interrupt by interrupt: what is pending, what is active, and what is counted. */
  lemma EventExact(g: Gic, e: Event, id: nat)
    requires Forwarding(g) && Possible(g, e) && id < IDS && Happens(g, e).Ran?
    ensures GicShape(g) && GicShape(Happens(g, e).g)
    ensures var p, p' := g.phys[id], Happens(g, e).g.phys[id];
            && Waiting(p') == (match e
                               case Raise(irq) => if irq == id then 1 else Waiting(p)
                               case Lower(irq) => if irq == id then 0 else Waiting(p)
                               case GuestIrq(irq, again) => if irq != id then Waiting(p) else if again then 1 else 0
                               case HypIrq(irq, again) => if irq != id then Waiting(p) else if again then 1 else 0
                               case _ => Waiting(p))
            && (IsActive(p') <==> (e.GuestIrq? && e.irq == id)
                                  || (IsActive(p) && !(e.Finish? && Decode(g.lrs[e.n]).pintid == id)))
    ensures var r := Happens(g, e).g;
            && r.acked[id] == g.acked[id] + (if e.GuestIrq? && e.irq == id then 1 else 0)
            && r.taken[id] == g.taken[id] + (if e.Take? && Decode(g.lrs[e.n]).vintid == id then 1 else 0)
            && r.done[id] == g.done[id] + if e.Finish? && Decode(g.lrs[e.n]).pintid == id then 1 else 0
  {
    EventForwards(g, e);
    assert GicShape(g) && GicShape(Happens(g, e).g);
    if e.GuestIrq? {
      IrqTaken(g, e.irq, e.again);
      OtherPhys(g, e.irq, e.again, id);
    } else if e.Finish? {
      LiveState(g, e.n);
      assert LrOk(g, e.n);
    }
    hide Forwarding, IrqProc, Decode;
  }

  lemma OneSignal(g: Gic, e: Event, id: nat)
    requires Forwarding(g) && Possible(g, e) && id < IDS && Happens(g, e).Ran?
    ensures GicShape(Happens(g, e).g)
    ensures AckOf(e, id) + Waiting(Happens(g, e).g.phys[id]) <= Waiting(g.phys[id]) + SignalOf(e, id)
  {
    EventExact(g, e, id);
    hide Forwarding, Happens, Decode;
  }

  lemma OtherPhys(g: Gic, irq: nat, again: bool, id: nat)
    requires GicShape(g) && irq < IDS && id < IDS && IrqProc(g, irq, again, true).Ran?
    ensures var r := IrqProc(g, irq, again, true).g;
            && |r.phys| == |r.acked| == |r.taken| == |r.done| == IDS && (id != irq ==> r.phys[id] == g.phys[id])
            && r.acked[id] == g.acked[id] + (if irq == id then 1 else 0)
            && r.taken[id] == g.taken[id] && r.done[id] == g.done[id]
  {
    hide CreateLr, LrIsInactive;
  }

  /** Over all runs an interrupt is acknowledged at most as often as it was signalled, and one still
      waiting is a signal not acknowledged yet. */
  lemma {:induction false} AcksNeedSignals(g: Gic, es: seq<Event>, id: nat)
    requires Forwarding(g) && Runs(g, es) && id < IDS
    ensures GicShape(Final(g, es))
    ensures Acks(es, id) + Waiting(Final(g, es).phys[id]) <= Waiting(g.phys[id]) + Signals(es, id)
    decreases |es|
  {
    if es != [] {
      EventForwards(g, es[0]);
      OneSignal(g, es[0], id);
      hide Forwarding, Happens, Possible;
      AcksNeedSignals(Happens(g, es[0]).g, es[1..], id);
    }
  }

  /** Over all runs: an interrupt acknowledged for the guest is active exactly while it sits in
      one list register, and the counts never differ by more than the one in flight. */
  lemma NoneLostOrTwice(g: Gic, es: seq<Event>, id: nat)
    requires GicInit(g) && Runs(g, es) && id < IDS
    ensures var r := Final(g, es);
            && GicShape(r)
            && r.done[id] <= r.taken[id] <= r.acked[id] <= r.done[id] + 1
            && (r.acked[id] == r.done[id] + 1 <==> IsActive(r.phys[id]))
            && (IsActive(r.phys[id]) <==> InSomeLr(r, id))
            && forall i, j :: 0 <= i < 16 && 0 <= j < 16 && Live(r, i) && Live(r, j) && Pintid(r, i) == Pintid(r, j) ==>
                                i == j
  {
    assert Forwarding(g);
    RunForwards(g, es);
    var r := Final(g, es);
    if IsActive(r.phys[id]) {
      var i :| 0 <= i < 16 && Live(r, i) && Pintid(r, i) == id;
      assert LrOk(r, i);
    } else {
      NotHeld(r, id);
    }
  }
}
