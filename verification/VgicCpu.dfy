/** One core's virtual interrupt interface as the code updates it: the 16-bit map used_lr, the list
    registers, and the physical interrupts it acknowledges (vgicv3.c, el1_sync.c). */
module VgicCpu {
  import opened Bits
  import opened Vgic

  ghost function UsedSet(x: u16): set<nat> {
    set i: nat | i < 16 && Bit(x, i)
  }

  lemma {:induction false} AndAtMost(a: nat, b: nat)
    ensures And(a, b) <= a
  {
    if a > 0 && b > 0 { AndAtMost(a / 2, b / 2); }
  }

  lemma {:induction false} HighBits(x: nat, n: nat, j: nat)
    requires x < Pow2(n) && n <= j
    ensures !Bit(x, j)
    decreases j
  {
    if n == 0 {
      ZeroBit(j);
    } else {
      HighBits(x / 2, n - 1, j - 1);
    }
  }

  /** Clearing one bit of the map. */
  lemma ClearBit(x: u16, i: nat)
    requires i < 16
    ensures Shl(1, i) <= 0xffff && And(x, 0xffff - Shl(1, i)) < 0x1_0000
    ensures UsedSet(And(x, 0xffff - Shl(1, i))) == UsedSet(x) - {i}
  {
    Powers();
    assert Ones(8) == 0xff && Ones(16) == 0xffff;
    ComplementBit(16, i, 0);
    var m := 0xffff - Shl(1, i);
    AndAtMost(x, m);
    forall j: nat | j < 16 ensures Bit(And(x, m), j) <==> Bit(x, j) && j != i {
      AndBits(x, m, j);
      ComplementBit(16, i, j);
    }
  }

  /** Setting one bit of the map. */
  lemma SetBit(x: u16, i: nat)
    requires i < 16
    ensures Or(x, Shl(1, i)) < 0x1_0000
    ensures UsedSet(Or(x, Shl(1, i))) == UsedSet(x) + {i}
  {
    var y := Or(x, Shl(1, i));
    forall j: nat ensures Bit(y, j) <==> Bit(x, j) || j == i {
      OrBit(x, Shl(1, i), j);
      OneBit(i, j);
    }
    Powers();
    forall j: nat | j >= 16 ensures !Bit(y, j) { HighBits(x, 16, j); }
    FewBits(y, 16);
  }

  /** The registers below i that are still to be looked at keep their bit. */
  ghost function EnteredBelow(g: Gic, i: nat): set<nat> {
    set k | k in g.used && (k < i && k < g.maxLrs ==> Live(g, k))
  }

  lemma EoiIs(a: Gic, phys: seq<Phys>, irq: nat, split: bool)
    requires |a.phys| == |phys| == IDS
    requires split || irq >= IDS ==> phys == a.phys
    requires !split && irq < IDS ==>
               && !IsActive(phys[irq]) && (phys[irq] == Pending <==> a.phys[irq] in {Pending, ActivePending})
               && forall id :: 0 <= id < IDS && id != irq ==> phys[id] == a.phys[id]
    ensures a.(phys := phys) == Eoi(a, irq, split)
  {}

  /** Register n was the first unused one, and now presents virq as pending and linked to pirq. */
  ghost predicate InjectedAt(n: nat, pirq: u32, virq: u32, used: u16, used': u16, lrs: seq<u64>, lrs': seq<u64>) {
    && |lrs'| == |lrs| && n < |lrs| && n !in UsedSet(used) && (forall k :: 0 <= k < n ==> k in UsedSet(used))
    && UsedSet(used') == UsedSet(used) + {n} && (forall k :: 0 <= k < |lrs| && k != n ==> lrs'[k] == lrs[k])
    && Decode(lrs'[n]) == Fields(LR_PENDING, 1, 1, pirq % 1024, virq)
  }

  lemma Injecting(n: nat, pirq: u32, virq: u32, used: u16, used': u16, lrs: seq<u64>)
    requires n < |lrs| && n !in UsedSet(used) && (forall k :: 0 <= k < n ==> k in UsedSet(used))
    requires UsedSet(used') == UsedSet(used) + {n} && CreateLr(pirq, virq) < 0x1_0000_0000_0000_0000
    ensures InjectedAt(n, pirq, virq, used, used', lrs, lrs[n := CreateLr(pirq, virq)])
  {
    hide Decode, UsedSet, CreateLr;
    CreateLrFields(pirq, virq);
  }

  class Cpu {
    const maxLrs: nat            // gic_max_lrs
    const lrs: array<u64>        // ICH_LR<n>_EL2
    const phys: array<Phys>      // the distributor's view of the physical interrupts
    var usedLr: u16
    ghost var acked: seq<nat>
    ghost var taken: seq<nat>
    ghost var done: seq<nat>

    ghost predicate Valid()
      reads this
    {
      maxLrs <= 16 && lrs.Length == 16 && phys.Length == IDS && |acked| == IDS && |taken| == IDS && |done| == IDS
    }

    ghost function Now(): Gic
      reads this, lrs, phys
    {
      Gic(maxLrs, UsedSet(usedLr), lrs[..], phys[..], acked, taken, done)
    }

    /** create_vgic_cpu, on a core whose list registers and interrupts are all idle. */
    constructor (max: nat)
      requires max <= 16
      ensures Valid() && fresh(lrs) && fresh(phys) && maxLrs == max && GicInit(Now())
    {
      maxLrs := max;
      lrs := new u64[16](_ => 0);
      phys := new Phys[IDS](_ => Inactive);
      usedLr := 0;
      acked, taken, done := seq(IDS, _ => 0), seq(IDS, _ => 0), seq(IDS, _ => 0);
      new;
      forall i: nat ensures !Bit(0, i) { ZeroBit(i); }
      assert UsedSet(0) == {};
      InactiveIsZeroState(0);
    }

    method VirqEnter()
      requires Valid()
      modifies this`usedLr
      ensures Valid() && Now() == Entered(old(Now()))
    {
      ghost var g := Now();
      for i := 0 to maxLrs
        invariant UsedSet(usedLr) == EnteredBelow(g, i)
      {
        TestBit(usedLr, i);
        if And(usedLr, Shl(1, i)) != 0 {
          var listReg := lrs[i];
          if LrIsInactive(listReg) {
            ClearBit(usedLr, i);
            usedLr := And(usedLr, 0xffff - Shl(1, i));
          }
        }
      }
      assert EnteredBelow(g, maxLrs) == Entered(g).used;
    }

    method AllocLr() returns (n: int)
      requires Valid()
      modifies this`usedLr
      ensures Valid()
      ensures var f := FirstFree(UsedSet(old(usedLr)), maxLrs, 0);
              && n == (if f < maxLrs then f else -1)
              && UsedSet(usedLr) == if f < maxLrs then UsedSet(old(usedLr)) + {f} else UsedSet(old(usedLr))
    {
      for i := 0 to maxLrs
        invariant usedLr == old(usedLr)
        invariant FirstFree(UsedSet(usedLr), maxLrs, 0) == FirstFree(UsedSet(usedLr), maxLrs, i)
      {
        TestBit(usedLr, i);
        if And(usedLr, Shl(1, i)) == 0 {
          SetBit(usedLr, i);
          usedLr := Or(usedLr, Shl(1, i));
          return i;
        }
      }
      return -1;
    }

    /** virq_inject; ok is false when it aborts. */
    method VirqInject(pirq: u32, virq: u32) returns (ok: bool)
      requires Valid()
      modifies this`usedLr, lrs
      ensures Valid()
      ensures match Injected(old(Now()), pirq, virq)
              case Ran(g) => ok && Now() == g
              case NoListRegister => !ok && Now() == old(Now())
      ensures !ok <==> forall n :: 0 <= n < maxLrs ==> n in old(UsedSet(usedLr))
      ensures ok ==> exists n :: 0 <= n < maxLrs
                                 && InjectedAt(n, pirq, virq, old(usedLr), usedLr, old(lrs[..]), lrs[..])
    {
      hide Decode, UsedSet, InjectedAt, CreateLr;
      ghost var u0, l0 := usedLr, lrs[..];
      var lr := CreateLr(pirq, virq);
      CreateLrFields(pirq, virq);
      FirstFreeIs(UsedSet(usedLr), maxLrs, 0);
      var n := AllocLr();
      ok := n >= 0;
      if ok {
        lrs[n] := lr;
        Injecting(n, pirq, virq, u0, usedLr, l0);
        assert lrs[..] == l0[n := lr];
      }
    }

    /** The read of ICC_IAR1_EL1 in get_irq: the interrupt controller's side of an acknowledge. */
    method Acknowledge(irq: nat, again: bool)
      requires Valid()
      modifies phys, this`acked
      ensures Valid() && Now() == Acked(old(Now()), irq, again)
    {
      if irq < phys.Length {
        phys[irq] := if again then ActivePending else Active;
        acked := acked[irq := acked[irq] + 1];
      }
    }

    /** The write of ICC_EOIR1_EL1 in gic_guest_eoi. With split EOI mode no interrupt changes state;
        without it the one named is no longer active, and may be acknowledged again if it is still
        pending, before the guest has dealt with it. */
    method GuestEoi(irq: nat, split: bool)
      requires Valid()
      modifies phys
      ensures Valid() && Now() == old(Now()).(phys := phys[..])
      ensures split || irq >= IDS ==> phys[..] == old(phys[..])
      ensures !split && irq < IDS ==>
                && !IsActive(phys[irq]) && (phys[irq] == Pending <==> old(phys[irq]) in {Pending, ActivePending})
                && forall id :: 0 <= id < IDS && id != irq ==> phys[id] == old(phys[id])
    {
      if !split && irq < phys.Length {
        phys[irq] := Deactivated(phys[irq]);
      }
    }

    /** el1_irq_proc; iar is what the acknowledge register reads, again whether the interrupt's
        level is still asserted, split the EOI mode gic_icc_init chose. */
    method El1IrqProc(iar: u32, again: bool, split: bool) returns (ok: bool)
      requires Valid()
      modifies this`usedLr, this`acked, lrs, phys
      ensures Valid()
      ensures match IrqProc(old(Now()), iar % 1024, again, split)
              case Ran(g) => ok && Now() == g
              case NoListRegister => !ok
    {
      VirqEnter();
      Masks(iar);
      var irq := And(iar, 0x3ff);
      Acknowledge(irq, again);
      ghost var a := Now();
      GuestEoi(irq, split);
      EoiIs(a, phys[..], irq, split);
      ok := VirqInject(irq, irq);
    }

    /** On a core in the forwarding state, an interrupt the guest's run is stopped for is put in a
        free register, and the core stays in the forwarding state. */
    method TakeGuestIrq(iar: u32, again: bool) returns (ok: bool)
      requires Valid() && Forwarding(Now()) && iar % 1024 < IDS && phys[iar % 1024] == Pending
      modifies this`usedLr, this`acked, lrs, phys
      ensures Valid() && (ok ==> Forwarding(Now()))
      ensures !ok <==> forall i :: 0 <= i < maxLrs ==> old(Live(Now(), i))
      ensures ok ==> InSomeLr(Now(), iar % 1024)
      ensures ok ==> forall i :: 0 <= i < 16 && old(Live(Now(), i)) ==> lrs[i] == old(lrs[i])
    {
      hide Forwarding, IrqProc, LrIsInactive, InSomeLr;
      ghost var g, irq := Now(), iar % 1024;
      IrqProcRegister(g, irq, again, true);
      if IrqProc(g, irq, again, true).Ran? { IrqTaken(g, irq, again); }
      ok := El1IrqProc(iar, again, true);
    }
  }
}
