/** create_guest_vm: the guest's memory, then the traps of its interrupt controller (vm.c). */
module CreateVm {
  import opened Memory
  import opened Stage2
  import opened Frames
  import opened Kalloc
  import opened Vmm
  import opened GuestVm
  import opened TableCost
  import opened Boot
  import opened Vmmio

  predicate InGuest(c: Config, u: nat) {
    InRam(c, RamPages(c), u) || InDtb(c, DtbPages(c), u)
  }

  /** The guest maps nothing in the 2 MiB block of the GIC, or all of the GIC's pages. */
  ghost predicate GicClear(c: Config) {
    (exists u :: 0x8000 <= u < 0x8200 && InGuest(c, u)) ==> forall u :: InGic(u) ==> InGuest(c, u)
  }

  /** What the guest sees once it is created: its configured memory, the UART, and the GIC's
      registers, which fault and reach their own handlers. */
  ghost predicate GuestSees(m0: Mem, m: Mem, root: nat, rs: seq<Info>, c: Config,
                            gicd: (Handler, Handler), gicr: (Handler, Handler)) {
    && ImagesIn(m0, c) && UartMapped(m, root)
    && (forall u :: InGuest(c, u) && !InGic(u) && u != UART_PAGE ==> PlainMemory(m, root, u))
    && forall ipa: nat :: ipa < 0x1_0000_0000_0000 ==>
      if InGic(ipa / 4096) then GuestRead(m, root, ipa) == Faulted && GicCalled(rs, ipa, gicd, gicr)
      else ipa / 4096 != UART_PAGE ==> GuestRead(m, root, ipa) == Promised(m0, c, ipa)
  }

  ghost predicate GicCalled(rs: seq<Info>, ipa: nat, gicd: (Handler, Handler), gicr: (Handler, Handler))
    requires InGic(ipa / 4096)
  {
    if ipa < 0x0801_0000 then
      && DispatchTo(rs, ipa, false) == Call(gicd.0, ipa - 0x0800_0000)
      && DispatchTo(rs, ipa, true) == Call(gicd.1, ipa - 0x0800_0000)
    else
      && DispatchTo(rs, ipa, false) == Call(gicr.0, ipa - 0x080a_0000)
      && DispatchTo(rs, ipa, true) == Call(gicr.1, ipa - 0x080a_0000)
  }

  /** The leaf table of the GIC's block exists exactly when the guest maps a page in that block. */
  lemma GicTable(c: Config)
    ensures OnPath(0x8000, 3) in BootTables(c) <==> exists u :: 0x8000 <= u < 0x8200 && InGuest(c, u)
  {
    var t := OnPath(0x8000, 3);
    var v, n, w, d := c.entry / 4096, RamPages(c), c.dtbAddr / 4096, DtbPages(c);
    InPaths(v, n, t);
    InPaths(w, d, t);
    if t in Paths(v, n) { assert InGuest(c, if v < 0x8000 then 0x8000 else v); }
    if t in Paths(w, d) { assert InGuest(c, if w < 0x8000 then 0x8000 else w); }
    assert t !in Path(UART_PAGE);
    hide Paths, Path;
  }

  /** Guest pages outside the GIC's read as they did before the traps. */
  lemma ReadsAfter(m: Mem, m': Mem, own: Owners, own': Owners, T: Tables, M: Pages, M': Pages, ipa: nat)
    requires Mapping(m, T, M) && Mapping(m', T, M') && OwnsTables(own', T, M') && ROOT in T
    requires GicRemoved(M, own, M', own') && DataKept(m, m', own') && |m| % 4096 == 0
    requires ipa < 0x1_0000_0000_0000 && (ipa / 4096 in M ==> M[ipa / 4096].frame in own)
    ensures GuestRead(m', T[ROOT], ipa) == if InGic(ipa / 4096) then Faulted else GuestRead(m, T[ROOT], ipa)
  {
    var u := ipa / 4096;
    WalkIsMap(m, T, M, u);
    WalkIsMap(m', T, M', u);
    hide Mapping, HwWalk;
    if u in M' { DataByte(m, m', own', T, M', u, ipa % 4096); }
  }

  /** create_guest_vm from the root table on. */
  method CreateGuestVm(k: Machine, vm: Vm, c: Config, gicd: (Handler, Handler), gicr: (Handler, Handler))
    returns (ok: bool, vttbr: nat)
    requires k.Valid() && k.tables == map[] && k.pages == map[] && UART_PAGE !in k.own
    requires ConfigOk(c, k.own, k.mem.Length) && k.mem.Length % 4096 == 0
    requires vm.Linked() && vm.Infos() == []
    requires gicd.0 != NoHandler && gicd.1 != NoHandler && gicr.0 != NoHandler && gicr.1 != NoHandler
    requires !k.locked
    modifies vm, k`locked, k`freelist, k`own, k`free, k`tables, k`pages, k.mem
    ensures ok ==> !k.locked
    ensures ok <==> Loadable(c) && |old(k.free)| >= FramesToBoot(c) && GicClear(c)
    ensures ok ==>
              && k.Valid() && vm.Linked() && ROOT in k.tables && vttbr == k.tables[ROOT] * 4096
              && GuestSees(old(k.mem[..]), k.mem[..], vttbr / 4096, vm.Infos(), c, gicd, gicr)
  {
    hide PagePool, Mapping, OwnsTables, DataKept, ConfigOk, FramesToBoot, Loadable, GuestReady, GicRemoved, GuestSees,
         BootTables, InGuest, GicClear, AllTrapped, AllProper;
    ghost var m0 := k.mem[..];
    ok, vttbr := CreateGuestMemory(k, c);
    if !ok {
      return;
    }
    ghost var m1, own1, M1, T := k.mem[..], k.own, k.pages, k.tables;
    GicPages(m0, m1, own1, vttbr / 4096, M1, c);
    GicTable(c);
    var r := CreateGicTraps(vm, k, vttbr, gicd, gicr);
    GicClearIs(c, M1, T);
    if r != Trapping {
      return false, vttbr;
    }
    AllSeen(m0, m1, k.mem[..], own1, k.own, T, M1, k.pages, vm.Infos(), c, gicd, gicr);
  }

  lemma GicPages(m0: Mem, m: Mem, own: Owners, root: nat, M: Pages, c: Config)
    requires GuestReady(m0, m, own, root, M, c)
    ensures forall u :: InGic(u) ==> (u in M <==> InGuest(c, u)) && (u in M ==> M[u].frame in own)
  {}

  lemma GicClearIs(c: Config, M: Pages, T: Tables)
    requires T.Keys == BootTables(c) && forall u :: InGic(u) ==> (u in M <==> InGuest(c, u))
    ensures GicClear(c) <==> OnPath(0x8000, 3) in T ==> forall u :: InGic(u) ==> u in M
  {
    GicTable(c);
  }

  lemma AllSeen(m0: Mem, m: Mem, m': Mem, own: Owners, own': Owners, T: Tables, M: Pages, M': Pages, rs: seq<Info>,
                c: Config, gicd: (Handler, Handler), gicr: (Handler, Handler))
    requires Mapping(m, T, M) && Mapping(m', T, M') && OwnsTables(own', T, M') && ROOT in T && |m| % 4096 == 0
    requires GuestReady(m0, m, own, T[ROOT], M, c) && GicRemoved(M, own, M', own') && DataKept(m, m', own')
    requires rs == GicInfos(gicd, gicr)
    requires AllProper(rs)
    ensures GuestSees(m0, m', T[ROOT], rs, c, gicd, gicr)
  {
    hide Mapping, OwnsTables, DataKept, HwWalk, GuestRead, Promised, AllProper, DispatchTo, PlainMemory, UartMapped;
    UartStays(m, m', own, own', T, M, M');
    forall u | InGuest(c, u) && !InGic(u) && u != UART_PAGE ensures PlainMemory(m', T[ROOT], u) {
      PlainStays(m, T, M, m', T, M', u);
    }
    hide GicRemoved, InGuest;
    forall ipa: nat | ipa < 0x1_0000_0000_0000 && ipa / 4096 != UART_PAGE
      ensures GuestRead(m', T[ROOT], ipa) == if InGic(ipa / 4096) then Faulted else Promised(m0, c, ipa)
    {
      ReadsAfter(m, m', own, own', T, M, M', ipa);
    }
    forall ipa: nat | InGic(ipa / 4096) ensures GicCalled(rs, ipa, gicd, gicr) {
      var i := if ipa < 0x0801_0000 then 1 else 0;
      OwnerCalled(rs, i, ipa, false);
      OwnerCalled(rs, i, ipa, true);
    }
  }

  lemma UartStays(m: Mem, m': Mem, own: Owners, own': Owners, T: Tables, M: Pages, M': Pages)
    requires Mapping(m, T, M) && Mapping(m', T, M') && ROOT in T && GicRemoved(M, own, M', own')
    requires UartMapped(m, T[ROOT])
    ensures UartMapped(m', T[ROOT])
  {
    hide Mapping, HwWalk;
    WalkIsMap(m, T, M, UART_PAGE);
    WalkIsMap(m', T, M', UART_PAGE);
  }
}
