/** vmmio.c and create_mmio_trap: emulated device regions that stage 2 must not translate. */
module Vmmio {
  import opened Bits
  import opened Memory
  import opened Stage2
  import opened Frames
  import opened Kalloc
  import opened Vmm

  datatype Handler = NoHandler | Handler(id: nat)

  /** The value of one vmmio_info record. */
  datatype Info = Info(base: u64, size: u64, read: Handler, write: Handler) {
    /** The source compares with base + size in 64 bits. */
    predicate Contains(ipa: u64) {
      base <= ipa < (base + size) % 0x1_0000_0000_0000_0000
    }

    function For(wnr: bool): Handler {
      if wnr then write else read
    }
  }

  /** vmmio_handler's outcomes: -1 for no list, 0 when nothing takes the access, or a handler
      called with an offset. */
  datatype Dispatch = NoRegions | Ignored | Call(handler: Handler, offset: nat)

  function Scan(rs: seq<Info>, ipa: u64, wnr: bool): Dispatch {
    if rs == [] then Ignored
    else if rs[0].Contains(ipa) && rs[0].For(wnr) != NoHandler then Call(rs[0].For(wnr), ipa - rs[0].base)
    else Scan(rs[1..], ipa, wnr)
  }

  function DispatchTo(rs: seq<Info>, ipa: u64, wnr: bool): Dispatch {
    if rs == [] then NoRegions else Scan(rs, ipa, wnr)
  }

  lemma ScanStep(rs: seq<Info>, i: nat, ipa: u64, wnr: bool)
    requires i < |rs|
    ensures Scan(rs[i..], ipa, wnr) ==
            if rs[i].Contains(ipa) && rs[i].For(wnr) != NoHandler then Call(rs[i].For(wnr), ipa - rs[i].base)
            else Scan(rs[i + 1..], ipa, wnr)
  {
    assert rs[i..][1..] == rs[i + 1..];
  }

  class Region {
    var next: Region?
    var base: u64
    var size: u64
    var read: Handler
    var write: Handler

    constructor (next: Region?)
      ensures this.next == next
    {
      this.next := next;
    }

    function Value(): Info
      reads this
    {
      Info(base, size, read, write)
    }
  }

  ghost function Values(rs: seq<Region>): (s: seq<Info>)
    reads rs
    ensures |s| == |rs| && forall i :: 0 <= i < |s| ==> s[i] == rs[i].Value()
  {
    if rs == [] then [] else [rs[0].Value()] + Values(rs[1..])
  }

  ghost function NodeAt(rs: seq<Region>, i: nat): Region? {
    if i < |rs| then rs[i] else null
  }

  ghost predicate NextLinks(rs: seq<Region>)
    reads rs
  {
    forall i :: 0 <= i < |rs| ==> rs[i].next == NodeAt(rs, i + 1)
  }

  lemma NewFront(r: Region, rs: seq<Region>)
    requires NextLinks(rs) && r.next == NodeAt(rs, 0)
    ensures NextLinks([r] + rs)
  {
    forall i | 0 <= i < 1 + |rs| ensures ([r] + rs)[i].next == NodeAt([r] + rs, i + 1) {
      if i > 0 { assert ([r] + rs)[i] == rs[i - 1]; }
    }
  }

  lemma FrontValue(r: Region, rs: seq<Region>)
    ensures Values([r] + rs) == [r.Value()] + Values(rs)
  {
    assert ([r] + rs)[1..] == rs;
  }

  class Vm {
    var vmmios: Region?
    ghost var regions: seq<Region>   // the list from vmmios, in order

    ghost predicate Linked()
      reads this, regions
    {
      vmmios == NodeAt(regions, 0) && NextLinks(regions)
    }

    ghost function Infos(): (s: seq<Info>)
      reads this, regions
      ensures |s| == |regions| && forall i :: 0 <= i < |s| ==> s[i] == regions[i].Value()
    {
      Values(regions)
    }

    constructor ()
      ensures Linked() && Infos() == []
    {
      vmmios, regions := null, [];
    }

    /** vmmio_handler_register */
    method Register(ipa: u64, size: u64, read: Handler, write: Handler) returns (rc: int)
      requires Linked()
      modifies this
      ensures Linked() && rc == (if size == 0 then -1 else 0)
      ensures Infos() == (if size == 0 then [] else [Info(ipa, size, read, write)]) + old(Infos())
    {
      hide Values, NextLinks;
      if size == 0 {
        assert Infos() == [] + old(Infos());
        return -1;
      }
      ghost var was := regions;
      var r := new Region(vmmios);
      vmmios := r;
      regions := [r] + was;
      r.base, r.size, r.read, r.write := ipa, size, read, write;
      rc := 0;
      NewFront(r, was);
      FrontValue(r, was);
    }

    /** vmmio_handler: the list walk. */
    method Handle(ipa: u64, wnr: bool) returns (d: Dispatch)
      requires Linked()
      ensures d == DispatchTo(Infos(), ipa, wnr)
    {
      var m := vmmios;
      if m == null {
        return NoRegions;
      }
      ghost var i, rs := 0, Infos();
      while m != null
        invariant i <= |regions| && m == NodeAt(regions, i)
        invariant Scan(rs[i..], ipa, wnr) == Scan(rs, ipa, wnr)
        decreases |regions| - i
      {
        hide Scan;
        ScanStep(rs, i, ipa, wnr);
        var v := m.Value();
        assert v == rs[i];
        if v.Contains(ipa) {
          if wnr {
            if v.write != NoHandler {
              return Call(v.write, ipa - v.base);
            }
          } else {
            if v.read != NoHandler {
              return Call(v.read, ipa - v.base);
            }
          }
        }
        m := m.next;
        i := i + 1;
      }
      assert rs[i..] == [];
      d := Ignored;
    }
  }

  // ---- dispatch finds the unique owner ----

  ghost predicate Proper(r: Info) {
    r.base + r.size < 0x1_0000_0000_0000_0000 && r.read != NoHandler && r.write != NoHandler
  }

  ghost predicate Disjoint(a: Info, b: Info) {
    a.base + a.size <= b.base || b.base + b.size <= a.base
  }

  ghost predicate AllProper(rs: seq<Info>) {
    && (forall i :: 0 <= i < |rs| ==> Proper(rs[i]))
    && (forall i, j :: 0 <= i < j < |rs| ==> Disjoint(rs[i], rs[j]))
  }

  /** An access inside region i calls region i's handler with an offset below its size, wherever
      the region stands in the list. */
  lemma {:induction false} OwnerCalled(rs: seq<Info>, i: nat, ipa: u64, wnr: bool)
    requires AllProper(rs) && i < |rs| && rs[i].base <= ipa < rs[i].base + rs[i].size
    ensures DispatchTo(rs, ipa, wnr) == Call(rs[i].For(wnr), ipa - rs[i].base) && ipa - rs[i].base < rs[i].size
  {
    if i > 0 {
      assert Proper(rs[0]) && Disjoint(rs[0], rs[i]);
      var t := rs[1..];
      forall a, b | 0 <= a < b < |t| ensures Disjoint(t[a], t[b]) {
        assert Disjoint(rs[a + 1], rs[b + 1]);
      }
      OwnerCalled(t, i - 1, ipa, wnr);
    }
  }

  /** The region takes the access: the IPA is in it, with base + size in 64 bits, and it has a
      handler for the direction. */
  predicate Takes(r: Info, ipa: u64, wnr: bool) {
    && r.base <= ipa < (r.base + r.size) % 0x1_0000_0000_0000_0000
    && (if wnr then r.write != NoHandler else r.read != NoHandler)
  }

  lemma {:induction false} FirstTaker(rs: seq<Info>, ipa: u64, wnr: bool) returns (k: nat)
    ensures k <= |rs| && (forall j :: 0 <= j < k ==> !Takes(rs[j], ipa, wnr)) && (k < |rs| ==> Takes(rs[k], ipa, wnr))
    ensures Scan(rs, ipa, wnr) == if k == |rs| then Ignored
                                  else Call(if wnr then rs[k].write else rs[k].read, ipa - rs[k].base)
    decreases |rs|
  {
    if rs == [] || Takes(rs[0], ipa, wnr) {
      k := 0;
    } else {
      k := FirstTaker(rs[1..], ipa, wnr);
      k := k + 1;
      forall j | 0 <= j < k ensures !Takes(rs[j], ipa, wnr) {
        if j > 0 { assert rs[j] == rs[1..][j - 1]; }
      }
    }
  }

  /** Which outcome, for any list: -1 exactly from an empty one, 0 exactly when no region takes the
      access, and else the handler of the first that does, with the offset into it. */
  lemma DispatchIs(rs: seq<Info>, ipa: u64, wnr: bool)
    ensures match DispatchTo(rs, ipa, wnr)
            case NoRegions => rs == []
            case Ignored => rs != [] && forall i :: 0 <= i < |rs| ==> !Takes(rs[i], ipa, wnr)
            case Call(h, o) =>
              exists i :: 0 <= i < |rs| && Takes(rs[i], ipa, wnr)
                          && (forall j :: 0 <= j < i ==> !Takes(rs[j], ipa, wnr))
                          && h == (if wnr then rs[i].write else rs[i].read) && o == ipa - rs[i].base
  {
    if rs != [] {
      var k := FirstTaker(rs, ipa, wnr);
      hide Takes, Scan;
    }
  }

  /** An access outside every region calls nobody. */
  lemma {:induction false} NobodyCalled(rs: seq<Info>, ipa: u64, wnr: bool)
    requires forall i :: 0 <= i < |rs| ==> !rs[i].Contains(ipa)
    ensures !DispatchTo(rs, ipa, wnr).Call?
  {
    if rs != [] {
      assert !rs[0].Contains(ipa);
      NobodyCalled(rs[1..], ipa, wnr);
    }
  }

  // ---- traps ----

  /** No page of region r is in the map. */
  ghost predicate Trapped(r: Info, M: Pages) {
    forall u :: r.base / 4096 <= u < r.base / 4096 + r.size / 4096 ==> u !in M
  }

  ghost predicate AllTrapped(rs: seq<Info>, M: Pages) {
    forall i :: 0 <= i < |rs| ==> Trapped(rs[i], M)
  }

  /** Trap or translate, never both: at an IPA of a registered region the hardware's walk faults,
      and the fault is dispatched to that region. */
  lemma TrapOrTranslate(m: Mem, T: Tables, M: Pages, rs: seq<Info>, i: nat, ipa: u64, wnr: bool)
    requires Mapping(m, T, M) && ROOT in T && ipa < 0x1_0000_0000_0000
    requires AllTrapped(rs, M) && AllProper(rs)
    requires i < |rs| && rs[i].base <= ipa < rs[i].base + rs[i].size
    requires rs[i].base % 4096 == 0 && rs[i].size % 4096 == 0
    ensures HwWalk(m, T[ROOT], 0, ipa / 4096) == Fault
    ensures DispatchTo(rs, ipa, wnr) == Call(rs[i].For(wnr), ipa - rs[i].base)
  {
    assert Trapped(rs[i], M);
    WalkIsMap(m, T, M, ipa / 4096);
    OwnerCalled(rs, i, ipa, wnr);
  }

  /** The pages of a region inside one 2 MiB block share their leaf table. */
  lemma OneBlock(ipa: nat, size: nat, u: nat)
    requires size > 0 && ipa % 4096 == 0 && size % 4096 == 0 && ipa / 0x20_0000 == (ipa + size - 1) / 0x20_0000
    requires ipa / 4096 <= u < ipa / 4096 + size / 4096
    ensures OnPath(u, 3) == OnPath(ipa / 4096, 3)
  {}

  datatype TrapResult = Trapping | Aborted

  /** create_mmio_trap. Only the first page decides whether the range is unmapped; the region ends
      up untranslated exactly if that page had a leaf table or nothing there was mapped. */
  method CreateMmioTrap(vm: Vm, k: Machine, vttbr: nat, ipa: u64, size: u64, read: Handler, write: Handler)
    returns (r: TrapResult)
    requires vm.Linked() && k.Valid() && ROOT in k.tables && vttbr == k.tables[ROOT] * 4096
    requires ipa < 0x1_0000_0000_0000 && ipa + size <= 0x1_0000_0000_0000 && ipa % 4096 == 0 && size % 4096 == 0
    requires OnPath(ipa / 4096, 3) in k.tables ==>
               forall u :: ipa / 4096 <= u < ipa / 4096 + size / 4096 ==> OnPath(u, 3) in k.tables
    requires forall u :: ipa / 4096 <= u < ipa / 4096 + size / 4096 && u in k.pages ==> k.pages[u].frame in k.own
    requires !k.locked
    modifies vm, k`locked, k`freelist, k`own, k`free, k`tables, k`pages, k.mem
    ensures !k.locked
    ensures k.Valid() && vm.Linked() && k.tables == old(k.tables) && k.own.Keys == old(k.own).Keys
    ensures r.Aborted? ==> vm.Infos() == old(vm.Infos())
    ensures DataKept(old(k.mem[..]), k.mem[..], k.own)
    ensures r.Trapping? <==> OnPath(ipa / 4096, 3) in k.tables ==>
                               forall u :: ipa / 4096 <= u < ipa / 4096 + size / 4096 ==> u in old(k.pages)
    ensures r.Trapping? ==> Removed(old(k.pages), old(k.own), |old(k.free)|, k.pages, k.own, |k.free|, ipa / 4096,
                                    if OnPath(ipa / 4096, 3) in k.tables then size / 4096 else 0)
    ensures r.Trapping? ==>
              && vm.Infos() == (if size == 0 then [] else [Info(ipa, size, read, write)]) + old(vm.Infos())
              && k.pages == (if OnPath(ipa / 4096, 3) in k.tables then old(k.pages) - FrameSet(ipa / 4096, size / 4096)
                             else old(k.pages))
              && (Trapped(Info(ipa, size, read, write), k.pages) <==>
                  OnPath(ipa / 4096, 3) in k.tables || Trapped(Info(ipa, size, read, write), old(k.pages)))
  {
    hide PagePool, Mapping, OwnsTables, PteOf, DataKept, Values, Removed, Trapped, FrameSet;
    ghost var v, n, M, own, F := ipa / 4096, size / 4096, k.pages, k.own, |k.free|;
    RemovedNone(M, own, F, v, k.mem[..]);
    var w := PageWalk(k, vttbr, ipa, false);
    if w.At? {
      var u;
      ghost var done;
      u, done := PageUnmap(k, vttbr, ipa, size);
      RemovedPages(M, own, F, k.pages, k.own, |k.free|, v, done);
      if u != Unmapped {
        return Aborted;
      }
    }
    var rc := vm.Register(ipa, size, read, write);
    RangeTrapped(Info(ipa, size, read, write), M, own, F, k.pages, k.own, |k.free|, if w.At? then n else 0);
    r := Trapping;
  }

  /** It may stay translated: a trap over the pages 511 and 512, set while only page 512 is mapped,
      returns with that page still mapped. */
  method TrapMissed(vm: Vm, k: Machine, vttbr: nat, g: nat, read: Handler, write: Handler) returns (r: TrapResult)
    requires vm.Linked() && k.Valid() && k.tables.Keys == {ROOT} && k.pages == map[] && vttbr == k.tables[ROOT] * 4096
    requires !k.locked && |k.free| >= 3 && g in k.own && k.own[g] == Held
    modifies vm, k`locked, k`freelist, k`own, k`free, k`tables, k`pages, k.mem
    ensures r.Trapping? && k.Valid() && vm.Linked()
    ensures vm.Infos() == [Info(0x1F_F000, 0x2000, read, write)] + old(vm.Infos())
    ensures 512 in k.pages && !Trapped(vm.Infos()[0], k.pages)
  {
    hide Mapping, OwnsTables, PagePool, DataKept, Removed;
    MapAlone(k, vttbr, g);
    assert OnPath(511, 3) !in k.tables;
    r := CreateMmioTrap(vm, k, vttbr, 0x1F_F000, 0x2000, read, write);
  }

  lemma RangeTrapped(r: Info, M: Pages, own: Owners, free: nat, M': Pages, own': Owners, free': nat, n: nat)
    requires Removed(M, own, free, M', own', free', r.base / 4096, n) && (n == 0 || n == r.size / 4096)
    ensures M' == (if n == 0 then M else M - FrameSet(r.base / 4096, n))
    ensures Trapped(r, M') <==> n == r.size / 4096 || Trapped(r, M)
  {
    InFrameSet(r.base / 4096, n);
    RemovedPages(M, own, free, M', own', free', r.base / 4096, n);
    hide Removed;
  }

  lemma RemovedPages(M: Pages, own: Owners, free: nat, M': Pages, own': Owners, free': nat, v: nat, n: nat)
    requires Removed(M, own, free, M', own', free', v, n)
    ensures M' == M - FrameSet(v, n) && (n == 0 ==> M' == M) && own'.Keys == own.Keys
  {
    assert n == 0 ==> M - FrameSet(v, n) == M;
  }

  /** For a region inside one block the first page's test is enough: a trap that is created leaves
      the whole region untranslated and keeps every earlier trap. */
  lemma BlockTrapped(T: Tables, M: Pages, M': Pages, rs: seq<Info>, r: Info)
    requires r.size > 0 && r.base % 4096 == 0 && r.size % 4096 == 0
    requires r.base / 0x20_0000 == (r.base + r.size - 1) / 0x20_0000
    requires (forall v {:trigger OnPath(v, 3)} :: v in M ==> OnPath(v, 3) in T) && AllTrapped(rs, M)
    requires M' == if OnPath(r.base / 4096, 3) in T then M - FrameSet(r.base / 4096, r.size / 4096) else M
    ensures AllTrapped([r] + rs, M')
  {
    InFrameSet(r.base / 4096, r.size / 4096);
    forall u | r.base / 4096 <= u < r.base / 4096 + r.size / 4096 ensures u !in M' {
      OneBlock(r.base, r.size, u);
    }
    forall i | 0 <= i < |rs| ensures Trapped(rs[i], M') {
      assert Trapped(rs[i], M);
    }
  }

  /** The pages of GICD and GICR. */
  predicate InGic(u: nat) {
    0x8000 <= u < 0x8010 || 0x80a0 <= u < 0x8120
  }

  /** They are at the distributor's and the redistributors' addresses, 64 KiB and 512 KiB long. */
  lemma GicAddresses(ipa: nat)
    ensures InGic(ipa / 4096) <==> 0x0800_0000 <= ipa < 0x0801_0000 || 0x080a_0000 <= ipa < 0x0812_0000
  {}

  function GicInfos(gicd: (Handler, Handler), gicr: (Handler, Handler)): seq<Info> {
    [Info(0x080a_0000, 0x8_0000, gicr.0, gicr.1), Info(0x0800_0000, 0x1_0000, gicd.0, gicd.1)]
  }

  /** Exactly the GIC's pages have left the map, and their frames are free. */
  ghost predicate GicRemoved(M: Pages, own: Owners, M': Pages, own': Owners) {
    && (forall u :: u in M' <==> u in M && !InGic(u)) && (forall u :: u in M' ==> M'[u] == M[u])
    && own'.Keys == own.Keys
    && forall f :: f in own ==> own'[f] == if own[f].Data? && InGic(own[f].page) then Free else own[f]
  }

  lemma BothRemoved(T: Tables, M: Pages, own: Owners, free: nat, M1: Pages, own1: Owners, free1: nat,
                    M2: Pages, own2: Owners, free2: nat)
    requires OwnsTables(own, T, M) && forall v {:trigger OnPath(v, 3)} :: v in M ==> OnPath(v, 3) in T
    requires Removed(M, own, free, M1, own1, free1, 0x8000, if OnPath(0x8000, 3) in T then 0x10 else 0)
    requires Removed(M1, own1, free1, M2, own2, free2, 0x80a0, if OnPath(0x8000, 3) in T then 0x80 else 0)
    ensures GicRemoved(M, own, M2, own2)
    ensures own2.Keys == own1.Keys && forall f :: f in own1 && own2[f] != Free ==> own2[f] == own1[f]
  {
    var t := OnPath(0x8000, 3) in T;
    InFrameSet(0x8000, if t then 0x10 else 0);
    InFrameSet(0x80a0, if t then 0x80 else 0);
    if !t {
      forall u | u in M ensures !InGic(u) {
        assert OnPath(u, 3) in T;
      }
    }
    hide FrameSet;
  }

  /** The traps create_vgic_dist sets up: GICD, then GICR, which share one leaf table. They are set
      up exactly when that table is missing or every page of both is mapped. Then every access to
      either region faults and reaches its own handlers, and the rest of the map and the guest's
      memory are as before. */
  method CreateGicTraps(vm: Vm, k: Machine, vttbr: nat, gicd: (Handler, Handler), gicr: (Handler, Handler))
    returns (r: TrapResult)
    requires vm.Linked() && k.Valid() && ROOT in k.tables && vttbr == k.tables[ROOT] * 4096 && vm.Infos() == []
    requires forall u :: InGic(u) && u in k.pages ==> k.pages[u].frame in k.own
    requires gicd.0 != NoHandler && gicd.1 != NoHandler && gicr.0 != NoHandler && gicr.1 != NoHandler
    requires !k.locked
    modifies vm, k`locked, k`freelist, k`own, k`free, k`tables, k`pages, k.mem
    ensures !k.locked
    ensures k.Valid() && vm.Linked() && k.tables == old(k.tables)
    ensures r.Trapping? <==> OnPath(0x8000, 3) in k.tables ==> forall u :: InGic(u) ==> u in old(k.pages)
    ensures r.Trapping? ==>
              && vm.Infos() == GicInfos(gicd, gicr)
              && AllTrapped(vm.Infos(), k.pages) && AllProper(vm.Infos())
              && GicRemoved(old(k.pages), old(k.own), k.pages, k.own) && DataKept(old(k.mem[..]), k.mem[..], k.own)
  {
    hide PagePool, Mapping, OwnsTables, FrameSet, Trapped, Values, Removed, DataKept, GicRemoved;
    ghost var M0, T, own0, F0, m0 := k.pages, k.tables, k.own, |k.free|, k.mem[..];
    ghost var d, e := Info(0x0800_0000, 0x1_0000, gicd.0, gicd.1), Info(0x080a_0000, 0x8_0000, gicr.0, gicr.1);
    LeafTables(m0, T, M0);
    SameTable(0x0800_0000, 0x1_0000);
    SameTable(0x080a_0000, 0x8_0000);
    r := CreateMmioTrap(vm, k, vttbr, 0x0800_0000, 0x1_0000, gicd.0, gicd.1);
    if r == Aborted {
      return;
    }
    ghost var M1, own1, F1, m1 := k.pages, k.own, |k.free|, k.mem[..];
    BlockTrapped(T, M0, M1, [], d);
    SomeRemoved(M0, M1, 0x8000, 0x10);
    LeafTables(m1, T, M1);
    r := CreateMmioTrap(vm, k, vttbr, 0x080a_0000, 0x8_0000, gicr.0, gicr.1);
    if r == Trapping {
      BlockTrapped(T, M1, k.pages, [d], e);
      assert vm.Infos() == [e] + [d] == [e, d];
      BothRemoved(T, M0, own0, F0, M1, own1, F1, k.pages, k.own, |k.free|);
      DataKeptBack(m0, m1, k.mem[..], own1, k.own);
    }
  }

  lemma LeafTables(m: Mem, T: Tables, M: Pages)
    requires Mapping(m, T, M)
    ensures forall v {:trigger OnPath(v, 3)} :: v in M ==> OnPath(v, 3) in T
  {}

  lemma SameTable(ipa: nat, size: nat)
    requires size > 0 && ipa % 4096 == 0 && size % 4096 == 0 && ipa / 0x20_0000 == (ipa + size - 1) / 0x20_0000
    ensures forall u :: ipa / 4096 <= u < ipa / 4096 + size / 4096 ==> OnPath(u, 3) == OnPath(ipa / 4096, 3)
  {
    forall u | ipa / 4096 <= u < ipa / 4096 + size / 4096 ensures OnPath(u, 3) == OnPath(ipa / 4096, 3) {
      OneBlock(ipa, size, u);
    }
  }

  lemma SomeRemoved(M: Pages, M': Pages, v: nat, n: nat)
    requires M' == M || M' == M - FrameSet(v, n)
    ensures forall u :: u in M' ==> u in M && M'[u] == M[u]
    ensures forall u :: u in M && !(v <= u < v + n) ==> u in M'
  {
    InFrameSet(v, n);
  }
}
