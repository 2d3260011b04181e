/** create_guest_vm's memory side, from an initialised allocator to a guest that can run. */
module Boot {
  import opened Bits
  import opened Memory
  import opened Stage2
  import opened Frames
  import opened Kalloc
  import opened Vmm
  import opened GuestVm
  import opened TableCost

  const UART_PAGE := 0x9000              // PL011BASE / PAGESIZE
  const UART_LEAF := Leaf(0x9000, 0x30)  // S2PTE_DEVICE | S2PTE_RW, identity-mapped

  /** A zeroed held frame as the root of an empty map. */
  lemma EmptyRoot(m: Mem, head: nat, own: Owners, free: seq<nat>, f: nat)
    requires PagePool(m, head, own, free) && OwnsTables(own, map[], map[])
    requires f in own && own[f] == Held && HasFrame(m, f) && Zeroed(Frame(m, f))
    ensures PagePool(m, head, own[f := Table(ROOT)], free)
    ensures Mapping(m, map[ROOT := f], map[]) && OwnsTables(own[f := Table(ROOT)], map[ROOT := f], map[])
  {
    RootOnly(m, f);
    hide Mapping, Zeroed;
    KallocFrame(m, m, head, own, own[f := Table(ROOT)], free);
  }

  lemma RootOnly(m: Mem, f: nat)
    requires HasFrame(m, f) && Zeroed(Frame(m, f)) && f < 0x10_0000_0000
    ensures Mapping(m, map[ROOT := f], map[])
  {
    ZeroedEntries(Frame(m, f));
    assert TableHolds(m, f, map[ROOT := f], map[], ROOT) by {
      forall i | 0 <= i < 512 ensures Expected(map[ROOT := f], map[], ROOT, i) == 0 {
        assert Child(ROOT, i).level == 1;
      }
    }
  }

  /** vm->vttbr = alloc_one_page(); 0 stands for the abort when there is no page. */
  method AllocRoot(k: Machine) returns (vttbr: nat)
    requires k.Valid() && k.tables == map[] && k.pages == map[]
    requires !k.locked
    modifies k`locked, k`freelist, k`own, k`free, k`tables, k.mem
    ensures k.locked <==> vttbr == 0
    ensures vttbr == 0 <==> old(k.free) == []
    ensures vttbr != 0 ==> k.Valid() && k.tables.Keys == {ROOT} && vttbr == k.tables[ROOT] * 4096
                           && |k.free| == |old(k.free)| - 1
    ensures k.own.Keys == old(k.own).Keys && DataKept(old(k.mem[..]), k.mem[..], old(k.own))
  {
    hide PagePool, Mapping, OwnsTables, DataKept, Zeroed;
    ghost var s0 := k.Now();
    vttbr := k.AllocOnePage();
    SameKeys(s0, k.Now());
    if vttbr == 0 {
      return;
    }
    ghost var f := s0.free[0];
    EmptyRoot(k.mem[..], k.freelist, k.own, k.free, f);
    k.tables := map[ROOT := f];
    k.own := k.own[f := Table(ROOT)];
  }

  /** do_device_mapping */
  method DoDeviceMapping(k: Machine, pgt: nat) returns (r: MapResult)
    requires k.Valid() && ROOT in k.tables && pgt == k.tables[ROOT] * 4096 && UART_PAGE !in k.own
    requires !k.locked
    modifies k`locked, k`freelist, k`own, k`free, k`tables, k`pages, k.mem
    ensures k.locked <==> r.NoPage?
    ensures k.Valid() && Grew(old(k.Now()), k.Now(), {UART_PAGE})
    ensures r.Done? <==> UART_PAGE !in old(k.pages) && TablesLacking(old(k.tables), UART_PAGE, 1) <= |old(k.free)|
    ensures r.Done? ==> k.pages == old(k.pages)[UART_PAGE := UART_LEAF]
                        && k.tables.Keys == old(k.tables).Keys + Path(UART_PAGE)
  {
    hide PagePool, Mapping, OwnsTables, Grew, TablesLacking, Or, Run, Paths, FrameSet;
    ghost var s0, M0, done := k.Now(), k.pages, 0;
    MappingAttrs();
    r, done := CreateGuestMapping(k, pgt, 0x0900_0000, 0x0900_0000, 4096, Or(S2PTE_DEVICE, S2PTE_RW));
    RunOne(M0, UART_PAGE, 0x9000, 0x30);
    OnePath(UART_PAGE);
    UsedOne(s0, k.Now(), 0x9000, done);
  }

  lemma UsedOne(s: Snapshot, s': Snapshot, f: nat, done: nat)
    requires Grew(s, s', FrameSet(f, done)) && done <= 1 && f !in s.own
    ensures Grew(s, s', {f})
  {
    hide FrameSet, DataKept;
    InFrameSet(f, done);
    assert FrameSet(f, done) <= {f};
  }

  // ---- create_guest_vm ----

  /** Reads of pages other than v are unaffected by mapping v, which touches no data. */
  lemma ReadsKept(s: Snapshot, M: Pages, s': Snapshot, M': Pages, v: nat, l: Leaf, ipa: nat)
    requires Mapping(s.mem, s.tables, M) && OwnsTables(s.own, s.tables, M) && Mapping(s'.mem, s'.tables, M')
    requires ROOT in s.tables && Grew(s, s', {l.frame}) && M' == M[v := l]
    requires ipa < 0x1_0000_0000_0000 && ipa / 4096 != v && |s.mem| % 4096 == 0
    ensures GuestRead(s'.mem, s'.tables[ROOT], ipa) == GuestRead(s.mem, s.tables[ROOT], ipa)
  {
    var u := ipa / 4096;
    WalkIsMap(s.mem, s.tables, M, u);
    WalkIsMap(s'.mem, s'.tables, M', u);
    if u in M { DataByte(s.mem, s'.mem, s.own, s.tables, M, u, ipa % 4096); }
  }

  lemma DataByte(m: Mem, m': Mem, own: Owners, T: Tables, M: Pages, u: nat, o: nat)
    requires OwnsTables(own, T, M) && DataKept(m, m', own) && u in M && o < 4096 && |m| % 4096 == 0
    ensures var x := M[u].frame * 4096 + o; |m'| == |m| && (x < |m| ==> m'[x] == m[x])
  {
    var f := M[u].frame;
    var x := f * 4096 + o;
    assert IsData(own, f);
    if x < |m| {
      assert HasFrame(m, f);
      assert m[x] == Frame(m, f)[o] && m'[x] == Frame(m', f)[o];
    }
  }

  /** The promise is about bytes outside the pool, which taking a page does not change. */
  lemma PromiseKept(m: Mem, m': Mem, own: Owners, c: Config, ipa: nat)
    requires DataKept(m, m', own) && |m| % 4096 == 0 && ConfigOk(c, own, |m|)
    ensures ImagesIn(m, c) && Promised(m', c, ipa) == Promised(m, c, ipa)
  {
    OutsideBytes(m, m', own, c.image);
    OutsideBytes(m, m', own, c.dtb);
    OutsideBytes(m, m', own, c.initrd);
    var i, d := c.image.start + (ipa - c.entry), c.dtb.start + (ipa - c.dtbAddr);
    var r := c.initrd.start + (ipa - c.rootfsAddr);
    assert c.image.start <= i < c.image.start + c.image.size ==> m'[i] == m[i];
    assert c.dtb.start <= d < c.dtb.start + c.dtb.size ==> m'[d] == m[d];
    assert c.initrd.start <= r < c.initrd.start + c.initrd.size ==> m'[r] == m[r];
  }

  lemma OutsideBytes(m: Mem, m': Mem, own: Owners, im: Image)
    requires DataKept(m, m', own) && |m| % 4096 == 0
    requires im.start + im.size <= |m| && OutsidePool(own, im.start, im.size)
    ensures |m'| == |m| && forall x :: im.start <= x < im.start + im.size ==> m'[x] == m[x]
  {
    forall x | im.start <= x < im.start + im.size ensures m'[x] == m[x] {
      assert x / 4096 !in own && IsData(own, x / 4096);
      ByteInFrame(m, x);
      ByteInFrame(m', x);
    }
  }

  /** The configuration can be loaded whatever the pool looks like, given enough free frames. */
  ghost predicate Loadable(c: Config) {
    && (RamPages(c) > 0 ==> c.entry % 4096 == 0)
    && (DtbPages(c) > 0 ==> c.dtbAddr % 4096 == 0 && RootfsMapped(c))
    && !RangesMeet(c) && !InRam(c, RamPages(c), UART_PAGE) && !InDtb(c, DtbPages(c), UART_PAGE)
  }

  /** The pages booting takes: the root, the guest's pages, and every table they and the UART need. */
  ghost function FramesToBoot(c: Config): nat {
    1 + RamPages(c) + DtbPages(c)
    + |Paths(c.entry / 4096, RamPages(c)) + Paths(c.dtbAddr / 4096, DtbPages(c)) + Path(UART_PAGE)|
  }

  /** From a fresh root, what loading takes and what the UART's tables then still take. */
  lemma BootCost(T: Tables, T': Tables, c: Config)
    requires T.Keys == {ROOT}
    requires T'.Keys == {ROOT} + Paths(c.entry / 4096, RamPages(c)) + Paths(c.dtbAddr / 4096, DtbPages(c))
    ensures 1 + FramesNeeded(T, c) + TablesLacking(T', UART_PAGE, 1) == FramesToBoot(c)
  {
    hide Paths, Path, OnPath, RamPages, DtbPages, Prefix;
    var p := Paths(c.entry / 4096, RamPages(c)) + Paths(c.dtbAddr / 4096, DtbPages(c));
    var q := Path(UART_PAGE);
    InPaths(c.entry / 4096, RamPages(c), ROOT);
    InPaths(c.dtbAddr / 4096, DtbPages(c), ROOT);
    InPaths(UART_PAGE, 1, ROOT);
    OnePath(UART_PAGE);
    assert p - T.Keys == p;
    assert q - T'.Keys == q - p;
    SplitSize(p, q);
  }

  lemma SplitSize(p: set<Node>, q: set<Node>)
    ensures |p + q| == |p| + |q - p|
  {
    assert p + q == p + (q - p);
  }

  /** A closed form that is always enough. */
  lemma EnoughToBoot(c: Config)
    ensures FramesToBoot(c) <= 1 + EnoughFrames(c) + 3
  {
    var p := Paths(c.entry / 4096, RamPages(c)) + Paths(c.dtbAddr / 4096, DtbPages(c));
    var T: Tables := map[ROOT := 0];
    var T': Tables := map n | n in {ROOT} + p :: 0;
    assert T.Keys == {ROOT} && T'.Keys == {ROOT} + p;
    BootCost(T, T', c);
    EnoughIsEnough(T, c);
    ThreeTables(T', UART_PAGE);
  }

  /** The UART's registers are at their own address, as device memory the guest may read and write. */
  ghost predicate UartMapped(m: Mem, root: nat) {
    && HwWalk(m, root, 0, 0x0900_0000 / 4096).Page?
    && var l := HwWalk(m, root, 0, 0x0900_0000 / 4096).leaf;
    l.frame * 4096 == 0x0900_0000 && MayRead(l) && MayWrite(l) && AttrIndex(l) == DEVICE_NGNRNE_INDEX
  }

  /** The guest reads its configured memory, the UART page goes to the device, and no other page is
      mapped. */
  ghost predicate GuestReady(m0: Mem, m: Mem, own: Owners, root: nat, M: Pages, c: Config) {
    && ImagesIn(m0, c) && UartMapped(m, root)
    && (forall u :: u in M <==> u == UART_PAGE || InRam(c, RamPages(c), u) || InDtb(c, DtbPages(c), u))
    && (forall u :: u in M && u != UART_PAGE ==> M[u].frame in own && PlainMemory(m, root, u))
    && forall ipa: nat :: ipa < 0x1_0000_0000_0000 && ipa / 4096 != UART_PAGE ==>
                            GuestRead(m, root, ipa) == Promised(m0, c, ipa)
  }

  /** The tables of a booted guest. */
  ghost function BootTables(c: Config): set<Node> {
    {ROOT} + Paths(c.entry / 4096, RamPages(c)) + Paths(c.dtbAddr / 4096, DtbPages(c)) + Path(UART_PAGE)
  }

  /** The memory part of create_guest_vm. It completes exactly when the configuration is loadable
      and the free list covers every page and table; and a loaded guest reads what was promised
      from memory as it was before the call, at every IPA but those of the UART page, which goes to
      the device. */
  method CreateGuestMemory(k: Machine, c: Config) returns (ok: bool, vttbr: nat)
    requires k.Valid() && k.tables == map[] && k.pages == map[] && UART_PAGE !in k.own
    requires ConfigOk(c, k.own, k.mem.Length) && k.mem.Length % 4096 == 0
    requires !k.locked
    modifies k`locked, k`freelist, k`own, k`free, k`tables, k`pages, k.mem
    ensures ok ==> !k.locked
    ensures ok <==> Loadable(c) && |old(k.free)| >= FramesToBoot(c)
    ensures ok ==>
              && k.Valid() && ROOT in k.tables && vttbr == k.tables[ROOT] * 4096 && k.own.Keys == old(k.own).Keys
              && k.tables.Keys == BootTables(c)
              && GuestReady(old(k.mem[..]), k.mem[..], k.own, vttbr / 4096, k.pages, c)
  {
    hide PagePool, Mapping, OwnsTables, DataKept, Grew, ConfigOk, FramesNeeded, FramesToBoot, TablesLacking, RangesMeet,
         InRam, InDtb, Paths, Path, GuestReady, RootfsMapped;
    ghost var m0, own0 := k.mem[..], k.own;
    vttbr := AllocRoot(k);
    if vttbr == 0 {
      BootNeedsOne(c);
      return false, 0;
    }
    ghost var s1 := k.Now();
    ConfigStays(c, own0, s1.own, |m0|);
    var r := DoMemoryMapping(k, vttbr, c);
    if r != Loaded {
      LoadingIsPart(s1.tables, c);
      return false, 0;
    }
    ghost var s2, M2 := k.Now(), k.pages;
    BootCost(s1.tables, s2.tables, c);
    var d := DoDeviceMapping(k, vttbr);
    if d != Done {
      return false, 0;
    }
    WithUart(m0, s1.mem, own0, s2, M2, k.Now(), k.pages, c);
    ok := true;
  }

  /** Adding the UART page to a loaded guest makes it ready. */
  lemma WithUart(m0: Mem, m1: Mem, own0: Owners, s: Snapshot, M: Pages, s': Snapshot, M': Pages, c: Config)
    requires GuestLoaded(m1, s.mem, s.own, s.tables, M, c) && |m0| % 4096 == 0 && |s.mem| % 4096 == 0
    requires Mapping(s.mem, s.tables, M) && OwnsTables(s.own, s.tables, M) && Mapping(s'.mem, s'.tables, M')
    requires Grew(s, s', {UART_PAGE}) && M' == M[UART_PAGE := UART_LEAF]
    requires DataKept(m0, m1, own0) && ConfigOk(c, own0, |m0|)
    ensures ROOT in s.tables && ROOT in s'.tables && s'.tables[ROOT] == s.tables[ROOT] && s'.own.Keys == s.own.Keys
    ensures GuestReady(m0, s'.mem, s'.own, s'.tables[ROOT], M', c)
  {
    hide Mapping, OwnsTables, DataKept, Grew, ConfigOk, GuestRead, Promised, HwWalk, InRam, InDtb, Paths, PlainMemory;
    RootKept(s, s', {UART_PAGE});
    RolesStay(s, s', M);
    WalkIsMap(s'.mem, s'.tables, M', UART_PAGE);
    PromiseKept(m0, m1, own0, c, 0);
    forall u | u in M' && u != UART_PAGE ensures PlainMemory(s'.mem, s'.tables[ROOT], u) {
      PlainStays(s.mem, s.tables, M, s'.mem, s'.tables, M', u);
    }
    forall ipa: nat | ipa < 0x1_0000_0000_0000 && ipa / 4096 != UART_PAGE
      ensures GuestRead(s'.mem, s'.tables[ROOT], ipa) == Promised(m0, c, ipa)
    {
      ReadsKept(s, M, s', M', UART_PAGE, UART_LEAF, ipa);
      PromiseKept(m0, m1, own0, c, ipa);
    }
  }

  lemma BootNeedsOne(c: Config)
    ensures FramesToBoot(c) >= 1
  {}

  lemma LoadingIsPart(T: Tables, c: Config)
    requires T.Keys == {ROOT}
    ensures 1 + FramesNeeded(T, c) <= FramesToBoot(c)
  {
    var p := Paths(c.entry / 4096, RamPages(c)) + Paths(c.dtbAddr / 4096, DtbPages(c));
    var T': Tables := map n | n in {ROOT} + p :: 0;
    assert T'.Keys == {ROOT} + p;
    BootCost(T, T', c);
  }

  lemma RolesStay(s: Snapshot, s': Snapshot, M: Pages)
    requires Grew(s, s', {UART_PAGE})
    ensures s'.own.Keys == s.own.Keys
  {}

  lemma ConfigStays(c: Config, own: Owners, own': Owners, length: nat)
    requires ConfigOk(c, own, length) && own'.Keys == own.Keys
    ensures ConfigOk(c, own', length)
  {
    SamePart(own, own', c.image.start, c.image.size);
    SamePart(own, own', c.dtb.start, c.dtb.size);
    SamePart(own, own', c.initrd.start, c.initrd.size);
  }
}
