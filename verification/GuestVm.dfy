/** vm.c: loading a guest into stage-2 memory. */
module GuestVm {
  import opened Bits
  import opened Memory
  import opened Stage2
  import opened Frames
  import opened Kalloc
  import opened Vmm

  /** vm_config_t with the three images it points to: start is a hypervisor address. */
  datatype Image = Image(start: nat, size: nat)
  datatype Config = Config(image: Image, dtb: Image, initrd: Image, entry: nat, ram: nat, dtbAddr: nat, rootfsAddr: nat)

  const GUEST_ATTR := 0x31   // (S2PTE_NORMAL | S2PTE_RW) >> 2

  function PagesFor(bytes: nat): nat {
    (bytes + 4095) / 4096
  }

  function RamPages(c: Config): nat {
    var a, b := PagesFor(c.image.size), PagesFor(c.ram);
    if a < b then b else a
  }

  /** Byte at offset o of a range loaded from an image: its bytes, then zeros. */
  function ImageByte(m: Mem, im: Image, o: int): byte
    requires im.start + im.size <= |m|
  {
    if 0 <= o < im.size then m[im.start + o] else 0
  }

  predicate InRam(c: Config, n: nat, u: nat) {
    c.entry / 4096 <= u < c.entry / 4096 + n
  }

  predicate InDtb(c: Config, n: nat, u: nat) {
    c.dtbAddr / 4096 <= u < c.dtbAddr / 4096 + n
  }

  predicate InRootfs(c: Config, ipa: int) {
    c.rootfsAddr <= ipa < c.rootfsAddr + c.initrd.size
  }

  ghost predicate ImagesIn(m: Mem, c: Config) {
    c.image.start + c.image.size <= |m| && c.dtb.start + c.dtb.size <= |m| && c.initrd.start + c.initrd.size <= |m|
  }

  /** What a mapped IPA holds; rootfs tells whether the root file system is in place. */
  function Content(m: Mem, c: Config, n: nat, rootfs: bool, ipa: nat): byte
    requires ImagesIn(m, c)
  {
    if rootfs && InRootfs(c, ipa) then m[c.initrd.start + (ipa - c.rootfsAddr)]
    else if InRam(c, n, ipa / 4096) then ImageByte(m, c.image, ipa - c.entry)
    else ImageByte(m, c.dtb, ipa - c.dtbAddr)
  }

  /** Page u was mapped when the root file system was last copied, with rd dtb pages in place (0 before
      the first copy). */
  predicate HasRootfs(c: Config, n: nat, rd: nat, u: nat) {
    rd > 0 && (InRam(c, n, u) || InDtb(c, rd, u))
  }

  /** With n RAM pages and d dtb pages mapped, the guest's pages are exactly those, in pool frames,
      and every byte is the one wanted. */
  ghost predicate GuestIs(m0: Mem, m: Mem, own: Owners, M: Pages, c: Config, n: nat, d: nat, rd: nat) {
    && ImagesIn(m0, c) && |m| == |m0| && rd <= d
    && (forall u :: u in M <==> InRam(c, n, u) || InDtb(c, d, u))
    && (forall u :: u in M ==> M[u].frame in own && M[u].attr == GUEST_ATTR && HasFrame(m, M[u].frame))
    && (forall u :: u in M ==> PageIs(m0, Frame(m, M[u].frame), c, n, rd, u))
    && OutsideIs(m0, m, own, c, rd)
  }

  ghost predicate PageIs(m0: Mem, fr: seq<byte>, c: Config, n: nat, rd: nat, u: nat)
    requires ImagesIn(m0, c) && |fr| == 4096
  {
    forall o :: 0 <= o < 4096 ==> fr[o] == Content(m0, c, n, HasRootfs(c, n, rd, u), u * 4096 + o)
  }

  // ---- the part of the root file system that goes astray ----

  /** How many bytes copy_to_ipa writes to low physical memory when the root file system is first
      copied, after RAM and the first page of the dtb: the first page's part, if the start is not
      aligned and not mapped but its leaf table exists. */
  ghost function Stray(c: Config): (n: nat)
    ensures n <= c.initrd.size && c.rootfsAddr % 4096 + n <= 4096
  {
    var u, o := c.rootfsAddr / 4096, c.rootfsAddr % 4096;
    if o != 0 && !InRam(c, RamPages(c), u) && !InDtb(c, 1, u)
       && OnPath(u, 3) in Paths(c.entry / 4096, RamPages(c)) + Paths(c.dtbAddr / 4096, 1)
    then if c.initrd.size < 4096 - o then c.initrd.size else 4096 - o
    else 0
  }

  /** Byte x of memory is one of those. */
  ghost predicate IsStray(c: Config, x: int) {
    c.rootfsAddr % 4096 <= x < c.rootfsAddr % 4096 + Stray(c)
  }

  /** Devices, the hypervisor and the source images keep their bytes; the stray bytes are the first
      of the root file system once it has been copied. */
  ghost predicate OutsideIs(m0: Mem, m: Mem, own: Owners, c: Config, rd: nat)
    requires c.initrd.start + c.initrd.size <= |m0|
  {
    |m| == |m0| && forall x :: 0 <= x < |m| && x / 4096 !in own ==> m[x] == OutsideByte(m0, c, rd, x)
  }

  ghost function OutsideByte(m0: Mem, c: Config, rd: nat, x: nat): byte
    requires c.initrd.start + c.initrd.size <= |m0| && x < |m0|
  {
    if rd > 0 && IsStray(c, x) then m0[c.initrd.start + (x - c.rootfsAddr % 4096)] else m0[x]
  }

  /** No byte of the image is overwritten by them. */
  ghost predicate Unstrayed(c: Config, im: Image) {
    forall x :: im.start <= x < im.start + im.size ==> !IsStray(c, x)
  }

  // ---- one page ----

  datatype LoadResult = Loaded | OutOfMemory | Misaligned | Overlap | NoRootfs

  /** Frame f holds n source bytes, then zeros. */
  ghost predicate FrameHas(m: Mem, f: nat, m0: Mem, src: nat, n: nat) {
    && HasFrame(m, f) && src + n <= |m0|
    && forall o :: 0 <= o < 4096 ==> Frame(m, f)[o] == if o < n then m0[src + o] else 0
  }

  /** alloc_one_page and memcpy: a held page with n source bytes, then zeros; 0 if there is none. */
  method FilledPage(k: Machine, src: nat, n: nat) returns (page: nat)
    requires k.Valid() && n <= 4096 && src + n <= k.mem.Length && OutsidePool(k.own, src, n)
    requires !k.locked
    modifies k`locked, k`freelist, k`own, k`free, k.mem
    ensures k.locked <==> page == 0
    ensures k.Valid() && RolesKept(old(k.own), k.own, {}) && DataKept(old(k.mem[..]), k.mem[..], old(k.own))
    ensures page == 0 <==> old(k.free) == []
    ensures page == 0 ==> k.free == []
    ensures page != 0 ==>
              && old(k.free) != [] && k.free == old(k.free)[1..]
              && var f := old(k.free)[0];
              && page == f * 4096 < 0x1_0000_0000_0000 && f in old(k.own) && old(k.own)[f] == Free
              && k.own == old(k.own)[f := Held] && FrameHas(k.mem[..], f, old(k.mem[..]), src, n)
  {
    hide PagePool, Mapping, OwnsTables, DataKept, RolesKept, Zeroed, OutsidePool;
    ghost var s0 := k.Now();
    page := k.AllocOnePage();
    if page == 0 {
      return;
    }
    ghost var s1, f := k.Now(), s0.free[0];
    SourceApart(s0.own, src, n, f);
    k.Memcpy(page, src, n);
    ghost var m := k.mem[..];
    assert OnlyFrame(s1.mem, m, f);
    AfterCopy(s1.mem, m, k.freelist, k.own, k.free, k.tables, k.pages, f);
    PageFilled(s0.mem, s1.mem, m, s0.own, s1.own, f, src, n);
  }

  /** Page v has been loaded into the free frame f: what changed. */
  ghost predicate PageAdded(s1: Snapshot, M1: Pages, s2: Snapshot, M2: Pages, v: nat, f: nat) {
    && s2.own.Keys == s1.own.Keys && f in s1.own && s1.own[f] == Free && HasFrame(s2.mem, f)
    && v !in M1 && M2 == M1[v := Leaf(f, GUEST_ATTR)] && DataKept(s1.mem, s2.mem, s1.own)
    && ROOT in s1.tables && ROOT in s2.tables && s2.tables[ROOT] == s1.tables[ROOT]
    && s2.tables.Keys == s1.tables.Keys + Path(v) && |s2.free| + |s2.tables| + 1 == |s1.free| + |s1.tables|
  }

  /** The hardware's walk gives page u, and the guest may read and write it as normal memory. */
  ghost predicate PlainMemory(m: Mem, root: nat, u: nat) {
    && HwWalk(m, root, 0, u).Page?
    && var l := HwWalk(m, root, 0, u).leaf;
    MayRead(l) && MayWrite(l) && AttrIndex(l) == NORMAL_NC_INDEX
  }

  lemma LeafIsPlain(m: Mem, T: Tables, M: Pages, u: nat)
    requires Mapping(m, T, M) && ROOT in T && u in M && M[u].attr == GUEST_ATTR
    ensures PlainMemory(m, T[ROOT], u)
  {
    hide Mapping, HwWalk, MayRead, MayWrite, AttrIndex;
    LeafFit(m, T, M, u);
    WalkIsMap(m, T, M, u);
    GuestAttr(M[u]);
  }

  lemma GuestAttr(l: Leaf)
    requires l.attr == GUEST_ATTR
    ensures MayRead(l) && MayWrite(l) && AttrIndex(l) == NORMAL_NC_INDEX
  {}

  /** A page that stays in the map stays what it is. */
  lemma PlainStays(m: Mem, T: Tables, M: Pages, m': Mem, T': Tables, M': Pages, u: nat)
    requires Mapping(m, T, M) && Mapping(m', T', M') && ROOT in T && ROOT in T'
    requires u in M && u in M' && M'[u] == M[u] && PlainMemory(m, T[ROOT], u)
    ensures PlainMemory(m', T'[ROOT], u)
  {
    LeafFit(m, T, M, u);
    hide Mapping, HwWalk;
    WalkIsMap(m, T, M, u);
    WalkIsMap(m', T', M', u);
  }

  /** The body the three loops of do_memory_mapping share: allocate, copy n bytes, map. */
  method LoadPage(k: Machine, pgt: nat, ipa: u64, src: nat, n: nat) returns (r: LoadResult)
    requires k.Valid() && ROOT in k.tables && pgt == k.tables[ROOT] * 4096 && ipa + 4096 <= 0x1_0000_0000_0000
    requires n <= 4096 && src + n <= k.mem.Length && OutsidePool(k.own, src, n)
    requires !k.locked
    modifies k`locked, k`freelist, k`own, k`free, k`tables, k`pages, k.mem
    ensures k.locked <==> r.OutOfMemory?
    ensures k.Valid() && k.own.Keys == old(k.own).Keys && DataKept(old(k.mem[..]), k.mem[..], old(k.own))
    ensures old(k.tables).Keys <= k.tables.Keys <= old(k.tables).Keys + Path(ipa / 4096)
    ensures k.tables[ROOT] == old(k.tables)[ROOT]
    ensures r.Loaded? ==>
              && ipa % 4096 == 0 && old(k.free) != []
              && PageAdded(old(k.Now()), old(k.pages), k.Now(), k.pages, ipa / 4096, old(k.free)[0])
              && FrameHas(k.mem[..], old(k.free)[0], old(k.mem[..]), src, n)
    ensures r.Loaded? ==> PlainMemory(k.mem[..], k.tables[ROOT], ipa / 4096)
    ensures r.Misaligned? ==> ipa % 4096 != 0
    ensures r.Overlap? ==> ipa / 4096 in old(k.pages)
    ensures !r.NoRootfs?
    ensures r.OutOfMemory? ==>
              || (old(k.free) == [] && k.tables == old(k.tables))
              || (|k.tables| + 1 == |old(k.free)| + |old(k.tables)| && !(Path(ipa / 4096) <= k.tables.Keys))
  {
    hide PagePool, Mapping, OwnsTables, Grew, DataKept, RolesKept, Path, OutsidePool, FrameHas, PageAdded;
    hide PlainMemory, Or, Run, Paths, FrameSet;
    ghost var s0, M0, v := k.Now(), k.pages, ipa / 4096;
    var page := FilledPage(k, src, n);
    ghost var s1 := k.Now();
    SameKeys(s0, s1);
    if page == 0 {
      return OutOfMemory;
    }
    ghost var f, done := s0.free[0], 0;
    var mr;
    OneFrame(s1.own, f);
    assert page / 4096 == f;
    MappingAttrs();
    mr, done := CreateGuestMapping(k, pgt, ipa, page, 4096, Or(S2PTE_NORMAL, S2PTE_RW));
    HasIt(s1.mem, f, s0.mem, src, n);
    Mapped(s0, s1, k.Now(), M0, v, f, done);
    match mr {
      case Done =>
        Added(s0, s1, k.Now(), M0, k.pages, v, f, src, n);
        LeafIsPlain(k.mem[..], k.tables, k.pages, v);
        r := Loaded;
      case BadParam => r := Misaligned;
      case PageUsed => r := Overlap;
      case NoPage => r := OutOfMemory;
    }
  }

  lemma HasIt(m: Mem, f: nat, m0: Mem, src: nat, n: nat)
    requires FrameHas(m, f, m0, src, n)
    ensures HasFrame(m, f)
  {}

  lemma Added(s0: Snapshot, s1: Snapshot, s2: Snapshot, M0: Pages, M2: Pages, v: nat, f: nat, src: nat, n: nat)
    requires s2.own.Keys == s0.own.Keys && f in s0.own && s0.own[f] == Free && DataKept(s0.mem, s2.mem, s0.own)
    requires FrameHas(s1.mem, f, s0.mem, src, n) && HasFrame(s2.mem, f) && Frame(s2.mem, f) == Frame(s1.mem, f)
    requires ROOT in s0.tables && ROOT in s2.tables && s2.tables[ROOT] == s0.tables[ROOT]
    requires s2.tables.Keys == s0.tables.Keys + Path(v) && |s2.free| + |s2.tables| + 1 == |s0.free| + |s0.tables|
    requires v !in M0 && M2 == M0[v := Leaf(f, GUEST_ATTR)]
    ensures PageAdded(s0, M0, s2, M2, v, f) && FrameHas(s2.mem, f, s0.mem, src, n)
  {
    hide DataKept, Path;
  }

  lemma SameKeys(s0: Snapshot, s1: Snapshot)
    requires RolesKept(s0.own, s1.own, {})
    ensures s1.own.Keys == s0.own.Keys
  {}

  lemma SourceApart(own: Owners, src: nat, n: nat, f: nat)
    requires OutsidePool(own, src, n) && f in own && n <= 4096
    ensures src + n <= f * 4096 || f * 4096 + n <= src
  {
    var d := f * 4096;
    var x := if src < d then d else src;
    assert src <= x < src + n ==> x / 4096 !in own;
    assert d <= x < d + n ==> x / 4096 == f;
  }

  lemma OneFrame(own: Owners, g: nat)
    requires g in own ==> own[g] == Held
    ensures forall f :: g <= f < g + 1 && f in own ==> own[f] == Held
  {}

  /** After the copy the held frame holds n source bytes and zeros; other data is intact. */
  lemma PageFilled(m0: Mem, m1: Mem, m2: Mem, own0: Owners, own1: Owners, f: nat, src: nat, n: nat)
    requires OnlyFrame(m0, m1, f) && HasFrame(m1, f) && Zeroed(Frame(m1, f)) && f in own0 && own0[f] == Free
    requires n <= 4096 && src + n <= |m0| && OutsidePool(own0, src, n)
    requires OnlyRange(m1, m2, f * 4096, n) && m2[f * 4096..f * 4096 + n] == m1[src..src + n]
    requires DataKept(m0, m1, own0)
    ensures DataKept(m0, m2, own0)
    ensures forall o :: 0 <= o < 4096 ==> Frame(m2, f)[o] == if o < n then m0[src + o] else 0
  {
    assert OnlyFrame(m1, m2, f);
    OtherFrames(m1, m2, f);
    forall o | 0 <= o < 4096 ensures Frame(m2, f)[o] == if o < n then m0[src + o] else 0 {
      var x := f * 4096 + o;
      assert Frame(m2, f)[o] == m2[x] && Frame(m1, f)[o] == m1[x];
      if o < n {
        assert m2[x] == m2[f * 4096..f * 4096 + n][o] == m1[src..src + n][o] == m1[src + o];
        var y := src + o;
        assert y / 4096 !in own0;
      }
    }
  }

  lemma Mapped(s0: Snapshot, s1: Snapshot, s2: Snapshot, M0: Pages, v: nat, f: nat, done: nat)
    requires RolesKept(s0.own, s1.own, {}) && DataKept(s0.mem, s1.mem, s0.own) && f in s1.own && s1.own[f] == Held
    requires s1.tables == s0.tables && |s0.free| == |s1.free| + 1
    requires done <= 1 && Grew(s1, s2, FrameSet(f, done)) && s2.tables.Keys <= s1.tables.Keys + Paths(v, 1)
    requires HasFrame(s1.mem, f)
    ensures s2.own.Keys == s0.own.Keys && DataKept(s0.mem, s2.mem, s0.own)
    ensures HasFrame(s2.mem, f) && Frame(s2.mem, f) == Frame(s1.mem, f)
    ensures s0.tables.Keys <= s2.tables.Keys <= s0.tables.Keys + Path(v) && Paths(v, 1) == Path(v)
    ensures ROOT in s0.tables ==> s2.tables[ROOT] == s0.tables[ROOT]
    ensures |s2.free| + |s2.tables| + 1 == |s0.free| + |s0.tables|
    ensures M0 + Run(v, f, 1, GUEST_ATTR) == M0[v := Leaf(f, GUEST_ATTR)]
  {
    hide Paths, Path, Run, FrameSet;
    OnePath(v);
    RunOne(M0, v, f, GUEST_ATTR);
    DataKeptTrans(s0.mem, s1.mem, s2.mem, s0.own, s1.own, {});
    assert IsData(s1.own, f);
  }

  // ---- the three loops ----

  function DtbPages(c: Config): nat {
    PagesFor(c.dtb.size)
  }

  /** What the loops have built so far from s0: n RAM pages, d dtb pages, the root file system in the
      pages there when it was last copied, one frame for each page, one table for each new path node. */
  ghost predicate LoadState(s0: Snapshot, s: Snapshot, M: Pages, c: Config, n: nat, d: nat, rd: nat) {
    && s.own.Keys == s0.own.Keys && ROOT in s0.tables && ROOT in s.tables && s.tables[ROOT] == s0.tables[ROOT]
    && s.tables.Keys == s0.tables.Keys + Paths(c.entry / 4096, n) + Paths(c.dtbAddr / 4096, d)
    && |s.free| + |s.tables| + n + d == |s0.free| + |s0.tables|
    && GuestIs(s0.mem, s.mem, s.own, M, c, n, d, rd)
  }

  /** Frames needed to load a whole guest: its pages and the tables it lacks. */
  ghost function FramesNeeded(T: Tables, c: Config): nat {
    RamPages(c) + DtbPages(c)
    + |Paths(c.entry / 4096, RamPages(c)) + Paths(c.dtbAddr / 4096, DtbPages(c)) - T.Keys|
  }

  ghost predicate ConfigOk(c: Config, own: Owners, length: nat) {
    && c.image.start + c.image.size <= length && OutsidePool(own, c.image.start, c.image.size)
    && c.dtb.start + c.dtb.size <= length && OutsidePool(own, c.dtb.start, c.dtb.size)
    && c.initrd.start + c.initrd.size <= length && OutsidePool(own, c.initrd.start, c.initrd.size)
    && c.entry + RamPages(c) * 4096 <= 0x1_0000_0000_0000 && c.dtbAddr + DtbPages(c) * 4096 <= 0x1_0000_0000_0000
    && c.rootfsAddr + c.initrd.size <= 0x1_0000_0000_0000
    && Unstrayed(c, c.image) && Unstrayed(c, c.dtb) && Unstrayed(c, c.initrd)
  }

  /** Every page of the root file system, but for the stray bytes, is mapped when it is first copied. */
  ghost predicate RootfsMapped(c: Config) {
    Stray(c) < c.initrd.size ==>
      forall u :: (c.rootfsAddr + Stray(c)) / 4096 <= u <= (c.rootfsAddr + c.initrd.size - 1) / 4096 ==>
                    InRam(c, RamPages(c), u) || InDtb(c, 1, u)
  }

  /** A small root file system just above RAM can go astray as a whole, and loading completes. */
  lemma AllStray(c: Config)
    requires c.entry == 0x4000_0000 && c.image.size == 0 && c.ram == 4096 && c.dtbAddr == 0x4800_0000
    requires c.rootfsAddr == 0x4000_1008 && c.initrd.size == 16
    ensures Stray(c) == 16 && RootfsMapped(c) && !InRam(c, RamPages(c), 0x4_0001) && !InDtb(c, 1, 0x4_0001)
  {
    OnItsPath(0x4_0000, 0, 1);
    assert OnPath(0x4_0001, 3) == OnPath(0x4_0000, 3);
    hide Paths;
  }

  /** Loaded pages keep their contents while one more page is loaded. */
  lemma OthersKept(m0: Mem, m1: Mem, m2: Mem, own1: Owners, own2: Owners, T: Tables, M: Pages,
                   c: Config, n: nat, d: nat, rd: nat)
    requires GuestIs(m0, m1, own1, M, c, n, d, rd) && OwnsTables(own1, T, M) && own2.Keys == own1.Keys
    requires DataKept(m1, m2, own1) && |m1| % 4096 == 0
    ensures forall u :: u in M ==> M[u].frame in own2 && HasFrame(m2, M[u].frame)
                                   && PageIs(m0, Frame(m2, M[u].frame), c, n, rd, u)
    ensures |m2| == |m0| && OutsideIs(m0, m2, own2, c, rd)
  {
    hide IsStray, PageIs;
    forall u | u in M
      ensures M[u].frame in own2 && HasFrame(m2, M[u].frame) && PageIs(m0, Frame(m2, M[u].frame), c, n, rd, u)
    {
      assert IsData(own1, M[u].frame);
    }
    forall x | 0 <= x < |m2| && x / 4096 !in own2 ensures m2[x] == m1[x] {
      assert IsData(own1, x / 4096);
      ByteInFrame(m1, x);
      ByteInFrame(m2, x);
    }
  }

  lemma ByteInFrame(m: Mem, x: nat)
    requires x < |m| && |m| % 4096 == 0
    ensures HasFrame(m, x / 4096) && m[x] == Frame(m, x / 4096)[x % 4096]
  {
    assert x == x / 4096 * 4096 + x % 4096;
  }

  /** Byte o of an image is still what it was at boot. */
  lemma SourceByte(m0: Mem, m: Mem, own: Owners, c: Config, rd: nat, im: Image, o: nat)
    requires ImagesIn(m0, c) && OutsideIs(m0, m, own, c, rd) && OutsidePool(own, im.start, im.size) && o < im.size
    requires im.start + im.size <= |m0| && (rd == 0 || Unstrayed(c, im))
    ensures m[im.start + o] == m0[im.start + o]
  {
    var x := im.start + o;
    assert x / 4096 !in own && m[x] == OutsideByte(m0, c, rd, x);
    hide Stray;
  }

  /** How many bytes of an image page i takes. */
  function PartLength(size: nat, i: nat): nat {
    if size <= i * 4096 then 0 else if size - i * 4096 > 4096 then 4096 else size - i * 4096
  }

  /** A RAM page holds its part of the image. */
  lemma RamPageIs(m0: Mem, m1: Mem, own: Owners, fr: seq<byte>, c: Config, i: nat, n: nat)
    requires ImagesIn(m0, c) && |fr| == 4096 && |m1| == |m0| && c.entry % 4096 == 0
    requires n == PartLength(c.image.size, i)
    requires OutsidePool(own, c.image.start, c.image.size)
    requires OutsideIs(m0, m1, own, c, 0)
    requires forall o :: 0 <= o < 4096 ==> fr[o] == if o < n then m1[c.image.start + i * 4096 + o] else 0
    ensures PageIs(m0, fr, c, i + 1, 0, c.entry / 4096 + i)
  {
    hide OutsideIs, OutsidePool, Unstrayed;
    var u := c.entry / 4096 + i;
    forall o | 0 <= o < 4096 ensures fr[o] == Content(m0, c, i + 1, false, u * 4096 + o) {
      assert u * 4096 + o - c.entry == i * 4096 + o && (u * 4096 + o) / 4096 == u;
      if o < n { SourceByte(m0, m1, own, c, 0, c.image, i * 4096 + o); }
    }
  }

  /** A fresh dtb page holds its part of the dtb, and nothing of the root file system yet. */
  lemma DtbPageIs(m0: Mem, m1: Mem, own: Owners, fr: seq<byte>, c: Config, n: nat, rd: nat, d: nat, len: nat)
    requires ImagesIn(m0, c) && |fr| == 4096 && |m1| == |m0| && c.dtbAddr % 4096 == 0 && d < DtbPages(c)
    requires n == RamPages(c) && rd <= d && !InRam(c, n, c.dtbAddr / 4096 + d)
    requires len == if c.dtb.size - d * 4096 > 4096 then 4096 else c.dtb.size - d * 4096
    requires OutsidePool(own, c.dtb.start, c.dtb.size) && Unstrayed(c, c.dtb)
    requires OutsideIs(m0, m1, own, c, rd)
    requires forall o :: 0 <= o < 4096 ==> fr[o] == if o < len then m1[c.dtb.start + d * 4096 + o] else 0
    ensures PageIs(m0, fr, c, n, rd, c.dtbAddr / 4096 + d)
  {
    hide OutsideIs, OutsidePool, Unstrayed;
    var u := c.dtbAddr / 4096 + d;
    assert !HasRootfs(c, n, rd, u);
    forall o | 0 <= o < 4096 ensures fr[o] == Content(m0, c, n, false, u * 4096 + o) {
      assert u * 4096 + o - c.dtbAddr == d * 4096 + o && (u * 4096 + o) / 4096 == u;
      if o < len { SourceByte(m0, m1, own, c, rd, c.dtb, d * 4096 + o); }
    }
  }

  lemma RamAdded(s0: Snapshot, s1: Snapshot, M1: Pages, s2: Snapshot, M2: Pages, c: Config, i: nat, f: nat)
    requires LoadState(s0, s1, M1, c, i, 0, 0) && OwnsTables(s1.own, s1.tables, M1)
    requires PageAdded(s1, M1, s2, M2, c.entry / 4096 + i, f) && |s1.mem| % 4096 == 0
    requires PageIs(s0.mem, Frame(s2.mem, f), c, i + 1, 0, c.entry / 4096 + i)
    ensures LoadState(s0, s2, M2, c, i + 1, 0, 0)
  {
    hide OwnsTables, DataKept, Paths, Path, PageIs, GuestIs;
    RamGuest(s0.mem, s1, M1, s2, M2, c, i, f);
    KeysNext(s0.tables.Keys, s0.tables.Keys + Paths(c.entry / 4096, i), c.entry / 4096, i);
    NoPaths(c.dtbAddr / 4096);
    assert s2.tables.Keys == s0.tables.Keys + Paths(c.entry / 4096, i + 1) + Paths(c.dtbAddr / 4096, 0);
  }

  lemma RamGuest(m0: Mem, s1: Snapshot, M1: Pages, s2: Snapshot, M2: Pages, c: Config, i: nat, f: nat)
    requires GuestIs(m0, s1.mem, s1.own, M1, c, i, 0, 0) && OwnsTables(s1.own, s1.tables, M1)
    requires PageAdded(s1, M1, s2, M2, c.entry / 4096 + i, f) && |s1.mem| % 4096 == 0
    requires PageIs(m0, Frame(s2.mem, f), c, i + 1, 0, c.entry / 4096 + i)
    ensures GuestIs(m0, s2.mem, s2.own, M2, c, i + 1, 0, 0)
  {
    hide OwnsTables, DataKept, Path, PageIs, OutsideIs;
    OthersKept(m0, s1.mem, s2.mem, s1.own, s2.own, s1.tables, M1, c, i, 0, 0);
    forall u | u in M2 ensures PageIs(m0, Frame(s2.mem, M2[u].frame), c, i + 1, 0, u) {
      if u != c.entry / 4096 + i {
        MoreRam(m0, Frame(s2.mem, M1[u].frame), c, i, u);
      }
    }
  }

  lemma MoreRam(m0: Mem, fr: seq<byte>, c: Config, i: nat, u: nat)
    requires ImagesIn(m0, c) && |fr| == 4096 && PageIs(m0, fr, c, i, 0, u) && InRam(c, i, u)
    ensures PageIs(m0, fr, c, i + 1, 0, u)
  {}

  lemma NoPaths(v: nat)
    ensures Paths(v, 0) == {}
  {}

  lemma DtbAdded(s0: Snapshot, s1: Snapshot, M1: Pages, s2: Snapshot, M2: Pages,
                 c: Config, n: nat, d: nat, rd: nat, f: nat)
    requires LoadState(s0, s1, M1, c, n, d, rd) && OwnsTables(s1.own, s1.tables, M1)
    requires PageAdded(s1, M1, s2, M2, c.dtbAddr / 4096 + d, f) && |s1.mem| % 4096 == 0
    requires PageIs(s0.mem, Frame(s2.mem, f), c, n, rd, c.dtbAddr / 4096 + d)
    ensures LoadState(s0, s2, M2, c, n, d + 1, rd)
  {
    hide OwnsTables, DataKept, Paths, Path, PageIs, OutsideIs;
    OthersKept(s0.mem, s1.mem, s2.mem, s1.own, s2.own, s1.tables, M1, c, n, d, rd);
    KeysNext(s0.tables.Keys + Paths(c.entry / 4096, n), s1.tables.Keys, c.dtbAddr / 4096, d);
  }

  /** The root file system reaches every mapped page, but for low bytes of a page that is not. */
  lemma RootfsPage(m0: Mem, m1: Mem, m2: Mem, own: Owners, c: Config, n: nat, d: nat, rd: nat,
                   low: nat, u: nat, f: nat)
    requires ImagesIn(m0, c) && OutsideIs(m0, m1, own, c, d) && f in own && own[f] == Data(u) && HasFrame(m1, f)
    requires low <= c.initrd.size && (low == 0 || (c.rootfsAddr % 4096 + low <= 4096 && u != c.rootfsAddr / 4096))
    requires IsCopied(m1, m2, own, c.rootfsAddr + low, c.initrd.start + low, c.initrd.size - low)
    requires OutsidePool(own, c.initrd.start, c.initrd.size) && Unstrayed(c, c.initrd)
    requires HasRootfs(c, n, d, u) && PageIs(m0, Frame(m1, f), c, n, rd, u)
    ensures HasFrame(m2, f) && PageIs(m0, Frame(m2, f), c, n, d, u)
  {
    hide OutsideIs, OutsidePool, Unstrayed;
    forall o | 0 <= o < 4096 ensures Frame(m2, f)[o] == Content(m0, c, n, true, u * 4096 + o) {
      hide IsCopied, PageIs;
      CopiedByte(m1, m2, own, c, low, u, f, o);
      if InRootfs(c, u * 4096 + o) {
        SourceByte(m0, m1, own, c, d, c.initrd, u * 4096 + o - c.rootfsAddr);
      } else {
        PageIsAt(m0, Frame(m1, f), c, n, rd, u, o);
      }
    }
  }

  lemma PageIsAt(m0: Mem, fr: seq<byte>, c: Config, n: nat, rd: nat, u: nat, o: nat)
    requires ImagesIn(m0, c) && |fr| == 4096 && PageIs(m0, fr, c, n, rd, u) && o < 4096
    ensures fr[o] == Content(m0, c, n, HasRootfs(c, n, rd, u), u * 4096 + o)
  {}

  /** Byte o of page u after the copy. */
  lemma CopiedByte(m1: Mem, m2: Mem, own: Owners, c: Config, low: nat, u: nat, f: nat, o: nat)
    requires f in own && own[f] == Data(u) && HasFrame(m1, f) && o < 4096
    requires low <= c.initrd.size && (low == 0 || (c.rootfsAddr % 4096 + low <= 4096 && u != c.rootfsAddr / 4096))
    requires IsCopied(m1, m2, own, c.rootfsAddr + low, c.initrd.start + low, c.initrd.size - low)
    ensures |m2| == |m1| && c.initrd.start + c.initrd.size <= |m1|
    ensures var ipa := u * 4096 + o;
            Frame(m2, f)[o] == if InRootfs(c, ipa) then m1[c.initrd.start + (ipa - c.rootfsAddr)] else Frame(m1, f)[o]
  {
    var x, ipa := f * 4096 + o, u * 4096 + o;
    DivModUnique(x, 4096, f, o);
    assert m2[x] == Copied(m1, own, c.rootfsAddr + low, c.initrd.start + low, c.initrd.size - low, x);
    assert InRootfs(c, ipa) ==> c.rootfsAddr + low <= ipa;
  }

  /** Copying the root file system puts it in place wherever a page is mapped, whether or not it
      already was there. */
  lemma RootfsCopied(m0: Mem, m1: Mem, m: Mem, m2: Mem, own: Owners, T: Tables, M: Pages,
                     c: Config, n: nat, d: nat, rd: nat, low: nat)
    requires GuestIs(m0, m1, own, M, c, n, d, rd) && OwnsTables(own, T, M) && d > 0
    requires OutsideIs(m0, m, own, c, d) && forall f :: f in own && HasFrame(m, f) ==> Frame(m, f) == Frame(m1, f)
    requires low <= c.initrd.size
    requires low == 0 || (c.rootfsAddr % 4096 + low <= 4096 && c.rootfsAddr / 4096 !in M)
    requires IsCopied(m, m2, own, c.rootfsAddr + low, c.initrd.start + low, c.initrd.size - low)
    requires OutsidePool(own, c.initrd.start, c.initrd.size) && Unstrayed(c, c.initrd)
    ensures GuestIs(m0, m2, own, M, c, n, d, d)
  {
    hide PageIs, OutsidePool, Unstrayed, IsStray;
    assert OutsideIs(m0, m2, own, c, d) by {
      forall x | 0 <= x < |m2| && x / 4096 !in own ensures m2[x] == m[x] {
        assert m2[x] == Copied(m, own, c.rootfsAddr + low, c.initrd.start + low, c.initrd.size - low, x);
      }
    }
    hide OutsideIs, IsCopied;
    assert |m2| == |m1| == |m|;
    forall u | u in M ensures PageIs(m0, Frame(m2, M[u].frame), c, n, d, u) {
      RootfsPage(m0, m, m2, own, c, n, d, rd, low, u, M[u].frame);
    }
  }

  /** The stray bytes change no pool frame, and they are where the first copy left them. */
  lemma StrayWritten(m0: Mem, m1: Mem, m: Mem, own: Owners, c: Config, d: nat, rd: nat, low: nat)
    requires ImagesIn(m0, c) && OutsideIs(m0, m1, own, c, rd) && d > 0 && 0 !in own
    requires low == Stray(c) || (low == 0 && rd > 0)
    requires if low == 0 then m == m1 else ByMemcpy(m1, m, c.rootfsAddr % 4096, c.initrd.start, low)
    requires OutsidePool(own, c.initrd.start, c.initrd.size) && Unstrayed(c, c.initrd)
    ensures OutsideIs(m0, m, own, c, d) && forall f :: f in own && HasFrame(m, f) ==> Frame(m, f) == Frame(m1, f)
  {
    if low > 0 {
      hide Stray, IsStray, OutsidePool, Unstrayed;
      StrayFrame(m1, m, c.rootfsAddr % 4096, c.initrd.start, low);
      hide ByMemcpy, OnlyFrame;
      StrayBytes(m0, m1, m, own, c, rd);
      StrayRest(m1, m, c);
    }
  }

  lemma StrayFrame(m1: Mem, m: Mem, o: nat, from: nat, n: nat)
    requires ByMemcpy(m1, m, o, from, n) && o + n <= 4096
    ensures |m| == |m1| && forall f :: f > 0 && HasFrame(m, f) ==> Frame(m, f) == Frame(m1, f)
  {
    assert OnlyFrame(m1, m, 0);
    OtherFrames(m1, m, 0);
  }

  lemma StrayRest(m1: Mem, m: Mem, c: Config)
    requires ByMemcpy(m1, m, c.rootfsAddr % 4096, c.initrd.start, Stray(c))
    ensures |m| == |m1| && forall x :: 0 <= x < |m| && !IsStray(c, x) ==> m[x] == m1[x]
  {
    hide Stray;
  }

  lemma StrayBytes(m0: Mem, m1: Mem, m: Mem, own: Owners, c: Config, rd: nat)
    requires ImagesIn(m0, c) && OutsideIs(m0, m1, own, c, rd) && Stray(c) > 0
    requires ByMemcpy(m1, m, c.rootfsAddr % 4096, c.initrd.start, Stray(c))
    requires OutsidePool(own, c.initrd.start, c.initrd.size) && Unstrayed(c, c.initrd)
    ensures |m| == |m0|
    ensures forall x :: IsStray(c, x) && x < |m| ==> m[x] == m0[c.initrd.start + (x - c.rootfsAddr % 4096)]
  {
    var o, from, n := c.rootfsAddr % 4096, c.initrd.start, Stray(c);
    assert Stray(c) <= c.initrd.size;
    hide Stray, OutsidePool;
    StrayApart(c);
    forall x | IsStray(c, x) && x < |m| ensures m[x] == m0[from + (x - o)] {
      hide Unstrayed, OutsideIs, ByMemcpy;
      StrayByte(m1, m, o, from, n, x - o);
      SourceByte(m0, m1, own, c, rd, c.initrd, x - o);
    }
  }

  lemma StrayApart(c: Config)
    requires Unstrayed(c, c.initrd) && Stray(c) > 0
    ensures var o, from, n := c.rootfsAddr % 4096, c.initrd.start, Stray(c); from + n <= o || o <= from
  {
    var o, from, n := c.rootfsAddr % 4096, c.initrd.start, Stray(c);
    assert n <= c.initrd.size;
    hide Stray;
    assert IsStray(c, o);
  }

  lemma StrayByte(m1: Mem, m: Mem, o: nat, from: nat, n: nat, i: nat)
    requires ByMemcpy(m1, m, o, from, n) && (from + n <= o || o <= from) && i < n
    ensures |m| == |m1| && o + i < |m| && from + i < |m1| && m[o + i] == m1[from + i]
  {
    assert m[o..o + n] == m1[from..from + n];
    assert m[o + i] == m[o..o + n][i] && m1[from + i] == m1[from..from + n][i];
  }

  /** Running out of pages means the free list was smaller than what the guest needs. */
  lemma TooFew(s0: Snapshot, s1: Snapshot, M1: Pages, s2: Snapshot, c: Config, n: nat, d: nat, rd: nat, v: nat)
    requires LoadState(s0, s1, M1, c, n, d, rd)
    requires n + d < RamPages(c) + DtbPages(c) && n <= RamPages(c) && d <= DtbPages(c)
    requires Path(v) <= Paths(c.entry / 4096, RamPages(c)) + Paths(c.dtbAddr / 4096, DtbPages(c))
    requires s1.tables.Keys <= s2.tables.Keys <= s1.tables.Keys + Path(v)
    requires || (s1.free == [] && s2.tables == s1.tables)
             || (|s2.tables| + 1 == |s1.free| + |s1.tables| && !(Path(v) <= s2.tables.Keys))
    ensures |s0.free| < FramesNeeded(s0.tables, c)
  {
    var p := Paths(c.entry / 4096, RamPages(c)) + Paths(c.dtbAddr / 4096, DtbPages(c));
    PathsGrow(c.entry / 4096, n, RamPages(c));
    PathsGrow(c.dtbAddr / 4096, d, DtbPages(c));
    hide Path, Paths, GuestIs;
    SizeGrown(s0.tables.Keys, s2.tables.Keys, p);
    assert |s0.tables| == |s0.tables.Keys| && |s2.tables| == |s2.tables.Keys|;
  }

  ghost predicate Loader(k: Machine, pgt: nat, s0: Snapshot, c: Config, n: nat, d: nat, rd: nat)
    reads k, k.mem
  {
    && k.Valid() && LoadState(s0, k.Now(), k.pages, c, n, d, rd) && pgt == s0.tables[ROOT] * 4096
    && ConfigOk(c, s0.own, k.mem.Length) && k.mem.Length % 4096 == 0 && s0.tables.Keys == {ROOT}
  }

  /** What loading page i of RAM needs. */
  lemma RamReady(s0: Snapshot, s: Snapshot, M: Pages, c: Config, i: nat, src: nat, len: nat)
    requires LoadState(s0, s, M, c, i, 0, 0) && ConfigOk(c, s0.own, |s.mem|) && i < RamPages(c)
    requires len == PartLength(c.image.size, i) && src == if len == 0 then 0 else c.image.start + i * 4096
    ensures ROOT in s.tables && ROOT in s0.tables && s.tables[ROOT] == s0.tables[ROOT]
    ensures c.entry + i * 4096 + 4096 <= 0x1_0000_0000_0000 && c.entry / 4096 + i !in M
    ensures len <= 4096 && src + len <= |s.mem| && OutsidePool(s.own, src, len)
  {
    hide OutsidePool, Paths, PageIs, OutsideIs, Unstrayed;
    SourcePart(s0.own, s.own, c.image.start, c.image.size, i * 4096, len, src);
  }

  /** The page a turn of the first two loops has filled and mapped is RAM page i. */
  lemma RamTurn(s0: Snapshot, s1: Snapshot, M1: Pages, s2: Snapshot, M2: Pages,
                c: Config, i: nat, f: nat, src: nat, len: nat)
    requires LoadState(s0, s1, M1, c, i, 0, 0) && OwnsTables(s1.own, s1.tables, M1)
    requires ConfigOk(c, s0.own, |s1.mem|) && |s1.mem| % 4096 == 0 && i < RamPages(c) && c.entry % 4096 == 0
    requires len == PartLength(c.image.size, i) && src == if len == 0 then 0 else c.image.start + i * 4096
    requires PageAdded(s1, M1, s2, M2, c.entry / 4096 + i, f) && FrameHas(s2.mem, f, s1.mem, src, len)
    ensures LoadState(s0, s2, M2, c, i + 1, 0, 0)
  {
    hide DataKept, OwnsTables, Path, Paths, PageIs, OutsidePool, OutsideIs, Unstrayed;
    SamePart(s0.own, s1.own, c.image.start, c.image.size);
    RamPageIs(s0.mem, s1.mem, s1.own, Frame(s2.mem, f), c, i, len);
    RamAdded(s0, s1, M1, s2, M2, c, i, f);
  }

  /** A turn of the image loop or the RAM loop: page i = p / 4096 of RAM, len bytes of it from the image. */
  method LoadRamPage(k: Machine, pgt: nat, c: Config, p: nat, len: nat, ghost i: nat, ghost s0: Snapshot)
    returns (r: LoadResult)
    requires Loader(k, pgt, s0, c, i, 0, 0) && i < RamPages(c) && p == i * 4096
    requires len == PartLength(c.image.size, i)
    requires !k.locked
    modifies k`locked, k`freelist, k`own, k`free, k`tables, k`pages, k.mem
    ensures k.locked <==> r.OutOfMemory?
    ensures r.Loaded? ==> Loader(k, pgt, s0, c, i + 1, 0, 0) && c.entry % 4096 == 0
    ensures r.OutOfMemory? ==> |s0.free| < FramesNeeded(s0.tables, c)
    ensures r.Misaligned? ==> c.entry % 4096 != 0
    ensures !r.Overlap? && !r.NoRootfs?
  {
    hide PagePool, Mapping, OwnsTables, DataKept, Path, Paths, FramesNeeded, OutsidePool, LoadState, ConfigOk;
    hide PageAdded, FrameHas, PartLength, HasFrame, PlainMemory;
    ghost var s1, M1, v := k.Now(), k.pages, c.entry / 4096 + i;
    var src := if len == 0 then 0 else c.image.start + p;
    RamReady(s0, s1, M1, c, i, src, len);
    assert (c.entry + p) / 4096 == v;
    r := LoadPage(k, pgt, c.entry + p, src, len);
    if r == OutOfMemory {
      OnItsPath(c.entry / 4096, i, RamPages(c));
      TooFew(s0, s1, M1, k.Now(), c, i, 0, 0, v);
    } else if r == Loaded {
      RamTurn(s0, s1, M1, k.Now(), k.pages, c, i, s1.free[0], src, len);
    }
  }

  lemma SamePart(own: Owners, own': Owners, src: nat, n: nat)
    requires OutsidePool(own, src, n) && own'.Keys == own.Keys
    ensures OutsidePool(own', src, n)
  {
    forall x | src <= x < src + n ensures x / 4096 !in own' {
      assert x / 4096 !in own.Keys;
    }
  }

  lemma SourcePart(own: Owners, own': Owners, src: nat, size: nat, o: nat, n: nat, at: nat)
    requires OutsidePool(own, src, size) && own'.Keys == own.Keys && (n > 0 ==> o + n <= size && at == src + o)
    ensures OutsidePool(own', at, n)
  {
    SamePart(own, own', src, size);
  }

  lemma OnItsPath(v: nat, i: nat, n: nat)
    requires i < n
    ensures Path(v + i) <= Paths(v, n)
  {
    PathsGrow(v, i + 1, n);
  }

  function DtbPart(c: Config, d: nat): int {
    if c.dtb.size - d * 4096 > 4096 then 4096 else c.dtb.size - d * 4096
  }

  lemma DtbReady(s0: Snapshot, s: Snapshot, M: Pages, c: Config, d: nat, rd: nat, len: nat)
    requires LoadState(s0, s, M, c, RamPages(c), d, rd) && ConfigOk(c, s0.own, |s.mem|) && d < DtbPages(c)
    requires len == DtbPart(c, d)
    ensures ROOT in s.tables && ROOT in s0.tables && s.tables[ROOT] == s0.tables[ROOT]
    ensures c.dtbAddr + d * 4096 + 4096 <= 0x1_0000_0000_0000
    ensures c.dtbAddr / 4096 + d in M <==> InRam(c, RamPages(c), c.dtbAddr / 4096 + d)
    ensures len <= 4096 && c.dtb.start + d * 4096 + len <= |s.mem| && OutsidePool(s.own, c.dtb.start + d * 4096, len)
  {
    hide OutsidePool, Paths, PageIs, OutsideIs, Unstrayed;
    SourcePart(s0.own, s.own, c.dtb.start, c.dtb.size, d * 4096, len, c.dtb.start + d * 4096);
  }

  /** The page a turn of the dtb loop has filled and mapped is the dtb's. */
  lemma DtbTurn(s0: Snapshot, s1: Snapshot, M1: Pages, s2: Snapshot, M2: Pages,
                c: Config, d: nat, rd: nat, f: nat, len: nat)
    requires LoadState(s0, s1, M1, c, RamPages(c), d, rd) && OwnsTables(s1.own, s1.tables, M1)
    requires ConfigOk(c, s0.own, |s1.mem|) && |s1.mem| % 4096 == 0 && d < DtbPages(c) && c.dtbAddr % 4096 == 0
    requires PageAdded(s1, M1, s2, M2, c.dtbAddr / 4096 + d, f) && len == DtbPart(c, d)
    requires FrameHas(s2.mem, f, s1.mem, c.dtb.start + d * 4096, len)
    ensures LoadState(s0, s2, M2, c, RamPages(c), d + 1, rd) && !InRam(c, RamPages(c), c.dtbAddr / 4096 + d)
  {
    hide DataKept, OwnsTables, Path, Paths, PageIs, OutsidePool, OutsideIs, Unstrayed, Stray;
    SamePart(s0.own, s1.own, c.dtb.start, c.dtb.size);
    DtbPageIs(s0.mem, s1.mem, s1.own, Frame(s2.mem, f), c, RamPages(c), rd, d, len);
    DtbAdded(s0, s1, M1, s2, M2, c, RamPages(c), d, rd, f);
  }

  /** A turn of the dtb loop: page d = p / 4096 of the dtb. */
  method LoadDtbPage(k: Machine, pgt: nat, c: Config, p: nat, len: nat,
                     ghost d: nat, ghost s0: Snapshot, ghost rd: nat)
    returns (r: LoadResult)
    requires Loader(k, pgt, s0, c, RamPages(c), d, rd) && d < DtbPages(c) && p == d * 4096
    requires len == DtbPart(c, d)
    requires !k.locked
    modifies k`locked, k`freelist, k`own, k`free, k`tables, k`pages, k.mem
    ensures k.locked <==> r.OutOfMemory?
    ensures r.Loaded? ==> Loader(k, pgt, s0, c, RamPages(c), d + 1, rd) && c.dtbAddr % 4096 == 0
                          && !InRam(c, RamPages(c), c.dtbAddr / 4096 + d)
    ensures r.OutOfMemory? ==> |s0.free| < FramesNeeded(s0.tables, c)
    ensures r.Misaligned? ==> c.dtbAddr % 4096 != 0
    ensures r.Overlap? ==> InRam(c, RamPages(c), c.dtbAddr / 4096 + d)
    ensures !r.NoRootfs?
  {
    hide PagePool, Mapping, OwnsTables, DataKept, Path, Paths, FramesNeeded, OutsidePool, LoadState, ConfigOk;
    hide PageAdded, FrameHas, DtbPart, HasFrame, InRam, PlainMemory;
    ghost var s1, M1, v := k.Now(), k.pages, c.dtbAddr / 4096 + d;
    DtbReady(s0, s1, M1, c, d, rd, len);
    assert (c.dtbAddr + p) / 4096 == v;
    r := LoadPage(k, pgt, c.dtbAddr + p, c.dtb.start + p, len);
    if r == OutOfMemory {
      OnItsPath(c.dtbAddr / 4096, d, DtbPages(c));
      TooFew(s0, s1, M1, k.Now(), c, RamPages(c), d, rd, v);
    } else if r == Loaded {
      DtbTurn(s0, s1, M1, k.Now(), k.pages, c, d, rd, s1.free[0], len);
    }
  }

  /** The end of the turn: the whole root file system, again. */
  method CopyRootfs(k: Machine, pgt: nat, c: Config, ghost d: nat, ghost s0: Snapshot, ghost rd: nat)
    returns (ok: bool)
    requires Loader(k, pgt, s0, c, RamPages(c), d, rd) && d >= 1
    requires if rd == 0 then d == 1 else RootfsMapped(c)
    requires !k.locked
    modifies k`locked, k`freelist, k`own, k`free, k`tables, k.mem
    ensures !k.locked
    ensures ok <==> RootfsMapped(c)
    ensures ok ==> Loader(k, pgt, s0, c, RamPages(c), d, d)
  {
    hide PagePool, Mapping, OwnsTables, LoadState, ConfigOk, OutsidePool, InPool, Covered, LowPart, Stray;
    hide IsCopied, RootfsMapped, ByMemcpy;
    ghost var s1 := k.Now();
    RootfsReady(s0, s1, k.pages, c, d, rd);
    ghost var done, low, m;
    ok, done, low, m := CopyToIpa(k, pgt, c.rootfsAddr, c.initrd.start, c.initrd.size);
    if ok { RootfsLoaded(s0, s1, m, k.Now(), k.freelist, k.pages, c, RamPages(c), d, rd, low); }
  }

  /** What the copy needs, how much of it goes astray, and when it can complete: exactly if the rest of
      the root file system is mapped. */
  lemma RootfsReady(s0: Snapshot, s: Snapshot, M: Pages, c: Config, d: nat, rd: nat)
    requires LoadState(s0, s, M, c, RamPages(c), d, rd) && ConfigOk(c, s0.own, |s.mem|) && s0.tables.Keys == {ROOT}
    requires d >= 1 && if rd == 0 then d == 1 else RootfsMapped(c)
    ensures c.initrd.start + c.initrd.size <= |s.mem| && c.rootfsAddr + c.initrd.size <= 0x1_0000_0000_0000
    ensures OutsidePool(s.own, c.initrd.start, c.initrd.size) && InPool(s.own, M, c.rootfsAddr, c.initrd.size)
    ensures var low := LowPart(s.tables, M, c.rootfsAddr, c.initrd.size);
            && (low == Stray(c) || (low == 0 && rd > 0)) && (low > 0 ==> c.rootfsAddr / 4096 !in M)
            && (Covered(M, c.rootfsAddr + low, c.initrd.size - low) <==> RootfsMapped(c))
    ensures ROOT in s.tables && ROOT in s0.tables && s.tables[ROOT] == s0.tables[ROOT]
  {
    hide Paths, PageIs, OutsideIs, Unstrayed;
    SamePart(s0.own, s.own, c.initrd.start, c.initrd.size);
    PathsGrow(c.dtbAddr / 4096, 1, d);
  }

  lemma RootfsLoaded(s0: Snapshot, s: Snapshot, m: Mem, s': Snapshot, head: nat, M: Pages, c: Config,
                     n: nat, d: nat, rd: nat, low: nat)
    requires LoadState(s0, s, M, c, n, d, rd) && OwnsTables(s.own, s.tables, M) && d > 0
    requires PagePool(s'.mem, head, s'.own, s'.free) && ConfigOk(c, s0.own, |s.mem|)
    requires s'.own == s.own && s'.free == s.free && s'.tables == s.tables
    requires (low == Stray(c) || (low == 0 && rd > 0)) && (low > 0 ==> c.rootfsAddr / 4096 !in M)
    requires if low == 0 then m == s.mem else ByMemcpy(s.mem, m, c.rootfsAddr % 4096, c.initrd.start, low)
    requires low <= c.initrd.size
    requires IsCopied(m, s'.mem, s.own, c.rootfsAddr + low, c.initrd.start + low, c.initrd.size - low)
    requires OutsidePool(s.own, c.initrd.start, c.initrd.size)
    ensures LoadState(s0, s', M, c, n, d, d)
  {
    assert 0 !in s.own;
    hide Paths, OwnsTables, IsCopied, OutsidePool, PagePool, Unstrayed, PageIs, OutsideIs, ByMemcpy;
    StrayWritten(s0.mem, s.mem, m, s.own, c, d, rd, low);
    RootfsCopied(s0.mem, s.mem, m, s'.mem, s.own, s.tables, M, c, n, d, rd, low);
  }

  // ---- the guest's view ----

  datatype Access = Faulted | Reads(b: byte)

  /** A guest read of one byte: the hardware's walk, the read permission, then memory. */
  function GuestRead(m: Mem, root: nat, ipa: nat): Access {
    match HwWalk(m, root, 0, ipa / 4096)
    case Fault => Faulted
    case Page(l) =>
      var x := l.frame * 4096 + ipa % 4096;
      if MayRead(l) && x < |m| then Reads(m[x]) else Faulted
  }

  datatype Stored = StoreFaulted | Stored(m: Mem)

  /** A guest write of one byte. */
  function GuestWrite(m: Mem, root: nat, ipa: nat, b: byte): Stored {
    match HwWalk(m, root, 0, ipa / 4096)
    case Fault => StoreFaulted
    case Page(l) =>
      var x := l.frame * 4096 + ipa % 4096;
      if MayWrite(l) && x < |m| then Stored(m[x := b]) else StoreFaulted
  }

  /** What the configuration promises the guest at an IPA, given memory m at boot. */
  function Promised(m: Mem, c: Config, ipa: nat): Access
    requires ImagesIn(m, c)
  {
    if InRam(c, RamPages(c), ipa / 4096) || InDtb(c, DtbPages(c), ipa / 4096)
    then Reads(Content(m, c, RamPages(c), c.dtb.size > 0, ipa)) else Faulted
  }

  /** Loading a guest: through its own stage-2 translation the guest reads the image at the entry
      address, the dtb, the root file system (if there is a dtb), zeros up to the end of the last
      pages, and nothing else. */
  lemma GuestReads(m0: Mem, m: Mem, own: Owners, T: Tables, M: Pages, c: Config, ipa: nat)
    requires Mapping(m, T, M) && ROOT in T && ipa < 0x1_0000_0000_0000
    requires GuestIs(m0, m, own, M, c, RamPages(c), DtbPages(c), DtbPages(c))
    ensures GuestRead(m, T[ROOT], ipa) == Promised(m0, c, ipa)
  {
    hide Mapping, HwWalk, Content, PageIs;
    var u := ipa / 4096;
    WhichPages(m0, m, own, M, c, u);
    WalkIsMap(m, T, M, u);
    if u in M {
      PageByte(m0, m, M[u].frame, c, RamPages(c), DtbPages(c), ipa);
    }
  }

  /** The guest reads b at ipa, and everywhere else what it read before. */
  ghost predicate OnlyReadChanged(m: Mem, m': Mem, root: nat, ipa: nat, b: byte) {
    forall i: nat :: i < 0x1_0000_0000_0000 ==>
                       GuestRead(m', root, i) == if i == ipa then Reads(b) else GuestRead(m, root, i)
  }

  /** A guest write to a mapped page changes what the guest reads at that IPA and nowhere else, and
      leaves allocator and tables intact. */
  lemma WriteThenRead(m: Mem, head: nat, own: Owners, free: seq<nat>, T: Tables, M: Pages, ipa: nat, b: byte)
    requires PagePool(m, head, own, free) && Mapping(m, T, M) && OwnsTables(own, T, M) && ROOT in T
    requires ipa < 0x1_0000_0000_0000 && ipa / 4096 in M && M[ipa / 4096].frame in own
    requires MayRead(M[ipa / 4096]) && MayWrite(M[ipa / 4096])
    ensures var w := GuestWrite(m, T[ROOT], ipa, b);
            && w.Stored? && PagePool(w.m, head, own, free) && Mapping(w.m, T, M)
            && OnlyReadChanged(m, w.m, T[ROOT], ipa, b)
  {
    hide PagePool, Mapping, OwnsTables, MayRead, MayWrite, GuestWrite, OnlyReadChanged;
    var f := M[ipa / 4096].frame;
    var x := f * 4096 + ipa % 4096;
    OwnFrame(m, head, own, free, T, M, ipa / 4096);
    WriteIs(m, T, M, ipa, b);
    OneByte(m, x, b, f);
    AfterCopy(m, m[x := b], head, own, free, T, M, f);
    WrittenReads(m, own, T, M, ipa, b, x);
  }

  lemma WriteIs(m: Mem, T: Tables, M: Pages, ipa: nat, b: byte)
    requires Mapping(m, T, M) && ROOT in T && ipa < 0x1_0000_0000_0000 && ipa / 4096 in M && MayWrite(M[ipa / 4096])
    requires M[ipa / 4096].frame * 4096 + ipa % 4096 < |m|
    ensures GuestWrite(m, T[ROOT], ipa, b) == Stored(m[M[ipa / 4096].frame * 4096 + ipa % 4096 := b])
  {
    hide Mapping, HwWalk, MayWrite;
    WalkIsMap(m, T, M, ipa / 4096);
  }

  lemma WrittenReads(m: Mem, own: Owners, T: Tables, M: Pages, ipa: nat, b: byte, x: nat)
    requires Mapping(m, T, M) && OwnsTables(own, T, M) && ROOT in T
    requires ipa / 4096 in M && M[ipa / 4096].frame in own && MayRead(M[ipa / 4096])
    requires x == M[ipa / 4096].frame * 4096 + ipa % 4096 < |m| && Mapping(m[x := b], T, M)
    ensures OnlyReadChanged(m, m[x := b], T[ROOT], ipa, b)
  {
    hide Mapping, OwnsTables, MayRead, GuestRead, ReadThrough;
    forall i: nat | i < 0x1_0000_0000_0000
      ensures GuestRead(m[x := b], T[ROOT], i) == if i == ipa then Reads(b) else GuestRead(m, T[ROOT], i)
    {
      ReadIs(m, T, M, i);
      ReadIs(m[x := b], T, M, i);
      ByteWritten(m, own, T, M, ipa, b, i);
    }
  }

  /** What the abstract map lets the guest read. */
  function ReadThrough(m: Mem, M: Pages, i: nat): Access {
    if i / 4096 !in M then Faulted
    else
      var l := M[i / 4096];
      if MayRead(l) && l.frame * 4096 + i % 4096 < |m| then Reads(m[l.frame * 4096 + i % 4096]) else Faulted
  }

  lemma ReadIs(m: Mem, T: Tables, M: Pages, i: nat)
    requires Mapping(m, T, M) && ROOT in T && i < 0x1_0000_0000_0000
    ensures GuestRead(m, T[ROOT], i) == ReadThrough(m, M, i)
  {
    hide Mapping, HwWalk, MayRead;
    WalkIsMap(m, T, M, i / 4096);
  }

  lemma OneByte(m: Mem, x: nat, b: byte, f: nat)
    requires x < |m| && f * 4096 <= x < f * 4096 + 4096
    ensures OnlyFrame(m, m[x := b], f)
  {}

  lemma ByteWritten(m: Mem, own: Owners, T: Tables, M: Pages, ipa: nat, b: byte, i: nat)
    requires OwnsTables(own, T, M) && ipa / 4096 in M && M[ipa / 4096].frame in own && MayRead(M[ipa / 4096])
    requires M[ipa / 4096].frame * 4096 + ipa % 4096 < |m|
    ensures ReadThrough(m[M[ipa / 4096].frame * 4096 + ipa % 4096 := b], M, i)
            == if i == ipa then Reads(b) else ReadThrough(m, M, i)
  {
    if i / 4096 in M {
      SameFrameSamePage(own, T, M, ipa / 4096, i / 4096);
      hide OwnsTables, MayRead;
      if i != ipa { OtherByte(M[i / 4096].frame, i, M[ipa / 4096].frame, ipa); }
    }
  }

  lemma OwnFrame(m: Mem, head: nat, own: Owners, free: seq<nat>, T: Tables, M: Pages, v: nat)
    requires PagePool(m, head, own, free) && OwnsTables(own, T, M) && v in M && M[v].frame in own
    ensures HasFrame(m, M[v].frame) && own[M[v].frame] == Data(v)
  {}

  lemma SameFrameSamePage(own: Owners, T: Tables, M: Pages, v: nat, u: nat)
    requires OwnsTables(own, T, M) && v in M && u in M && M[v].frame in own
    ensures M[u].frame == M[v].frame ==> u == v
  {}

  lemma OtherByte(g: nat, i: nat, f: nat, ipa: nat)
    requires i != ipa && (g == f ==> i / 4096 == ipa / 4096)
    ensures g * 4096 + i % 4096 != f * 4096 + ipa % 4096
  {}

  lemma PageByte(m0: Mem, m: Mem, f: nat, c: Config, n: nat, rd: nat, ipa: nat)
    requires ImagesIn(m0, c) && HasFrame(m, f) && PageIs(m0, Frame(m, f), c, n, rd, ipa / 4096)
    ensures f * 4096 + ipa % 4096 < |m|
    ensures m[f * 4096 + ipa % 4096] == Content(m0, c, n, HasRootfs(c, n, rd, ipa / 4096), ipa)
  {
    assert Frame(m, f)[ipa % 4096] == m[f * 4096 + ipa % 4096];
    assert ipa / 4096 * 4096 + ipa % 4096 == ipa;
  }

  lemma WhichPages(m0: Mem, m: Mem, own: Owners, M: Pages, c: Config, u: nat)
    requires GuestIs(m0, m, own, M, c, RamPages(c), DtbPages(c), DtbPages(c))
    ensures u in M <==> InRam(c, RamPages(c), u) || InDtb(c, DtbPages(c), u)
    ensures u in M ==> HasFrame(m, M[u].frame) && PageIs(m0, Frame(m, M[u].frame), c, RamPages(c), DtbPages(c), u)
  {}

  ghost predicate RangesMeet(c: Config) {
    exists u :: InRam(c, RamPages(c), u) && InDtb(c, DtbPages(c), u)
  }

  /** An IPA the configuration asks for: in RAM, in the image or in the dtb. */
  predicate Asked(c: Config, ipa: nat) {
    || c.entry <= ipa < c.entry + c.ram || c.entry <= ipa < c.entry + c.image.size
    || c.dtbAddr <= ipa < c.dtbAddr + c.dtb.size
  }

  ghost predicate AskedPage(c: Config, u: nat) {
    exists a: nat :: Asked(c, a) && a / 4096 == u
  }

  lemma PageOfRange(base: nat, size: nat, a: nat)
    requires base % 4096 == 0
    ensures base <= a < base + size ==> base / 4096 <= a / 4096 < base / 4096 + PagesFor(size)
    ensures base / 4096 <= a / 4096 < base / 4096 + PagesFor(size) ==> base <= a && a / 4096 * 4096 < base + size
  {}

  /** The pages mapped are exactly those with an IPA the configuration asks for. */
  lemma AskedPages(c: Config, u: nat)
    requires (RamPages(c) > 0 ==> c.entry % 4096 == 0) && (DtbPages(c) > 0 ==> c.dtbAddr % 4096 == 0)
    ensures InRam(c, RamPages(c), u) || InDtb(c, DtbPages(c), u) <==> AskedPage(c, u)
  {
    if InRam(c, RamPages(c), u) {
      PageOfRange(c.entry, if PagesFor(c.image.size) < PagesFor(c.ram) then c.ram else c.image.size, u * 4096);
      assert Asked(c, u * 4096);
    }
    if InDtb(c, DtbPages(c), u) {
      PageOfRange(c.dtbAddr, c.dtb.size, u * 4096);
      assert Asked(c, u * 4096);
    }
    if AskedPage(c, u) {
      var a: nat :| Asked(c, a) && a / 4096 == u;
      if DtbPages(c) > 0 { PageOfRange(c.dtbAddr, c.dtb.size, a); }
      if RamPages(c) > 0 {
        PageOfRange(c.entry, c.ram, a);
        PageOfRange(c.entry, c.image.size, a);
      }
    }
  }

  /** What a loaded guest reads, from the configuration alone. */
  lemma PromisedIs(m: Mem, c: Config, ipa: nat)
    requires ImagesIn(m, c) && !RangesMeet(c)
    requires (RamPages(c) > 0 ==> c.entry % 4096 == 0) && (DtbPages(c) > 0 ==> c.dtbAddr % 4096 == 0)
    ensures Promised(m, c, ipa) ==
            if !AskedPage(c, ipa / 4096) then Faulted
            else if c.dtb.size > 0 && c.rootfsAddr <= ipa < c.rootfsAddr + c.initrd.size
            then Reads(m[c.initrd.start + (ipa - c.rootfsAddr)])
            else if c.entry <= ipa < c.entry + c.image.size then Reads(m[c.image.start + (ipa - c.entry)])
            else if c.dtbAddr <= ipa < c.dtbAddr + c.dtb.size then Reads(m[c.dtb.start + (ipa - c.dtbAddr)])
            else Reads(0)
  {
    var u := ipa / 4096;
    AskedPages(c, u);
    if RamPages(c) > 0 { PageOfRange(c.entry, c.image.size, ipa); }
    if DtbPages(c) > 0 { PageOfRange(c.dtbAddr, c.dtb.size, ipa); }
    assert c.entry <= ipa < c.entry + c.image.size ==> InRam(c, RamPages(c), u);
    assert c.dtbAddr <= ipa < c.dtbAddr + c.dtb.size ==> InDtb(c, DtbPages(c), u);
    assert InRam(c, RamPages(c), u) ==> !InDtb(c, DtbPages(c), u);
    hide RamPages, DtbPages, RangesMeet, AskedPage;
  }

  /** The first d dtb pages are not RAM pages. */
  ghost predicate Apart(c: Config, d: nat) {
    forall u :: InDtb(c, d, u) ==> !InRam(c, RamPages(c), u)
  }

  lemma ApartNext(c: Config, d: nat)
    requires Apart(c, d)
    ensures !InRam(c, RamPages(c), c.dtbAddr / 4096 + d) ==> Apart(c, d + 1)
    ensures InRam(c, RamPages(c), c.dtbAddr / 4096 + d) && d < DtbPages(c) ==> RangesMeet(c)
  {
    assert InDtb(c, DtbPages(c), c.dtbAddr / 4096 + d) <==> d < DtbPages(c);
  }

  /** The image loop and the RAM loop of do_memory_mapping. */
  method LoadRam(k: Machine, pgt: nat, c: Config, ghost s0: Snapshot) returns (r: LoadResult)
    requires Loader(k, pgt, s0, c, 0, 0, 0)
    requires !k.locked
    modifies k`locked, k`freelist, k`own, k`free, k`tables, k`pages, k.mem
    ensures k.locked <==> r.OutOfMemory?
    ensures r.Loaded? ==> Loader(k, pgt, s0, c, RamPages(c), 0, 0) && (RamPages(c) > 0 ==> c.entry % 4096 == 0)
    ensures r.OutOfMemory? ==> |s0.free| < FramesNeeded(s0.tables, c)
    ensures r.Misaligned? ==> RamPages(c) > 0 && c.entry % 4096 != 0
    ensures !r.Overlap? && !r.NoRootfs?
  {
    hide PagePool, Mapping, OwnsTables, LoadState, FramesNeeded, ConfigOk, OutsidePool;
    var p := 0;
    ghost var i := 0;
    while p < c.image.size
      invariant p == i * 4096 && Loader(k, pgt, s0, c, i, 0, 0) && (i > 0 ==> c.entry % 4096 == 0)
      invariant p < c.image.size + 4096 && !k.locked
    {
      var copySize := if c.image.size - p > 4096 then 4096 else c.image.size - p;
      r := LoadRamPage(k, pgt, c, p, copySize, i, s0);
      if r != Loaded {
        return;
      }
      p, i := p + 4096, i + 1;
    }
    while p < c.ram
      invariant p == i * 4096 && Loader(k, pgt, s0, c, i, 0, 0) && (i > 0 ==> c.entry % 4096 == 0)
      invariant !k.locked && p >= c.image.size && (p < c.image.size + 4096 || p < c.ram + 4096)
    {
      r := LoadRamPage(k, pgt, c, p, 0, i, s0);
      if r != Loaded {
        return;
      }
      p, i := p + 4096, i + 1;
    }
    assert i == RamPages(c);
    r := Loaded;
  }

  /** The dtb loop of do_memory_mapping. */
  method LoadDtb(k: Machine, pgt: nat, c: Config, ghost s0: Snapshot) returns (r: LoadResult)
    requires Loader(k, pgt, s0, c, RamPages(c), 0, 0)
    requires !k.locked
    modifies k`locked, k`freelist, k`own, k`free, k`tables, k`pages, k.mem
    ensures k.locked <==> r.OutOfMemory?
    ensures r.Loaded? ==> Loader(k, pgt, s0, c, RamPages(c), DtbPages(c), DtbPages(c)) && !RangesMeet(c)
                          && (DtbPages(c) > 0 ==> c.dtbAddr % 4096 == 0 && RootfsMapped(c))
    ensures r.NoRootfs? ==> DtbPages(c) > 0 && !RootfsMapped(c)
    ensures r.OutOfMemory? ==> |s0.free| < FramesNeeded(s0.tables, c)
    ensures r.Misaligned? ==> DtbPages(c) > 0 && c.dtbAddr % 4096 != 0
    ensures r.Overlap? ==> RangesMeet(c)
  {
    hide PagePool, Mapping, OwnsTables, LoadState, FramesNeeded, ConfigOk, OutsidePool, RootfsMapped;
    var p := 0;
    ghost var d := 0;
    while p < c.dtb.size
      invariant p == d * 4096 && d <= DtbPages(c) && Loader(k, pgt, s0, c, RamPages(c), d, d)
      invariant (d > 0 ==> c.dtbAddr % 4096 == 0 && RootfsMapped(c)) && Apart(c, d) && !k.locked
    {
      var copySize := if c.dtb.size - p > 4096 then 4096 else c.dtb.size - p;
      ApartNext(c, d);
      r := LoadDtbPage(k, pgt, c, p, copySize, d, s0, d);
      if r != Loaded {
        return;
      }
      var ok := CopyRootfs(k, pgt, c, d + 1, s0, d);
      if !ok {
        return NoRootfs;
      }
      p, d := p + 4096, d + 1;
    }
    r := Loaded;
  }

  /** The guest's tables and pages are exactly those of its RAM and dtb, the pages are pool frames,
      and through them the guest reads what the configuration promises of m0. */
  ghost predicate GuestLoaded(m0: Mem, m: Mem, own: Owners, T: Tables, M: Pages, c: Config) {
    && ImagesIn(m0, c) && ROOT in T
    && T.Keys == {ROOT} + Paths(c.entry / 4096, RamPages(c)) + Paths(c.dtbAddr / 4096, DtbPages(c))
    && (forall u :: u in M <==> InRam(c, RamPages(c), u) || InDtb(c, DtbPages(c), u))
    && (forall u :: u in M ==> M[u].frame in own && PlainMemory(m, T[ROOT], u))
    && forall ipa: nat :: ipa < 0x1_0000_0000_0000 ==> GuestRead(m, T[ROOT], ipa) == Promised(m0, c, ipa)
  }

  /** do_memory_mapping on a fresh root. It returns exactly when the non-empty ranges start on page
      boundaries, RAM and dtb do not meet, the root file system is mapped when there is a dtb (but for
      a first part that goes astray), and the free list covers the guest's pages and their tables; and
      then the guest reads what the configuration promises, and memory outside the pool is as it was
      but for that part. */
  method DoMemoryMapping(k: Machine, pgt: nat, c: Config) returns (r: LoadResult)
    requires k.Valid() && k.pages == map[] && k.tables.Keys == {ROOT} && pgt == k.tables[ROOT] * 4096
    requires ConfigOk(c, k.own, k.mem.Length) && k.mem.Length % 4096 == 0
    requires !k.locked
    modifies k`locked, k`freelist, k`own, k`free, k`tables, k`pages, k.mem
    ensures k.locked <==> r.OutOfMemory?
    ensures r.Loaded? <==> (RamPages(c) > 0 ==> c.entry % 4096 == 0)
                           && (DtbPages(c) > 0 ==> c.dtbAddr % 4096 == 0 && RootfsMapped(c))
                           && !RangesMeet(c) && |old(k.free)| >= FramesNeeded(old(k.tables), c)
    ensures r.Loaded? ==>
              && k.Valid() && |k.free| == |old(k.free)| - FramesNeeded(old(k.tables), c)
              && ROOT in k.tables && k.tables[ROOT] == old(k.tables)[ROOT] && k.own.Keys == old(k.own).Keys
              && GuestLoaded(old(k.mem[..]), k.mem[..], k.own, k.tables, k.pages, c)
              && OutsideIs(old(k.mem[..]), k.mem[..], k.own, c, DtbPages(c))
  {
    ghost var s0 := k.Now();
    FreshState(s0, c, k.pages);
    hide PagePool, Mapping, OwnsTables, LoadState, FramesNeeded, GuestLoaded, RangesMeet, RootfsMapped;
    r := LoadRam(k, pgt, c, s0);
    if r != Loaded {
      return;
    }
    r := LoadDtb(k, pgt, c, s0);
    if r != Loaded {
      return;
    }
    LoadedFrames(s0, k.Now(), k.pages, c, DtbPages(c));
    LoadedGuest(s0, k.Now(), k.pages, c);
  }

  lemma LoadedGuest(s0: Snapshot, s: Snapshot, M: Pages, c: Config)
    requires LoadState(s0, s, M, c, RamPages(c), DtbPages(c), DtbPages(c))
    requires Mapping(s.mem, s.tables, M) && s0.tables.Keys == {ROOT}
    ensures GuestLoaded(s0.mem, s.mem, s.own, s.tables, M, c)
    ensures OutsideIs(s0.mem, s.mem, s.own, c, DtbPages(c))
  {
    hide Paths, GuestRead, Promised, Mapping, PageIs, OutsideIs, InRam, InDtb, PlainMemory;
    forall u | u in M ensures PlainMemory(s.mem, s.tables[ROOT], u) {
      LeafIsPlain(s.mem, s.tables, M, u);
    }
    forall ipa: nat | ipa < 0x1_0000_0000_0000
      ensures GuestRead(s.mem, s.tables[ROOT], ipa) == Promised(s0.mem, c, ipa)
    {
      LoadedReads(s0, s, M, c, ipa);
    }
  }

  lemma LoadedFrames(s0: Snapshot, s: Snapshot, M: Pages, c: Config, rd: nat)
    requires LoadState(s0, s, M, c, RamPages(c), DtbPages(c), rd)
    ensures |s.free| == |s0.free| - FramesNeeded(s0.tables, c)
    ensures ROOT in s.tables && ROOT in s0.tables && s.tables[ROOT] == s0.tables[ROOT] && s.own.Keys == s0.own.Keys
  {
    hide Paths, GuestIs;
    var p := Paths(c.entry / 4096, RamPages(c)) + Paths(c.dtbAddr / 4096, DtbPages(c));
    assert s.tables.Keys == s0.tables.Keys + p;
    SizeGrown(s0.tables.Keys, s.tables.Keys, p);
    assert |s0.tables| == |s0.tables.Keys| && |s.tables| == |s.tables.Keys|;
  }

  lemma LoadedReads(s0: Snapshot, s: Snapshot, M: Pages, c: Config, ipa: nat)
    requires LoadState(s0, s, M, c, RamPages(c), DtbPages(c), DtbPages(c))
    requires Mapping(s.mem, s.tables, M) && ipa < 0x1_0000_0000_0000
    ensures ImagesIn(s0.mem, c) && GuestRead(s.mem, s.tables[ROOT], ipa) == Promised(s0.mem, c, ipa)
  {
    GuestReads(s0.mem, s.mem, s.own, s.tables, M, c, ipa);
  }

  lemma FreshState(s0: Snapshot, c: Config, M: Pages)
    requires ConfigOk(c, s0.own, |s0.mem|) && ROOT in s0.tables && M == map[]
    ensures LoadState(s0, s0, M, c, 0, 0, 0)
  {}
}
