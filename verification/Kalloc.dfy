/** The machine's memory and its page allocator (kalloc.c, and memset and memcpy of utils.c). */
module Kalloc {
  import opened Bits
  import opened Memory
  import opened Stage2
  import opened Frames

  /** Frames whose contents the allocator and the table code leave alone: device and hypervisor
      frames, frames a caller holds, and guest frames. */
  ghost predicate IsData(own: Owners, f: nat) {
    f in own ==> own[f] == Held || own[f].Data?
  }

  ghost predicate DataKept(m: Mem, m': Mem, own: Owners) {
    |m'| == |m| && forall f: nat :: HasFrame(m, f) && IsData(own, f) ==> Frame(m', f) == Frame(m, f)
  }

  /** Frames in use keep their role; those of used may pass from their holder to the guest. */
  ghost predicate RolesKept(own: Owners, own': Owners, used: set<nat>) {
    && own'.Keys == own.Keys
    && (forall f :: f in own && own[f] != Free && f !in used ==> own'[f] == own[f])
    && (forall f :: f in used ==> IsData(own', f))
  }

  lemma DataKeptTrans(m0: Mem, m1: Mem, m2: Mem, own0: Owners, own1: Owners, used: set<nat>)
    requires DataKept(m0, m1, own0) && DataKept(m1, m2, own1) && RolesKept(own0, own1, used)
    ensures DataKept(m0, m2, own0)
  {
    forall f: nat | HasFrame(m0, f) && IsData(own0, f) ensures Frame(m2, f) == Frame(m0, f) {
      assert IsData(own1, f);
    }
  }

  datatype Snapshot = Snapshot(mem: Mem, own: Owners, free: seq<nat>, tables: Tables)

  /** From s to s' free frames were used only for tables: data is intact, no table was lost or
      moved, and every frame that left the free list became one table. */
  ghost predicate Grew(s: Snapshot, s': Snapshot, used: set<nat>) {
    && RolesKept(s.own, s'.own, used) && DataKept(s.mem, s'.mem, s.own)
    && s.tables.Keys <= s'.tables.Keys && (forall n :: n in s.tables ==> s'.tables[n] == s.tables[n])
    && |s.tables| + |s.free| == |s'.tables| + |s'.free|
  }

  lemma GrewNot(s: Snapshot)
    ensures Grew(s, s, {})
  {}

  lemma GrewTrans(a: Snapshot, b: Snapshot, c: Snapshot, u: set<nat>, w: set<nat>, uw: set<nat>)
    requires Grew(a, b, u) && Grew(b, c, w) && uw == u + w
    ensures Grew(a, c, uw)
  {
    DataKeptTrans(a.mem, b.mem, c.mem, a.own, b.own, u);
  }

  lemma SliceEqual(s: seq<byte>, t: seq<byte>, a: nat, b: nat, n: nat)
    requires a + n <= |s| && b + n <= |t|
    requires forall x :: a <= x < a + n ==> s[x] == t[x - a + b]
    ensures s[a..a + n] == t[b..b + n]
  {
    assert |s[a..a + n]| == |t[b..b + n]|;
  }

  lemma FrameTaken(m: Mem, m': Mem, own: Owners, f: nat)
    requires f in own && own[f] == Free && OnlyFrame(m, m', f) && HasFrame(m, f)
    requires forall x :: f * 4096 <= x < f * 4096 + 4096 && x < |m'| ==> m'[x] == 0
    ensures DataKept(m, m', own) && HasFrame(m', f) && Zeroed(Frame(m', f))
  {
    OtherFrames(m, m', f);
  }

  /** Where byte i of an upward copy comes from. */
  function CopySource(dst: nat, src: nat, i: nat): (x: nat)
    ensures src <= x <= src + i
  {
    if src < dst then
      ModLess(i, dst - src);
      src + i % (dst - src)
    else src + i
  }

  /** m' is m with the n bytes at dst copied upwards from src; unless dst lies inside the source
      range, they are the source's bytes. */
  ghost predicate ByMemcpy(m: Mem, m': Mem, dst: nat, src: nat, n: nat) {
    && OnlyRange(m, m', dst, n) && dst + n <= |m| && src + n <= |m|
    && (forall i :: 0 <= i < n ==> m'[dst + i] == m[CopySource(dst, src, i)])
    && (src + n <= dst || dst <= src ==> m'[dst..dst + n] == m[src..src + n])
  }

  lemma ModLess(i: nat, g: nat)
    requires g > 0
    ensures 0 <= i % g <= i
    ensures i < g ==> i % g == i
    ensures i >= g ==> i % g == (i - g) % g
  {
    if i < g {
      DivModUnique(i, g, 0, i);
    } else {
      var q, r := (i - g) / g, (i - g) % g;
      assert i - g == q * g + r;
      DivModUnique(i, g, q + 1, r);
      MulDistributes(q + 1, 1, g);
    }
  }

  /** The byte the copy reads at i, unless the copy has already overwritten it. */
  lemma SourceStep(dst: nat, src: nat, i: nat)
    ensures src + i < dst || dst <= src ==> CopySource(dst, src, i) == src + i
    ensures src < dst <= src + i ==> CopySource(dst, src, i) == CopySource(dst, src, src + i - dst)
  {
    if src < dst { ModLess(i, dst - src); }
  }

  /** The first free frame is the caller's, zeroed. */
  ghost predicate PageTaken(m: Mem, m': Mem, own: Owners, own': Owners, free: seq<nat>, free': seq<nat>, page: nat) {
    && free != [] && page == free[0] * 4096 < 0x1_0000_0000_0000 && free' == free[1..]
    && free[0] in own && own[free[0]] == Free && own' == own[free[0] := Held]
    && HasFrame(m', free[0]) && OnlyFrame(m, m', free[0]) && Zeroed(Frame(m', free[0]))
  }

  lemma SameRoles(m: Mem, own: Owners)
    ensures DataKept(m, m, own) && RolesKept(own, own, {})
  {}

  /** The first free frame is unlinked and zeroed. */
  lemma TakeFirst(m: Mem, m': Mem, head: nat, own: Owners, free: seq<nat>)
    requires PagePool(m, head, own, free) && free != [] && OnlyFrame(m, m', free[0])
    requires forall x :: free[0] * 4096 <= x < free[0] * 4096 + 4096 && x < |m'| ==> m'[x] == 0
    ensures PagePool(m', Link(free, 1), own[free[0] := Held], free[1..])
    ensures DataKept(m, m', own) && RolesKept(own, own[free[0] := Held], {})
    ensures PageTaken(m, m', own, own[free[0] := Held], free, free[1..], free[0] * 4096)
  {
    PopFree(m, m', head, own, free);
    assert free[0] in free;
    hide FreeList, Zeroed;
    FrameTaken(m, m', own, free[0]);
  }

  /** The list's head is the first free frame, whose first word refers to the next one. */
  lemma FirstLink(m: Mem, head: nat, free: seq<nat>)
    requires FreeList(m, head, free) && free != []
    ensures head == free[0] * 4096 && HasFrame(m, free[0]) && Entry(Frame(m, free[0]), 0) == Link(free, 1)
  {
    hide Entry, Frame, HasFrame;
  }

  lemma FirstWord(m: Mem, f: nat, head: nat)
    requires HasFrame(m, f) && head == f * 4096
    ensures Word(m, head) == Entry(Frame(m, f), 0)
  {
    hide Word, Entry, Frame;
    EntryIsWord(m, f, 0);
  }

  ghost predicate Pops(m: Mem, head: nat, own: Owners, free: seq<nat>) {
    && free != [] && free[0] in own && own[free[0]] == Free && head == free[0] * 4096 < 0x1_0000_0000_0000
    && HasFrame(m, free[0]) && Word(m, head) == Link(free, 1)
  }

  /** The first free frame: where it is and what its link says. */
  lemma FirstFree(m: Mem, head: nat, own: Owners, free: seq<nat>)
    requires PagePool(m, head, own, free)
    ensures head == 0 <==> free == []
    ensures free != [] ==> Pops(m, head, own, free)
  {
    hide Word, Entry, Frame, HasFrame, Link, FreeList;
    if free == [] {
      NoLink(m, head);
    } else {
      assert free[0] in free;
      FirstLink(m, head, free);
      FirstWord(m, free[0], head);
    }
  }

  lemma NoLink(m: Mem, head: nat)
    requires FreeList(m, head, [])
    ensures head == 0
  {}

  lemma PoolFrame(m: Mem, head: nat, own: Owners, free: seq<nat>, f: nat)
    requires PagePool(m, head, own, free) && f in own
    ensures HasFrame(m, f) && head < 0x1_0000_0000_0000
  {
    FirstFree(m, head, own, free);
  }

  /** A frame is cleared and the list's head stored in its first word. */
  lemma LinkStored(m: Mem, m1: Mem, m2: Mem, f: nat, head: u64)
    requires HasFrame(m, f) && OnlyRange(m, m1, f * 4096, 4096) && WordStored(m1, m2, f * 4096, head)
    ensures OnlyFrame(m, m2, f) && Entry(Frame(m2, f), 0) == head
  {
    assert OnlyFrame(m, m2, f);
    hide OnlyFrame, OnlyRange, Entry, Frame;
    EntryIsWord(m2, f, 0);
  }

  ghost predicate IsPool(own: Owners, lo: nat, hi: nat) {
    forall f: nat :: f in own <==> lo <= f < hi
  }

  ghost function AllHeld(lo: nat, hi: nat): (own: Owners)
    ensures IsPool(own, lo, hi) && forall f :: f in own ==> own[f] == Held
    decreases hi
  {
    if hi <= lo then map[] else AllHeld(lo, hi - 1)[hi - 1 := Held]
  }

  ghost predicate FreedBelow(own: Owners, k: nat) {
    forall f :: f in own ==> own[f] == if f < k then Free else Held
  }

  /** hi - 1, hi - 2, ..., lo */
  ghost predicate Descending(free: seq<nat>, lo: nat, hi: nat) {
    |free| == hi - lo && forall i :: 0 <= i < |free| ==> free[i] == hi - 1 - i
  }

  lemma FreedNext(own: Owners, k: nat)
    requires FreedBelow(own, k) && k in own
    ensures own[k] == Held && FreedBelow(own[k := Free], k + 1)
  {}

  lemma DescendingNext(free: seq<nat>, lo: nat, k: nat)
    requires Descending(free, lo, k)
    ensures Descending([k] + free, lo, k + 1)
  {}

  /** Before vttbr is set there are no tables and no guest pages. */
  lemma NoTables(m: Mem, own: Owners)
    requires forall f :: f in own ==> own[f] == Free
    ensures Mapping(m, map[], map[]) && OwnsTables(own, map[], map[])
  {}

  ghost predicate ZeroRange(m: Mem, lo: nat, hi: nat) {
    hi <= |m| && forall x :: lo <= x < hi ==> m[x] == 0
  }

  /** Past its link a freed page is zero. */
  lemma RestZero(m1: Mem, m2: Mem, p: nat, head: u64)
    requires WordStored(m1, m2, p, head) && p + 4096 <= |m1| && forall x :: p <= x < p + 4096 ==> m1[x] == 0
    ensures ZeroRange(m2, p + 8, p + 4096)
  {}

  class Machine {
    const mem: array<byte>      // physical memory up to PHYEND
    var freelist: nat           // pages.freelist: an address, 0 for NULL
    var locked: bool            // pages.lock, as the core running here leaves it
    ghost var own: Owners       // the role of every pool frame
    ghost var free: seq<nat>    // the free frames in list order
    ghost var tables: Tables    // the table graph of the guest, empty before vttbr is set
    ghost var pages: Pages      // the abstract stage-2 map

    ghost predicate KallocOk()
      reads `freelist, `own, `free, mem
    {
      PagePool(mem[..], freelist, own, free)
    }

    ghost predicate Valid()
      reads `freelist, `own, `free, `tables, `pages, mem
    {
      KallocOk() && Mapping(mem[..], tables, pages) && OwnsTables(own, tables, pages)
    }

    /** Boot: the static allocator is zero and nobody has freed a page yet. The image end comes
        from the linker, page-aligned. */
    constructor (mem: array<byte>, himageEnd: nat)
      requires mem.Length == PHYEND && 0 < himageEnd <= PHYEND && himageEnd % 4096 == 0
      ensures this.mem == mem && !locked && KallocOk() && tables == map[] && pages == map[]
      ensures IsPool(own, himageEnd / 4096, 0x5_0000) && FreedBelow(own, himageEnd / 4096) && free == []
    {
      this.mem := mem;
      freelist, locked := 0, false;
      own := AllHeld(himageEnd / 4096, 0x5_0000);
      free, tables, pages := [], map[], map[];
    }

    /** kalloc_init: every page from the image end to PHYEND is freed, so the list runs downwards
        through the whole pool. */
    method KallocInit(himageEnd: nat)
      requires KallocOk() && tables == map[] && pages == map[] && free == []
      requires 0 < himageEnd <= PHYEND && himageEnd % 4096 == 0
      requires IsPool(own, himageEnd / 4096, 0x5_0000) && FreedBelow(own, himageEnd / 4096)
      requires !locked
      modifies this`locked, this`freelist, this`own, this`free, mem
      ensures Valid() && !locked
      ensures IsPool(own, himageEnd / 4096, 0x5_0000) && FreedBelow(own, 0x5_0000)
      ensures Descending(free, himageEnd / 4096, 0x5_0000)
    {
      ghost var lo, hi := himageEnd / 4096, 0x5_0000;
      ghost var k := lo;
      var page := himageEnd;
      hide Mapping, OwnsTables, PagePool, Descending;
      while page < PHYEND
        invariant page == k * 4096 && lo <= k <= hi
        invariant KallocOk() && !locked
        invariant IsPool(own, lo, hi) && FreedBelow(own, k)
        invariant Descending(free, lo, k)
      {
        FreedNext(own, k);
        DescendingNext(free, lo, k);
        FreeOnePage(page, k);
        page, k := page + 4096, k + 1;
      }
      NoTables(mem[..], own);
    }

    ghost function Now(): Snapshot
      reads `own, `free, `tables, mem
    {
      Snapshot(mem[..], own, free, tables)
    }

    method Load(a: nat) returns (w: u64)
      requires a + 8 <= mem.Length
      ensures w == Word(mem[..], a)
    {
      w := Word(mem[..], a);
    }

    method Store(a: nat, w: u64)
      requires a + 8 <= mem.Length
      modifies mem
      ensures WordStored(old(mem[..]), mem[..], a, w)
    {
      forall x | a <= x < a + 8 {
        mem[x] := ByteOf(w, x - a);
      }
      Powers();
      StoreLoad(mem[..], a, 8, w);
    }

    /** memset(dst, 0, n) */
    method Memset(dst: nat, n: nat)
      requires dst + n <= mem.Length
      modifies mem
      ensures OnlyRange(old(mem[..]), mem[..], dst, n)
      ensures forall x :: dst <= x < dst + n ==> mem[x] == 0
    {
      var d := 0;
      while d < n
        invariant d <= n
        invariant forall x :: dst <= x < dst + d ==> mem[x] == 0
        invariant forall x :: 0 <= x < mem.Length && !(dst <= x < dst + d) ==> mem[x] == old(mem[x])
      {
        mem[dst + d] := 0;
        d := d + 1;
      }
    }

    /** memcpy(dst, src, count). The bytes go one by one, upwards, so a destination that starts
        inside the source range repeats the bytes between the two starts. */
    method Memcpy(dst: nat, src: nat, count: nat)
      requires dst + count <= mem.Length && src + count <= mem.Length
      modifies mem
      ensures ByMemcpy(old(mem[..]), mem[..], dst, src, count)
    {
      var d := 0;
      while d < count
        invariant d <= count
        invariant forall i :: 0 <= i < d ==> mem[dst + i] == old(mem[..])[CopySource(dst, src, i)]
        invariant forall x :: 0 <= x < mem.Length && !(dst <= x < dst + d) ==> mem[x] == old(mem[x])
      {
        SourceStep(dst, src, d);
        mem[dst + d] := mem[src + d];
        d := d + 1;
      }
      forall x | dst <= x < dst + count && (src + count <= dst || dst <= src)
        ensures mem[x] == old(mem[..])[x - dst + src]
      {
        SourceStep(dst, src, x - dst);
        assert mem[dst + (x - dst)] == old(mem[..])[CopySource(dst, src, x - dst)];
      }
      if src + count <= dst || dst <= src {
        SliceEqual(mem[..], old(mem[..]), dst, src, count);
      }
    }

    /** The address of the first free page, zeroed; or 0 when there is none, and then the lock is
        not given back. */
    method AllocOnePage() returns (page: nat)
      requires KallocOk() && !locked
      modifies this`locked, this`freelist, this`own, this`free, mem
      ensures locked <==> page == 0
      ensures KallocOk() && DataKept(old(mem[..]), mem[..], old(own)) && RolesKept(old(own), own, {})
      ensures old(Valid()) ==> Valid()
      ensures page == 0 <==> old(free) == []
      ensures page == 0 ==> own == old(own) && free == old(free) && mem[..] == old(mem[..])
      ensures page != 0 ==> PageTaken(old(mem[..]), mem[..], old(own), own, old(free), free, page)
    {
      hide PagePool, Mapping, OwnsTables, DataKept, RolesKept, PageTaken, OnlyRange;
      SameRoles(mem[..], own);
      locked := true;
      page := freelist;
      FirstFree(mem[..], freelist, own, free);
      if page == 0 {
        return;
      }
      ghost var f := free[0];
      freelist := Load(page);
      locked := false;
      Memset(page, 4096);
      ghost var m, m' := old(mem[..]), mem[..];
      TakeFirst(m, m', page, own, free);
      if old(Valid()) {
        OtherOwnerChanges(m, m', own, tables, pages, f);
      }
      own, free := own[f := Held], free[1..];
    }

    /** Zero the page and put it in front of the free list. */
    method FreeOnePage(p: nat, ghost f: nat)
      requires KallocOk()
      requires p != 0 ==> p == f * 4096 && f in own && own[f] != Free
      requires !locked
      modifies this`locked, this`freelist, this`own, this`free, mem
      ensures !locked
      ensures KallocOk()
      ensures p == 0 ==> own == old(own) && free == old(free) && mem[..] == old(mem[..])
      ensures p != 0 ==> own == old(own)[f := Free] && free == [f] + old(free)
                         && OnlyFrame(old(mem[..]), mem[..], f)
      ensures p != 0 ==> ZeroRange(mem[..], p + 8, p + 4096)
    {
      if p == 0 {
        return;
      }
      hide PagePool, WordStored, ZeroRange;
      PoolFrame(mem[..], freelist, own, free, f);
      Memset(p, 4096);
      locked := true;
      ghost var m, m1 := old(mem[..]), mem[..];
      Store(p, freelist);
      ghost var m' := mem[..];
      LinkStored(m, m1, m', f, freelist);
      RestZero(m1, m', p, freelist);
      PushFree(m, m', freelist, own, free, f);
      freelist := p;
      own, free := own[f := Free], [f] + free;
      locked := false;
    }
  }
}
