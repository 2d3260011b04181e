/** vmm.c: building, taking down and reading through stage-2 tables. */
module Vmm {
  import opened Bits
  import opened Memory
  import opened Stage2
  import opened Frames
  import opened Kalloc

  /** page_walk's outcomes: the address of the level-3 entry, NULL, or the out-of-page abort. */
  datatype Walk = At(pte: nat) | Null | OutOfPages

  /** What reading an entry on the path of va tells, through the masks the source uses. */
  lemma LookupStep(m: Mem, T: Tables, M: Pages, va: u64, level: nat)
    requires Mapping(m, T, M) && level < 3 && OnPath(va / 4096, level) in T
    ensures var v := va / 4096;
            var c := OnPath(v, level + 1);
            var a := T[OnPath(v, level)] * 4096 + PINDEX(level, va) * 8;
            && PINDEX(level, va) < 512 && a + 8 <= |m|
            && c == Child(OnPath(v, level), PINDEX(level, va)) && OnPath(v, level).level == level
            && (c in T ==> And(Word(m, a), PTE_VALID) != 0 && And(Word(m, a), PTE_TABLE) != 0
                           && PTE_PA(Word(m, a)) == T[c] * 4096)
            && (c !in T ==> And(Word(m, a), PTE_VALID) == 0)
  {
    var v := va / 4096;
    var n, i := OnPath(v, level), Index(v, level);
    PIndexIsIndex(level, va);
    PathStep(v, level);
    assert TableHolds(m, T[n], T, M, n);
    assert Entry(Frame(m, T[n]), i) == Expected(T, M, n, i);
    EntryIsWord(m, T[n], i);
    FlagBits(Expected(T, M, n, i));
    if Child(n, i) in T { TableFields(T[Child(n, i)]); }
  }

  lemma NoLeafTable(m: Mem, T: Tables, M: Pages, v: nat, level: nat)
    requires Mapping(m, T, M) && level <= 3 && OnPath(v, level) !in T
    ensures OnPath(v, 3) !in T
  {
    if OnPath(v, 3) in T { AncestorsInTree(T, v, 3, level); }
  }

  lemma WholePath(m: Mem, T: Tables, M: Pages, v: nat)
    requires Mapping(m, T, M) && OnPath(v, 3) in T
    ensures Path(v) <= T.Keys
  {
    AncestorsInTree(T, v, 3, 2);
    AncestorsInTree(T, v, 3, 1);
  }

  lemma InPath(v: nat, level: nat)
    requires 0 < level <= 3
    ensures OnPath(v, level) in Path(v)
  {}

  /** The level-3 entry of page v. */
  ghost function PteOf(T: Tables, v: nat): nat
    requires OnPath(v, 3) in T
  {
    T[OnPath(v, 3)] * 4096 + v % 512 * 8
  }

  lemma LeafEntry(m: Mem, T: Tables, M: Pages, v: nat)
    requires Mapping(m, T, M) && OnPath(v, 3) in T
    ensures PteOf(T, v) + 8 <= |m| && Word(m, PteOf(T, v)) == if v in M then LeafWord(M[v]) else 0
  {
    var n := OnPath(v, 3);
    assert TableHolds(m, T[n], T, M, n);
    assert Entry(Frame(m, T[n]), v % 512) == Expected(T, M, n, v % 512);
    EntryIsWord(m, T[n], v % 512);
  }

  /** A held, zeroed frame f becomes the table below entry i of table n. */
  lemma InstallTable(m: Mem, m': Mem, head: nat, own: Owners, free: seq<nat>, T: Tables, M: Pages,
                     n: Node, i: nat, f: nat)
    requires PagePool(m, head, own, free) && Mapping(m, T, M) && OwnsTables(own, T, M)
    requires n in T && n.level < 3 && i < 512 && Child(n, i) !in T
    requires f in own && own[f] == Held && HasFrame(m, f) && Zeroed(Frame(m, f))
    requires WordStored(m, m', T[n] * 4096 + 8 * i, TableWord(f))
    ensures PagePool(m', head, own[f := Table(Child(n, i))], free)
    ensures Mapping(m', T[Child(n, i) := f], M)
    ensures OwnsTables(own[f := Table(Child(n, i))], T[Child(n, i) := f], M)
    ensures DataKept(m, m', own) && f !in T.Values
  {
    TablesInjective(own, T, M);
    OwnNewTable(own, T, M, Child(n, i), f);
    AddTable(m, m', T, M, n, i, f);
    StoreIntoFrame(m, m', T[n], i, TableWord(f));
    OtherFrames(m, m', T[n]);
    KallocFrame(m, m', head, own, own[f := Table(Child(n, i))], free);
  }

  lemma BuiltGrew(s0: Snapshot, s1: Snapshot, s2: Snapshot, c: Node, f: nat)
    requires DataKept(s0.mem, s1.mem, s0.own) && RolesKept(s0.own, s1.own, {}) && DataKept(s1.mem, s2.mem, s1.own)
    requires f in s0.own && s0.own[f] == Free && s2.own == s1.own[f := Table(c)]
    requires c !in s0.tables && s2.tables == s0.tables[c := f] && |s0.free| == |s2.free| + 1
    ensures Grew(s0, s2, {})
  {
    DataKeptTrans(s0.mem, s1.mem, s2.mem, s0.own, s1.own, {});
  }

  /** The else-if arm of page_walk: a new table page below entry i of table n, whose descriptor is
      at pte. Returns its address, or 0 when there is no page. */
  method BuildTable(k: Machine, pte: nat, ghost n: Node, ghost i: nat, ghost c: Node) returns (table: nat)
    requires k.Valid() && n in k.tables && n.level < 3 && i < 512
    requires c == Child(n, i) && c !in k.tables
    requires pte == k.tables[n] * 4096 + 8 * i && pte + 8 <= k.mem.Length
    requires !k.locked
    modifies k`locked, k`freelist, k`own, k`free, k`tables, k.mem
    ensures k.locked <==> table == 0
    ensures k.Valid() && Grew(old(k.Now()), k.Now(), {})
    ensures table == 0 ==> k.free == [] && k.tables == old(k.tables)
    ensures table != 0 ==> k.tables.Keys == old(k.tables).Keys + {c} && table == k.tables[c] * 4096
  {
    hide PagePool, Mapping, OwnsTables, Grew, DataKept, RolesKept, WordStored, Zeroed, HasFrame, TableDesc;
    ghost var s0 := k.Now();
    table := k.AllocOnePage();
    if table == 0 {
      GrewNot(s0);
      return;
    }
    ghost var f, s1 := s0.free[0], k.Now();
    assert table == f * 4096;
    TableDescWord(f);
    k.Store(pte, TableDesc(table));
    ghost var m, own' := k.mem[..], k.own[f := Table(c)];
    InstallTable(s1.mem, m, k.freelist, k.own, k.free, k.tables, k.pages, n, i, f);
    k.tables, k.own := k.tables[c := f], own';
    BuiltGrew(s0, s1, k.Now(), c, f);
  }

  /** One turn of page_walk's loop: from the level's table on the path of va to the next. */
  method WalkTurn(k: Machine, table: nat, va: u64, level: nat, alloc: bool) returns (r: Walk)
    requires k.Valid() && level < 3 && OnPath(va / 4096, level) in k.tables
    requires table == k.tables[OnPath(va / 4096, level)] * 4096
    requires !k.locked
    modifies k`locked, k`freelist, k`own, k`free, k`tables, k.mem
    ensures k.locked <==> r.OutOfPages?
    ensures k.Valid() && Grew(old(k.Now()), k.Now(), {})
    ensures k.tables.Keys <= old(k.tables).Keys + {OnPath(va / 4096, level + 1)}
    ensures r.At? ==> OnPath(va / 4096, level + 1) in k.tables && r.pte == k.tables[OnPath(va / 4096, level + 1)] * 4096
    ensures r.Null? <==> !alloc && OnPath(va / 4096, level + 1) !in old(k.tables)
    ensures r.OutOfPages? ==> alloc && k.free == [] && OnPath(va / 4096, level + 1) !in k.tables
    ensures !alloc ==> k.Now() == old(k.Now()) && k.freelist == old(k.freelist)
  {
    hide PagePool, Mapping, OwnsTables, Grew, OnPath, Child, PTE_PA, PINDEX;
    ghost var v := va / 4096;
    ghost var n, c := OnPath(v, level), OnPath(v, level + 1);
    LookupStep(k.mem[..], k.tables, k.pages, va, level);
    GrewNot(k.Now());
    var pte := table + PINDEX(level, va) * 8;
    var d := k.Load(pte);
    if And(d, PTE_VALID) != 0 && And(d, PTE_TABLE) != 0 {
      r := At(PTE_PA(d));
    } else if alloc {
      var next := BuildTable(k, pte, n, PINDEX(level, va), c);
      r := if next == 0 then OutOfPages else At(next);
    } else {
      r := Null;
    }
  }

  /** Walk to the level-3 entry of va, building missing tables if asked to. */
  method PageWalk(k: Machine, pgt: nat, va: u64, alloc: bool) returns (r: Walk)
    requires k.Valid() && ROOT in k.tables && pgt == k.tables[ROOT] * 4096 && va < 0x1_0000_0000_0000
    requires !k.locked
    modifies k`locked, k`freelist, k`own, k`free, k`tables, k.mem
    ensures k.locked <==> r.OutOfPages?
    ensures k.Valid() && Grew(old(k.Now()), k.Now(), {})
    ensures k.tables.Keys <= old(k.tables).Keys + Path(va / 4096)
    ensures r.At? ==> Path(va / 4096) <= k.tables.Keys && r.pte == PteOf(k.tables, va / 4096)
    ensures r.Null? <==> !alloc && OnPath(va / 4096, 3) !in old(k.tables)
    ensures r.OutOfPages? ==> alloc && k.free == [] && !(Path(va / 4096) <= k.tables.Keys)
    ensures !alloc ==> k.Now() == old(k.Now()) && k.freelist == old(k.freelist)
  {
    ghost var v, s0, head0 := va / 4096, k.Now(), k.freelist;
    var level, table := 0, pgt;
    assert OnPath(v, 0) == ROOT;
    assert PINDEX(3, va) == v % 512 by { PIndexIsIndex(3, va); }
    hide PagePool, Mapping, OwnsTables, Grew, OnPath, Path, PINDEX;
    GrewNot(s0);
    while level < 3
      invariant level <= 3
      invariant k.Valid() && !k.locked && Grew(s0, k.Now(), {})
      invariant k.tables.Keys <= s0.tables.Keys + Path(v)
      invariant OnPath(v, level) in k.tables
      invariant table == k.tables[OnPath(v, level)] * 4096
      invariant !alloc ==> k.Now() == s0 && k.freelist == head0
    {
      ghost var s1 := k.Now();
      InPath(v, level + 1);
      r := WalkTurn(k, table, va, level, alloc);
      GrewTrans(s0, s1, k.Now(), {}, {}, {});
      if !r.At? {
        NoLeafTable(k.mem[..], k.tables, k.pages, v, level + 1);
        return;
      }
      table := r.pte;
      level := level + 1;
    }
    WholePath(k.mem[..], k.tables, k.pages, v);
    r := At(table + PINDEX(3, va) * 8);
  }

  // ---- create_guest_mapping ----

  /** The tables below the root that n pages from v need. */
  ghost function Paths(v: nat, n: nat): set<Node> {
    if n == 0 then {} else Paths(v, n - 1) + Path(v + n - 1)
  }

  /** n pages from v onto n frames from g. */
  ghost function Run(v: nat, g: nat, n: nat, attr: nat): Pages {
    if n == 0 then map[] else Run(v, g, n - 1, attr)[v + n - 1 := Leaf(g + n - 1, attr)]
  }

  lemma {:induction false} RunAt(v: nat, g: nat, n: nat, attr: nat)
    ensures forall u :: u in Run(v, g, n, attr) <==> v <= u < v + n
    ensures forall u :: u in Run(v, g, n, attr) ==> Run(v, g, n, attr)[u] == Leaf(g + (u - v), attr)
  {
    if n != 0 { RunAt(v, g, n - 1, attr); }
  }

  lemma RunOne(M: Pages, v: nat, g: nat, attr: nat)
    ensures M + Run(v, g, 1, attr) == M[v := Leaf(g, attr)]
  {
    assert Run(v, g, 1, attr) == Run(v, g, 0, attr)[v := Leaf(g, attr)];
  }

  lemma OnePath(v: nat)
    ensures Paths(v, 1) == Path(v)
  {
    assert Paths(v, 1) == Paths(v, 0) + Path(v);
  }

  lemma {:induction false} PathsGrow(v: nat, i: nat, n: nat)
    requires i <= n
    ensures Paths(v, i) <= Paths(v, n)
  {
    if i < n { PathsGrow(v, i, n - 1); }
  }

  ghost function FrameSet(g: nat, n: nat): set<nat> {
    if n == 0 then {} else FrameSet(g, n - 1) + {g + n - 1}
  }

  lemma {:induction false} InFrameSet(g: nat, n: nat)
    ensures forall f :: f in FrameSet(g, n) <==> g <= f < g + n
  {
    if n != 0 { InFrameSet(g, n - 1); }
  }

  /** Where page l.frame goes when it is mapped at v; device frames have no owner. */
  ghost function OwnPage(own: Owners, v: nat, l: Leaf): Owners {
    if l.frame in own then own[l.frame := Data(v)] else own
  }

  /** A page descriptor is stored in the empty leaf entry of v. */
  lemma MapOne(m: Mem, m': Mem, head: nat, own: Owners, free: seq<nat>, T: Tables, M: Pages, v: nat, l: Leaf)
    requires PagePool(m, head, own, free) && Mapping(m, T, M) && OwnsTables(own, T, M)
    requires OnPath(v, 3) in T && v !in M && v < 0x10_0000_0000 && LeafFits(l)
    requires l.frame in own ==> own[l.frame] == Held
    requires WordStored(m, m', PteOf(T, v), LeafWord(l))
    ensures PagePool(m', head, OwnPage(own, v, l), free) && Mapping(m', T, M[v := l])
  {
    hide FreeList, OwnsFree, TableHolds, IsTree, PagesFit, LeafWord;
    TablesInjective(own, T, M);
    LeafTableOnly(m, m', own, T, M, v, LeafWord(l));
    PagesFitAdd(T, M, v, l);
    SetLeaf(m, m', T, M, M[v := l], v, LeafWord(l));
    KallocFrame(m, m', head, own, OwnPage(own, v, l), free);
  }

  /** Storing into a leaf entry changes one table frame. */
  lemma LeafTableOnly(m: Mem, m': Mem, own: Owners, T: Tables, M: Pages, v: nat, w: u64)
    requires InMemory(m, T) && OwnsTables(own, T, M) && OnPath(v, 3) in T
    requires WordStored(m, m', PteOf(T, v), w)
    ensures forall f: nat :: HasFrame(m, f) && f != T[OnPath(v, 3)] ==> Frame(m', f) == Frame(m, f)
    ensures T[OnPath(v, 3)] in own && own[T[OnPath(v, 3)]].Table? && DataKept(m, m', own)
  {
    var f := T[OnPath(v, 3)];
    StoreIntoFrame(m, m', f, v % 512, w);
    OtherFrames(m, m', f);
  }

  /** The store that ends a turn of create_guest_mapping's loop. */
  method StorePage(k: Machine, pte: nat, pa: u64, mattr: nat, ghost v: nat)
    requires k.Valid() && OnPath(v, 3) in k.tables && pte == PteOf(k.tables, v) && v !in k.pages
    requires v < 0x10_0000_0000 && pa % 4096 == 0 && pa < 0x1_0000_0000_0000
    requires mattr % 4 == 0 && mattr < 0x400
    requires pa / 4096 in k.own ==> k.own[pa / 4096] == Held
    modifies k`own, k`pages, k.mem
    ensures k.Valid() && k.pages == old(k.pages)[v := Leaf(pa / 4096, mattr / 4)]
    ensures k.own == OwnPage(old(k.own), v, Leaf(pa / 4096, mattr / 4))
    ensures DataKept(old(k.mem[..]), k.mem[..], old(k.own))
  {
    hide PagePool, Mapping, WordStored, PageDesc, PteOf, OwnsTables, DataKept;
    ghost var l, m := Leaf(pa / 4096, mattr / 4), k.mem[..];
    EntryInMemory(m, k.tables, k.pages, v);
    PageDescWord(pa, mattr, l);
    k.Store(pte, PageDesc(pa, mattr));
    MapOne(m, k.mem[..], k.freelist, k.own, k.free, k.tables, k.pages, v, l);
    OwnNewPage(k.own, k.tables, k.pages, v, l);
    LeafTableOnly(m, k.mem[..], k.own, k.tables, k.pages, v, LeafWord(l));
    k.own, k.pages := OwnPage(k.own, v, l), k.pages[v := l];
  }

  lemma EntryInMemory(m: Mem, T: Tables, M: Pages, v: nat)
    requires Mapping(m, T, M) && OnPath(v, 3) in T
    ensures PteOf(T, v) + 8 <= |m| && InMemory(m, T)
  {}

  datatype MapResult = Done | BadParam | PageUsed | NoPage

  /** One turn of create_guest_mapping's loop. */
  method MapPage(k: Machine, pgt: nat, va: u64, pa: u64, mattr: nat) returns (r: MapResult)
    requires k.Valid() && ROOT in k.tables && pgt == k.tables[ROOT] * 4096
    requires va % 4096 == 0 && pa % 4096 == 0 && va < 0x1_0000_0000_0000 && pa < 0x1_0000_0000_0000
    requires mattr % 4 == 0 && mattr < 0x400
    requires pa / 4096 in k.own ==> k.own[pa / 4096] == Held
    requires !k.locked
    modifies k`locked, k`freelist, k`own, k`free, k`tables, k`pages, k.mem
    ensures k.locked <==> r.NoPage?
    ensures k.Valid() && Grew(old(k.Now()), k.Now(), if r.Done? then {pa / 4096} else {})
    ensures k.tables.Keys <= old(k.tables).Keys + Path(va / 4096)
    ensures r.Done? ==> k.tables.Keys == old(k.tables).Keys + Path(va / 4096) && va / 4096 !in old(k.pages)
                        && k.pages == old(k.pages)[va / 4096 := Leaf(pa / 4096, mattr / 4)]
    ensures !r.Done? ==> k.pages == old(k.pages)
    ensures r.PageUsed? ==> va / 4096 in old(k.pages)
    ensures r.NoPage? ==> k.free == [] && !(Path(va / 4096) <= k.tables.Keys)
    ensures !r.BadParam?
  {
    hide PagePool, Mapping, OwnsTables, Grew, RolesKept, PteOf, DataKept;
    ghost var s0, v, f := k.Now(), va / 4096, pa / 4096;
    var w := PageWalk(k, pgt, va, true);
    ghost var s1 := k.Now();
    if w == OutOfPages {
      return NoPage;
    }
    GrewWider(s0, s1, f);
    UsedBit(k.mem[..], k.tables, k.pages, v);
    var d := k.Load(w.pte);
    if And(d, PTE_AF) != 0 {
      return PageUsed;
    }
    StorePage(k, w.pte, pa, mattr, v);
    GrewData(s0, s1, k.Now(), v, Leaf(f, mattr / 4));
    r := Done;
  }

  lemma UsedBit(m: Mem, T: Tables, M: Pages, v: nat)
    requires Mapping(m, T, M) && OnPath(v, 3) in T
    ensures PteOf(T, v) + 8 <= |m| && (And(Word(m, PteOf(T, v)), PTE_AF) != 0 <==> v in M)
  {
    LeafEntry(m, T, M, v);
    if v in M {
      LeafFields(M[v]);
      FlagBits(LeafWord(M[v]));
    }
  }

  lemma GrewWider(s: Snapshot, s': Snapshot, f: nat)
    requires Grew(s, s', {}) && (f in s.own ==> s.own[f] == Held)
    ensures Grew(s, s', {f}) && (f in s'.own ==> s'.own[f] == Held)
  {}

  lemma GrewData(s: Snapshot, s1: Snapshot, s2: Snapshot, v: nat, l: Leaf)
    requires Grew(s, s1, {l.frame}) && s2.own == OwnPage(s1.own, v, l) && DataKept(s1.mem, s2.mem, s1.own)
    requires s2.tables == s1.tables && s2.free == s1.free
    ensures Grew(s, s2, {l.frame})
  {
    DataKeptTrans(s.mem, s1.mem, s2.mem, s.own, s1.own, {l.frame});
  }

  /** How many tables n pages from v still lack. */
  ghost function TablesLacking(T: Tables, v: nat, n: nat): nat {
    |Paths(v, n) - T.Keys|
  }

  /** What a mapping of i pages has used, and whether the rest can still succeed. */
  lemma CostUsed(s: Snapshot, s': Snapshot, used: set<nat>, v: nat, i: nat, n: nat)
    requires Grew(s, s', used) && i <= n && s'.tables.Keys <= s.tables.Keys + Paths(v, i)
    ensures Paths(v, i) <= s'.tables.Keys && i == n ==> TablesLacking(s.tables, v, n) == |s.free| - |s'.free|
    ensures s'.free == [] && !(Paths(v, i) <= s'.tables.Keys) ==> TablesLacking(s.tables, v, n) > |s.free|
  {
    PathsGrow(v, i, n);
    SizeGrown(s.tables.Keys, s'.tables.Keys, Paths(v, i));
    SubsetSize(Paths(v, i) - s.tables.Keys, Paths(v, n) - s.tables.Keys);
    assert |s.tables| == |s.tables.Keys| && |s'.tables| == |s'.tables.Keys|;
  }

  lemma SizeGrown<X>(t: set<X>, t': set<X>, p: set<X>)
    requires t <= t' <= t + p
    ensures p <= t' ==> |p - t| == |t'| - |t|
    ensures !(p <= t') ==> |p - t| > |t'| - |t|
    ensures |p - t| >= |t'| - |t|
  {
    var d := t' - t;
    assert t' == t + d && |t'| == |t| + |d|;
    if p <= t' {
      assert d == p - t;
    } else {
      var x :| x in p && x !in t';
      SubsetSize(d, p - t - {x});
    }
  }

  lemma {:induction false} SubsetSize<X>(a: set<X>, b: set<X>)
    requires a <= b
    ensures |a| <= |b|
  {
    if a != {} {
      var x :| x in a;
      SubsetSize(a - {x}, b - {x});
    }
  }

  /** create_guest_mapping. Besides its outcome it reports (for the proof) how many pages it
      mapped. It completes exactly when the arguments are aligned, no page of the range is in use
      and the free list covers the tables the range lacks. */
  method CreateGuestMapping(k: Machine, pgt: nat, va: u64, pa: u64, size: u64, mattr: nat)
    returns (r: MapResult, ghost done: nat)
    requires k.Valid() && ROOT in k.tables && pgt == k.tables[ROOT] * 4096
    requires va + size <= 0x1_0000_0000_0000 && pa + size <= 0x1_0000_0000_0000
    requires mattr % 4 == 0 && mattr < 0x400
    requires forall f :: pa / 4096 <= f < pa / 4096 + size / 4096 && f in k.own ==> k.own[f] == Held
    requires !k.locked
    modifies k`locked, k`freelist, k`own, k`free, k`tables, k`pages, k.mem
    ensures k.locked <==> r.NoPage?
    ensures k.Valid() && Grew(old(k.Now()), k.Now(), FrameSet(pa / 4096, done))
    ensures k.pages == old(k.pages) + Run(va / 4096, pa / 4096, done, mattr / 4) && done <= size / 4096
    ensures k.tables.Keys <= old(k.tables).Keys + Paths(va / 4096, size / 4096)
    ensures r.BadParam? <==> va % 4096 != 0 || pa % 4096 != 0 || size % 4096 != 0
    ensures r.Done? <==> !r.BadParam? && (forall u :: va / 4096 <= u < va / 4096 + size / 4096 ==> u !in old(k.pages))
                         && TablesLacking(old(k.tables), va / 4096, size / 4096) <= |old(k.free)|
    ensures r.Done? ==> done == size / 4096 && k.tables.Keys == old(k.tables).Keys + Paths(va / 4096, done)
                        && |k.free| == |old(k.free)| - TablesLacking(old(k.tables), va / 4096, done)
    ensures r.PageUsed? ==> done < size / 4096 && va / 4096 + done in old(k.pages)
    ensures r.NoPage? ==> k.free == [] && !(Paths(va / 4096, size / 4096) <= k.tables.Keys)
  {
    hide PagePool, Mapping, OwnsTables, Grew, Path, Paths, Run, FrameSet, TablesLacking, Progress;
    ghost var s0, M0, v, g, n := k.Now(), k.pages, va / 4096, pa / 4096, size / 4096;
    done := 0;
    NothingYet(s0, M0, v, g, n, mattr / 4);
    if va % 4096 != 0 || pa % 4096 != 0 || size % 4096 != 0 {
      return BadParam, 0;
    }
    var p := 0;
    while p < size
      invariant p == done * 4096 && done <= n && n * 4096 == size && va == v * 4096 && pa == g * 4096
      invariant !k.locked && k.Valid() && Progress(s0, M0, k.Now(), k.pages, v, g, done, mattr / 4)
    {
      ghost var s1, M1 := k.Now(), k.pages;
      StillThere(s0, M0, s1, M1, v, g, done, mattr / 4);
      assert (va + p) / 4096 == v + done && (pa + p) / 4096 == g + done;
      r := MapPage(k, pgt, va + p, pa + p, mattr);
      if r != Done {
        Stopped(s0, M0, s1, M1, k.Now(), v, g, done, n, mattr / 4);
        return;
      }
      NextPage(s0, M0, s1, M1, k.Now(), k.pages, v, g, done, mattr / 4);
      done := done + 1;
      p := p + 4096;
    }
    Finished(s0, M0, k.Now(), k.pages, v, g, n, mattr / 4);
    r := Done;
  }

  /** i pages of the run are mapped, from s0 and M0 on. */
  ghost predicate Progress(s0: Snapshot, M0: Pages, s: Snapshot, M: Pages, v: nat, g: nat, i: nat, attr: nat) {
    && Grew(s0, s, FrameSet(g, i)) && s.tables.Keys == s0.tables.Keys + Paths(v, i)
    && M == M0 + Run(v, g, i, attr) && Fresh(M0, v, i)
  }

  ghost predicate Fresh(M: Pages, v: nat, i: nat) {
    forall u :: v <= u < v + i ==> u !in M
  }

  lemma NothingYet(s: Snapshot, M: Pages, v: nat, g: nat, n: nat, attr: nat)
    ensures Progress(s, M, s, M, v, g, 0, attr) && Grew(s, s, FrameSet(g, 0)) && M == M + Run(v, g, 0, attr)
    ensures s.tables.Keys <= s.tables.Keys + Paths(v, n)
  {}

  lemma StillThere(s: Snapshot, M: Pages, s': Snapshot, M': Pages, v: nat, g: nat, i: nat, attr: nat)
    requires Progress(s, M, s', M', v, g, i, attr)
    requires (g + i in s.own ==> s.own[g + i] == Held) && ROOT in s.tables
    ensures g + i in s'.own ==> s'.own[g + i] == Held
    ensures ROOT in s'.tables && s'.tables[ROOT] == s.tables[ROOT]
  {
    InFrameSet(g, i);
  }

  lemma RunNext(M0: Pages, v: nat, g: nat, i: nat, attr: nat)
    ensures v + i in M0 + Run(v, g, i, attr) <==> v + i in M0
    ensures (M0 + Run(v, g, i, attr))[v + i := Leaf(g + i, attr)] == M0 + Run(v, g, i + 1, attr)
  {
    RunAt(v, g, i, attr);
  }

  lemma FreshNext(M: Pages, v: nat, i: nat)
    requires Fresh(M, v, i) && v + i !in M
    ensures Fresh(M, v, i + 1)
  {}

  lemma UsedNext(g: nat, i: nat)
    ensures FrameSet(g, i + 1) == FrameSet(g, i) + {g + i}
  {}

  lemma KeysNext(T0: set<Node>, T: set<Node>, v: nat, i: nat)
    requires T == T0 + Paths(v, i)
    ensures T + Path(v + i) == T0 + Paths(v, i + 1) && Path(v + i) <= Paths(v, i + 1)
  {}

  lemma NextPage(s0: Snapshot, M0: Pages, s: Snapshot, M: Pages, s': Snapshot, M': Pages,
                 v: nat, g: nat, i: nat, attr: nat)
    requires Progress(s0, M0, s, M, v, g, i, attr) && Grew(s, s', {g + i}) && v + i !in M
    requires s'.tables.Keys == s.tables.Keys + Path(v + i) && M' == M[v + i := Leaf(g + i, attr)]
    ensures Progress(s0, M0, s', M', v, g, i + 1, attr)
  {
    hide Grew, Path, Paths, Run, FrameSet, Fresh;
    RunNext(M0, v, g, i, attr);
    FreshNext(M0, v, i);
    UsedNext(g, i);
    KeysNext(s0.tables.Keys, s.tables.Keys, v, i);
    GrewTrans(s0, s, s', FrameSet(g, i), {g + i}, FrameSet(g, i + 1));
  }

  lemma KeysStopped(T0: set<Node>, T: set<Node>, T': set<Node>, v: nat, i: nat, n: nat)
    requires T == T0 + Paths(v, i) && T' <= T + Path(v + i) && i < n
    ensures T' <= T0 + Paths(v, i + 1) && T' <= T0 + Paths(v, n)
    ensures !(Path(v + i) <= T') ==> !(Paths(v, i + 1) <= T') && !(Paths(v, n) <= T')
  {
    KeysNext(T0, T, v, i);
    PathsGrow(v, i + 1, n);
  }

  lemma Stopped(s0: Snapshot, M0: Pages, s: Snapshot, M: Pages, s': Snapshot, v: nat, g: nat, i: nat, n: nat, attr: nat)
    requires Progress(s0, M0, s, M, v, g, i, attr) && Grew(s, s', {}) && i < n
    requires s'.tables.Keys <= s.tables.Keys + Path(v + i)
    ensures Grew(s0, s', FrameSet(g, i)) && M == M0 + Run(v, g, i, attr) && (v + i in M ==> v + i in M0)
    ensures s'.tables.Keys <= s0.tables.Keys + Paths(v, n)
    ensures !(Path(v + i) <= s'.tables.Keys) ==> !(Paths(v, n) <= s'.tables.Keys)
    ensures s'.free == [] && !(Path(v + i) <= s'.tables.Keys) ==> TablesLacking(s0.tables, v, n) > |s0.free|
  {
    hide Grew, Path, Paths, Run, FrameSet, TablesLacking, Fresh;
    RunNext(M0, v, g, i, attr);
    KeysStopped(s0.tables.Keys, s.tables.Keys, s'.tables.Keys, v, i, n);
    GrewTrans(s0, s, s', FrameSet(g, i), {}, FrameSet(g, i));
    CostUsed(s0, s', FrameSet(g, i), v, i + 1, n);
  }

  lemma Finished(s0: Snapshot, M0: Pages, s: Snapshot, M: Pages, v: nat, g: nat, n: nat, attr: nat)
    requires Progress(s0, M0, s, M, v, g, n, attr)
    ensures Grew(s0, s, FrameSet(g, n)) && s.tables.Keys == s0.tables.Keys + Paths(v, n)
    ensures M == M0 + Run(v, g, n, attr) && forall u :: v <= u < v + n ==> u !in M0
    ensures TablesLacking(s0.tables, v, n) == |s0.free| - |s.free|
  {
    CostUsed(s0, s, FrameSet(g, n), v, n, n);
  }

  // ---- page_unmap ----

  datatype UnmapResult = Unmapped | BadRange | NotMapped

  /** The frame f of page v is freed (m to m1), then the leaf entry of v is cleared (m1 to m2). */
  lemma UnmapOne(m: Mem, m1: Mem, m2: Mem, head: nat, own: Owners, free: seq<nat>, T: Tables, M: Pages, v: nat)
    requires Mapping(m, T, M) && OwnsTables(own, T, M) && v in M && M[v].frame in own
    requires OnlyFrame(m, m1, M[v].frame) && PagePool(m1, head, own[M[v].frame := Free], free)
    requires OnPath(v, 3) in T && WordStored(m1, m2, PteOf(T, v), 0)
    ensures var own' := own[M[v].frame := Free];
            PagePool(m2, head, own', free) && Mapping(m2, T, M - {v}) && OwnsTables(own', T, M - {v})
            && DataKept(m, m2, own')
  {
    var f := M[v].frame;
    var own' := own[f := Free];
    OwnDropPage(own, T, M, v, Free);
    assert Mapping(m1, T, M) by { OtherOwnerChanges(m, m1, own, T, M, f); }
    assert InMemory(m1, T);
    hide Mapping, PagePool, OnlyFrame, WordStored, OwnsTables;
    ClearLeaf(m1, m2, own, T, M, v);
    LeafTableOnly(m1, m2, own', T, M - {v}, v, 0);
    KallocFrame(m1, m2, head, own', own', free);
    FreedData(m, m1, m2, own', f);
  }

  lemma ClearLeaf(m: Mem, m': Mem, own: Owners, T: Tables, M: Pages, v: nat)
    requires Mapping(m, T, M) && OwnsTables(own, T, M) && OnPath(v, 3) in T && WordStored(m, m', PteOf(T, v), 0)
    ensures Mapping(m', T, M - {v})
  {
    TablesInjective(own, T, M);
    assert PagesFit(T, M - {v});
    SetLeaf(m, m', T, M, M - {v}, v, 0);
  }

  lemma SameData(m: Mem, own: Owners)
    ensures DataKept(m, m, own)
  {}

  lemma FreedData(m: Mem, m1: Mem, m2: Mem, own: Owners, f: nat)
    requires OnlyFrame(m, m1, f) && DataKept(m1, m2, own) && f in own && own[f] == Free
    ensures DataKept(m, m2, own)
  {
    OtherFrames(m, m1, f);
  }

  lemma UnmapFacts(m: Mem, head: nat, own: Owners, free: seq<nat>, T: Tables, M: Pages, v: nat)
    requires PagePool(m, head, own, free) && Mapping(m, T, M) && OwnsTables(own, T, M) && OnPath(v, 3) in T
    requires v in M ==> M[v].frame in own
    ensures PteOf(T, v) + 8 <= |m| && (Word(m, PteOf(T, v)) == 0 <==> v !in M)
    ensures v in M ==> PTE_PA(Word(m, PteOf(T, v))) == M[v].frame * 4096 > 0 && own[M[v].frame] == Data(v)
  {
    LeafEntry(m, T, M, v);
    if v in M { LeafFields(M[v]); }
  }

  /** One turn of page_unmap's loop. */
  method UnmapPage(k: Machine, pgt: nat, va: u64) returns (ok: bool)
    requires k.Valid() && ROOT in k.tables && pgt == k.tables[ROOT] * 4096 && va < 0x1_0000_0000_0000
    requires OnPath(va / 4096, 3) in k.tables
    requires va / 4096 in k.pages ==> k.pages[va / 4096].frame in k.own
    requires !k.locked
    modifies k`locked, k`freelist, k`own, k`free, k`tables, k`pages, k.mem
    ensures !k.locked
    ensures k.Valid() && k.tables == old(k.tables) && (ok <==> va / 4096 in old(k.pages))
    ensures !ok ==> k.Now() == old(k.Now()) && k.pages == old(k.pages)
    ensures ok ==> var f := old(k.pages)[va / 4096].frame;
                   && k.pages == old(k.pages) - {va / 4096} && k.free == [f] + old(k.free)
                   && f in old(k.own) && old(k.own)[f] == Data(va / 4096) && k.own == old(k.own)[f := Free]
    ensures DataKept(old(k.mem[..]), k.mem[..], k.own)
  {
    hide PagePool, Mapping, OwnsTables, Grew, PteOf, WordStored, OnlyFrame, DataKept, ZeroRange, PTE_PA, Word;
    ghost var v, own, T, M, m := va / 4096, k.own, k.tables, k.pages, k.mem[..];
    SameData(m, own);
    var w := PageWalk(k, pgt, va, false);
    UnmapFacts(m, k.freelist, own, k.free, T, M, v);
    var d := k.Load(w.pte);
    if d == 0 {
      return false;
    }
    var pa := PTE_PA(d);
    k.FreeOnePage(pa, M[v].frame);
    ghost var m1 := k.mem[..];
    k.Store(w.pte, 0);
    UnmapOne(m, m1, k.mem[..], k.freelist, own, k.free, T, M, v);
    k.pages := M - {v};
    ok := true;
  }

  /** From M, own and free the pages of [v, v + i) are gone and their frames freed. */
  ghost predicate Removed(M: Pages, own: Owners, free: nat, M': Pages, own': Owners, free': nat, v: nat, i: nat) {
    && M' == M - FrameSet(v, i) && free' == free + i && own'.Keys == own.Keys
    && (forall u :: v <= u < v + i ==> u in M && M[u].frame in own && own'[M[u].frame] == Free)
    && (forall f :: f in own && own[f].Data? && v <= own[f].page < v + i ==> own'[f] == Free)
    && (forall f :: f in own && !(own[f].Data? && v <= own[f].page < v + i) ==> own'[f] == own[f])
  }

  lemma RemovedNext(M: Pages, own: Owners, free: nat, M1: Pages, own1: Owners, free1: nat, v: nat, i: nat, T: Tables)
    requires Removed(M, own, free, M1, own1, free1, v, i) && OwnsTables(own, T, M)
    requires v + i in M && M[v + i].frame in own && own1[M[v + i].frame] == Data(v + i)
    ensures Removed(M, own, free, M1 - {v + i}, own1[M[v + i].frame := Free], free1 + 1, v, i + 1)
    ensures v + i in M1 && M1[v + i] == M[v + i]
  {
    InFrameSet(v, i);
    InFrameSet(v, i + 1);
    assert M1 - {v + i} == M - FrameSet(v, i + 1);
  }

  lemma RemovedSame(M: Pages, own: Owners, free: nat, M1: Pages, own1: Owners, free1: nat, v: nat, i: nat)
    requires Removed(M, own, free, M1, own1, free1, v, i)
    ensures own1.Keys == own.Keys && (v + i in M1 <==> v + i in M)
    ensures v + i in M ==> M1[v + i] == M[v + i]
  {
    InFrameSet(v, i);
  }

  lemma DataKeptBack(m: Mem, m1: Mem, m2: Mem, own1: Owners, own2: Owners)
    requires DataKept(m, m1, own1) && DataKept(m1, m2, own2)
    requires own2.Keys == own1.Keys && forall f :: f in own1 && own2[f] != Free ==> own2[f] == own1[f]
    ensures DataKept(m, m2, own2)
  {
    forall f: nat | HasFrame(m, f) && IsData(own2, f) ensures Frame(m2, f) == Frame(m, f) {
      assert IsData(own1, f);
    }
  }

  /** page_unmap. It needs a leaf table for every page of the range, and frames that came from
      the page allocator; it completes exactly when every page of the range is mapped. */
  method PageUnmap(k: Machine, pgt: nat, va: u64, size: u64) returns (r: UnmapResult, ghost done: nat)
    requires k.Valid() && ROOT in k.tables && pgt == k.tables[ROOT] * 4096 && va + size <= 0x1_0000_0000_0000
    requires forall u :: va / 4096 <= u < va / 4096 + size / 4096 ==> OnPath(u, 3) in k.tables
    requires forall u :: va / 4096 <= u < va / 4096 + size / 4096 && u in k.pages ==> k.pages[u].frame in k.own
    requires !k.locked
    modifies k`locked, k`freelist, k`own, k`free, k`tables, k`pages, k.mem
    ensures !k.locked
    ensures k.Valid() && k.tables == old(k.tables) && done <= size / 4096
    ensures Removed(old(k.pages), old(k.own), |old(k.free)|, k.pages, k.own, |k.free|, va / 4096, done)
    ensures DataKept(old(k.mem[..]), k.mem[..], k.own)
    ensures r.BadRange? <==> va % 4096 != 0 || size % 4096 != 0
    ensures r.Unmapped? <==> !r.BadRange? && forall u :: va / 4096 <= u < va / 4096 + size / 4096 ==> u in old(k.pages)
    ensures r.Unmapped? ==> done == size / 4096
    ensures r.NotMapped? ==> done < size / 4096 && va / 4096 + done !in old(k.pages)
  {
    hide PagePool, Mapping, Removed, FrameSet, DataKept;
    ghost var M, own, F, m, T, v, n := k.pages, k.own, |k.free|, k.mem[..], k.tables, va / 4096, size / 4096;
    done := 0;
    RemovedNone(M, own, F, v, m);
    if va % 4096 != 0 || size % 4096 != 0 {
      return BadRange, 0;
    }
    var p := 0;
    while p < size
      invariant p == done * 4096 && done <= n && n * 4096 == size && va == v * 4096
      invariant !k.locked && k.Valid() && k.tables == T && Removed(M, own, F, k.pages, k.own, |k.free|, v, done)
      invariant DataKept(m, k.mem[..], k.own)
      invariant forall u :: v <= u < v + done ==> u in M
    {
      ghost var M1, own1, F1, m1 := k.pages, k.own, |k.free|, k.mem[..];
      RemovedSame(M, own, F, M1, own1, F1, v, done);
      assert (va + p) / 4096 == v + done;
      var ok := UnmapPage(k, pgt, va + p);
      if !ok {
        return NotMapped, done;
      }
      RemovedNext(M, own, F, M1, own1, F1, v, done, T);
      DataKeptBack(m, m1, k.mem[..], own1, k.own);
      done := done + 1;
      p := p + 4096;
    }
    r := Unmapped;
  }

  lemma RemovedNone(M: Pages, own: Owners, free: nat, v: nat, m: Mem)
    ensures Removed(M, own, free, M, own, free, v, 0) && DataKept(m, m, own)
  {
    assert M - FrameSet(v, 0) == M;
  }

  /** One page needs at most three tables. */
  lemma ThreeTables(T: Tables, v: nat)
    ensures TablesLacking(T, v, 1) <= 3
  {
    OnePath(v);
    SubsetSize(Path(v) - T.Keys, Path(v));
  }

  /** In a fresh map one held frame is mapped at 2 MiB: pages 512 to 1023 then have a leaf table,
      and no other page has. */
  method MapAlone(k: Machine, pgt: nat, g: nat)
    requires k.Valid() && k.tables.Keys == {ROOT} && k.pages == map[] && pgt == k.tables[ROOT] * 4096
    requires !k.locked && |k.free| >= 3 && g in k.own && k.own[g] == Held
    modifies k`locked, k`freelist, k`own, k`free, k`tables, k`pages, k.mem
    ensures !k.locked && k.Valid() && k.pages == map[512 := Leaf(g, 0x30)] && g in k.own
    ensures k.tables.Keys == {ROOT, OnPath(512, 1), OnPath(512, 2), OnPath(512, 3)}
    ensures k.tables[ROOT] == old(k.tables[ROOT])
  {
    hide Mapping, OwnsTables, Grew, PagePool, TablesLacking, Run, Paths, FrameSet, Path;
    ghost var s0 := k.Now();
    assert g * 4096 / 4096 == g && 0x20_0000 / 4096 == 512;
    HeldFits(k.mem[..], k.freelist, k.own, k.free, g);
    ThreeTables(k.tables, 512);
    OnePath(512);
    RunOne(map[], 512, g, 0x30);
    var r;
    ghost var done;
    r, done := CreateGuestMapping(k, pgt, 0x20_0000, g * 4096, 4096, 0xC0);
    RootKept(s0, k.Now(), FrameSet(g, done));
    PathOf(512);
  }

  lemma PathOf(v: nat)
    ensures Path(v) == {OnPath(v, 1), OnPath(v, 2), OnPath(v, 3)}
  {}

  lemma HeldFits(m: Mem, head: nat, own: Owners, free: seq<nat>, g: nat)
    requires PagePool(m, head, own, free) && g in own
    ensures g < 0x10_0000_0000
  {}

  lemma RootKept(s: Snapshot, s': Snapshot, used: set<nat>)
    requires Grew(s, s', used) && ROOT in s.tables
    ensures ROOT in s'.tables && s'.tables[ROOT] == s.tables[ROOT] && s'.own.Keys == s.own.Keys
  {}

  // ---- ipa_to_pa and copy_to_ipa ----

  /** The physical address the abstract map gives a mapped IPA. */
  function Translate(M: Pages, ipa: nat): nat
    requires ipa / 4096 in M
  {
    M[ipa / 4096].frame * 4096 + ipa % 4096
  }

  /** What ipa_to_pa returns: 0 without a leaf table, and otherwise the address bits of the leaf
      entry, valid or not, plus the offset. */
  function IpaToPaValue(T: Tables, M: Pages, ipa: nat): nat {
    if OnPath(ipa / 4096, 3) !in T then 0
    else if ipa / 4096 in M then Translate(M, ipa)
    else ipa % 4096
  }

  /** The caller takes a nonzero result for a translation. It is one, except when the leaf entry
      is empty in a present leaf table and the IPA is not page-aligned. */
  lemma IpaToPaTrusted(m: Mem, T: Tables, M: Pages, ipa: nat)
    requires Mapping(m, T, M) && ROOT in T && ipa < 0x1_0000_0000_0000
    ensures (IpaToPaValue(T, M, ipa) != 0 ==>
               HwWalk(m, T[ROOT], 0, ipa / 4096).Page?
               && IpaToPaValue(T, M, ipa) == HwWalk(m, T[ROOT], 0, ipa / 4096).leaf.frame * 4096 + ipa % 4096)
            <==> !(OnPath(ipa / 4096, 3) in T && ipa / 4096 !in M && ipa % 4096 != 0)
  {
    WalkIsMap(m, T, M, ipa / 4096);
    LeafFit(m, T, M, ipa / 4096);
  }

  lemma LeafFit(m: Mem, T: Tables, M: Pages, v: nat)
    requires Mapping(m, T, M)
    ensures v in M ==> LeafFits(M[v]) && OnPath(v, 3) in T && v < 0x10_0000_0000
  {}

  method IpaToPa(k: Machine, pgt: nat, ipa: u64) returns (pa: nat)
    requires k.Valid() && ROOT in k.tables && pgt == k.tables[ROOT] * 4096 && ipa < 0x1_0000_0000_0000
    requires !k.locked
    modifies k`locked, k`freelist, k`own, k`free, k`tables, k.mem
    ensures !k.locked
    ensures k.Valid() && k.Now() == old(k.Now())
    ensures pa == IpaToPaValue(k.tables, k.pages, ipa)
  {
    hide PagePool, Mapping, OwnsTables, Grew, PteOf;
    ghost var v := ipa / 4096;
    var w := PageWalk(k, pgt, ipa, false);
    if w == Null {
      return 0;
    }
    LeafBits(k.mem[..], k.tables, k.pages, v);
    var d := k.Load(w.pte);
    PageOffset(ipa);
    pa := PTE_PA(d) + And(ipa, 0xfff);
  }

  /** The exception occurs: with only the page at 2 MiB mapped, the next page faults in hardware,
      and ipa_to_pa answers 8 for its byte 8. */
  method StrayTranslation(k: Machine, pgt: nat, g: nat) returns (pa: nat)
    requires k.Valid() && k.tables.Keys == {ROOT} && k.pages == map[] && pgt == k.tables[ROOT] * 4096
    requires !k.locked && |k.free| >= 3 && g in k.own && k.own[g] == Held
    modifies k`locked, k`freelist, k`own, k`free, k`tables, k`pages, k.mem
    ensures k.Valid() && k.pages.Keys == {512} && ROOT in k.tables
    ensures pa == 8 && HwWalk(k.mem[..], k.tables[ROOT], 0, 513) == Fault
  {
    hide Mapping, OwnsTables, PagePool;
    MapAlone(k, pgt, g);
    assert OnPath(513, 3) == OnPath(512, 3);
    WalkIsMap(k.mem[..], k.tables, k.pages, 513);
    pa := IpaToPa(k, pgt, 0x20_1008);
  }

  lemma PageOffset(ipa: nat)
    ensures And(ipa, 0xfff) == ipa % 4096
  {
    Powers();
    assert Ones(12) == 0xfff;
    AndOnes(ipa, 12);
  }

  lemma LeafBits(m: Mem, T: Tables, M: Pages, v: nat)
    requires Mapping(m, T, M) && OnPath(v, 3) in T
    ensures PteOf(T, v) + 8 <= |m|
    ensures PTE_PA(Word(m, PteOf(T, v))) == if v in M then M[v].frame * 4096 else 0
  {
    LeafEntry(m, T, M, v);
    if v in M { LeafFields(M[v]); } else { PtePaIsField(0); }
  }

  /** Memory after len bytes from src have been copied to IPA to: a byte changes exactly when it
      backs an IPA of the range. */
  function Copied(m: Mem, own: Owners, to: nat, src: nat, len: nat, x: nat): byte
    requires x < |m| && src + len <= |m|
  {
    if x / 4096 in own && own[x / 4096].Data? then
      var ipa := own[x / 4096].page * 4096 + x % 4096;
      if to <= ipa < to + len then m[src + (ipa - to)] else m[x]
    else m[x]
  }

  ghost predicate IsCopied(m: Mem, m': Mem, own: Owners, to: nat, src: nat, len: nat) {
    && |m'| == |m| && src + len <= |m|
    && forall x :: 0 <= x < |m| ==> m'[x] == Copied(m, own, to, src, len, x)
  }

  /** No byte of the source is in a pool frame. */
  ghost predicate OutsidePool(own: Owners, src: nat, len: nat) {
    forall x :: src <= x < src + len ==> x / 4096 !in own
  }

  /** One page-bounded chunk more. */
  lemma CopiedMore(m: Mem, m1: Mem, m2: Mem, own: Owners, v: nat, f: nat, to: nat, src: nat, c: nat, n: nat)
    requires IsCopied(m, m1, own, to, src, c) && OutsidePool(own, src, c + n) && src + c + n <= |m|
    requires f in own && own[f] == Data(v) && forall g :: g in own && own[g] == Data(v) ==> g == f
    requires (to + c) / 4096 == v && (to + c) % 4096 + n <= 4096
    requires HasFrame(m, f) && OnlyRange(m1, m2, f * 4096 + (to + c) % 4096, n)
    requires m2[f * 4096 + (to + c) % 4096..f * 4096 + (to + c) % 4096 + n] == m1[src + c..src + c + n]
    ensures IsCopied(m, m2, own, to, src, c + n)
  {
    var pa := f * 4096 + (to + c) % 4096;
    forall x | 0 <= x < |m| ensures m2[x] == Copied(m, own, to, src, c + n, x) {
      assert m1[x] == Copied(m, own, to, src, c, x);
      if pa <= x < pa + n {
        var s := src + c + (x - pa);
        assert x / 4096 == f;
        assert m2[x] == m2[pa..pa + n][x - pa] == m1[src + c..src + c + n][x - pa] == m1[s];
        assert s / 4096 !in own;
        assert m1[s] == Copied(m, own, to, src, c, s);
      } else if x / 4096 in own && own[x / 4096].Data? {
        ChunkBytes(own[x / 4096].page, x, f, to + c, n);
      }
    }
  }

  /** A byte outside the chunk backs no IPA of the chunk. */
  lemma ChunkBytes(u: nat, x: nat, f: nat, to: nat, n: nat)
    requires to % 4096 + n <= 4096
    requires !(f * 4096 + to % 4096 <= x < f * 4096 + to % 4096 + n)
    requires x / 4096 == f || u != to / 4096
    ensures !(to <= u * 4096 + x % 4096 < to + n)
  {}

  /** Every page of [to, to + len) is mapped. */
  ghost predicate Covered(M: Pages, to: nat, len: nat) {
    len > 0 ==> forall u :: to / 4096 <= u <= (to + len - 1) / 4096 ==> u in M
  }

  lemma CoveredNone(M: Pages, to: nat)
    ensures Covered(M, to, 0)
  {}

  /** The next n bytes lie in one mapped page. */
  lemma CoveredMore(M: Pages, to: nat, done: nat, n: nat)
    requires Covered(M, to, done) && (to + done) / 4096 in M && 0 < n <= 4096 - (to + done) % 4096
    ensures Covered(M, to, done + n)
    ensures n == 4096 - (to + done) % 4096 ==> (to + done + n) % 4096 == 0
  {
    assert (to + done + n - 1) / 4096 == (to + done) / 4096;
    forall u | to / 4096 <= u <= (to + done + n - 1) / 4096 ensures u in M {
      if u < (to + done) / 4096 { assert u <= (to + done - 1) / 4096; }
    }
  }

  lemma NotCovered(M: Pages, to: nat, len: nat, v: nat)
    requires len > 0 && v !in M && to / 4096 <= v && v * 4096 < to + len
    ensures !Covered(M, to, len)
  {
    assert v <= (to + len - 1) / 4096;
  }

  /** Mapped pages of the range are pool frames. */
  ghost predicate InPool(own: Owners, M: Pages, to: nat, len: nat) {
    forall u :: u in M && to / 4096 <= u && u * 4096 < to + len ==> M[u].frame in own
  }

  lemma ChunkFacts(m: Mem, head: nat, own: Owners, free: seq<nat>, T: Tables, M: Pages,
                   v: nat, off: nat, n: nat, src: nat, len: nat)
    requires PagePool(m, head, own, free) && OwnsTables(own, T, M) && v in M && M[v].frame in own
    requires off + n <= 4096 && n <= len && OutsidePool(own, src, len)
    ensures var f := M[v].frame;
            && HasFrame(m, f) && f > 0 && own[f] == Data(v) && (forall g :: g in own && own[g] == Data(v) ==> g == f)
            && (n > 0 ==> src + n <= f * 4096 + off || f * 4096 + off + n <= src)
  {
    var d := M[v].frame * 4096 + off;
    var x := if src < d then d else src;
    assert src <= x < src + n ==> x / 4096 !in own;
    assert d <= x < d + n ==> x / 4096 == M[v].frame;
  }

  lemma AfterCopy(m: Mem, m': Mem, head: nat, own: Owners, free: seq<nat>, T: Tables, M: Pages, f: nat)
    requires PagePool(m, head, own, free) && Mapping(m, T, M) && OwnsTables(own, T, M)
    requires f in own && (own[f].Data? || own[f].Held?) && OnlyFrame(m, m', f)
    ensures PagePool(m', head, own, free) && Mapping(m', T, M)
  {
    OtherFrames(m, m', f);
    OtherOwnerChanges(m, m', own, T, M, f);
    KallocFrame(m, m', head, own, own, free);
  }

  /** A turn of copy_to_ipa's loop in a mapped page: n bytes within page v. */
  lemma ChunkCopied(m1: Mem, m2: Mem, head: nat, own: Owners, free: seq<nat>, T: Tables, M: Pages,
                    m: Mem, to: nat, src: nat, c: nat, n: nat)
    requires PagePool(m1, head, own, free) && Mapping(m1, T, M) && OwnsTables(own, T, M)
    requires (to + c) / 4096 in M && M[(to + c) / 4096].frame in own
    requires (to + c) % 4096 + n <= 4096 && n > 0
    requires src + c + n <= |m| && OutsidePool(own, src, c + n) && IsCopied(m, m1, own, to, src, c)
    requires ByMemcpy(m1, m2, Translate(M, to + c), src + c, n)
    ensures PagePool(m2, head, own, free) && Mapping(m2, T, M) && IsCopied(m, m2, own, to, src, c + n)
  {
    hide PagePool, Mapping, OwnsTables, IsCopied;
    var v := (to + c) / 4096;
    var f := M[v].frame;
    assert OutsidePool(own, src + c, n);
    ChunkFacts(m1, head, own, free, T, M, v, (to + c) % 4096, n, src + c, n);
    SameLength(m, m1, own, to, src, c);
    assert OnlyFrame(m1, m2, f);
    AfterCopy(m1, m2, head, own, free, T, M, f);
    CopiedMore(m, m1, m2, own, v, f, to, src, c, n);
  }

  // ---- the chunk that goes astray ----

  /** How many bytes of a copy go to low physical memory: the first page's part, if the copy starts
      inside a page whose leaf entry is empty in a present leaf table. */
  ghost function LowPart(T: Tables, M: Pages, to: nat, len: nat): (n: nat)
    ensures n <= len
  {
    if OnPath(to / 4096, 3) in T && to / 4096 !in M && to % 4096 != 0 then
      if len < 4096 - to % 4096 then len else 4096 - to % 4096
    else 0
  }

  /** Frame 0 has no part in the pool, so writing there breaks nothing of the allocator's. */
  lemma LowChunk(m: Mem, m': Mem, head: nat, own: Owners, free: seq<nat>, T: Tables, M: Pages,
                 dst: nat, src: nat, n: nat)
    requires PagePool(m, head, own, free) && Mapping(m, T, M) && OwnsTables(own, T, M)
    requires dst + n <= 4096 && ByMemcpy(m, m', dst, src, n)
    ensures PagePool(m', head, own, free) && Mapping(m', T, M)
  {
    assert OnlyFrame(m, m', 0);
    OtherFrames(m, m', 0);
    hide FreeList, OwnsFree, TableHolds, IsTree, PagesFit, OnlyFrame, OnlyRange, ByMemcpy;
    KallocFrame(m, m', head, own, own, free);
    MappingFrame(m, m', T, M);
  }

  lemma SameLength(m: Mem, m': Mem, own: Owners, to: nat, src: nat, c: nat)
    requires IsCopied(m, m', own, to, src, c)
    ensures |m'| == |m|
  {}

  lemma CopiedNone(m: Mem, own: Owners, to: nat, src: nat)
    requires src <= |m|
    ensures IsCopied(m, m, own, to, src, 0)
  {}

  /** done bytes of the copy have been made from m0 on: low of them to low addresses, leaving m. */
  ghost predicate CopyState(m0: Mem, m: Mem, mem: Mem, own: Owners, T: Tables, M: Pages,
                            to: nat, from: nat, len: nat, done: nat, low: nat) {
    && low <= done <= len && low == (if done > 0 then LowPart(T, M, to, len) else 0)
    && (if low == 0 then m == m0 else ByMemcpy(m0, m, to % 4096, from, low)) && (done == 0 ==> mem == m0)
    && IsCopied(m, mem, own, to + low, from + low, done - low) && Covered(M, to + low, done - low)
    && (0 < done < len ==> (to + done) % 4096 == 0)
  }

  lemma CopyStart(m: Mem, own: Owners, T: Tables, M: Pages, to: nat, from: nat, len: nat)
    requires from + len <= |m|
    ensures CopyState(m, m, m, own, T, M, to, from, len, 0, 0)
  {
    CopiedNone(m, own, to, from);
  }

  /** One turn: n bytes more, from m1 to m2. */
  lemma CopyNext(m0: Mem, m: Mem, m1: Mem, m2: Mem, head: nat, own: Owners, free: seq<nat>, T: Tables, M: Pages,
                 to: nat, from: nat, len: nat, done: nat, low: nat, n: nat) returns (m': Mem, low': nat)
    requires PagePool(m1, head, own, free) && Mapping(m1, T, M) && OwnsTables(own, T, M)
    requires CopyState(m0, m, m1, own, T, M, to, from, len, done, low) && from + len <= |m1|
    requires OutsidePool(own, from, len) && InPool(own, M, to, len) && done < len
    requires n == if len - done < 4096 - (to + done) % 4096 then len - done else 4096 - (to + done) % 4096
    requires IpaToPaValue(T, M, to + done) != 0 && ByMemcpy(m1, m2, IpaToPaValue(T, M, to + done), from + done, n)
    ensures PagePool(m2, head, own, free) && Mapping(m2, T, M)
    ensures CopyState(m0, m', m2, own, T, M, to, from, len, done + n, low')
  {
    hide PagePool, Mapping, OwnsTables, IsCopied, OutsidePool, Copied, Covered, ByMemcpy;
    var v := (to + done) / 4096;
    LeafFit(m1, T, M, v);
    TurnFacts(own, M, to, from, len, done, low, n);
    m', low' := m, low;
    SameLength(m, m1, own, to + low, from + low, done - low);
    if v in M {
      ChunkCopied(m1, m2, head, own, free, T, M, m, to + low, from + low, done - low, n);
      CoveredMore(M, to + low, done - low, n);
    } else {
      assert done == 0;
      LowChunk(m1, m2, head, own, free, T, M, to % 4096, from, n);
      m', low' := m2, n;
      ByMemcpyLength(m1, m2, to % 4096, from, n);
      CopiedNone(m2, own, to + n, from + n);
      CoveredNone(M, to + n);
    }
  }

  lemma ByMemcpyLength(m: Mem, m': Mem, dst: nat, src: nat, n: nat)
    requires ByMemcpy(m, m', dst, src, n)
    ensures |m'| == |m| && src + n <= |m|
  {}

  lemma CopyEnds(m0: Mem, m: Mem, mem: Mem, own: Owners, T: Tables, M: Pages,
                 to: nat, from: nat, len: nat, done: nat, low: nat)
    requires CopyState(m0, m, mem, own, T, M, to, from, len, done, low)
    ensures low <= done <= len && IsCopied(m, mem, own, to + low, from + low, done - low)
    ensures if low == 0 then m == m0 else ByMemcpy(m0, m, to % 4096, from, low)
    ensures done == len ==> low == LowPart(T, M, to, len) && Covered(M, to + low, len - low)
    ensures (done < len && IpaToPaValue(T, M, to + done) == 0 && (to + done) / 4096 !in M) ==>
              low == LowPart(T, M, to, len) && !Covered(M, to + low, len - low)
  {
    if done < len && IpaToPaValue(T, M, to + done) == 0 && (to + done) / 4096 !in M {
      NoChunk(T, M, to, len, done, low);
    }
  }

  /** copy_to_ipa. The first low bytes, if any, go to the low addresses that ipa_to_pa returned for
      an empty leaf entry, leaving memory m; the rest goes where stage 2 translates. It completes
      exactly when every page of that rest is mapped, and else aborts at the first that is not. */
  method CopyToIpa(k: Machine, pgt: nat, to: u64, from: nat, len: u64)
    returns (ok: bool, ghost done: nat, ghost low: nat, ghost m: Mem)
    requires k.Valid() && ROOT in k.tables && pgt == k.tables[ROOT] * 4096 && to + len <= 0x1_0000_0000_0000
    requires from + len <= k.mem.Length && OutsidePool(k.own, from, len) && InPool(k.own, k.pages, to, len)
    requires !k.locked
    modifies k`locked, k`freelist, k`own, k`free, k`tables, k.mem
    ensures !k.locked
    ensures k.Valid() && k.own == old(k.own) && k.free == old(k.free) && k.tables == old(k.tables)
    ensures low == LowPart(k.tables, k.pages, to, len) <= done <= len
    ensures if low == 0 then m == old(k.mem[..]) else ByMemcpy(old(k.mem[..]), m, to % 4096, from, low)
    ensures IsCopied(m, k.mem[..], k.own, to + low, from + low, done - low)
    ensures ok <==> Covered(k.pages, to + low, len - low)
    ensures ok <==> done == len
  {
    hide PagePool, Mapping, OwnsTables, IsCopied, OutsidePool, Copied, Covered, ByMemcpy, InPool, CopyState, LowPart;
    ghost var m0, own, F, T, M := k.mem[..], k.own, k.free, k.tables, k.pages;
    m, low, done := m0, 0, 0;
    var left := len;
    CopyStart(m0, own, T, M, to, from, len);
    while left > 0
      invariant 0 <= left && done + left == len
      invariant !k.locked && k.Valid() && k.own == own && k.free == F && k.tables == T
      invariant CopyState(m0, m, k.mem[..], own, T, M, to, from, len, done, low)
    {
      ghost var m1 := k.mem[..];
      var ipa := to + (len - left);
      var pa := IpaToPa(k, pgt, ipa);
      if pa == 0 {
        NotZero(m1, k.freelist, own, F, T, M, to, len, ipa);
        CopyEnds(m0, m, m1, own, T, M, to, from, len, done, low);
        return false, done, low, m;
      }
      PageOffset(ipa);
      var n := 4096 - And(ipa, 0xfff);
      if n > left {
        n := left;
      }
      ChunkInMemory(m1, k.freelist, own, F, T, M, to, len, ipa, n);
      k.Memcpy(pa, from + (len - left), n);
      m, low := CopyNext(m0, m, m1, k.mem[..], k.freelist, own, F, T, M, to, from, len, done, low, n);
      done := done + n;
      left := left - n;
    }
    CopyEnds(m0, m, k.mem[..], own, T, M, to, from, len, done, low);
    ok := true;
  }

  lemma TurnFacts(own: Owners, M: Pages, to: nat, src: nat, len: nat, done: nat, low: nat, n: nat)
    requires OutsidePool(own, src, len) && InPool(own, M, to, len) && low <= done && n > 0 && done + n <= len
    ensures OutsidePool(own, src + low, done - low + n)
    ensures (to + done) / 4096 in M ==> M[(to + done) / 4096].frame in own
  {}

  /** The translation failed: the rest of the range is not mapped throughout, and if this is the
      first turn no part of the copy goes astray. */
  lemma NoChunk(T: Tables, M: Pages, to: nat, len: nat, done: nat, low: nat)
    requires low <= done < len && IpaToPaValue(T, M, to + done) == 0 && (to + done) / 4096 !in M
    ensures !Covered(M, to + low, len - low)
    ensures done == 0 ==> LowPart(T, M, to, len) == 0
  {
    NotCovered(M, to + low, len - low, (to + done) / 4096);
  }

  lemma ChunkInMemory(m: Mem, head: nat, own: Owners, free: seq<nat>, T: Tables, M: Pages,
                      to: nat, len: nat, ipa: nat, n: nat)
    requires PagePool(m, head, own, free) && OwnsTables(own, T, M) && ROOT in T && n <= 4096 - ipa % 4096
    requires InPool(own, M, to, len) && to <= ipa < to + len
    ensures IpaToPaValue(T, M, ipa) + n <= |m|
  {
    assert HasFrame(m, T[ROOT]) && T[ROOT] > 0;
    if ipa / 4096 in M { assert HasFrame(m, M[ipa / 4096].frame); }
  }

  /** No mapped IPA of the range translates to 0. */
  lemma NotZero(m: Mem, head: nat, own: Owners, free: seq<nat>, T: Tables, M: Pages, to: nat, len: nat, ipa: nat)
    requires PagePool(m, head, own, free) && Mapping(m, T, M) && InPool(own, M, to, len) && to <= ipa < to + len
    requires IpaToPaValue(T, M, ipa) == 0
    ensures ipa / 4096 !in M
  {
    LeafFit(m, T, M, ipa / 4096);
  }
}
