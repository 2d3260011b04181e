/** What the allocator and table invariants mean for frames: nothing is shared. */
module Ownership {
  import opened Memory
  import opened Stage2
  import opened Frames
  import opened Vmm

  ghost function GuestFrames(own: Owners, M: Pages): set<nat> {
    set v | v in M && M[v].frame in own :: M[v].frame
  }

  ghost function HeldFrames(own: Owners): set<nat> {
    set f | f in own && own[f] == Held
  }

  ghost function FreeFrames(free: seq<nat>): set<nat> {
    set f | f in free
  }

  /** Free pages, table pages, guest frames and pages held by a caller are pairwise disjoint and
      together are the pool. */
  lemma PoolIsPartitioned(m: Mem, head: nat, own: Owners, free: seq<nat>, T: Tables, M: Pages)
    requires PagePool(m, head, own, free) && OwnsTables(own, T, M)
    ensures var fr, tb, gu, he := FreeFrames(free), T.Values, GuestFrames(own, M), HeldFrames(own);
            && own.Keys == fr + tb + gu + he
            && fr !! tb !! gu !! he && |fr| == |free|
  {
    assert OwnsFree(own, free) && FreeList(m, head, free);
    DistinctSize(free);
    FreeByRole(own, free);
    TablesByRole(own, T, M);
    GuestByRole(own, T, M);
    RolesPartition(own);
  }

  ghost function ByRole(own: Owners, c: nat): set<nat> {
    set f | f in own && Class(own[f]) == c
  }

  function Class(r: Role): nat {
    match r
    case Free => 0
    case Table(_) => 1
    case Data(_) => 2
    case Held => 3
  }

  lemma RolesPartition(own: Owners)
    ensures own.Keys == ByRole(own, 0) + ByRole(own, 1) + ByRole(own, 2) + ByRole(own, 3)
    ensures ByRole(own, 0) !! ByRole(own, 1) !! ByRole(own, 2) !! ByRole(own, 3)
    ensures HeldFrames(own) == ByRole(own, 3)
  {}

  lemma FreeByRole(own: Owners, free: seq<nat>)
    requires OwnsFree(own, free)
    ensures FreeFrames(free) == ByRole(own, 0)
  {}

  lemma TablesByRole(own: Owners, T: Tables, M: Pages)
    requires OwnsTables(own, T, M)
    ensures T.Values == ByRole(own, 1)
  {
    forall f | f in ByRole(own, 1) ensures f in T.Values {
      assert T[own[f].node] == f;
    }
  }

  lemma GuestByRole(own: Owners, T: Tables, M: Pages)
    requires OwnsTables(own, T, M)
    ensures GuestFrames(own, M) == ByRole(own, 2)
  {
    forall f | f in ByRole(own, 2) ensures f in GuestFrames(own, M) {
      assert M[own[f].page].frame == f;
    }
  }

  lemma {:induction false} DistinctSize(s: seq<nat>)
    requires forall i, j :: 0 <= i < j < |s| ==> s[i] != s[j]
    ensures |FreeFrames(s)| == |s|
  {
    if s != [] {
      var t := s[..|s| - 1];
      DistinctSize(t);
      assert s == t + [s[|s| - 1]];
      assert s[|s| - 1] !in t;
      assert FreeFrames(s) == FreeFrames(t) + {s[|s| - 1]};
    }
  }

  /** No pool frame is reachable at two IPAs, nor while it is free, held or a table. */
  lemma NoFrameTwice(m: Mem, head: nat, own: Owners, free: seq<nat>, T: Tables, M: Pages, v: nat, u: nat)
    requires PagePool(m, head, own, free) && Mapping(m, T, M) && OwnsTables(own, T, M) && ROOT in T
    requires v < 0x10_0000_0000 && u < 0x10_0000_0000
    requires HwWalk(m, T[ROOT], 0, v).Page? && HwWalk(m, T[ROOT], 0, v).leaf.frame in own
    ensures var f := HwWalk(m, T[ROOT], 0, v).leaf.frame;
            && f !in free && f !in T.Values && own[f] != Held
            && (HwWalk(m, T[ROOT], 0, u).Page? && HwWalk(m, T[ROOT], 0, u).leaf.frame == f ==> u == v)
  {
    WalkIsMap(m, T, M, v);
    WalkIsMap(m, T, M, u);
    assert own[M[v].frame] == Data(v);
    assert forall n :: n in T ==> T[n] != M[v].frame;
  }

  /** Two table entries that refer to the same next table are the same entry of the same table,
      and its table is one level up: the graph is a tree of depth 3. */
  lemma OneParent(m: Mem, own: Owners, T: Tables, M: Pages, n: Node, i: nat, n': Node, i': nat)
    requires Mapping(m, T, M) && OwnsTables(own, T, M) && n in T && n' in T && i < 512 && i' < 512
    requires n.level < 3 && n'.level < 3
    requires Entry(Frame(m, T[n]), i) == Entry(Frame(m, T[n']), i') != 0
    ensures n == n' && i == i' && Child(n, i) in T && T[Child(n, i)] != T[n]
  {
    assert TableHolds(m, T[n], T, M, n) && TableHolds(m, T[n'], T, M, n');
    assert Entry(Frame(m, T[n]), i) == Expected(T, M, n, i);
    assert Entry(Frame(m, T[n']), i') == Expected(T, M, n', i');
    TablesInjective(own, T, M);
    ChildInjectiveIf(n, i, n', i');
  }

  lemma ChildInjectiveIf(n: Node, i: nat, n': Node, i': nat)
    requires i < 512 && i' < 512
    ensures Child(n, i) == Child(n', i') ==> n == n' && i == i'
    ensures Child(n, i) != n
  {}

  /** page_walk gives distinct pages distinct entries, and a page the same entry ever after. */
  lemma EntriesDistinct(own: Owners, T: Tables, T': Tables, M: Pages, v: nat, u: nat)
    requires OwnsTables(own, T, M) && OnPath(v, 3) in T && OnPath(u, 3) in T
    requires T.Keys <= T'.Keys && forall n :: n in T ==> T'[n] == T[n]
    ensures PteOf(T, v) == PteOf(T, u) <==> v == u
    ensures PteOf(T', v) == PteOf(T, v)
  {
    TablesInjective(own, T, M);
  }
}
