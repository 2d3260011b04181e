/** Who owns each frame of the page pool, and the free list threaded through the free ones. */
module Frames {
  import opened Bits
  import opened Memory
  import opened Stage2
  import opened Lists

  /** A frame has one role at a time, so a map of roles is a partition of the pool. */
  datatype Role = Free | Held | Table(node: Node) | Data(page: nat)

  type Owners = map<nat, Role>

  /** The word that refers to position i of the free list; 0 ends the list. */
  function Link(free: seq<nat>, i: nat): nat {
    At(free, i) * 4096
  }

  /** The list from head runs through exactly the frames of free, in order, without repetition. */
  ghost predicate FreeList(m: Mem, head: nat, free: seq<nat>) {
    && head == Link(free, 0)
    && (forall i :: 0 <= i < |free| ==> HasFrame(m, free[i]) && Entry(Frame(m, free[i]), 0) == Link(free, i + 1))
    && Distinct(free)
  }

  ghost predicate OwnsFree(own: Owners, free: seq<nat>) {
    && (forall f :: f in free ==> f in own && own[f] == Free)
    && (forall f :: f in own && own[f] == Free ==> f in free)
  }

  ghost predicate PoolIn(m: Mem, own: Owners) {
    forall f :: f in own ==> 0 < f < 0x10_0000_0000 && HasFrame(m, f)
  }

  /** The allocator's invariant. */
  ghost predicate PagePool(m: Mem, head: nat, own: Owners, free: seq<nat>) {
    PoolIn(m, own) && OwnsFree(own, free) && FreeList(m, head, free)
  }

  /** Tables and guest frames own what they use. Frames outside the pool (devices) have no owner. */
  ghost predicate OwnsTables(own: Owners, T: Tables, M: Pages) {
    && (forall n :: n in T ==> T[n] in own && own[T[n]] == Table(n))
    && (forall f :: f in own && own[f].Table? ==> own[f].node in T && T[own[f].node] == f)
    && (forall v :: v in M && M[v].frame in own ==> own[M[v].frame] == Data(v))
    && (forall f :: f in own && own[f].Data? ==> own[f].page in M && M[own[f].page].frame == f)
  }

  lemma PopOwns(own: Owners, free: seq<nat>)
    requires OwnsFree(own, free) && free != [] && free[0] !in free[1..]
    ensures OwnsFree(own[free[0] := Held], free[1..])
  {
    assert free == [free[0]] + free[1..];
  }

  lemma PushOwns(own: Owners, free: seq<nat>, f: nat)
    requires OwnsFree(own, free) && f in own
    ensures OwnsFree(own[f := Free], [f] + free)
  {}

  lemma PopList(m: Mem, m': Mem, head: nat, free: seq<nat>)
    requires FreeList(m, head, free) && free != [] && OnlyFrame(m, m', free[0])
    ensures FreeList(m', Link(free, 1), free[1..]) && free[0] !in free[1..]
  {
    var rest := free[1..];
    PopDistinct(free);
    OtherFrames(m, m', free[0]);
    forall i | 0 <= i < |rest| ensures HasFrame(m', rest[i]) && Entry(Frame(m', rest[i]), 0) == Link(rest, i + 1) {
      assert rest[i] == free[i + 1];
      assert Frame(m', free[i + 1]) == Frame(m, free[i + 1]);
      assert Link(rest, i + 1) == Link(free, i + 2);
    }
  }

  lemma PushList(m: Mem, m': Mem, head: nat, free: seq<nat>, f: nat)
    requires FreeList(m, head, free) && f !in free && OnlyFrame(m, m', f)
    requires HasFrame(m, f) && Entry(Frame(m', f), 0) == head
    ensures FreeList(m', f * 4096, [f] + free)
  {
    assert |m'| == |m|;
    hide OnlyRange, OnlyFrame, Distinct, Entry;
    var list := [f] + free;
    PushDistinct(free, f);
    OtherFrames(m, m', f);
    forall i | 0 <= i < |list|
      ensures HasFrame(m', list[i]) && Entry(Frame(m', list[i]), 0) == Link(list, i + 1)
    {
      if i > 0 {
        assert list[i] == free[i - 1] && list[i] in free;
        assert Link(list, i + 1) == Link(free, i);
      }
    }
  }

  /** Taking the first free frame, whatever is then done to its contents. */
  lemma PopFree(m: Mem, m': Mem, head: nat, own: Owners, free: seq<nat>)
    requires PagePool(m, head, own, free) && free != [] && OnlyFrame(m, m', free[0])
    ensures PagePool(m', Link(free, 1), own[free[0] := Held], free[1..])
  {
    PopList(m, m', head, free);
    PopOwns(own, free);
  }

  /** Linking a frame that was not free in front of the list. */
  lemma PushFree(m: Mem, m': Mem, head: nat, own: Owners, free: seq<nat>, f: nat)
    requires PagePool(m, head, own, free) && f in own && own[f] != Free && OnlyFrame(m, m', f)
    requires Entry(Frame(m', f), 0) == head
    ensures PagePool(m', f * 4096, own[f := Free], [f] + free)
  {
    PushList(m, m', head, free, f);
    PushOwns(own, free, f);
  }

  /** Work on frames that are not free, keeping them not free. */
  lemma KallocFrame(m: Mem, m': Mem, head: nat, own: Owners, own': Owners, free: seq<nat>)
    requires PagePool(m, head, own, free) && |m'| == |m| && own'.Keys == own.Keys
    requires forall f :: f in own ==> (own'[f] == Free <==> own[f] == Free)
    requires forall f :: f in own && own[f] == Free ==> Frame(m', f) == Frame(m, f)
    ensures PagePool(m', head, own', free)
  {
    forall i | 0 <= i < |free|
      ensures HasFrame(m', free[i]) && Entry(Frame(m', free[i]), 0) == Link(free, i + 1)
    {
      assert free[i] in free;
    }
  }

  /** Changes outside the tables do not touch the mapping. */
  lemma MappingFrame(m: Mem, m': Mem, T: Tables, M: Pages)
    requires Mapping(m, T, M) && |m'| == |m|
    requires forall n :: n in T ==> Frame(m', T[n]) == Frame(m, T[n])
    ensures Mapping(m', T, M)
  {
    forall n | n in T ensures TableHolds(m', T[n], T, M, n) {
      assert TableHolds(m, T[n], T, M, n);
    }
  }

  /** Entry i of table n is pointed at a zeroed frame f that is not a table yet. */
  lemma AddTable(m: Mem, m': Mem, T: Tables, M: Pages, n: Node, i: nat, f: nat)
    requires Mapping(m, T, M)
    requires n in T && n.level < 3 && i < 512 && Child(n, i) !in T
    requires f !in T.Values && (forall k, k' :: k in T && k' in T && k != k' ==> T[k] != T[k'])
    requires HasFrame(m, f) && f < 0x10_0000_0000 && Zeroed(Frame(m, f))
    requires WordStored(m, m', T[n] * 4096 + 8 * i, TableWord(f))
    ensures Mapping(m', T[Child(n, i) := f], M)
  {
    var c := Child(n, i);
    var T' := T[c := f];
    AddedShape(m, m', T, M, n, i, f);
    StoreIntoFrame(m, m', T[n], i, TableWord(f));
    OtherFrames(m, m', T[n]);
    hide IsTree, PagesFit, TableHolds, WordStored, Zeroed;
    forall k | k in T' ensures TableHolds(m', T'[k], T', M, k) {
      if k == c {
        NewTable(m', f, T, T', M, c);
      } else {
        assert TableHolds(m, T[k], T, M, k);
        OldTable(m, m', T, T', M, k, n, i, f);
      }
    }
  }

  lemma AddedShape(m: Mem, m': Mem, T: Tables, M: Pages, n: Node, i: nat, f: nat)
    requires IsTree(T) && InMemory(m, T) && PagesFit(T, M) && |m'| == |m|
    requires n in T && n.level < 3 && i < 512 && HasFrame(m, f) && f < 0x10_0000_0000
    ensures var T' := T[Child(n, i) := f]; IsTree(T') && InMemory(m', T') && PagesFit(T', M)
  {
    assert Parent(Child(n, i)) == n;
  }

  lemma NewTable(m: Mem, f: nat, T: Tables, T': Tables, M: Pages, c: Node)
    requires IsTree(T) && PagesFit(T, M) && 0 < c.level <= 3 && c !in T && T' == T[c := f]
    requires HasFrame(m, f) && Zeroed(Frame(m, f))
    ensures TableHolds(m, f, T', M, c)
  {
    ZeroedEntries(Frame(m, f));
    forall j | 0 <= j < 512 ensures Expected(T', M, c, j) == 0 {
      if c.level < 3 {
        assert Parent(Child(c, j)) == c;
      } else {
        assert OnPath(512 * c.prefix + j, 3) == c;
      }
    }
  }

  lemma OldTable(m: Mem, m': Mem, T: Tables, T': Tables, M: Pages, k: Node, n: Node, i: nat, f: nat)
    requires k in T && n in T && n.level < 3 && i < 512 && HasFrame(m, T[k]) && TableHolds(m, T[k], T, M, k)
    requires T' == T[Child(n, i) := f] && Child(n, i) !in T
    requires |m'| == |m|
    requires k != n ==> Frame(m', T[k]) == Frame(m, T[k])
    requires k == n ==> Entry(Frame(m', T[n]), i) == TableWord(f)
    requires k == n ==> forall j :: 0 <= j < 512 && j != i ==> Entry(Frame(m', T[n]), j) == Entry(Frame(m, T[n]), j)
    ensures TableHolds(m', T[k], T', M, k)
  {
    forall j | 0 <= j < 512 ensures Entry(Frame(m', T[k]), j) == Expected(T', M, k, j) {
      assert Entry(Frame(m, T[k]), j) == Expected(T, M, k, j);
      if Child(k, j) == Child(n, i) { ChildInjective(k, j, n, i); }
    }
  }

  /** What a table must hold depends only on its own leaf entries. */
  lemma OtherLeaf(T: Tables, M: Pages, M': Pages, n: Node, v: nat)
    requires n.level <= 3
    requires forall u :: u != v ==> (u in M <==> u in M') && (u in M ==> M[u] == M'[u])
    ensures forall j :: 0 <= j < 512 && !(n == OnPath(v, 3) && j == v % 512) ==>
                          Expected(T, M', n, j) == Expected(T, M, n, j)
  {
    forall j | 0 <= j < 512 && !(n == OnPath(v, 3) && j == v % 512)
      ensures Expected(T, M', n, j) == Expected(T, M, n, j)
    {
      var u := 512 * n.prefix + j;
      assert u / 512 == n.prefix && u % 512 == j;
    }
  }

  lemma PagesFitAdd(T: Tables, M: Pages, v: nat, l: Leaf)
    requires PagesFit(T, M) && v < 0x10_0000_0000 && LeafFits(l) && OnPath(v, 3) in T
    ensures PagesFit(T, M[v := l])
  {}

  /** The leaf entry of page v is overwritten, by a page descriptor or by 0. */
  lemma SetLeaf(m: Mem, m': Mem, T: Tables, M: Pages, M': Pages, v: nat, w: u64)
    requires Mapping(m, T, M) && OnPath(v, 3) in T && PagesFit(T, M')
    requires forall u :: u != v ==> (u in M <==> u in M') && (u in M ==> M[u] == M'[u])
    requires forall n, n' :: n in T && n' in T && n != n' ==> T[n] != T[n']
    requires WordStored(m, m', T[OnPath(v, 3)] * 4096 + 8 * (v % 512), w)
    requires w == if v in M' then LeafWord(M'[v]) else 0
    ensures Mapping(m', T, M')
  {
    var p := OnPath(v, 3);
    StoreIntoFrame(m, m', T[p], v % 512, w);
    OtherFrames(m, m', T[p]);
    hide WordStored, IsTree, OnlyFrame, LeafWord;
    forall n | n in T ensures TableHolds(m', T[n], T, M', n) {
      assert TableHolds(m, T[n], T, M, n);
      LeafTable(m, m', T, M, M', n, v, w);
    }
  }

  lemma LeafTable(m: Mem, m': Mem, T: Tables, M: Pages, M': Pages, n: Node, v: nat, w: u64)
    requires n in T && n.level <= 3 && HasFrame(m, T[n]) && |m'| == |m| && TableHolds(m, T[n], T, M, n)
    requires forall u :: u != v ==> (u in M <==> u in M') && (u in M ==> M[u] == M'[u])
    requires w == if v in M' then LeafWord(M'[v]) else 0
    requires n != OnPath(v, 3) ==> Frame(m', T[n]) == Frame(m, T[n])
    requires n == OnPath(v, 3) ==> Entry(Frame(m', T[n]), v % 512) == w
    requires n == OnPath(v, 3)
      ==> forall j :: 0 <= j < 512 && j != v % 512 ==> Entry(Frame(m', T[n]), j) == Entry(Frame(m, T[n]), j)
    ensures TableHolds(m', T[n], T, M', n)
  {
    OtherLeaf(T, M, M', n, v);
    assert n == OnPath(v, 3) ==> 512 * n.prefix + v % 512 == v;
    forall j | 0 <= j < 512 ensures Entry(Frame(m', T[n]), j) == Expected(T, M', n, j) {
      assert Entry(Frame(m, T[n]), j) == Expected(T, M, n, j);
    }
  }

  /** Frames outside the tables may change freely under the tables' feet. */
  lemma OtherOwnerChanges(m: Mem, m': Mem, own: Owners, T: Tables, M: Pages, f: nat)
    requires Mapping(m, T, M) && OwnsTables(own, T, M)
    requires f in own && !own[f].Table? && OnlyFrame(m, m', f)
    ensures Mapping(m', T, M)
    ensures own[f] == Free ==> OwnsTables(own[f := Held], T, M)
  {
    OtherFrames(m, m', f);
    MappingFrame(m, m', T, M);
  }

  lemma TablesInjective(own: Owners, T: Tables, M: Pages)
    requires OwnsTables(own, T, M)
    ensures forall n, n' :: n in T && n' in T && n != n' ==> T[n] != T[n']
  {}

  lemma OwnNewTable(own: Owners, T: Tables, M: Pages, c: Node, f: nat)
    requires OwnsTables(own, T, M) && f in own && own[f] == Held && c !in T
    ensures OwnsTables(own[f := Table(c)], T[c := f], M) && f !in T.Values
  {
    assert forall n :: n in T ==> T[n] != f;
  }

  lemma OwnNewPage(own: Owners, T: Tables, M: Pages, v: nat, l: Leaf)
    requires OwnsTables(own, T, M) && v !in M
    requires l.frame in own ==> own[l.frame] == Held
    ensures OwnsTables(if l.frame in own then own[l.frame := Data(v)] else own, T, M[v := l])
  {}

  lemma OwnDropPage(own: Owners, T: Tables, M: Pages, v: nat, r: Role)
    requires OwnsTables(own, T, M) && v in M && M[v].frame in own && (r == Free || r == Held)
    ensures OwnsTables(own[M[v].frame := r], T, M - {v})
  {}
}
