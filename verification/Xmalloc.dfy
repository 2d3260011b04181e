/** xmalloc.c: the slab allocator. Pool values, the heap invariant, and what each step keeps. */
module Xmalloc {
  import opened Bits
  import opened Memory
  import opened Lists

  const EINVAL := 22
  const EPERM := 1

  // ---- sizes and classes ----

  /** Number of bits up to the highest one bit. */
  function BitLength(x: nat): nat {
    if x == 0 then 0 else 1 + BitLength(x / 2)
  }

  /** __builtin_clz: leading zeros of a nonzero 32-bit value. */
  function Clz32(x: u32): nat
    requires x > 0
  {
    BitLengthBound(x, 32);
    Powers();
    32 - BitLength(x)
  }

  lemma {:induction false} BitLengthBound(x: nat, n: nat)
    ensures x < Pow2(n) <==> BitLength(x) <= n
    decreases n
  {
    if n == 0 {
      assert Pow2(0) == 1;
    } else if x != 0 {
      BitLengthBound(x / 2, n - 1);
    }
  }

  /** BLK_SIZE2TYPE */
  function SizeToType(size: u32): nat
    requires size >= 2
  {
    32 - Clz32(size - 1)
  }

  /** BLK_TYPE2SIZE: 1 << type */
  function BlkSize(t: nat): (s: nat)
    ensures s > 0
  {
    ShlIsMul(1, t);
    Shl(1, t)
  }

  /** A request's class is the smallest whose blocks hold it. */
  lemma ClassFits(size: u32, t: nat)
    requires size >= 2
    ensures BlkSize(t) >= size <==> t >= SizeToType(size)
  {
    ShlIsMul(1, t);
    BitLengthBound(size - 1, t);
    BitLengthBound(size - 1, 32);
    Powers();
  }

  /** Requests of 8 bytes and more use classes from 3 up; those over 512 bytes have none. */
  lemma ClassRange(size: u32)
    requires size >= 8
    ensures SizeToType(size) >= 3 && (SizeToType(size) < 10 <==> size <= 512)
  {
    ClassFits(size, 2);
    ClassFits(size, 9);
    BlkSizes();
  }

  lemma BlkSizes()
    ensures BlkSize(2) == 4 && BlkSize(3) == 8 && BlkSize(4) == 16 && BlkSize(5) == 32 && BlkSize(6) == 64
    ensures BlkSize(7) == 128 && BlkSize(8) == 256 && BlkSize(9) == 512
  {
    assert Shl(1, 2) == 4;
    assert Shl(1, 4) == 16;
    assert Shl(1, 6) == 64;
    assert Shl(1, 8) == 256;
  }

  // ---- pool values ----

  /** One blk_list_t; its blk_size is BlkSize of its index. */
  datatype BlkList = BlkList(freelistCnt: int, nofreeCnt: int, sliceCnt: nat, sliceAddr: nat, sliceOffset: nat,
                             freeHead: u64)

  datatype Use = Live | Idle

  /** The pool's fields, its bytes, and for the proof the blocks carved so far with their use and
      the free list of each class. */
  datatype Pool = Pool(start: nat, mem: seq<byte>, sliceCnt: nat, sliceType: seq<nat>, lists: seq<BlkList>,
                       blocks: map<nat, Use>, frees: seq<seq<nat>>)

  ghost predicate Shape(p: Pool) {
    && 0 < p.start <= 0x1_0000_0000_0000_0000 - 8192 && |p.mem| == 8192 && p.sliceCnt <= 8
    && |p.sliceType| == 8 && |p.lists| == 10 && |p.frees| == 10
    && forall s :: 0 <= s < p.sliceCnt ==> 3 <= p.sliceType[s] < 10
  }

  function SliceOf(p: Pool, a: nat): nat
    requires p.start <= a
  {
    (a - p.start) / 1024
  }

  function OffsetOf(p: Pool, a: nat): nat
    requires p.start <= a
  {
    (a - p.start) % 1024
  }

  ghost predicate InUsedSlice(p: Pool, a: nat) {
    p.start <= a && SliceOf(p, a) < p.sliceCnt
  }

  /** The class of the slice an address lies in. */
  ghost function ClassOf(p: Pool, a: nat): nat
    requires Shape(p) && InUsedSlice(p, a)
  {
    p.sliceType[SliceOf(p, a)]
  }

  /** Bytes of slice s that have been cut into blocks: all of them, except in the slice its class
      is still carving. */
  ghost function Carved(p: Pool, s: nat): nat
    requires Shape(p) && s < p.sliceCnt
  {
    var l := p.lists[p.sliceType[s]];
    if l.sliceAddr == p.start + 1024 * s then l.sliceOffset else 1024
  }

  ghost predicate IsBlock(p: Pool, a: nat)
    requires Shape(p)
  {
    InUsedSlice(p, a) && OffsetOf(p, a) % BlkSize(ClassOf(p, a)) == 0 && OffsetOf(p, a) < Carved(p, SliceOf(p, a))
  }

  /** The slice a class is carving is one of its slices; its offset is a block boundary. */
  ghost predicate Carving(p: Pool, t: nat)
    requires Shape(p) && t < 10
  {
    var l := p.lists[t];
    if l.sliceAddr == 0 then l.sliceOffset == 0 && forall s :: 0 <= s < p.sliceCnt ==> p.sliceType[s] != t
    else 3 <= t && InUsedSlice(p, l.sliceAddr) && OffsetOf(p, l.sliceAddr) == 0 && ClassOf(p, l.sliceAddr) == t
         && l.sliceOffset <= 1024 && l.sliceOffset % BlkSize(t) == 0
  }

  ghost predicate BlocksKnown(p: Pool)
    requires Shape(p)
  {
    && (forall a :: a in p.blocks <==> IsBlock(p, a))
    && (forall a :: a in p.blocks && p.blocks[a] == Idle ==> a in p.frees[ClassOf(p, a)])
  }

  /** The word at a block's base. */
  function LinkAt(start: nat, mem: seq<byte>, a: nat): u64 {
    if start <= a && a - start + 8 <= |mem| then Word(mem, a - start) else 0
  }

  /** The chain from head runs through exactly the blocks of list, in order. */
  ghost predicate Chained(start: nat, mem: seq<byte>, head: nat, list: seq<nat>) {
    head == At(list, 0) && forall i :: 0 <= i < |list| ==> LinkAt(start, mem, list[i]) == At(list, i + 1)
  }

  /** a is an idle block in a slice of class t. */
  ghost predicate IdleIn(p: Pool, t: nat, a: nat)
    requires Shape(p)
  {
    a in p.blocks && p.blocks[a] == Idle && InUsedSlice(p, a) && ClassOf(p, a) == t
  }

  /** Class t's free list: an acyclic chain from its head through idle blocks of its own slices. */
  ghost predicate FreeChain(p: Pool, t: nat)
    requires Shape(p) && t < 10
  {
    && Chained(p.start, p.mem, p.lists[t].freeHead, p.frees[t]) && Distinct(p.frees[t])
    && forall a :: a in p.frees[t] ==> IdleIn(p, t, a)
  }

  /** The heap invariant. */
  ghost predicate Heap(p: Pool) {
    && Shape(p) && BlocksKnown(p)
    && (forall t :: 0 <= t < 10 ==> Carving(p, t))
    && (forall t :: 0 <= t < 10 ==> FreeChain(p, t))
  }

  // ---- geometry ----

  /** Two multiples of s are equal or at least s apart. */
  lemma Multiples(s: nat, o: nat, c: nat)
    requires s > 0 && o % s == 0 && c % s == 0
    ensures (c + s) % s == 0 && (o != c ==> o + s <= c || c + s <= o)
  {
    var q, r := o / s, c / s;
    assert o == q * s + 0 && c == r * s + 0;
    DivModUnique(c + s, s, r + 1, 0);
    MulDistributes(q, r, s);
    MulDistributes(r, q, s);
    if q > r { MulAtLeast(q - r, s); }
    if r > q { MulAtLeast(r - q, s); }
  }

  lemma EightDivides(s: nat, o: nat)
    requires s > 0 && s % 8 == 0 && o % s == 0
    ensures o % 8 == 0
  {
    var q, k := o / s, s / 8;
    assert o == q * s == q * (8 * k) == (q * k) * 8;
    DivModUnique(o, 8, q * k, 0);
  }

  /** Arithmetic of block boundaries in a slice. */
  lemma Boundaries(t: nat, o: nat, c: nat)
    requires 3 <= t < 10 && o % BlkSize(t) == 0 && c % BlkSize(t) == 0
    ensures 8 <= BlkSize(t) <= 512 && o % 8 == 0 && (c + BlkSize(t)) % BlkSize(t) == 0
    ensures o < 1024 ==> o + BlkSize(t) <= 1024
    ensures 1024 % BlkSize(t) == 0 && 0 % BlkSize(t) == 0
    ensures o != c ==> o + BlkSize(t) <= c || c + BlkSize(t) <= o
  {
    BlkSizes();
    var s := BlkSize(t);
    Multiples(s, o, c);
    EightDivides(s, o);
    assert 1024 % s == 0;
    if o < 1024 { Multiples(s, o, 1024); }
  }

  /** What holds of every block: it is 8-aligned and lies inside one slice. */
  lemma BlockFits(p: Pool, a: nat)
    requires Shape(p) && IsBlock(p, a)
    ensures 3 <= ClassOf(p, a) < 10 && 8 <= BlkSize(ClassOf(p, a)) <= 512
    ensures (a - p.start) % 8 == 0 && OffsetOf(p, a) + BlkSize(ClassOf(p, a)) <= 1024
    ensures a - p.start + BlkSize(ClassOf(p, a)) <= 8192
  {
    hide BlkSize;
    Boundaries(ClassOf(p, a), OffsetOf(p, a), OffsetOf(p, a));
    InSlice(a - p.start);
  }

  lemma InSlice(d: nat)
    ensures d == 1024 * (d / 1024) + d % 1024
    ensures d % 1024 % 8 == 0 ==> d % 8 == 0
  {
    var q, r := d / 1024, d % 1024;
    if r % 8 == 0 { DivModUnique(d, 8, 128 * q + r / 8, 0); }
  }

  /** Distinct blocks do not overlap. */
  lemma BlocksApart(p: Pool, a: nat, b: nat)
    requires Shape(p) && IsBlock(p, a) && IsBlock(p, b) && a != b
    ensures a + BlkSize(ClassOf(p, a)) <= b || b + BlkSize(ClassOf(p, b)) <= a
  {
    BlockFits(p, a);
    BlockFits(p, b);
    if SliceOf(p, a) == SliceOf(p, b) {
      Boundaries(ClassOf(p, a), OffsetOf(p, a), OffsetOf(p, b));
    }
  }

  // ---- the steps ----

  /** Pop the first free block of class t. */
  function Popped(p: Pool, t: nat, next: u64): Pool
    requires |p.lists| == 10 && |p.frees| == 10 && t < 10 && p.frees[t] != []
  {
    var l := p.lists[t];
    p.(lists := p.lists[t := l.(freeHead := next, freelistCnt := l.freelistCnt - 1, nofreeCnt := l.nofreeCnt + 1)],
       blocks := p.blocks[p.frees[t][0] := Live], frees := p.frees[t := p.frees[t][1..]])
  }

  /** Give class t the next unused slice. */
  function Sliced(p: Pool, t: nat): Pool
    requires |p.lists| == 10 && |p.sliceType| == 8 && t < 10 && p.sliceCnt < 8
  {
    var l := p.lists[t];
    var at := p.start + p.sliceCnt * 1024;
    p.(lists := p.lists[t := l.(sliceAddr := at, sliceOffset := 0, sliceCnt := l.sliceCnt + 1)],
       sliceType := p.sliceType[p.sliceCnt := t], sliceCnt := p.sliceCnt + 1)
  }

  /** Cut the next block from class t's slice. */
  function Cut(p: Pool, t: nat): Pool
    requires |p.lists| == 10 && t < 10
  {
    var l := p.lists[t];
    p.(lists := p.lists[t := l.(sliceOffset := l.sliceOffset + BlkSize(t), nofreeCnt := l.nofreeCnt + 1)],
       blocks := p.blocks[l.sliceAddr + l.sliceOffset := Live])
  }

  /** Link block a in front of class t's free list; mem is memory with the link stored. */
  function Freed(p: Pool, t: nat, a: u64, mem: seq<byte>): Pool
    requires |p.lists| == 10 && |p.frees| == 10 && t < 10
  {
    var l := p.lists[t];
    p.(lists := p.lists[t := l.(freeHead := a, freelistCnt := l.freelistCnt + 1, nofreeCnt := l.nofreeCnt - 1)],
       blocks := p.blocks[a := Idle], frees := p.frees[t := [a] + p.frees[t]], mem := mem)
  }

  /** p' has the slices and carving positions of p. */
  ghost predicate SameSlices(p: Pool, p': Pool)
    requires Shape(p)
  {
    && Shape(p') && p'.start == p.start && p'.sliceCnt == p.sliceCnt && p'.sliceType == p.sliceType
    && forall u :: 0 <= u < 10 ==> p'.lists[u].sliceAddr == p.lists[u].sliceAddr
                                   && p'.lists[u].sliceOffset == p.lists[u].sliceOffset
  }

  lemma SlicesKept(p: Pool, p': Pool)
    requires Shape(p) && SameSlices(p, p')
    ensures forall b :: IsBlock(p', b) <==> IsBlock(p, b)
    ensures forall b :: InUsedSlice(p, b) ==> InUsedSlice(p', b) && ClassOf(p', b) == ClassOf(p, b)
    ensures forall u :: 0 <= u < 10 && Carving(p, u) ==> Carving(p', u)
  {
    forall b ensures IsBlock(p', b) <==> IsBlock(p, b) {}
  }

  /** A free list is intact while its head, its blocks and their links are. */
  lemma ChainKept(p: Pool, p': Pool, u: nat)
    requires Shape(p) && Shape(p') && u < 10 && FreeChain(p, u) && p'.start == p.start
    requires p'.frees[u] == p.frees[u] && p'.lists[u].freeHead == p.lists[u].freeHead
    requires forall b :: b in p.frees[u] ==> IdleIn(p', u, b) && LinkAt(p.start, p'.mem, b) == LinkAt(p.start, p.mem, b)
    ensures FreeChain(p', u)
  {
    forall i | 0 <= i < |p.frees[u]| ensures LinkAt(p.start, p'.mem, p.frees[u][i]) == At(p.frees[u], i + 1) {
      assert p.frees[u][i] in p.frees[u];
    }
  }

  lemma Tail(start: nat, mem: seq<byte>, head: nat, list: seq<nat>)
    requires Chained(start, mem, head, list) && Distinct(list) && list != []
    ensures Chained(start, mem, At(list, 1), list[1..]) && Distinct(list[1..]) && list[0] !in list[1..]
    ensures head == list[0] && LinkAt(start, mem, head) == At(list, 1) && forall b :: b in list[1..] ==> b in list
  {
    var rest := list[1..];
    PopDistinct(list);
    forall i | 0 <= i < |rest| ensures LinkAt(start, mem, rest[i]) == At(rest, i + 1) {
      assert rest[i] == list[i + 1] && At(rest, i + 1) == At(list, i + 2);
    }
  }

  /** Blocks used differently in p' than in p: at most a. */
  ghost predicate UseKept(p: Pool, p': Pool, a: nat) {
    forall b :: b in p.blocks && b != a ==> b in p'.blocks && p'.blocks[b] == p.blocks[b]
  }

  /** Lists of other classes do not notice what happens to block a of class t. */
  lemma OtherChains(p: Pool, p': Pool, t: nat, a: nat)
    requires Heap(p) && SameSlices(p, p') && t < 10 && UseKept(p, p', a)
    requires InUsedSlice(p, a) ==> ClassOf(p, a) == t
    requires forall b :: b in p.blocks && b != a ==> LinkAt(p.start, p'.mem, b) == LinkAt(p.start, p.mem, b)
    requires forall u :: 0 <= u < 10 && u != t ==>
                           p'.frees[u] == p.frees[u] && p'.lists[u].freeHead == p.lists[u].freeHead
    ensures forall u :: 0 <= u < 10 && u != t ==> FreeChain(p', u)
  {
    SlicesKept(p, p');
    forall u | 0 <= u < 10 && u != t ensures FreeChain(p', u) {
      assert FreeChain(p, u);
      forall b | b in p.frees[u] ensures b != a && IdleIn(p', u, b) {
        assert IdleIn(p, u, b);
      }
      ChainKept(p, p', u);
    }
  }

  /** A step that changes one block a of class t, with the slices as they were, keeps the heap
      if it keeps class t's list. */
  lemma OneBlockStep(p: Pool, p': Pool, t: nat, a: nat)
    requires Heap(p) && SameSlices(p, p') && t < 10 && UseKept(p, p', a) && p'.blocks.Keys == p.blocks.Keys
    requires a in p.blocks && InUsedSlice(p, a) && ClassOf(p, a) == t
    requires forall b :: b in p.blocks && b != a ==> LinkAt(p.start, p'.mem, b) == LinkAt(p.start, p.mem, b)
    requires forall u :: 0 <= u < 10 && u != t ==>
                           p'.frees[u] == p.frees[u] && p'.lists[u].freeHead == p.lists[u].freeHead
    requires FreeChain(p', t) && (p'.blocks[a] == Idle ==> a in p'.frees[t])
    requires forall b :: b in p.frees[t] && b != a ==> b in p'.frees[t]
    ensures Heap(p')
  {
    OtherChains(p, p', t, a);
    StillKnown(p, p', t, a);
    SlicesKept(p, p');
    hide BlocksKnown, FreeChain, Carving, UseKept, SameSlices;
    assert forall u :: 0 <= u < 10 ==> FreeChain(p', u);
  }

  lemma StillKnown(p: Pool, p': Pool, t: nat, a: nat)
    requires Shape(p) && BlocksKnown(p) && SameSlices(p, p') && UseKept(p, p', a) && p'.blocks.Keys == p.blocks.Keys
    requires t < 10 && a in p.blocks && InUsedSlice(p, a) && ClassOf(p, a) == t
    requires forall u :: 0 <= u < 10 && u != t ==> p'.frees[u] == p.frees[u]
    requires p'.blocks[a] == Idle ==> a in p'.frees[t]
    requires forall b :: b in p.frees[t] && b != a ==> b in p'.frees[t]
    ensures BlocksKnown(p')
  {
    SlicesKept(p, p');
    hide IsBlock;
    forall b | b in p'.blocks && p'.blocks[b] == Idle
      ensures InUsedSlice(p', b) && b in p'.frees[ClassOf(p', b)]
    {
      assert b in p.blocks && IsBlock(p, b);
      BlockInSlice(p, b);
    }
  }

  lemma BlockInSlice(p: Pool, b: nat)
    requires Shape(p) && IsBlock(p, b)
    ensures InUsedSlice(p, b) && ClassOf(p, b) < 10 && b < 0x1_0000_0000_0000_0000
  {}

  lemma PoppedHeap(p: Pool, t: nat)
    requires Heap(p) && t < 10 && p.frees[t] != []
    ensures var a := p.frees[t][0];
            IdleIn(p, t, a) && p.lists[t].freeHead == a && Heap(Popped(p, t, LinkAt(p.start, p.mem, a)))
  {
    hide Heap, FreeChain, IsBlock, LinkAt, Chained, Distinct;
    FirstIdle(p, t);
    var a, rest := p.frees[t][0], p.frees[t][1..];
    Tail(p.start, p.mem, p.lists[t].freeHead, p.frees[t]);
    PoppedList(p, t, a, rest);
    var p' := Popped(p, t, LinkAt(p.start, p.mem, a));
    assert SameSlices(p, p');
    OneBlockStep(p, p', t, a);
  }

  lemma FirstIdle(p: Pool, t: nat)
    requires Heap(p) && t < 10 && p.frees[t] != []
    ensures Shape(p) && FreeChain(p, t) && IdleIn(p, t, p.frees[t][0])
    ensures Chained(p.start, p.mem, p.lists[t].freeHead, p.frees[t]) && Distinct(p.frees[t])
  {}

  lemma PoppedList(p: Pool, t: nat, a: nat, rest: seq<nat>)
    requires Shape(p) && t < 10 && FreeChain(p, t) && p.frees[t] == [a] + rest && a !in rest
    requires Chained(p.start, p.mem, LinkAt(p.start, p.mem, a), rest) && Distinct(rest)
    ensures FreeChain(Popped(p, t, LinkAt(p.start, p.mem, a)), t)
  {
    hide Chained, Distinct;
    var p' := Popped(p, t, LinkAt(p.start, p.mem, a));
    forall b | b in rest ensures IdleIn(p', t, b) {
      assert b in p.frees[t];
    }
  }

  /** Writes inside one block leave the words at the other blocks' bases alone. */
  lemma OtherLinks(p: Pool, mem: seq<byte>, a: nat, lo: nat, n: nat, b: nat)
    requires Shape(p) && IsBlock(p, a) && IsBlock(p, b) && a != b
    requires a <= lo && lo + n <= a + BlkSize(ClassOf(p, a)) && OnlyRange(p.mem, mem, lo - p.start, n)
    ensures LinkAt(p.start, mem, b) == LinkAt(p.start, p.mem, b)
  {
    BlocksApart(p, a, b);
    BlockFits(p, a);
    BlockFits(p, b);
    var x := b - p.start;
    assert mem[x..x + 8] == p.mem[x..x + 8];
    SameBytes(mem, x, p.mem, x, 8);
  }

  lemma FreedHeap(p: Pool, t: nat, a: u64, mem: seq<byte>)
    requires Heap(p) && a in p.blocks && p.blocks[a] == Live && t == ClassOf(p, a)
    requires WordStored(p.mem, mem, a - p.start, p.lists[t].freeHead)
    ensures Heap(Freed(p, t, a, mem))
  {
    assert IsBlock(p, a) && FreeChain(p, t);
    assert a !in p.frees[t];
    BlockFits(p, a);
    forall b | b in p.blocks && b != a ensures LinkAt(p.start, mem, b) == LinkAt(p.start, p.mem, b) {
      OtherLinks(p, mem, a, a, 8, b);
    }
    FreedList(p, t, a, mem);
    assert InUsedSlice(p, a);
    hide Heap, FreeChain, IsBlock, WordStored, LinkAt;
    FreedSame(p, t, a, mem);
    OneBlockStep(p, Freed(p, t, a, mem), t, a);
  }

  lemma FreedSame(p: Pool, t: nat, a: u64, mem: seq<byte>)
    requires Shape(p) && t < 10 && |mem| == 8192 && a in p.blocks
    ensures SameSlices(p, Freed(p, t, a, mem)) && UseKept(p, Freed(p, t, a, mem), a)
  {}

  lemma Push(start: nat, mem: seq<byte>, mem': seq<byte>, head: nat, list: seq<nat>, a: nat)
    requires Chained(start, mem, head, list) && LinkAt(start, mem', a) == head
    requires forall b :: b in list ==> LinkAt(start, mem', b) == LinkAt(start, mem, b)
    ensures Chained(start, mem', a, [a] + list)
  {
    var l := [a] + list;
    hide LinkAt;
    forall i | 0 <= i < |l| ensures LinkAt(start, mem', l[i]) == At(l, i + 1) {
      if i > 0 {
        assert l[i] == list[i - 1] && list[i - 1] in list && At(l, i + 1) == At(list, i);
      }
    }
  }

  lemma FreedList(p: Pool, t: nat, a: u64, mem: seq<byte>)
    requires Shape(p) && t < 10 && FreeChain(p, t) && a !in p.frees[t] && |mem| == 8192
    requires InUsedSlice(p, a) && ClassOf(p, a) == t && LinkAt(p.start, mem, a) == p.lists[t].freeHead
    requires forall b :: b in p.blocks && b != a ==> LinkAt(p.start, mem, b) == LinkAt(p.start, p.mem, b)
    ensures FreeChain(Freed(p, t, a, mem), t)
  {
    forall b | b in p.frees[t] ensures LinkAt(p.start, mem, b) == LinkAt(p.start, p.mem, b) && b != a {
      assert IdleIn(p, t, b);
    }
    Push(p.start, p.mem, mem, p.lists[t].freeHead, p.frees[t], a);
    PushDistinct(p.frees[t], a);
    hide Chained, Distinct, LinkAt;
    var p' := Freed(p, t, a, mem);
    forall b | b in [a] + p.frees[t] ensures IdleIn(p', t, b) {
      assert b == a || IdleIn(p, t, b);
      FreedIdle(p, t, a, mem, b);
    }
    hide IdleIn;
  }

  lemma FreedIdle(p: Pool, t: nat, a: u64, mem: seq<byte>, b: nat)
    requires Shape(p) && t < 10 && |mem| == 8192 && InUsedSlice(p, b) && ClassOf(p, b) == t
    requires b == a || IdleIn(p, t, b)
    ensures Shape(Freed(p, t, a, mem)) && IdleIn(Freed(p, t, a, mem), t, b)
  {}

  /** A client may write anything inside a live block. */
  lemma ClientHeap(p: Pool, a: nat, lo: nat, n: nat, mem: seq<byte>)
    requires Heap(p) && a in p.blocks && p.blocks[a] == Live
    requires a <= lo && lo + n <= a + BlkSize(ClassOf(p, a)) && OnlyRange(p.mem, mem, lo - p.start, n)
    ensures Heap(p.(mem := mem))
  {
    var p', t := p.(mem := mem), ClassOf(p, a);
    assert IsBlock(p, a) && FreeChain(p, t);
    forall b | b in p.blocks && b != a ensures LinkAt(p.start, mem, b) == LinkAt(p.start, p.mem, b) {
      OtherLinks(p, mem, a, lo, n, b);
    }
    assert SameSlices(p, p');
    SlicesKept(p, p');
    forall b | b in p.frees[t] ensures b != a && IdleIn(p', t, b) {
      assert IdleIn(p, t, b);
    }
    ChainKept(p, p', t);
    hide Heap, FreeChain;
    OneBlockStep(p, p', t, a);
  }

  /** Slices and classes of p are those of p', as far as they go. */
  ghost predicate Extends(p: Pool, p': Pool)
    requires Shape(p)
  {
    && Shape(p') && p'.start == p.start && p'.mem == p.mem && p'.frees == p.frees
    && (forall b :: InUsedSlice(p, b) ==> InUsedSlice(p', b) && ClassOf(p', b) == ClassOf(p, b))
    && (forall u :: 0 <= u < 10 ==> p'.lists[u].freeHead == p.lists[u].freeHead)
    && (forall b :: b in p.blocks ==> b in p'.blocks && p'.blocks[b] == p.blocks[b])
  }

  lemma ChainsExtend(p: Pool, p': Pool)
    requires Heap(p) && Extends(p, p')
    ensures forall u :: 0 <= u < 10 ==> FreeChain(p', u)
  {
    forall u | 0 <= u < 10 ensures FreeChain(p', u) {
      assert FreeChain(p, u);
      forall b | b in p.frees[u] ensures IdleIn(p', u, b) {
        assert IdleIn(p, u, b);
      }
      ChainKept(p, p', u);
    }
  }

  lemma CutCarving(p: Pool, t: nat)
    requires Shape(p) && t < 10 && Carving(p, t) && p.lists[t].sliceAddr != 0 && p.lists[t].sliceOffset < 1024
    ensures var a, p' := p.lists[t].sliceAddr + p.lists[t].sliceOffset, Cut(p, t);
            && Shape(p') && InUsedSlice(p, a) && ClassOf(p, a) == t && Carving(p', t)
            && SliceOf(p, a) == SliceOf(p, p.lists[t].sliceAddr) && OffsetOf(p, a) == p.lists[t].sliceOffset
  {
    Boundaries(t, p.lists[t].sliceOffset, p.lists[t].sliceOffset);
  }

  lemma CutBlocks(p: Pool, t: nat)
    requires Shape(p) && t < 10 && Carving(p, t) && p.lists[t].sliceAddr != 0 && p.lists[t].sliceOffset < 1024
    ensures var a, p' := p.lists[t].sliceAddr + p.lists[t].sliceOffset, Cut(p, t);
            && Shape(p') && !IsBlock(p, a) && (forall b :: IsBlock(p', b) <==> IsBlock(p, b) || b == a)
            && InUsedSlice(p, a) && ClassOf(p, a) == t && Carving(p', t)
  {
    var l, p' := p.lists[t], Cut(p, t);
    var a := l.sliceAddr + l.sliceOffset;
    CutCarving(p, t);
    Boundaries(t, l.sliceOffset, l.sliceOffset);
    forall b ensures IsBlock(p', b) <==> IsBlock(p, b) || b == a {
      if InUsedSlice(p, b) && ClassOf(p, b) == t && SliceOf(p, b) == SliceOf(p, a) && OffsetOf(p, b) % BlkSize(t) == 0 {
        Boundaries(t, OffsetOf(p, b), l.sliceOffset);
      }
    }
  }

  lemma OneMoreBlock(p: Pool, p': Pool, a: nat)
    requires Shape(p) && BlocksKnown(p) && Extends(p, p') && p'.blocks == p.blocks[a := Live]
    requires forall b :: IsBlock(p', b) <==> IsBlock(p, b) || b == a
    ensures BlocksKnown(p')
  {
    hide IsBlock;
    forall b | b in p'.blocks && p'.blocks[b] == Idle ensures InUsedSlice(p', b) && b in p'.frees[ClassOf(p', b)] {
      assert b in p.blocks && IsBlock(p, b);
      BlockInSlice(p, b);
    }
  }

  lemma CutExtends(p: Pool, t: nat, a: nat)
    requires Shape(p) && t < 10 && a == p.lists[t].sliceAddr + p.lists[t].sliceOffset && a !in p.blocks
    ensures Extends(p, Cut(p, t)) && Cut(p, t).blocks == p.blocks[a := Live]
  {}

  lemma CutKnown(p: Pool, t: nat)
    requires Shape(p) && BlocksKnown(p) && t < 10 && Carving(p, t)
    requires p.lists[t].sliceAddr != 0 && p.lists[t].sliceOffset < 1024
    ensures Shape(Cut(p, t)) && BlocksKnown(Cut(p, t)) && Extends(p, Cut(p, t)) && Carving(Cut(p, t), t)
    ensures var a := p.lists[t].sliceAddr + p.lists[t].sliceOffset;
            a !in p.blocks && InUsedSlice(p, a) && ClassOf(p, a) == t
  {
    CutBlocks(p, t);
    hide IsBlock, Carving, BlocksKnown, Cut, Extends;
    var a := p.lists[t].sliceAddr + p.lists[t].sliceOffset;
    KnownBlock(p, a);
    CutExtends(p, t, a);
    OneMoreBlock(p, Cut(p, t), a);
  }

  lemma KnownBlock(p: Pool, a: nat)
    requires Shape(p) && BlocksKnown(p)
    ensures a in p.blocks <==> IsBlock(p, a)
  {}

  lemma CutHeap(p: Pool, t: nat)
    requires Heap(p) && t < 10 && p.lists[t].sliceAddr != 0 && p.lists[t].sliceOffset < 1024
    ensures Heap(Cut(p, t)) && Shape(Cut(p, t))
    ensures var a := p.lists[t].sliceAddr + p.lists[t].sliceOffset;
            a > 0 && a !in p.blocks && InUsedSlice(Cut(p, t), a) && ClassOf(Cut(p, t), a) == t
  {
    var p' := Cut(p, t);
    assert Carving(p, t);
    CutKnown(p, t);
    ChainsExtend(p, p');
    hide FreeChain, BlocksKnown, IsBlock, Extends;
    forall u | 0 <= u < 10 ensures Carving(p', u) {
      assert Carving(p, u);
      if u != t { CutOther(p, t, u); }
    }
    hide Carving, Cut;
  }

  lemma CutOther(p: Pool, t: nat, u: nat)
    requires Shape(p) && t < 10 && u < 10 && u != t && Carving(p, u) && Shape(Cut(p, t))
    ensures Carving(Cut(p, t), u)
  {}

  lemma SlicedBlocks(p: Pool, t: nat)
    requires Shape(p) && 3 <= t < 10 && p.sliceCnt < 8 && Carving(p, t)
    requires p.lists[t].sliceAddr == 0 || p.lists[t].sliceOffset == 1024
    ensures var p' := Sliced(p, t);
            Shape(p') && (forall b :: IsBlock(p', b) <==> IsBlock(p, b)) && Carving(p', t)
  {
    var p' := Sliced(p, t);
    Boundaries(t, 0, 0);
    forall b ensures IsBlock(p', b) <==> IsBlock(p, b) {
      if InUsedSlice(p, b) {
        assert ClassOf(p', b) == ClassOf(p, b) && Carved(p', SliceOf(p, b)) == Carved(p, SliceOf(p, b));
      }
    }
  }

  lemma SameKnown(p: Pool, p': Pool)
    requires Shape(p) && BlocksKnown(p) && Extends(p, p') && p'.blocks == p.blocks
    requires forall b :: IsBlock(p', b) <==> IsBlock(p, b)
    ensures BlocksKnown(p')
  {
    hide IsBlock;
    forall b | b in p'.blocks && p'.blocks[b] == Idle ensures InUsedSlice(p', b) && b in p'.frees[ClassOf(p', b)] {
      assert b in p.blocks && IsBlock(p, b);
      BlockInSlice(p, b);
    }
  }

  lemma SlicedHeap(p: Pool, t: nat)
    requires Heap(p) && 3 <= t < 10 && p.sliceCnt < 8
    requires p.lists[t].sliceAddr == 0 || p.lists[t].sliceOffset == 1024
    ensures Heap(Sliced(p, t))
  {
    hide FreeChain, IsBlock;
    var p' := Sliced(p, t);
    assert Carving(p, t);
    SlicedBlocks(p, t);
    assert Extends(p, p');
    SameKnown(p, p');
    ChainsExtend(p, p');
    hide Extends, BlocksKnown;
    forall u | 0 <= u < 10 ensures Carving(p', u) {
      assert Carving(p, u);
    }
  }

  // ---- accounting ----

  ghost function LiveIn(p: Pool, t: nat): set<nat>
    requires Shape(p)
  {
    set a | a in p.blocks && p.blocks[a] == Live && InUsedSlice(p, a) && ClassOf(p, a) == t
  }

  ghost function SlicesOf(types: seq<nat>, n: nat, t: nat): set<nat>
    requires n <= |types|
  {
    set s | 0 <= s < n && types[s] == t
  }

  /** Bytes of its slices that a class has cut into blocks. */
  function CutBytes(l: BlkList): int {
    if l.sliceCnt == 0 then 0 else l.sliceCnt * 1024 - 1024 + l.sliceOffset
  }

  /** A class's counters: free list length, live blocks, together every block it has cut; and its
      slices. */
  ghost predicate Counted(p: Pool, t: nat)
    requires Shape(p) && t < 10
  {
    var l := p.lists[t];
    && l.freelistCnt == |p.frees[t]| && l.nofreeCnt == |LiveIn(p, t)|
    && (l.freelistCnt + l.nofreeCnt) * BlkSize(t) == CutBytes(l)
    && l.sliceCnt == |SlicesOf(p.sliceType, p.sliceCnt, t)| && (l.sliceAddr == 0 <==> l.sliceCnt == 0)
  }

  function SliceSum(lists: seq<BlkList>): nat {
    if lists == [] then 0 else lists[0].sliceCnt + SliceSum(lists[1..])
  }

  ghost predicate Accounts(p: Pool) {
    Shape(p) && SliceSum(p.lists) == p.sliceCnt && forall t :: 0 <= t < 10 ==> Counted(p, t)
  }

  lemma {:induction false} SumUpdate(lists: seq<BlkList>, t: nat, l: BlkList)
    requires t < |lists|
    ensures SliceSum(lists[t := l]) == SliceSum(lists) - lists[t].sliceCnt + l.sliceCnt
  {
    if t > 0 {
      SumUpdate(lists[1..], t - 1, l);
      assert lists[t := l][1..] == lists[1..][t - 1 := l];
    } else {
      assert lists[t := l][1..] == lists[1..];
    }
  }

  lemma SameClasses(p: Pool, p': Pool)
    requires Shape(p) && Shape(p') && p'.start == p.start && p'.sliceCnt == p.sliceCnt && p'.sliceType == p.sliceType
    ensures forall b :: InUsedSlice(p', b) <==> InUsedSlice(p, b)
    ensures forall b :: InUsedSlice(p, b) ==> ClassOf(p', b) == ClassOf(p, b)
  {}

  /** Block a of class t becomes live: one more in its class, no change in another. */
  lemma LiveMore(p: Pool, p': Pool, t: nat, a: nat)
    requires Shape(p) && Shape(p') && p'.start == p.start && p'.sliceCnt == p.sliceCnt && p'.sliceType == p.sliceType
    requires p'.blocks == p.blocks[a := Live] && InUsedSlice(p, a) && ClassOf(p, a) == t
    requires a in p.blocks ==> p.blocks[a] == Idle
    ensures |LiveIn(p', t)| == |LiveIn(p, t)| + 1
  {
    SameClasses(p, p');
    hide InUsedSlice, ClassOf, Shape;
    assert a !in LiveIn(p, t);
    assert LiveIn(p', t) == LiveIn(p, t) + {a};
  }

  lemma LiveOther(p: Pool, p': Pool, t: nat, a: nat, u: nat)
    requires Shape(p) && Shape(p') && p'.start == p.start && p'.sliceCnt == p.sliceCnt && p'.sliceType == p.sliceType
    requires p'.blocks == p.blocks[a := Live] && InUsedSlice(p, a) && ClassOf(p, a) == t && u != t
    ensures LiveIn(p', u) == LiveIn(p, u)
  {
    SameClasses(p, p');
    hide InUsedSlice, ClassOf, Shape;
  }

  lemma LiveLess(p: Pool, p': Pool, t: nat, a: nat, u: nat)
    requires Shape(p) && Shape(p') && p'.start == p.start && p'.sliceCnt == p.sliceCnt && p'.sliceType == p.sliceType
    requires p'.blocks == p.blocks[a := Idle] && InUsedSlice(p, a) && ClassOf(p, a) == t
    requires a in p.blocks && p.blocks[a] == Live
    ensures |LiveIn(p', u)| == |LiveIn(p, u)| - if u == t then 1 else 0
  {
    SameClasses(p, p');
    hide InUsedSlice, ClassOf, Shape;
    assert a in LiveIn(p, t) && (u != t ==> a !in LiveIn(p, u));
    assert LiveIn(p', u) == if u == t then LiveIn(p, u) - {a} else LiveIn(p, u);
  }

  lemma PoppedAccounts(p: Pool, t: nat, next: u64)
    requires Accounts(p) && t < 10 && p.frees[t] != [] && IdleIn(p, t, p.frees[t][0])
    ensures Accounts(Popped(p, t, next))
  {
    var p' := Popped(p, t, next);
    SumUpdate(p.lists, t, p'.lists[t]);
    forall u | 0 <= u < 10 ensures Counted(p', u) {
      assert Counted(p, u);
      if u == t { LiveMore(p, p', t, p.frees[t][0]); } else { LiveOther(p, p', t, p.frees[t][0], u); }
    }
  }

  lemma FreedAccounts(p: Pool, t: nat, a: u64, mem: seq<byte>)
    requires Accounts(p) && t < 10 && a in p.blocks && p.blocks[a] == Live && InUsedSlice(p, a) && ClassOf(p, a) == t
    requires |mem| == |p.mem|
    ensures Accounts(Freed(p, t, a, mem))
  {
    var p' := Freed(p, t, a, mem);
    SumUpdate(p.lists, t, p'.lists[t]);
    forall u | 0 <= u < 10 ensures Counted(p', u) {
      assert Counted(p, u);
      LiveLess(p, p', t, a, u);
    }
  }

  lemma OneMore(n: int, s: int)
    ensures (n + 1) * s == n * s + s
  {}

  lemma CutAccounts(p: Pool, t: nat)
    requires Accounts(p) && t < 10 && p.lists[t].sliceAddr != 0
    requires var a := p.lists[t].sliceAddr + p.lists[t].sliceOffset;
             a !in p.blocks && InUsedSlice(p, a) && ClassOf(p, a) == t
    ensures Accounts(Cut(p, t))
  {
    var p', a := Cut(p, t), p.lists[t].sliceAddr + p.lists[t].sliceOffset;
    SumUpdate(p.lists, t, p'.lists[t]);
    OneMore(p.lists[t].freelistCnt + p.lists[t].nofreeCnt, BlkSize(t));
    forall u | 0 <= u < 10 ensures Counted(p', u) {
      assert Counted(p, u);
      if u == t { LiveMore(p, p', t, a); } else { LiveOther(p, p', t, a, u); }
    }
  }

  lemma SlicesMore(types: seq<nat>, n: nat, t: nat, u: nat)
    requires n < |types|
    ensures |SlicesOf(types[n := t], n + 1, u)| == |SlicesOf(types, n, u)| + if u == t then 1 else 0
  {
    assert SlicesOf(types[n := t], n + 1, u) == SlicesOf(types, n, u) + if u == t then {n} else {};
  }

  lemma SlicedAccounts(p: Pool, t: nat)
    requires Heap(p) && Accounts(p) && 3 <= t < 10 && p.sliceCnt < 8
    requires p.lists[t].sliceAddr == 0 || p.lists[t].sliceOffset == 1024
    ensures Accounts(Sliced(p, t))
  {
    var p' := Sliced(p, t);
    SumUpdate(p.lists, t, p'.lists[t]);
    forall u | 0 <= u < 10 ensures Counted(p', u) {
      assert Counted(p, u);
      SlicesMore(p.sliceType, p.sliceCnt, t, u);
      assert LiveIn(p', u) == LiveIn(p, u) by { LiveInSlices(p, p'); }
    }
  }

  lemma LiveInSlices(p: Pool, p': Pool)
    requires Shape(p) && BlocksKnown(p) && Shape(p') && p'.blocks == p.blocks && p'.start == p.start
    requires p'.sliceCnt == p.sliceCnt + 1 && forall s :: 0 <= s < p.sliceCnt ==> p'.sliceType[s] == p.sliceType[s]
    ensures forall u :: LiveIn(p', u) == LiveIn(p, u)
  {
    forall u ensures LiveIn(p', u) == LiveIn(p, u) {
      forall a | a in p.blocks ensures InUsedSlice(p, a) && InUsedSlice(p', a) && ClassOf(p', a) == ClassOf(p, a) {
        assert IsBlock(p, a);
      }
    }
  }
}
