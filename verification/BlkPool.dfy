/** The slab pool as xmalloc.c runs it: fields updated in place, links stored in free blocks. */
module BlkPool {
  import opened Bits
  import opened Memory
  import opened Xmalloc

  datatype AllocResult = Block(addr: nat) | Null | NoBlock

  /** Class t can give no block: nothing freed, no room in its slice, no slice left to take. */
  ghost predicate Unavailable(p: Pool, t: nat)
    requires Shape(p) && t < 10
  {
    p.frees[t] == [] && (p.lists[t].sliceAddr == 0 || p.lists[t].sliceOffset == 1024) && p.sliceCnt == 8
  }

  /** Block a of class t has been handed out: the head of the class's free list, or a new block. */
  ghost predicate Given(p: Pool, p': Pool, t: nat, a: nat) {
    && |p.frees| == 10 && t < 10 && p'.blocks == p.blocks[a := Live] && p'.mem == p.mem && p'.start == p.start
    && if p.frees[t] != [] then
         a == p.frees[t][0] && a in p.blocks && p.blocks[a] == Idle && p'.frees == p.frees[t := p.frees[t][1..]]
         && p'.sliceCnt == p.sliceCnt && p'.sliceType == p.sliceType
       else
         a !in p.blocks && p'.frees == p.frees
  }

  /** Block a is in a slice of class t. */
  ghost predicate Placed(p: Pool, t: nat, a: nat) {
    Shape(p) && a > 0 && a in p.blocks && InUsedSlice(p, a) && ClassOf(p, a) == t
  }

  /** The head of class t's list is taken: its link becomes the head. */
  ghost predicate PoppedTo(p: Pool, p': Pool, t: nat, a: nat) {
    && |p.lists| == 10 && |p.frees| == 10 && t < 10 && p.frees[t] != []
    && p' == Popped(p, t, LinkAt(p.start, p.mem, a)) && Given(p, p', t, a) && Placed(p', t, a)
  }

  /** The next block of class t's slice is cut. */
  ghost predicate CutTo(p: Pool, p': Pool, t: nat, a: nat) {
    && |p.lists| == 10 && t < 10 && p' == Cut(p, t) && a == p.lists[t].sliceAddr + p.lists[t].sliceOffset
    && a !in p.blocks && Placed(p', t, a)
  }

  /** The classes blk_alloc may use for a request: their blocks hold it, and at least a pointer. */
  lemma ClassesFor(request: u32, size: u32)
    requires size == if request < 8 then 8 else request
    ensures SizeToType(size) < 10 <==> request <= 512
    ensures forall t :: 0 <= t < 10 ==> (SizeToType(size) <= t <==> 3 <= t && request <= BlkSize(t))
  {
    ClassRange(size);
    BlkSizes();
    forall t | 0 <= t < 10 ensures SizeToType(size) <= t <==> 3 <= t && request <= BlkSize(t) {
      ClassFits(size, t);
      if t >= 3 { AtLeastEight(t); }
    }
  }

  lemma AtLeastEight(t: nat)
    requires 3 <= t < 10
    ensures BlkSize(t) >= 8
  {
    BlkSizes();
  }

  /** Address a is a place for a block of class t: a multiple of its block size into one of its slices. */
  ghost predicate PlaceFor(p: Pool, t: nat, a: nat)
    requires Shape(p)
  {
    InUsedSlice(p, a) && ClassOf(p, a) == t && OffsetOf(p, a) % BlkSize(t) == 0
  }

  /** Every KiB of the pool belongs to some class's slice, and every place in class t's is a live block. */
  ghost predicate Exhausted(p: Pool, t: nat)
    requires Shape(p)
  {
    && (forall a :: p.start <= a < p.start + |p.mem| ==> InUsedSlice(p, a))
    && forall a :: PlaceFor(p, t, a) ==> a in p.blocks && p.blocks[a] == Live
  }

  /** A class gives no block exactly when there is none left to give. */
  lemma UnavailableIs(p: Pool, t: nat)
    requires Heap(p) && 3 <= t < 10
    ensures Unavailable(p, t) <==> Exhausted(p, t)
  {
    ShapeOf(p);
    hide BlkSize, Heap;
    if Unavailable(p, t) {
      NothingLeft(p, t);
    } else if p.frees[t] != [] {
      OnList(p, t);
    } else if p.sliceCnt == 8 {
      Ahead(p, t);
    } else {
      assert !InUsedSlice(p, p.start + 8191);
    }
  }

  lemma NothingLeft(p: Pool, t: nat)
    requires Heap(p) && 3 <= t < 10 && Unavailable(p, t)
    ensures Exhausted(p, t)
  {
    assert Carving(p, t) && BlocksKnown(p);
    hide BlkSize, Heap;
    forall a | PlaceFor(p, t, a) ensures a in p.blocks && p.blocks[a] == Live {
      assert IsBlock(p, a);
    }
  }

  lemma OnList(p: Pool, t: nat)
    requires Heap(p) && t < 10 && p.frees[t] != []
    ensures PlaceFor(p, t, p.frees[t][0]) && p.frees[t][0] in p.blocks && p.blocks[p.frees[t][0]] == Idle
  {
    assert FreeChain(p, t) && BlocksKnown(p);
    assert IdleIn(p, t, p.frees[t][0]);
    hide BlkSize;
  }

  /** The next place of a slice being carved is not a block yet. */
  lemma Ahead(p: Pool, t: nat)
    requires Heap(p) && t < 10 && p.lists[t].sliceAddr != 0 && p.lists[t].sliceOffset != 1024
    ensures var a := p.lists[t].sliceAddr + p.lists[t].sliceOffset; PlaceFor(p, t, a) && a !in p.blocks
  {
    assert Carving(p, t) && BlocksKnown(p);
    hide BlkSize, Heap;
    var l := p.lists[t];
    SameSlice(p.start, l.sliceAddr, l.sliceOffset);
    assert !IsBlock(p, l.sliceAddr + l.sliceOffset);
  }

  lemma SameSlice(start: nat, at: nat, o: nat)
    requires start <= at && (at - start) % 1024 == 0 && o < 1024
    ensures (at + o - start) / 1024 == (at - start) / 1024 && (at + o - start) % 1024 == o
    ensures at == start + 1024 * ((at - start) / 1024)
  {
    DivModUnique(at + o - start, 1024, (at - start) / 1024, o);
  }

  /** The class's counters after one block more was handed out. */
  ghost predicate CountedOne(lists: seq<BlkList>, lists': seq<BlkList>, onList: int, t: nat) {
    && t < |lists| == |lists'|
    && lists'[t].nofreeCnt == lists[t].nofreeCnt + 1 && lists'[t].freelistCnt == onList
  }

  lemma HeadIsFirst(p: Pool, t: nat)
    requires Heap(p) && t < 10
    ensures p.lists[t].freeHead == 0 <==> p.frees[t] == []
    ensures p.lists[t].freeHead != 0 ==> p.lists[t].freeHead == p.frees[t][0] && p.start <= p.lists[t].freeHead
                                         && p.lists[t].freeHead - p.start + 8 <= 8192
  {
    assert FreeChain(p, t);
    if p.frees[t] != [] {
      assert IdleIn(p, t, p.frees[t][0]);
      BlockFits(p, p.frees[t][0]);
    }
  }

  lemma SliceEnd(p: Pool, t: nat)
    requires Heap(p) && t < 10
    ensures p.lists[t].sliceOffset <= 1024 && (p.lists[t].sliceAddr == 0 ==> p.lists[t].sliceOffset == 0)
  {
    assert Carving(p, t);
  }

  /** blk_free's slice index: the difference in 64 bits, shifted, cut to 32 bits. */
  function SliceIndex(start: u64, blk: u64): nat {
    Shr((blk - start) % 0x1_0000_0000_0000_0000, 10) % 0x1_0000_0000
  }

  lemma LiveIndex(p: Pool, a: u64)
    requires Heap(p) && a in p.blocks
    ensures SliceIndex(p.start, a) == SliceOf(p, a) < p.sliceCnt && ClassOf(p, a) < 10 && a - p.start + 8 <= 8192
    ensures InUsedSlice(p, a)
  {
    assert IsBlock(p, a);
    BlockFits(p, a);
    hide Heap, IsBlock, BlkSize;
    IndexIsSlice(p.start, a);
  }

  lemma IndexIsSlice(start: u64, a: u64)
    requires start <= a < start + 8192
    ensures SliceIndex(start, a) == (a - start) / 1024
  {
    Powers();
    hide Shr, Pow2;
    ShrIsDiv(a - start, 10);
  }

  /** The cut to 32 bits drops everything above bit 41 of the distance from the pool's start, so the
      test accepts exactly the addresses whose distance, modulo 4 TiB, is below 8192. */
  lemma IndexAccepts(start: u64, blk: u64)
    ensures SliceIndex(start, blk) < 8 <==> (blk - start) % 0x400_0000_0000 < 8192
  {
    Powers();
    hide Shr, Pow2;
    var x := (blk - start) % 0x1_0000_0000_0000_0000;
    ShrIsDiv(x, 10);
    var q, r := x / 0x400_0000_0000, x % 0x400_0000_0000;
    DivModUnique(x / 1024, 0x1_0000_0000, q, r / 1024);
    Wrapped(blk - start);
  }

  lemma Wrapped(d: int)
    ensures d % 0x1_0000_0000_0000_0000 % 0x400_0000_0000 == d % 0x400_0000_0000
  {
    var k, x := d / 0x1_0000_0000_0000_0000, d % 0x1_0000_0000_0000_0000;
    var q, r := x / 0x400_0000_0000, x % 0x400_0000_0000;
    DivModUnique(d, 0x400_0000_0000, 0x40_0000 * k + q, r);
  }

  /** So the start of the pool plus 4 TiB passes for the pool's first block. */
  lemma FarAccepted(start: u64)
    requires start + 0x400_0000_0000 < 0x1_0000_0000_0000_0000
    ensures SliceIndex(start, start + 0x400_0000_0000) == SliceIndex(start, start) == 0
  {
    Powers();
    hide Shr, Pow2;
    ShrIsDiv(0, 10);
    ShrIsDiv(0x400_0000_0000, 10);
  }

  /** What taking the head of class t's list needs and leaves. */
  lemma PopReady(p: Pool, t: nat)
    requires Heap(p) && Accounts(p) && t < 10 && p.lists[t].freeHead != 0
    ensures |p.lists| == 10 && |p.frees| == 10 && p.frees[t] != [] && p.frees[t][0] == p.lists[t].freeHead
    ensures var a := p.lists[t].freeHead;
            && 0 < p.start <= a && a - p.start + 8 <= |p.mem|
            && var p' := Popped(p, t, Word(p.mem, a - p.start));
            Heap(p') && Accounts(p') && PoppedTo(p, p', t, a)
  {
    hide Heap, Accounts, FreeChain, IsBlock, Word;
    ShapeOf(p);
    HeadIsFirst(p, t);
    PoppedHeap(p, t);
    var a := p.frees[t][0];
    assert LinkAt(p.start, p.mem, a) == Word(p.mem, a - p.start);
    PoppedAccounts(p, t, Word(p.mem, a - p.start));
  }

  lemma CutReady(p: Pool, t: nat)
    requires Heap(p) && Accounts(p) && t < 10 && p.lists[t].sliceAddr != 0 && p.lists[t].sliceOffset < 1024
    ensures |p.lists| == 10
    ensures var a, p' := p.lists[t].sliceAddr + p.lists[t].sliceOffset, Cut(p, t);
            Heap(p') && Accounts(p') && CutTo(p, p', t, a)
  {
    ShapeOf(p);
    CutHeap(p, t);
    hide Heap, Accounts;
    CutAccounts(p, t);
  }

  lemma SliceReady(p: Pool, t: nat)
    requires Heap(p) && Accounts(p) && 3 <= t < 10 && p.sliceCnt < 8
    requires p.lists[t].sliceAddr == 0 || p.lists[t].sliceOffset == 1024
    ensures |p.lists| == 10 && |p.sliceType| == 8 && Heap(Sliced(p, t)) && Accounts(Sliced(p, t))
  {
    ShapeOf(p);
    SlicedHeap(p, t);
    hide Heap, Accounts;
    SlicedAccounts(p, t);
  }

  class BlkPool {
    const start: u64
    const mem: array<byte>
    var sliceCnt: nat
    var sliceType: seq<nat>
    var lists: seq<BlkList>
    ghost var blocks: map<nat, Use>
    ghost var frees: seq<seq<nat>>

    ghost function Value(): Pool
      reads this, mem
    {
      Pool(start, mem[..], sliceCnt, sliceType, lists, blocks, frees)
    }

    ghost predicate Valid()
      reads this, mem
    {
      Heap(Value()) && Accounts(Value())
    }

    /** Static storage for a pool over a region of memory that starts at a nonzero address. */
    constructor (start: u64, mem: array<byte>)
      ensures this.start == start && this.mem == mem
    {
      this.start, this.mem := start, mem;
      sliceCnt, sliceType, lists := 0, [], [];
      blocks, frees := map[], [];
    }

    /** blk_pool_init, for non-null arguments. The region is cleared before the checks. */
    method Init() returns (rc: int)
      requires 0 < start <= 0x1_0000_0000_0000_0000 - 8192
      modifies this, mem
      ensures rc == (if start % 8 == 0 && mem.Length % 1024 == 0 then 0 else -22)
      ensures forall x :: 0 <= x < mem.Length ==> mem[x] == 0
      ensures rc == 0 ==> sliceCnt == 0 && |sliceType| == 8 && |lists| == 10 && blocks == map[]
                          && forall t :: 0 <= t < 10 ==> lists[t] == BlkList(0, 0, 0, 0, 0, 0)
      ensures rc == 0 && mem.Length == 8192 ==> Valid()
    {
      var d := 0;
      while d < mem.Length
        invariant d <= mem.Length && forall x :: 0 <= x < d ==> mem[x] == 0
      {
        mem[d] := 0;
        d := d + 1;
      }
      LowThree(start);
      LowThree(mem.Length);
      if And(start, 7) != 0 || And(mem.Length, 7) != 0 {
        return -EINVAL;
      }
      if mem.Length % 1024 != 0 {
        return -EINVAL;
      }
      sliceCnt := 0;
      sliceType := seq(8, i => 0);
      lists := seq(10, i => BlkList(0, 0, 0, 0, 0, 0));
      blocks, frees := map[], seq(10, i => []);
      if mem.Length == 8192 {
        EmptyPool(Value());
      }
      rc := 0;
    }

    /** blk_alloc. A request over 512 bytes gets NULL; any other aborts exactly when every class
        from its own up can give nothing, and else gets a block of the first class that can: the
        head of that class's free list if it has one, and a block never used before if not. */
    method BlkAlloc(request: u32) returns (r: AllocResult)
      requires Valid()
      modifies this
      ensures Valid()
      ensures r.Null? <==> request > 512
      ensures r.NoBlock? <==> request <= 512 && forall t :: 3 <= t < 10 && request <= BlkSize(t) ==>
                                                              Unavailable(old(Value()), t)
      ensures !r.Block? ==> Value() == old(Value())
      ensures r.Block? ==>
                && InUsedSlice(Value(), r.addr)
                && var t := ClassOf(Value(), r.addr);
                && 3 <= t < 10 && request <= BlkSize(t)
                && blocks == old(blocks)[r.addr := Live] && mem[..] == old(mem[..])
                && (if old(frees)[t] != [] then
                      && r.addr == old(frees)[t][0] && frees == old(frees)[t := old(frees)[t][1..]]
                      && old(blocks).Keys == blocks.Keys && sliceCnt == old(sliceCnt)
                    else r.addr !in old(blocks) && frees == old(frees))
                && CountedOne(old(lists), lists, |frees[t]|, t)
                && (forall u :: 3 <= u < t && request <= BlkSize(u) ==> Unavailable(old(Value()), u))
                && (r.addr - start) % 8 == 0 && OffsetOf(Value(), r.addr) + BlkSize(t) <= 1024
    {
      hide Heap, Accounts, Unavailable, Given;
      ghost var p := Value();
      ShapeOf(p);
      var size: u32 := if request < 8 then 8 else request;
      var blkType := SizeToType(size);
      ghost var first := blkType;
      ClassRange(size);
      ClassesFor(request, size);
      hide BlkSize, SizeToType;
      var avail, found := 0, false;   // found: blk_list is not NULL
      while blkType < 10
        invariant first <= blkType && (blkType <= 10 || blkType == first)
        invariant Value() == p && avail == 0 && (found <==> blkType > first)
        invariant forall u :: first <= u < blkType && u < 10 ==> Unavailable(p, u)
        decreases if blkType < 10 then 10 - blkType else 0
      {
        found := true;
        avail := FromClass(blkType);
        if avail != 0 {
          break;
        }
        blkType := blkType + 1;
      }
      if found {
        if avail == 0 {
          r := NoBlock;
        } else {
          GivenBlock(Value(), avail);
          GivenIs(p, Value(), blkType, avail);
          r := Block(avail);
        }
      } else {
        r := Null;
      }
    }

    /** One turn of its loop: 0 if the class can give no block. */
    method FromClass(t: nat) returns (avail: nat)
      requires Valid() && 3 <= t < 10
      modifies this
      ensures Valid() && Shape(old(Value()))
      ensures avail == 0 <==> Unavailable(old(Value()), t)
      ensures avail == 0 ==> Value() == old(Value())
      ensures avail != 0 ==> Given(old(Value()), Value(), t, avail) && Placed(Value(), t, avail)
      ensures avail != 0 ==> |lists| == |frees| == 10 && CountedOne(old(lists), lists, |frees[t]|, t)
    {
      hide Heap, Accounts;
      ghost var p := Value();
      ShapeOf(p);
      HeadIsFirst(p, t);
      SliceEnd(p, t);
      var l := lists[t];
      if l.freeHead != 0 {
        avail := PopFree(t);
        ListCounted(Value(), t);
        return;
      }
      if l.sliceAddr == 0 || l.sliceOffset == 1024 {
        if sliceCnt == 8 {
          return 0;
        }
        TakeSlice(t);
      }
      avail := CutBlock(t);
      ListCounted(Value(), t);
    }

    /** Take the head of class t's free list. */
    method PopFree(t: nat) returns (avail: nat)
      requires Valid() && t < 10 && lists[t].freeHead != 0
      modifies this
      ensures Valid() && PoppedTo(old(Value()), Value(), t, avail)
    {
      hide Heap, Accounts, PoppedTo, Word;
      ghost var p := Value();
      PopReady(p, t);
      avail := lists[t].freeHead;
      var l := lists[t];
      var next := Word(mem[..], avail - start);
      lists := lists[t := l.(freeHead := next, freelistCnt := l.freelistCnt - 1, nofreeCnt := l.nofreeCnt + 1)];
      blocks, frees := blocks[avail := Live], frees[t := frees[t][1..]];
      assert Value() == Popped(p, t, next);
    }

    /** Hand class t the pool's next slice. */
    method TakeSlice(t: nat)
      requires Valid() && 3 <= t < 10 && sliceCnt < 8
      requires lists[t].sliceAddr == 0 || lists[t].sliceOffset == 1024
      modifies this`lists, this`sliceType, this`sliceCnt
      ensures Valid() && Value() == Sliced(old(Value()), t)
    {
      hide Heap, Accounts, Shape;
      SliceReady(Value(), t);
      var l := lists[t];
      lists := lists[t := l.(sliceAddr := start + sliceCnt * 1024, sliceOffset := 0, sliceCnt := l.sliceCnt + 1)];
      sliceType := sliceType[sliceCnt := t];
      sliceCnt := sliceCnt + 1;
    }

    /** Cut the next block off class t's slice. */
    method CutBlock(t: nat) returns (avail: nat)
      requires Valid() && t < 10 && lists[t].sliceAddr != 0 && lists[t].sliceOffset < 1024
      modifies this`lists, this`blocks
      ensures Valid() && CutTo(old(Value()), Value(), t, avail)
    {
      hide Heap, Accounts, CutTo, BlkSize;
      CutReady(Value(), t);
      var l := lists[t];
      avail := l.sliceAddr + l.sliceOffset;
      lists := lists[t := l.(sliceOffset := l.sliceOffset + BlkSize(t), nofreeCnt := l.nofreeCnt + 1)];
      blocks := blocks[avail := Live];
    }

    /** blk_free, given the exact base of a live block, or an address whose 32-bit slice index is
        out of range. The block joins the free list of the class its slice belongs to, whatever class was
        asked for when it was allocated. */
    method BlkFree(blk: u64) returns (rc: int)
      requires Valid()
      requires SliceIndex(start, blk) < 8 ==> blk in blocks && blocks[blk] == Live
      modifies this, mem
      ensures Valid() && rc == (if SliceIndex(start, blk) < 8 then 0 else -1)
      ensures rc != 0 ==> Value() == old(Value())
      ensures rc == 0 ==>
                && InUsedSlice(old(Value()), blk) && blocks == old(blocks)[blk := Idle]
                && OnlyRange(old(mem[..]), mem[..], blk - start, 8)
                && var t := ClassOf(old(Value()), blk);
                && frees == old(frees)[t := [blk] + old(frees)[t]]
                && lists[t].nofreeCnt == old(lists)[t].nofreeCnt - 1 && lists[t].freelistCnt == |frees[t]|
    {
      hide Heap, Accounts;
      ghost var p := Value();
      var sliceIdx := SliceIndex(start, blk);
      if sliceIdx >= 8 {
        return -EPERM;
      }
      LiveIndex(p, blk);
      ShapeOf(p);
      var t := sliceType[sliceIdx];
      if t >= 10 {
        return -EPERM;
      }
      var l := lists[t];
      StoreWord(blk - start, l.freeHead);
      FreedHeap(p, t, blk, mem[..]);
      FreedAccounts(p, t, blk, mem[..]);
      lists := lists[t := l.(freeHead := blk, freelistCnt := l.freelistCnt + 1, nofreeCnt := l.nofreeCnt - 1)];
      blocks, frees := blocks[blk := Idle], frees[t := [blk] + frees[t]];
      ListCounted(Value(), t);
      rc := 0;
    }

    method StoreWord(a: nat, w: u64)
      requires a + 8 <= mem.Length
      modifies mem
      ensures WordStored(old(mem[..]), mem[..], a, w)
    {
      forall x | a <= x < a + 8 {
        mem[x] := ByteOf(w, x - a);
      }
      Powers();
      StoreLoad(mem[..], a, 8, w);
    }

    /** A client writes a byte of its live block: nothing the allocator relies on changes. */
    method ClientWrite(blk: nat, o: nat, b: byte)
      requires Valid() && blk in blocks && blocks[blk] == Live && InUsedSlice(Value(), blk)
      requires o < BlkSize(ClassOf(Value(), blk)) && start <= blk && blk + o - start < mem.Length
      modifies mem
      ensures Valid() && mem[blk + o - start] == b && OnlyRange(old(mem[..]), mem[..], blk + o - start, 1)
    {
      ghost var p := Value();
      mem[blk + o - start] := b;
      ClientHeap(p, blk, blk + o, 1, mem[..]);
      SameAccounts(p, mem[..]);
    }
  }

  lemma SameAccounts(p: Pool, mem: seq<byte>)
    requires Accounts(p) && |mem| == |p.mem|
    ensures Accounts(p.(mem := mem))
  {
    var p' := p.(mem := mem);
    forall t | 0 <= t < 10 ensures Counted(p', t) {
      assert Counted(p, t);
      assert LiveIn(p', t) == LiveIn(p, t);
    }
  }

  lemma ShapeOf(p: Pool)
    requires Heap(p)
    ensures Shape(p)
  {}

  lemma LowThree(x: nat)
    ensures And(x, 7) == x % 8
  {
    Powers();
    assert Ones(3) == 7;
    AndOnes(x, 3);
  }

  lemma ListCounted(p: Pool, t: nat)
    requires Accounts(p) && t < 10
    ensures |p.lists| == |p.frees| == 10 && p.lists[t].freelistCnt == |p.frees[t]|
  {
    assert Counted(p, t);
  }

  lemma GivenIs(p: Pool, p': Pool, t: nat, a: nat)
    requires Given(p, p', t, a)
    ensures p'.blocks == p.blocks[a := Live] && p'.mem == p.mem && |p.frees| == 10 && t < 10
    ensures if p.frees[t] != [] then
              && a == p.frees[t][0] && p'.frees == p.frees[t := p.frees[t][1..]]
              && p'.blocks.Keys == p.blocks.Keys && p'.sliceCnt == p.sliceCnt
            else a !in p.blocks && p'.frees == p.frees
  {}

  lemma GivenBlock(p: Pool, a: nat)
    requires Heap(p) && a in p.blocks
    ensures InUsedSlice(p, a) && (a - p.start) % 8 == 0 && OffsetOf(p, a) + BlkSize(ClassOf(p, a)) <= 1024
  {
    assert IsBlock(p, a);
    BlockFits(p, a);
  }

  lemma EmptyPool(p: Pool)
    requires 0 < p.start <= 0x1_0000_0000_0000_0000 - 8192 && |p.mem| == 8192 && p.sliceCnt == 0 && |p.sliceType| == 8
    requires p.blocks == map[] && |p.lists| == 10 && forall t :: 0 <= t < 10 ==> p.lists[t] == BlkList(0, 0, 0, 0, 0, 0)
    requires |p.frees| == 10 && forall t :: 0 <= t < 10 ==> p.frees[t] == []
    ensures Heap(p) && Accounts(p)
  {
    ZeroSum(p.lists);
    forall t | 0 <= t < 10 ensures Counted(p, t) {
      assert LiveIn(p, t) == {} && SlicesOf(p.sliceType, 0, t) == {};
    }
  }

  lemma {:induction false} ZeroSum(lists: seq<BlkList>)
    requires forall t :: 0 <= t < |lists| ==> lists[t].sliceCnt == 0
    ensures SliceSum(lists) == 0
  {
    if lists != [] { ZeroSum(lists[1..]); }
  }

  // ---- which pool sizes are safe ----

  /** Block a lies inside the first size bytes of the pool. */
  ghost predicate Inside(p: Pool, a: nat, size: nat)
    requires Shape(p)
  {
    InUsedSlice(p, a) && a - p.start + BlkSize(ClassOf(p, a)) <= size
  }

  /** Two requests for 512 bytes when class 9 has no room: a slice is taken and cut into two blocks. */
  lemma NextSlice(p: Pool) returns (p': Pool)
    requires Heap(p) && p.sliceCnt < 8 && (p.lists[9].sliceAddr == 0 || p.lists[9].sliceOffset == 1024)
    ensures Heap(p') && p'.start == p.start && p'.sliceCnt == p.sliceCnt + 1 && |p'.lists| == 10
    ensures p'.lists[9].sliceAddr == p.start + p.sliceCnt * 1024 && p'.lists[9].sliceOffset == 1024
    ensures var a := p.start + p.sliceCnt * 1024 + 512; Placed(p', 9, a)
  {
    hide Heap, BlkSize, Shape, InUsedSlice, ClassOf;
    BlkSizes();
    ShapeOf(p);
    ListsOf(p);
    SlicedHeap(p, 9);
    var p1 := Sliced(p, 9);
    CutHeap(p1, 9);
    var p2 := Cut(p1, 9);
    CutHeap(p2, 9);
    p' := Cut(p2, 9);
  }

  lemma ListsOf(p: Pool)
    requires Heap(p)
    ensures |p.lists| == 10 && |p.sliceType| == 8 && 0 < p.start
  {}

  lemma ZeroPool(start: nat) returns (p: Pool)
    requires 0 < start <= 0x1_0000_0000_0000_0000 - 8192
    ensures Heap(p) && p.start == start && p.sliceCnt == 0 && |p.lists| == 10 && p.lists[9].sliceAddr == 0
  {
    p := Pool(start, seq(8192, i => 0), 0, seq(8, i => 0), seq(10, i => BlkList(0, 0, 0, 0, 0, 0)), map[],
              seq(10, i => []));
    EmptyPool(p);
  }

  /** The pool after 2 k requests for 512 bytes. */
  lemma {:induction false} FullSlices(start: nat, k: nat) returns (p: Pool)
    requires 0 < start <= 0x1_0000_0000_0000_0000 - 8192 && k <= 8
    ensures Heap(p) && p.start == start && p.sliceCnt == k && |p.lists| == 10
    ensures p.lists[9].sliceAddr == 0 || p.lists[9].sliceOffset == 1024
    ensures k > 0 ==> Placed(p, 9, start + k * 1024 - 512)
  {
    hide Heap, Placed;
    if k == 0 {
      p := ZeroPool(start);
    } else {
      p := FullSlices(start, k - 1);
      p := NextSlice(p);
    }
  }

  /** blk_alloc hands out all eight slices whatever pool_size was: no block it can give reaches past
      the pool exactly when the pool has at least the 8192 bytes that are configured. */
  lemma SafeSizes(start: nat, size: nat)
    requires 0 < start <= 0x1_0000_0000_0000_0000 - 8192 && size % 1024 == 0
    ensures (forall p: Pool, a: nat :: Heap(p) && p.start == start && a in p.blocks ==> Shape(p) && Inside(p, a, size))
            <==> size >= 8192
  {
    if size >= 8192 {
      forall p: Pool, a: nat | Heap(p) && p.start == start && a in p.blocks ensures Shape(p) && Inside(p, a, size) {
        assert IsBlock(p, a);
        BlockFits(p, a);
      }
    } else {
      var k := size / 1024 + 1;
      var p := FullSlices(start, k);
      BlkSizes();
      assert Placed(p, 9, start + k * 1024 - 512) && !Inside(p, start + k * 1024 - 512, size);
    }
  }

  // ---- what the invariant says of the pool's bytes ----

  ghost predicate Covers(p: Pool, a: nat, x: nat)
    requires Shape(p)
  {
    InUsedSlice(p, a) && a <= x < a + BlkSize(ClassOf(p, a))
  }

  /** Live blocks, free-list blocks and uncarved space partition the pool: a byte below its slice's
      carving position is in exactly one block, which is live or on its class's free list (once),
      and any other byte is in none. */
  lemma PoolPartition(p: Pool, x: nat) returns (a: nat)
    requires Heap(p) && p.start <= x < p.start + 8192
    ensures (InUsedSlice(p, x) && OffsetOf(p, x) < Carved(p, SliceOf(p, x)))
            <==> exists b :: b in p.blocks && Covers(p, b, x)
    ensures InUsedSlice(p, x) && OffsetOf(p, x) < Carved(p, SliceOf(p, x)) ==>
              && a in p.blocks && Covers(p, a, x) && (forall b :: b in p.blocks && Covers(p, b, x) ==> b == a)
              && (p.blocks[a] == Idle <==> a in p.frees[ClassOf(p, a)])
  {
    a := x;
    forall b | b in p.blocks && Covers(p, b, x) ensures InUsedSlice(p, x) && OffsetOf(p, x) < Carved(p, SliceOf(p, x)) {
      BlockBytes(p, b, x);
    }
    if InUsedSlice(p, x) && OffsetOf(p, x) < Carved(p, SliceOf(p, x)) {
      a := BlockUnder(p, x);
      forall b | b in p.blocks && Covers(p, b, x) ensures b == a {
        if b != a { BlocksApart(p, a, b); }
      }
      assert FreeChain(p, ClassOf(p, a));
      assert a in p.frees[ClassOf(p, a)] ==> IdleIn(p, ClassOf(p, a), a);
    }
  }

  /** The bytes of a block are carved. */
  lemma BlockBytes(p: Pool, b: nat, x: nat)
    requires Heap(p) && b in p.blocks && Covers(p, b, x)
    ensures InUsedSlice(p, x) && OffsetOf(p, x) < Carved(p, SliceOf(p, x))
  {
    assert IsBlock(p, b);
    BlockFits(p, b);
    var t, s := ClassOf(p, b), SliceOf(p, b);
    assert SliceOf(p, x) == s && OffsetOf(p, x) == OffsetOf(p, b) + (x - b);
    assert Carving(p, t);
    Boundaries(t, OffsetOf(p, b), OffsetOf(p, b));
    if p.lists[t].sliceAddr == p.start + 1024 * s {
      Boundaries(t, OffsetOf(p, b), p.lists[t].sliceOffset);
    }
  }

  /** The boundary below an offset. */
  lemma BlockStart(o: nat, s: nat) returns (q: nat)
    requires s > 0
    ensures q <= o < q + s && q % s == 0
  {
    q := o - o % s;
    assert o == o / s * s + o % s;
    DivModUnique(q, s, o / s, 0);
  }

  /** The block a carved byte lies in. */
  lemma BlockUnder(p: Pool, x: nat) returns (a: nat)
    requires Heap(p) && InUsedSlice(p, x) && OffsetOf(p, x) < Carved(p, SliceOf(p, x))
    ensures a in p.blocks && Covers(p, a, x) && ClassOf(p, a) == ClassOf(p, x)
  {
    var t, o := ClassOf(p, x), OffsetOf(p, x);
    var s := BlkSize(t);
    var q := BlockStart(o, s);
    a := x - (o - q);
    assert SliceOf(p, a) == SliceOf(p, x) && OffsetOf(p, a) == q;
    assert IsBlock(p, a);
  }
}
