/** The spinlock and the page allocator under it, as any number of cores run them: one atomic step
    for each load, store and exclusive access, interleaved in any order (sequential consistency). */
module SpinAlloc {
  import opened Lists

  datatype Op = Alloc | Free(page: nat)

  /** Where a core is. Names follow the statements of arch_spin_lock, arch_spin_unlock,
      alloc_one_page and free_one_page. */
  datatype Pc =
    | Idle                                 // outside the allocator
    | Zeroing(page: nat, i: nat)           // free_one_page: memset, before the lock
    | CheckLock(op: Op)                    // spin_check: load lock
    | CheckCore(op: Op)                    // spin_check: load coreid
    | Ldxr(op: Op)
    | Cbnz(op: Op, w: nat)                 // cbnz on the value loaded
    | Stxr(op: Op)
    | SetCore(op: Op)                      // coreid = coreid()
    | LoadHead(op: Op)                     // load pages.freelist
    | TestHead(page: nat)                  // if(page == NULL)
    | LoadNext(page: nat)
    | StoreHead(page: nat, next: nat)      // pages.freelist = page->next
    | StoreNext(page: nat, h: nat)         // fp->next = pages.freelist
    | StoreFreed(page: nat)                // pages.freelist = fp
    | UnlockLock(after: Pc)                // unlock's spin_check: load lock
    | UnlockCore(after: Pc)                // unlock's spin_check: load coreid
    | Unlock(after: Pc)                    // str wzr
    | Clearing(page: nat, i: nat)          // alloc_one_page: memset, after the lock
    | NullHeld                             // returned NULL; the lock is still held
    | RecheckLock                          // ... and the core calls the allocator again: spin_check
    | RecheckCore
    | Aborted(holding: bool)

  datatype Owner = Nobody | Core(id: nat)

  /** Shared memory and the cores' own state. The owners and the list are there for the proof: no
      step looks at them, except that a core frees and writes only pages it owns. */
  datatype State = State(lock: nat, coreid: int, head: nat, mem: map<nat, seq<nat>>,
                         pc: seq<Pc>, monitor: seq<bool>,
                         owner: map<nat, Owner>, list: seq<nat>)

  datatype Action =
    | Tick(c: nat)                                   // core c's next instruction
    | CallAlloc(c: nat)
    | CallFree(c: nat, page: nat)
    | ClientWrite(c: nat, page: nat, i: nat, v: nat) // c uses a page it owns
    | LoseMonitor(c: nat)                            // the monitor may be cleared at any time
    | Reenter(c: nat)                                // a core that got NULL calls the allocator again

  predicate Owns(s: State, c: nat, page: nat) {
    page in s.mem && page in s.owner && s.owner[page] == Core(c) && |s.mem[page]| == 512
  }

  predicate Enabled(s: State, a: Action) {
    a.c < |s.pc| && a.c < |s.monitor| &&
    match a
    case Tick(c) => !s.pc[c].Idle? && !s.pc[c].NullHeld? && !s.pc[c].Aborted? && MemoryThere(s, s.pc[c])
    case CallAlloc(c) => s.pc[c].Idle?
    case CallFree(c, page) => s.pc[c].Idle? && Owns(s, c, page)
    case ClientWrite(c, page, i, v) => (s.pc[c].Idle? || s.pc[c].NullHeld?) && Owns(s, c, page) && i < 512
    case LoseMonitor(c) => true
    case Reenter(c) => s.pc[c].NullHeld?
  }

  /** The pages an instruction touches exist. */
  predicate MemoryThere(s: State, pc: Pc) {
    match pc
    case Zeroing(p, i) => p in s.mem && |s.mem[p]| == 512 && i <= 512
    case Clearing(p, i) => p in s.mem && |s.mem[p]| == 512 && i <= 512
    case LoadNext(p) => p in s.mem && |s.mem[p]| == 512
    case StoreNext(p, h) => p in s.mem && |s.mem[p]| == 512
    case StoreHead(p, n) => p in s.owner && s.list != []
    case StoreFreed(p) => p in s.owner
    case _ => true
  }

  function Goto(s: State, c: nat, pc: Pc): State
    requires c < |s.pc|
  {
    s.(pc := s.pc[c := pc])
  }

  function WriteWord(s: State, page: nat, i: nat, v: nat): State
    requires page in s.mem && i < |s.mem[page]|
  {
    var words: seq<nat> := s.mem[page][i := v];
    s.(mem := s.mem[page := words])
  }

  /** A store to the lock word clears every core's monitor. */
  function WriteLock(s: State, v: nat): State {
    s.(lock := v, monitor := seq(|s.monitor|, i => false))
  }

  function Apply(s: State, a: Action): State
    requires Enabled(s, a)
  {
    match a
    case CallAlloc(c) => Goto(s, c, CheckLock(Alloc))
    case CallFree(c, page) => Goto(s, c, Zeroing(page, 0))
    case ClientWrite(c, page, i, v) => WriteWord(s, page, i, v)
    case LoseMonitor(c) => s.(monitor := s.monitor[c := false])
    case Reenter(c) => Goto(s, c, RecheckLock)
    case Tick(c) => Execute(s, c)
  }

  /** One instruction of core c. */
  function Execute(s: State, c: nat): State
    requires Enabled(s, Tick(c))
  {
    match s.pc[c]
    case Zeroing(p, i) =>
      if i < 512 then Goto(WriteWord(s, p, i, 0), c, Zeroing(p, i + 1)) else Goto(s, c, CheckLock(Free(p)))
    case CheckLock(op) => Goto(s, c, if s.lock != 0 then CheckCore(op) else Ldxr(op))
    case CheckCore(op) => Goto(s, c, if s.coreid == c then Aborted(false) else Ldxr(op))
    case Ldxr(op) => Goto(s.(monitor := s.monitor[c := true]), c, Cbnz(op, s.lock))
    case Cbnz(op, w) => Goto(s, c, if w != 0 then Ldxr(op) else Stxr(op))
    case Stxr(op) => if s.monitor[c] then Goto(WriteLock(s, 1), c, SetCore(op)) else Goto(s, c, Ldxr(op))
    case SetCore(op) => Goto(s.(coreid := c), c, LoadHead(op))
    case LoadHead(op) =>
      (match op
       case Alloc => Goto(s, c, TestHead(s.head))
       case Free(p) => Goto(s, c, StoreNext(p, s.head)))
    case TestHead(p) => Goto(s, c, if p == 0 then NullHeld else LoadNext(p))
    case LoadNext(p) => Goto(s, c, StoreHead(p, s.mem[p][0]))
    case StoreHead(p, n) =>
      Goto(s.(head := n, owner := s.owner[p := Core(c)], list := s.list[1..]), c, UnlockLock(Clearing(p, 0)))
    case StoreNext(p, h) => Goto(WriteWord(s, p, 0, h), c, StoreFreed(p))
    case StoreFreed(p) =>
      Goto(s.(head := p, owner := s.owner[p := Nobody], list := [p] + s.list), c, UnlockLock(Idle))
    case UnlockLock(after) => Goto(s, c, if s.lock != 0 then UnlockCore(after) else Aborted(true))
    case UnlockCore(after) => Goto(s, c, if s.coreid == c then Unlock(after) else Aborted(true))
    case Unlock(after) => Goto(WriteLock(s, 0), c, after)
    case RecheckLock => Goto(s, c, if s.lock != 0 then RecheckCore else Ldxr(Alloc))
    case RecheckCore => Goto(s, c, if s.coreid == c then Aborted(true) else Ldxr(Alloc))
    case Clearing(p, i) => if i < 512 then Goto(WriteWord(s, p, i, 0), c, Clearing(p, i + 1)) else Goto(s, c, Idle)
    case _ => s
  }

  /** Between a successful STXR and the releasing store. */
  predicate Holding(pc: Pc) {
    match pc
    case SetCore(_) | LoadHead(_) | TestHead(_) | LoadNext(_) => true
    case StoreHead(_, _) | StoreNext(_, _) | StoreFreed(_) => true
    case UnlockLock(_) | UnlockCore(_) | Unlock(_) | NullHeld | RecheckLock | RecheckCore => true
    case Aborted(h) => h
    case _ => false
  }

  // ---- the invariant ----

  ghost predicate Zeros(words: seq<nat>, from: nat, to: nat) {
    to <= |words| && forall j :: from <= j < to ==> words[j] == 0
  }

  /** The free list is an acyclic chain through exactly the pages nobody owns, and they are zero but
      for their links. */
  ghost predicate ListOk(s: State) {
    && s.head == At(s.list, 0)
    && (forall i :: 0 <= i < |s.list| ==>
                      && s.list[i] in s.mem && |s.mem[s.list[i]]| == 512
                      && s.mem[s.list[i]][0] == At(s.list, i + 1) && Zeros(s.mem[s.list[i]], 1, 512))
    && Distinct(s.list)
    && (forall p :: p in s.list <==> p in s.owner && s.owner[p] == Nobody)
  }

  ghost predicate PagesOk(s: State) {
    s.owner.Keys == s.mem.Keys && forall p :: p in s.mem ==> p != 0 && |s.mem[p]| == 512
  }

  /** Core c may be here: what it knows about the shared state. */
  ghost predicate PcOk(s: State, c: nat, pc: Pc) {
    match pc
    case Zeroing(p, i) => Owns(s, c, p) && i <= 512 && Zeros(s.mem[p], 0, i)
    case Clearing(p, i) => Owns(s, c, p) && i <= 512 && Zeros(s.mem[p], 0, i)
    case CheckLock(op) => OpOk(s, c, op)
    case CheckCore(op) => OpOk(s, c, op)
    case Ldxr(op) => OpOk(s, c, op)
    case Cbnz(op, w) => OpOk(s, c, op) && (c < |s.monitor| && s.monitor[c] ==> s.lock == w)
    case Stxr(op) => OpOk(s, c, op) && (c < |s.monitor| && s.monitor[c] ==> s.lock == 0)
    case SetCore(op) => OpOk(s, c, op)
    case LoadHead(op) => OpOk(s, c, op) && s.coreid == c
    case TestHead(p) => s.coreid == c && p == s.head
    case LoadNext(p) => s.coreid == c && p == s.head != 0
    case StoreHead(p, n) => s.coreid == c && p == s.head != 0 && p in s.mem && |s.mem[p]| == 512 && n == s.mem[p][0]
    case StoreNext(p, h) => s.coreid == c && Owns(s, c, p) && h == s.head && Zeros(s.mem[p], 0, 512)
    case StoreFreed(p) => s.coreid == c && Owns(s, c, p) && s.mem[p][0] == s.head && Zeros(s.mem[p], 1, 512)
    case UnlockLock(after) => s.coreid == c && AfterOk(s, c, after)
    case UnlockCore(after) => s.coreid == c && AfterOk(s, c, after)
    case Unlock(after) => s.coreid == c && AfterOk(s, c, after)
    case NullHeld | RecheckLock | RecheckCore => s.coreid == c
    case Idle | Aborted(_) => true
  }

  ghost predicate OpOk(s: State, c: nat, op: Op) {
    op.Free? ==> Owns(s, c, op.page) && Zeros(s.mem[op.page], 0, 512)
  }

  ghost predicate AfterOk(s: State, c: nat, after: Pc) {
    after == Idle || (after.Clearing? && after.i == 0 && Owns(s, c, after.page))
  }

  /** At most one core holds the lock, and the lock word says whether one does. */
  ghost predicate LockOk(s: State) {
    && |s.monitor| == |s.pc|
    && (forall c, d :: 0 <= c < d < |s.pc| ==> !(Holding(s.pc[c]) && Holding(s.pc[d])))
    && (s.lock == 0 || s.lock == 1)
    && (forall c :: 0 <= c < |s.pc| && Holding(s.pc[c]) ==> s.lock == 1)
    && (s.lock == 1 ==> exists c :: 0 <= c < |s.pc| && Holding(s.pc[c]))
  }

  ghost predicate Inv(s: State) {
    && LockOk(s) && PagesOk(s) && ListOk(s)
    && forall c :: 0 <= c < |s.pc| ==> PcOk(s, c, s.pc[c])
  }

  /** The allocator after kalloc_init: the lock free, every core idle, every page on the list. */
  ghost predicate Init(s: State) {
    && s.lock == 0 && |s.monitor| == |s.pc| && (forall c :: 0 <= c < |s.pc| ==> s.pc[c] == Idle && !s.monitor[c])
    && PagesOk(s) && ListOk(s) && forall p :: p in s.owner ==> s.owner[p] == Nobody
  }

  /** A zeroed page linked to the page below it. */
  function FreedPage(p: nat): seq<nat> {
    seq(512, i => if i == 0 && p > 0 then p - 1 else 0)
  }

  function BootMemory(n: nat): (m: map<nat, seq<nat>>)
    ensures forall p :: p in m <==> 1 <= p <= n
    ensures forall p :: p in m ==> m[p] == FreedPage(p)
  {
    if n == 0 then map[] else BootMemory(n - 1)[n := FreedPage(n)]
  }

  /** What kalloc_init leaves for n pages, numbered from 1 upwards in the order it frees them. */
  function Booted(cores: nat, n: nat, lastUser: int): State {
    var m := BootMemory(n);
    State(0, lastUser, n, m, seq(cores, c => Idle), seq(cores, c => false),
          map p | p in m :: Nobody, seq(n, i => n - i))
  }

  lemma BootedIsInit(cores: nat, n: nat, lastUser: int)
    ensures Init(Booted(cores, n, lastUser))
    ensures forall p :: p in Booted(cores, n, lastUser).list <==> 1 <= p <= n
    ensures |Booted(cores, n, lastUser).pc| == cores
  {
    var s := Booted(cores, n, lastUser);
    hide BootMemory, FreedPage, Zeros, At;
    forall p | p in s.mem ensures p in s.list && |s.mem[p]| == 512 {
      assert s.list[n - p] == p;
      FreedPageIs(p);
    }
    forall i | 0 <= i < |s.list|
      ensures s.mem[s.list[i]][0] == At(s.list, i + 1) && Zeros(s.mem[s.list[i]], 1, 512)
    {
      FreedPageIs(n - i);
      NextIs(s.list, i, n);
    }
    NextIs(s.list, -1, n);
  }

  lemma FreedPageIs(p: nat)
    requires p > 0
    ensures |FreedPage(p)| == 512 && FreedPage(p)[0] == p - 1 && Zeros(FreedPage(p), 1, 512)
  {}

  lemma NextIs(list: seq<nat>, i: int, n: nat)
    requires |list| == n && -1 <= i < n && forall j :: 0 <= j < n ==> list[j] == n - j
    ensures At(list, i + 1) == n - i - 1
  {}

  lemma InitInv(s: State)
    requires Init(s)
    ensures Inv(s)
  {}

  // ---- what one step of core c does to the others ----

  /** Core d's knowledge survives: its pages are as they were, and if it is past the coreid store
      so are the lock's owner field, the head, and the head page's link. */
  ghost predicate SameFor(s: State, s': State, d: nat) {
    && s'.mem.Keys == s.mem.Keys && s'.owner.Keys == s.owner.Keys
    && (forall p :: Owns(s, d, p) ==> Owns(s', d, p) && s'.mem[p] == s.mem[p])
    && (d < |s.pc| && Holding(s.pc[d]) ==> s'.coreid == s.coreid && s'.head == s.head
                                           && (s.head in s.mem ==> s'.mem[s.head] == s.mem[s.head]))
    && (d < |s.monitor| && d < |s'.monitor| && s'.monitor[d] ==> s.monitor[d] && s'.lock == s.lock)
    && (|s'.monitor| == |s.monitor|)
  }

  lemma OthersOk(s: State, s': State, d: nat)
    requires d < |s.pc| && |s.monitor| == |s.pc| && PcOk(s, d, s.pc[d]) && SameFor(s, s', d)
    ensures PcOk(s', d, s.pc[d])
  {}

  lemma Glue(s: State, s': State, c: nat)
    requires Inv(s) && c < |s.pc| && |s'.pc| == |s.pc| && s'.pc == s.pc[c := s'.pc[c]]
    requires LockOk(s') && PagesOk(s') && ListOk(s') && PcOk(s', c, s'.pc[c])
    requires forall d :: 0 <= d < |s.pc| && d != c ==> SameFor(s, s', d)
    ensures Inv(s')
  {
    forall d | 0 <= d < |s.pc| ensures PcOk(s', d, s'.pc[d]) {
      if d != c { OthersOk(s, s', d); }
    }
  }

  /** The lock's state does not depend on where a core is, as long as it holds or does not hold. */
  lemma LockKept(s: State, s': State, c: nat)
    requires LockOk(s) && c < |s.pc| && |s'.pc| == |s.pc| && s'.pc == s.pc[c := s'.pc[c]]
    requires s'.lock == s.lock && |s'.monitor| == |s.monitor| && Holding(s'.pc[c]) == Holding(s.pc[c])
    ensures LockOk(s')
  {
    if s.lock == 1 {
      var d :| 0 <= d < |s.pc| && Holding(s.pc[d]);
      assert Holding(s'.pc[d]);
    }
  }

  /** Only the core's place changes. */
  lemma LocalStep(s: State, c: nat, pc: Pc)
    requires Inv(s) && c < |s.pc| && Holding(pc) == Holding(s.pc[c]) && PcOk(Goto(s, c, pc), c, pc)
    ensures Inv(Goto(s, c, pc))
  {
    LockKept(s, Goto(s, c, pc), c);
    Glue(s, Goto(s, c, pc), c);
  }

  /** The core writes a page it owns. */
  lemma WriteStep(s: State, c: nat, page: nat, i: nat, v: nat, pc: Pc)
    requires Inv(s) && c < |s.pc| && Holding(pc) == Holding(s.pc[c]) && Owns(s, c, page) && i < 512
    requires PcOk(Goto(WriteWord(s, page, i, v), c, pc), c, pc)
    ensures Inv(Goto(WriteWord(s, page, i, v), c, pc))
  {
    var s' := Goto(WriteWord(s, page, i, v), c, pc);
    LockKept(s, s', c);
    assert page !in s.list;
    forall j | 0 <= j < |s.list| ensures s.list[j] != page {
      assert s.list[j] in s.list;
    }
    forall d | 0 <= d < |s.pc| && d != c ensures SameFor(s, s', d) {
      HeadFree(s);
    }
    Glue(s, s', c);
  }

  lemma HeadFree(s: State)
    requires ListOk(s) && PagesOk(s)
    ensures s.head != 0 ==> s.list != [] && s.head == s.list[0] && s.head in s.mem && s.owner[s.head] == Nobody
    ensures s.head == 0 ==> s.list == []
    ensures s.head in s.owner ==> s.owner[s.head] == Nobody
  {
    if s.list != [] { assert s.list[0] in s.list; }
  }

  lemma LdxrStep(s: State, c: nat)
    requires Inv(s) && Enabled(s, Tick(c)) && s.pc[c].Ldxr?
    ensures Inv(Execute(s, c))
  {
    LockKept(s, Execute(s, c), c);
    Glue(s, Execute(s, c), c);
  }

  /** A successful STXR: the monitor was intact since a load of 0, so nobody holds the lock. */
  lemma StxrStep(s: State, c: nat)
    requires Inv(s) && Enabled(s, Tick(c)) && s.pc[c].Stxr? && s.monitor[c]
    ensures Inv(Execute(s, c))
  {
    var s' := Execute(s, c);
    assert PcOk(s, c, s.pc[c]);
    assert s.lock == 0;
    assert Holding(s'.pc[c]);
    Glue(s, s', c);
  }

  lemma SetCoreStep(s: State, c: nat)
    requires Inv(s) && Enabled(s, Tick(c)) && s.pc[c].SetCore?
    ensures Inv(Execute(s, c))
  {
    var s' := Execute(s, c);
    assert PcOk(s, c, s.pc[c]) && Holding(s.pc[c]);
    LockKept(s, s', c);
    forall d | 0 <= d < |s.pc| && d != c ensures SameFor(s, s', d) {
      assert !Holding(s.pc[d]);
    }
    Glue(s, s', c);
  }

  /** pages.freelist = page->next: the first page passes from the list to the core. */
  lemma StoreHeadStep(s: State, c: nat)
    requires Inv(s) && Enabled(s, Tick(c)) && s.pc[c].StoreHead?
    ensures Inv(Execute(s, c))
  {
    var s', p := Execute(s, c), s.pc[c].page;
    assert PcOk(s, c, s.pc[c]) && Holding(s.pc[c]);
    HeadFree(s);
    LockKept(s, s', c);
    ListPopped(s, s', p);
    forall d | 0 <= d < |s.pc| && d != c ensures SameFor(s, s', d) {
      assert !Holding(s.pc[d]);
    }
    Glue(s, s', c);
  }

  lemma ListPopped(s: State, s': State, p: nat)
    requires ListOk(s) && s.list != [] && p == s.list[0] && s'.list == s.list[1..] && s'.mem == s.mem
    requires s'.head == At(s.list, 1) && p in s.owner
    requires s'.owner.Keys == s.owner.Keys && s'.owner[p] != Nobody
    requires forall q :: q in s.owner && q != p ==> s'.owner[q] == s.owner[q]
    ensures ListOk(s')
  {
    var rest := s'.list;
    PopDistinct(s.list);
    forall i | 0 <= i < |rest|
      ensures rest[i] in s.mem && |s.mem[rest[i]]| == 512 && s.mem[rest[i]][0] == At(rest, i + 1)
      ensures Zeros(s.mem[rest[i]], 1, 512)
    {
      assert rest[i] == s.list[i + 1] && At(rest, i + 1) == At(s.list, i + 2);
    }
    assert s.list == [p] + rest;
  }

  /** pages.freelist = fp: the core's page goes to the front of the list. */
  lemma StoreFreedStep(s: State, c: nat)
    requires Inv(s) && Enabled(s, Tick(c)) && s.pc[c].StoreFreed?
    ensures Inv(Execute(s, c))
  {
    var s', p := Execute(s, c), s.pc[c].page;
    assert PcOk(s, c, s.pc[c]) && Holding(s.pc[c]);
    LockKept(s, s', c);
    ListPushed(s, s', p);
    forall d | 0 <= d < |s.pc| && d != c ensures SameFor(s, s', d) {
      assert !Holding(s.pc[d]);
    }
    Glue(s, s', c);
  }

  lemma ListPushed(s: State, s': State, p: nat)
    requires ListOk(s) && p !in s.list && s'.list == [p] + s.list && s'.mem == s.mem && s'.head == p
    requires p in s.mem && |s.mem[p]| == 512 && s.mem[p][0] == s.head && Zeros(s.mem[p], 1, 512) && p in s.owner
    requires s'.owner.Keys == s.owner.Keys && s'.owner[p] == Nobody
    requires forall q :: q in s.owner && q != p ==> s'.owner[q] == s.owner[q]
    ensures ListOk(s')
  {
    var l := s'.list;
    forall i | 0 <= i < |l|
      ensures l[i] in s.mem && |s.mem[l[i]]| == 512 && s.mem[l[i]][0] == At(l, i + 1) && Zeros(s.mem[l[i]], 1, 512)
    {
      if i > 0 { assert l[i] == s.list[i - 1] && At(l, i + 1) == At(s.list, i); }
    }
    PushDistinct(s.list, p);
  }

  lemma UnlockStep(s: State, c: nat)
    requires Inv(s) && Enabled(s, Tick(c)) && s.pc[c].Unlock?
    ensures Inv(Execute(s, c))
  {
    var s' := Execute(s, c);
    assert PcOk(s, c, s.pc[c]) && Holding(s.pc[c]);
    assert !Holding(s'.pc[c]);
    forall d | 0 <= d < |s.pc| && d != c ensures SameFor(s, s', d) {
      assert !Holding(s.pc[d]);
    }
    Glue(s, s', c);
  }

  /** memset, before the lock and after it. */
  lemma ZeroingInv(s: State, c: nat)
    requires Inv(s) && Enabled(s, Tick(c)) && s.pc[c].Zeroing?
    ensures Inv(Execute(s, c))
  {
    assert PcOk(s, c, s.pc[c]);
    hide LockOk, PagesOk, ListOk;
    var p, i := s.pc[c].page, s.pc[c].i;
    if i < 512 {
      ZeroedWord(s, c, p, i);
      WriteStep(s, c, p, i, 0, Zeroing(p, i + 1));
    } else {
      LocalStep(s, c, CheckLock(Free(p)));
    }
  }

  lemma ZeroedWord(s: State, c: nat, p: nat, i: nat)
    requires Owns(s, c, p) && i < 512 && c < |s.pc| && Zeros(s.mem[p], 0, i)
    ensures PcOk(Goto(WriteWord(s, p, i, 0), c, Zeroing(p, i + 1)), c, Zeroing(p, i + 1))
  {}

  lemma ClearingInv(s: State, c: nat)
    requires Inv(s) && Enabled(s, Tick(c)) && s.pc[c].Clearing?
    ensures Inv(Execute(s, c))
  {
    hide LockOk, PagesOk, ListOk, Owns, PcOk;
    ClearingOwns(s, c);
    var p, i := s.pc[c].page, s.pc[c].i;
    if i < 512 {
      ClearedWord(s, c, p, i);
      WriteStep(s, c, p, i, 0, Clearing(p, i + 1));
    } else {
      DoneOk(s, c);
      LocalStep(s, c, Idle);
    }
  }

  lemma ClearingOwns(s: State, c: nat)
    requires Inv(s) && c < |s.pc| && s.pc[c].Clearing?
    ensures var pc := s.pc[c];
            && Owns(s, c, pc.page) && pc.i <= 512 && pc.page in s.mem && |s.mem[pc.page]| == 512
            && Zeros(s.mem[pc.page], 0, pc.i)
  {
    assert PcOk(s, c, s.pc[c]);
  }

  lemma DoneOk(s: State, c: nat)
    requires c < |s.pc|
    ensures PcOk(Goto(s, c, Idle), c, Idle)
  {}

  lemma ClearedWord(s: State, c: nat, p: nat, i: nat)
    requires Owns(s, c, p) && i < 512 && c < |s.pc| && Zeros(s.mem[p], 0, i)
    ensures PcOk(Goto(WriteWord(s, p, i, 0), c, Clearing(p, i + 1)), c, Clearing(p, i + 1))
  {}

  /** fp->next = pages.freelist */
  lemma StoreNextInv(s: State, c: nat)
    requires Inv(s) && Enabled(s, Tick(c)) && s.pc[c].StoreNext?
    ensures Inv(Execute(s, c))
  {
    assert PcOk(s, c, s.pc[c]);
    hide LockOk, PagesOk, ListOk;
    WriteStep(s, c, s.pc[c].page, 0, s.pc[c].h, StoreFreed(s.pc[c].page));
  }

  predicate Reads(pc: Pc) {
    || pc.CheckLock? || pc.CheckCore? || pc.Cbnz? || pc.LoadHead? || pc.TestHead? || pc.LoadNext?
    || pc.UnlockLock? || pc.UnlockCore? || pc.RecheckLock? || pc.RecheckCore?
  }

  /** An instruction that only reads moves its core on. */
  lemma ReadMoves(s: State, c: nat)
    requires Enabled(s, Tick(c)) && Reads(s.pc[c])
    ensures |Execute(s, c).pc| == |s.pc| && Execute(s, c) == Goto(s, c, Execute(s, c).pc[c])
  {}

  lemma ReadPcOk(s: State, c: nat)
    requires Enabled(s, Tick(c)) && Reads(s.pc[c]) && PcOk(s, c, s.pc[c]) && |Execute(s, c).pc| == |s.pc|
    requires Holding(s.pc[c]) ==> s.lock == 1
    requires s.head != 0 ==> s.head in s.mem && |s.mem[s.head]| == 512
    ensures PcOk(Goto(s, c, Execute(s, c).pc[c]), c, Execute(s, c).pc[c])
    ensures Holding(Execute(s, c).pc[c]) == Holding(s.pc[c])
  {
    var s' := Goto(s, c, Execute(s, c).pc[c]);
    assert forall p :: Owns(s', c, p) == Owns(s, c, p);
    hide Owns;
  }

  lemma ReadInv(s: State, c: nat)
    requires Inv(s) && Enabled(s, Tick(c)) && Reads(s.pc[c])
    ensures Inv(Execute(s, c))
  {
    assert PcOk(s, c, s.pc[c]);
    if Holding(s.pc[c]) { HolderHasLock(s, c); }
    HeadFree(s);
    assert s.head != 0 ==> s.head in s.mem && |s.mem[s.head]| == 512;
    hide *;
    ReadMoves(s, c);
    ReadPcOk(s, c);
    LocalStep(s, c, Execute(s, c).pc[c]);
  }

  /** Every instruction keeps the invariant. */
  lemma ExecuteInv(s: State, c: nat)
    requires Inv(s) && Enabled(s, Tick(c))
    ensures Inv(Execute(s, c))
  {
    hide Inv, Holding;
    match s.pc[c] {
      case Zeroing(_, _) => ZeroingInv(s, c);
      case Clearing(_, _) => ClearingInv(s, c);
      case StoreNext(_, _) => StoreNextInv(s, c);
      case Ldxr(_) => LdxrStep(s, c);
      case Stxr(op) => if s.monitor[c] { StxrStep(s, c); } else { StxrFails(s, c); }
      case SetCore(_) => SetCoreStep(s, c);
      case StoreHead(_, _) => StoreHeadStep(s, c);
      case StoreFreed(_) => StoreFreedStep(s, c);
      case Unlock(_) => UnlockStep(s, c);
      case _ => ReadInv(s, c);
    }
  }

  /** The guard of a step never stops a core: whatever instruction it has reached can execute. */
  lemma NeverPruned(s: State, c: nat)
    requires Inv(s) && c < |s.pc| && !s.pc[c].Idle? && !s.pc[c].NullHeld? && !s.pc[c].Aborted?
    ensures Enabled(s, Tick(c))
  {
    assert |s.monitor| == |s.pc|;
    assert PcOk(s, c, s.pc[c]);
    HeadFree(s);
  }

  lemma StxrFails(s: State, c: nat)
    requires Inv(s) && Enabled(s, Tick(c)) && s.pc[c].Stxr? && !s.monitor[c]
    ensures Inv(Execute(s, c))
  {
    assert PcOk(s, c, s.pc[c]);
    LocalStep(s, c, Ldxr(s.pc[c].op));
  }

  lemma HolderHasLock(s: State, c: nat)
    requires LockOk(s) && c < |s.pc| && Holding(s.pc[c])
    ensures s.lock == 1
  {}

  lemma ClientInv(s: State, c: nat, page: nat, i: nat, v: nat)
    requires Inv(s) && Enabled(s, ClientWrite(c, page, i, v))
    ensures Inv(WriteWord(s, page, i, v))
  {
    assert PcOk(s, c, s.pc[c]);
    assert s.pc[c := s.pc[c]] == s.pc;
    WriteStep(s, c, page, i, v, s.pc[c]);
  }

  lemma MonitorInv(s: State, c: nat)
    requires Inv(s) && Enabled(s, LoseMonitor(c))
    ensures Inv(s.(monitor := s.monitor[c := false]))
  {
    var s' := s.(monitor := s.monitor[c := false]);
    assert s'.pc == s.pc[c := s.pc[c]];
    LockKept(s, s', c);
    assert PcOk(s, c, s.pc[c]) && PcOk(s', c, s.pc[c]);
    Glue(s, s', c);
  }

  lemma ReenterInv(s: State, c: nat)
    requires Inv(s) && Enabled(s, Reenter(c))
    ensures Inv(Goto(s, c, RecheckLock))
  {
    assert PcOk(s, c, s.pc[c]);
    LocalStep(s, c, RecheckLock);
  }

  /** Every step of every core keeps the invariant. */
  lemma ApplyInv(s: State, a: Action)
    requires Inv(s) && Enabled(s, a)
    ensures Inv(Apply(s, a))
  {
    match a {
      case Tick(c) => ExecuteInv(s, c);
      case CallAlloc(c) => LocalStep(s, c, CheckLock(Alloc));
      case CallFree(c, page) => LocalStep(s, c, Zeroing(page, 0));
      case Reenter(c) => ReenterInv(s, c);
      case ClientWrite(c, page, i, v) => ClientInv(s, c, page, i, v);
      case LoseMonitor(c) => MonitorInv(s, c);
    }
  }

  // ---- runs ----

  /** A run: actions enabled one after another. */
  ghost predicate IsRun(s: State, acts: seq<Action>)
    decreases |acts|
  {
    acts == [] || (Enabled(s, acts[0]) && IsRun(Apply(s, acts[0]), acts[1..]))
  }

  ghost function After(s: State, acts: seq<Action>): State
    requires IsRun(s, acts)
    decreases |acts|
  {
    if acts == [] then s else After(Apply(s, acts[0]), acts[1..])
  }

  lemma {:induction false} RunInv(s: State, acts: seq<Action>)
    requires Inv(s) && IsRun(s, acts)
    ensures Inv(After(s, acts))
    decreases |acts|
  {
    if acts != [] {
      ApplyInv(s, acts[0]);
      RunInv(Apply(s, acts[0]), acts[1..]);
    }
  }

  // ---- what holds in every reachable state ----

  /** Mutual exclusion, and the unlock-side check always passes for a core past the coreid store. */
  lemma MutualExclusion(s: State, acts: seq<Action>, c: nat, d: nat)
    requires Init(s) && IsRun(s, acts) && c < |After(s, acts).pc| && d < |After(s, acts).pc|
    requires Holding(After(s, acts).pc[c])
    ensures var r := After(s, acts);
            && r.lock == 1 && (Holding(r.pc[d]) ==> d == c)
            && (!r.pc[c].SetCore? && !r.pc[c].Aborted? ==> r.coreid == c)
            && ((r.pc[c].UnlockLock? || r.pc[c].UnlockCore?) ==> Enabled(r, Tick(c)) && !Execute(r, c).pc[c].Aborted?)
  {
    InitInv(s);
    RunInv(s, acts);
    var r := After(s, acts);
    assert PcOk(r, c, r.pc[c]) && LockOk(r);
  }

  /** The unlock-side check, in any state: the lock must be held, and by the caller's number. */
  lemma UnlockCheck(s: State, c: nat)
    requires Enabled(s, Tick(c)) && s.pc[c].UnlockLock?
    ensures |Execute(s, c).pc| == |s.pc| && Execute(s, c).lock == s.lock && Execute(s, c).coreid == s.coreid
    ensures s.lock == 0 <==> Execute(s, c).pc[c] == Aborted(true)
    ensures s.lock != 0 ==>
              var t := Execute(s, c);
              && Enabled(t, Tick(c)) && |Execute(t, c).pc| == |s.pc|
              && Execute(t, c).pc[c] == if s.coreid == c then Unlock(s.pc[c].after) else Aborted(true)
  {
    hide Owns;
  }

  /** In every interleaving each page is on the free list, once, or owned by exactly one core; the
      list is the chain in memory from the head and ends. */
  lemma PagesPartitioned(s: State, acts: seq<Action>, p: nat)
    requires Init(s) && IsRun(s, acts) && p in After(s, acts).mem
    ensures var r := After(s, acts);
            && p in r.owner && (r.owner[p] == Nobody <==> p in r.list)
            && ListOk(r)
            && (p in r.list ==> |r.mem[p]| == 512 && forall j :: 1 <= j < 512 ==> r.mem[p][j] == 0)
            && (r.owner[p].Core? || exists i :: 0 <= i < |r.list| && r.list[i] == p && r.mem[p][0] == At(r.list, i + 1))
  {
    InitInv(s);
    RunInv(s, acts);
    var r := After(s, acts);
    if r.owner[p] == Nobody {
      assert p in r.list;
      var i :| 0 <= i < |r.list| && r.list[i] == p;
      assert r.mem[r.list[i]][0] == At(r.list, i + 1);
    }
  }

  predicate WritesTo(pc: Pc, q: nat) {
    (pc.Zeroing? || pc.Clearing? || pc.StoreNext?) && pc.page == q
  }

  predicate MovesPage(pc: Pc, q: nat) {
    (pc.StoreHead? || pc.StoreFreed?) && pc.page == q
  }

  /** The page an instruction writes, and the page whose owner it changes. */
  lemma TickFrame(s: State, c: nat, q: nat)
    requires Enabled(s, Tick(c)) && q in s.mem
    ensures q in Execute(s, c).mem
    ensures Execute(s, c).mem[q] == s.mem[q] || WritesTo(s.pc[c], q)
    ensures q in s.owner ==> q in Execute(s, c).owner
    ensures q in s.owner ==> Execute(s, c).owner[q] == s.owner[q] || MovesPage(s.pc[c], q)
  {
    hide Owns;
  }

  /** A step changes memory only in pages its own core owns: neither another core's pages nor a
      free page, and in particular the zeroing outside the lock touches nothing else. */
  lemma WritesOwnPages(s: State, a: Action, q: nat)
    requires Inv(s) && Enabled(s, a) && q in s.mem
    ensures q in Apply(s, a).mem
    ensures Apply(s, a).mem[q] != s.mem[q] ==> q in s.owner && s.owner[q] == Core(a.c)
    ensures (q in s.owner && s.owner[q].Core? && s.owner[q].id != a.c) ==>
              q in Apply(s, a).owner && Apply(s, a).owner[q] == s.owner[q]
  {
    if a.Tick? {
      assert PcOk(s, a.c, s.pc[a.c]);
      HeadFree(s);
      TickFrame(s, a.c, q);
      hide Execute, ListOk, LockOk;
    }
  }

  /** The page alloc_one_page returns belongs to the core and is zero throughout. */
  lemma ReturnsZeroedPage(s: State, c: nat)
    requires Inv(s) && Enabled(s, Tick(c)) && s.pc[c].Clearing? && s.pc[c].i == 512
    ensures Execute(s, c).pc[c] == Idle && Owns(Execute(s, c), c, s.pc[c].page)
    ensures forall j :: 0 <= j < 512 ==> Execute(s, c).mem[s.pc[c].page][j] == 0
  {
    assert PcOk(s, c, s.pc[c]);
  }

  /** alloc_one_page returns NULL exactly when the list is empty at its test. */
  lemma NullExactly(s: State, c: nat)
    requires Inv(s) && c < |s.pc| && s.pc[c].TestHead?
    ensures Enabled(s, Tick(c)) && |Execute(s, c).pc| == |s.pc|
    ensures Execute(s, c).pc[c].NullHeld? <==> s.list == []
  {
    NeverPruned(s, c);
    assert PcOk(s, c, s.pc[c]);
    HeadFree(s);
  }

  /** A core that was given NULL, or that called again and aborted. */
  predicate GotNull(s: State, c: nat) {
    c < |s.pc| && (s.pc[c].NullHeld? || s.pc[c].RecheckLock? || s.pc[c].RecheckCore? || s.pc[c] == Aborted(true))
  }

  lemma GotNullHolds(s: State, c: nat)
    requires Inv(s) && GotNull(s, c)
    ensures s.lock == 1 && forall d :: 0 <= d < |s.pc| && d != c ==> !Holding(s.pc[d])
  {
    assert Holding(s.pc[c]);
  }

  /** One step later it is still such a core, and the list is as it was. */
  lemma GotNullStays(s: State, a: Action, c: nat)
    requires Inv(s) && Enabled(s, a) && GotNull(s, c)
    ensures GotNull(Apply(s, a), c) && Apply(s, a).list == s.list
  {
    GotNullHolds(s, c);
    if a == Tick(c) {
      assert PcOk(s, c, s.pc[c]);
    } else if a.Tick? {
      OtherTick(s, a.c, c);
    }
  }

  lemma OtherTick(s: State, c: nat, d: nat)
    requires Enabled(s, Tick(c)) && d < |s.pc| && d != c && !Holding(s.pc[c])
    ensures |Execute(s, c).pc| == |s.pc| && Execute(s, c).pc[d] == s.pc[d] && Execute(s, c).list == s.list
  {
    hide Owns;
  }

  /** The lock is never given back after NULL: however the run goes on, the core keeps it, no other
      core gets it, and so no page is allocated or freed again. */
  lemma {:induction false} NullKeepsLock(s: State, acts: seq<Action>, c: nat)
    requires Inv(s) && IsRun(s, acts) && GotNull(s, c)
    ensures var r := After(s, acts);
            && GotNull(r, c) && r.lock == 1 && r.list == s.list
            && forall d :: 0 <= d < |r.pc| && d != c ==> !Holding(r.pc[d])
    decreases |acts|
  {
    if acts == [] {
      GotNullHolds(s, c);
    } else {
      hide Inv, GotNull, Enabled, Apply;
      ApplyInv(s, acts[0]);
      GotNullStays(s, acts[0], c);
      NullKeepsLock(Apply(s, acts[0]), acts[1..], c);
    }
  }

  /** A second call of such a core aborts. */
  lemma SecondCallAborts(s: State, c: nat)
    requires Inv(s) && c < |s.pc| && s.pc[c].NullHeld?
    ensures Reaches(s, Goto(s, c, Aborted(true)))
  {
    assert PcOk(s, c, s.pc[c]);
    GotNullHolds(s, c);
    assert |s.monitor| == |s.pc|;
    ReachesSelf(s);
    hide Inv, PcOk, GotNull;
    HolderCallsAgain(s, s, c);
  }

  lemma HolderCallsAgain(s: State, t: State, c: nat)
    requires Reaches(s, t) && c < |t.pc| == |t.monitor| && t.pc[c].NullHeld? && t.lock == 1 && t.coreid == c
    ensures Reaches(s, Goto(t, c, Aborted(true)))
  {
    hide Reaches;
    ReachesNext(s, t, Reenter(c));
    var t1 := Goto(t, c, RecheckLock);
    ReachesNext(s, t1, Tick(c));
    var t2 := Goto(t, c, RecheckCore);
    assert Apply(t1, Tick(c)) == t2;
    ReachesNext(s, t2, Tick(c));
    assert Apply(t2, Tick(c)) == Goto(t, c, Aborted(true));
  }

  /** The cores that stored their number in coreid, in order. */
  ghost function Users(s: State, acts: seq<Action>): seq<nat>
    requires IsRun(s, acts)
    decreases |acts|
  {
    if acts == [] then []
    else (if acts[0].Tick? && s.pc[acts[0].c].SetCore? then [acts[0].c] else []) + Users(Apply(s, acts[0]), acts[1..])
  }

  /** The last one, or what boot left. */
  function LastUser(boot: int, users: seq<nat>): int {
    if users == [] then boot else users[|users| - 1]
  }

  lemma CoreidStep(s: State, a: Action)
    requires Enabled(s, a)
    ensures Apply(s, a).coreid == if a.Tick? && s.pc[a.c].SetCore? then a.c else s.coreid
  {
    hide MemoryThere;
  }

  lemma {:induction false} CoreidIsLastUser(s: State, acts: seq<Action>)
    requires IsRun(s, acts)
    ensures After(s, acts).coreid == LastUser(s.coreid, Users(s, acts))
    decreases |acts|
  {
    if acts != [] {
      CoreidStep(s, acts[0]);
      hide Apply;
      CoreidIsLastUser(Apply(s, acts[0]), acts[1..]);
    }
  }

  /** No holder has stored its number yet when coreid is that of a core outside. */
  lemma HolderYetToStore(s: State, c: nat)
    requires Inv(s) && c < |s.pc| && s.pc[c].CheckCore?
    ensures Enabled(s, Tick(c)) && |Execute(s, c).pc| == |s.pc|
    ensures Execute(s, c).pc[c] == Aborted(false) <==> s.coreid == c
    ensures s.coreid == c ==>
              forall d :: 0 <= d < |s.pc| && Holding(s.pc[d]) ==> d != c && (s.pc[d].SetCore? || s.pc[d].Aborted?)
  {
    assert |s.monitor| == |s.pc|;
    if s.coreid == c {
      forall d | 0 <= d < |s.pc| && Holding(s.pc[d]) ensures d != c && (s.pc[d].SetCore? || s.pc[d].Aborted?) {
        assert PcOk(s, d, s.pc[d]);
      }
    }
  }

  /** Over every run the lock-side check fires exactly when the caller was the last core to get the
      lock and store its number; and it never means that the caller holds the lock. */
  lemma LockAbortIsStale(s: State, acts: seq<Action>, c: nat)
    requires Init(s) && IsRun(s, acts) && c < |After(s, acts).pc| && After(s, acts).pc[c].CheckCore?
    ensures var r, stale := After(s, acts), LastUser(s.coreid, Users(s, acts)) == c;
            && Enabled(r, Tick(c)) && |Execute(r, c).pc| == |r.pc|
            && (Execute(r, c).pc[c] == Aborted(false) <==> stale)
            && (stale ==> forall d :: 0 <= d < |r.pc| && Holding(r.pc[d]) ==>
                                        d != c && (r.pc[d].SetCore? || r.pc[d].Aborted?))
  {
    InitInv(s);
    RunInv(s, acts);
    CoreidIsLastUser(s, acts);
    hide Inv, Init, IsRun;
    HolderYetToStore(After(s, acts), c);
  }

  lemma {:induction false} RunMore(s: State, acts: seq<Action>, a: Action)
    requires IsRun(s, acts) && Enabled(After(s, acts), a)
    ensures IsRun(s, acts + [a]) && After(s, acts + [a]) == Apply(After(s, acts), a)
    decreases |acts|
  {
    if acts == [] {
      assert ([] + [a])[1..] == [];
    } else {
      assert (acts + [a])[1..] == acts[1..] + [a];
      RunMore(Apply(s, acts[0]), acts[1..], a);
    }
  }

  ghost predicate Reaches(s: State, t: State) {
    exists acts :: IsRun(s, acts) && After(s, acts) == t
  }

  lemma ReachesSelf(s: State)
    ensures Reaches(s, s)
  {
    assert IsRun(s, []) && After(s, []) == s;
  }

  lemma ReachesNext(s: State, t: State, a: Action)
    requires Reaches(s, t) && Enabled(t, a)
    ensures Reaches(s, Apply(t, a))
  {
    var acts :| IsRun(s, acts) && After(s, acts) == t;
    RunMore(s, acts, a);
  }

  /** A core alone at a free lock takes it. */
  lemma GetsLock(s: State, t: State, c: nat, op: Op) returns (t': State)
    requires Reaches(s, t) && c < |t.pc| == |t.monitor| && t.pc[c] == CheckLock(op) && t.lock == 0
    ensures Reaches(s, t') && t' == WriteLock(Goto(t, c, SetCore(op)), 1)
  {
    hide Reaches;
    ReachesNext(s, t, Tick(c));
    var t2 := Goto(t, c, Ldxr(op));
    assert Apply(t, Tick(c)) == t2;
    ReachesNext(s, t2, Tick(c));
    var t3 := Goto(t.(monitor := t.monitor[c := true]), c, Cbnz(op, 0));
    assert Apply(t2, Tick(c)) == t3;
    ReachesNext(s, t3, Tick(c));
    var t4 := Goto(t3, c, Stxr(op));
    assert Apply(t3, Tick(c)) == t4;
    ReachesNext(s, t4, Tick(c));
    t' := WriteLock(Goto(t, c, SetCore(op)), 1);
    assert Apply(t4, Tick(c)) == t';
  }

  lemma TakesLock(s: State, t: State, c: nat) returns (t': State)
    requires Reaches(s, t) && c < |t.pc| == |t.monitor| && t.pc[c] == Idle && t.lock == 0
    ensures Reaches(s, t') && t' == WriteLock(Goto(t, c, SetCore(Alloc)), 1)
  {
    hide Reaches;
    ReachesNext(s, t, CallAlloc(c));
    t' := GetsLock(s, Goto(t, c, CheckLock(Alloc)), c, Alloc);
    assert t' == WriteLock(Goto(t, c, SetCore(Alloc)), 1);
  }

  /** Then it takes the first page and lets the lock go. */
  lemma TakesPage(s: State, t: State, c: nat) returns (t': State)
    requires Reaches(s, t) && c < |t.pc| == |t.monitor| && t.pc[c] == SetCore(Alloc) && t.lock == 1
    requires t.head != 0 && t.head in t.mem && |t.mem[t.head]| == 512 && t.head in t.owner && t.list != []
    ensures Reaches(s, t') && t'.pc == t.pc[c := Clearing(t.head, 0)] && t'.lock == 0 && t'.coreid == c
    ensures t'.mem == t.mem && |t'.monitor| == |t.monitor| && t'.list == t.list[1..]
    ensures t'.owner == t.owner[t.head := Core(c)]
  {
    hide Reaches;
    var p := t.head;
    ReachesNext(s, t, Tick(c));
    var t1 := Goto(t.(coreid := c), c, LoadHead(Alloc));
    assert Apply(t, Tick(c)) == t1;
    ReachesNext(s, t1, Tick(c));
    var t2 := Goto(t1, c, TestHead(p));
    assert Apply(t1, Tick(c)) == t2;
    t' := Unlinks(s, t2, c);
    t' := Releases(s, t', c, Clearing(p, 0));
  }

  lemma Unlinks(s: State, t: State, c: nat) returns (t': State)
    requires Reaches(s, t) && c < |t.pc| == |t.monitor| && t.pc[c] == TestHead(t.head)
    requires t.head != 0 && t.head in t.mem && |t.mem[t.head]| == 512 && t.head in t.owner && t.list != []
    ensures Reaches(s, t') && t'.pc == t.pc[c := UnlockLock(Clearing(t.head, 0))]
    ensures t'.lock == t.lock && t'.coreid == t.coreid && t'.mem == t.mem && t'.monitor == t.monitor
    ensures t'.list == t.list[1..] && t'.owner == t.owner[t.head := Core(c)]
  {
    hide Reaches;
    ReachesNext(s, t, Tick(c));
    var t1 := Goto(t, c, LoadNext(t.head));
    assert Apply(t, Tick(c)) == t1;
    ReachesNext(s, t1, Tick(c));
    var t2 := Goto(t, c, StoreHead(t.head, t.mem[t.head][0]));
    assert Apply(t1, Tick(c)) == t2;
    ReachesNext(s, t2, Tick(c));
    t' := Apply(t2, Tick(c));
  }

  lemma Releases(s: State, t: State, c: nat, after: Pc) returns (t': State)
    requires Reaches(s, t) && c < |t.pc| == |t.monitor| && t.pc[c] == UnlockLock(after) && t.lock == 1 && t.coreid == c
    ensures Reaches(s, t') && t' == WriteLock(Goto(t, c, after), 0)
  {
    hide Reaches;
    ReachesNext(s, t, Tick(c));
    var t1 := Goto(t, c, UnlockCore(after));
    assert Apply(t, Tick(c)) == t1;
    ReachesNext(s, t1, Tick(c));
    var t2 := Goto(t, c, Unlock(after));
    assert Apply(t1, Tick(c)) == t2;
    ReachesNext(s, t2, Tick(c));
    t' := WriteLock(Goto(t, c, after), 0);
    assert Apply(t2, Tick(c)) == t';
  }

  lemma {:induction false} ClearsPage(s: State, t: State, c: nat, p: nat, i: nat) returns (t': State)
    requires Reaches(s, t) && c < |t.pc| == |t.monitor| && t.pc[c] == Clearing(p, i) && i <= 512
    requires p in t.mem && |t.mem[p]| == 512
    ensures Reaches(s, t') && t'.pc == t.pc[c := Idle] && t'.lock == t.lock && t'.coreid == t.coreid
    ensures |t'.monitor| == |t.monitor| && t'.list == t.list && t'.owner == t.owner
    ensures t'.mem.Keys == t.mem.Keys && p in t'.mem && |t'.mem[p]| == 512
    decreases 512 - i
  {
    ReachesNext(s, t, Tick(c));
    hide Reaches;
    t' := Apply(t, Tick(c));
    if i < 512 { t' := ClearsPage(s, t', c, p, i + 1); }
  }

  /** And it does fire without fault, from boot: c takes and returns from one allocation, then d
      takes the lock but has not stored its number yet when c asks for another page. */
  lemma SpuriousAbort(s: State, c: nat, d: nat) returns (t: State)
    requires Init(s) && c < |s.pc| && d < |s.pc| && c != d && s.list != []
    ensures Reaches(s, t) && |t.pc| == |s.pc| && t.pc[c] == Aborted(false) && t.pc[d] == SetCore(Alloc)
  {
    ReachesSelf(s);
    HeadFree(s);
    assert s.head != 0 && s.head in s.mem && |s.mem[s.head]| == 512 && s.head in s.owner;
    assert |s.monitor| == |s.pc| && s.pc[c] == Idle && s.pc[d] == Idle && s.lock == 0;
    hide Reaches, PagesOk, ListOk, Init, Execute, Apply, Enabled, Holding;
    t := TakesLock(s, s, c);
    t := TakesPage(s, t, c);
    t := ClearsPage(s, t, c, s.head, 0);
    assert t.pc[c] == Idle && t.pc[d] == Idle && t.lock == 0;
    t := TakesLock(s, t, d);
    t := StaleCheck(s, t, c);
  }

  lemma StaleCheck(s: State, t: State, c: nat) returns (t': State)
    requires Reaches(s, t) && c < |t.pc| == |t.monitor| && t.pc[c] == Idle && t.lock == 1 && t.coreid == c
    ensures Reaches(s, t') && t'.pc == t.pc[c := Aborted(false)]
  {
    hide Reaches;
    ReachesNext(s, t, CallAlloc(c));
    var t1 := Goto(t, c, CheckLock(Alloc));
    ReachesNext(s, t1, Tick(c));
    var t2 := Goto(t1, c, CheckCore(Alloc));
    ReachesNext(s, t2, Tick(c));
    t' := Goto(t2, c, Aborted(false));
  }

  lemma ReachesInv(s: State, t: State)
    requires Inv(s) && Reaches(s, t)
    ensures Inv(t)
  {
    var acts :| IsRun(s, acts) && After(s, acts) == t;
    RunInv(s, acts);
  }

  /** One whole allocation by a core alone at a free lock. */
  lemma Allocates(s: State, t: State, c: nat) returns (t': State)
    requires Inv(s) && Reaches(s, t) && c < |t.pc| && t.pc[c] == Idle && t.lock == 0 && t.list != []
    ensures Reaches(s, t') && t'.pc == t.pc && t'.lock == 0 && t'.list == t.list[1..] && t'.coreid == c
    ensures t'.owner == t.owner[t.head := Core(c)] && Owns(t', c, t.head)
  {
    ReachesInv(s, t);
    HeadFree(t);
    assert |t.monitor| == |t.pc| && t.head in t.mem && |t.mem[t.head]| == 512 && t.head in t.owner && t.head != 0;
    hide Reaches, Inv, PagesOk, ListOk, LockOk, Execute, Apply, Enabled, Holding;
    t' := TakesLock(s, t, c);
    t' := TakesPage(s, t', c);
    t' := ClearsPage(s, t', c, t.head, 0);
  }

  lemma {:induction false} ZeroesPage(s: State, t: State, c: nat, p: nat, i: nat) returns (t': State)
    requires Reaches(s, t) && c < |t.pc| == |t.monitor| && t.pc[c] == Zeroing(p, i) && i <= 512
    requires p in t.mem && |t.mem[p]| == 512
    ensures Reaches(s, t') && t'.pc == t.pc[c := CheckLock(Free(p))] && t'.lock == t.lock
    ensures |t'.monitor| == |t.monitor| && t'.list == t.list && t'.owner == t.owner && p in t'.mem && |t'.mem[p]| == 512
    decreases 512 - i
  {
    ReachesNext(s, t, Tick(c));
    hide Reaches;
    t' := Apply(t, Tick(c));
    if i < 512 { t' := ZeroesPage(s, t', c, p, i + 1); }
  }

  lemma LinksPage(s: State, t: State, c: nat, p: nat) returns (t': State)
    requires Reaches(s, t) && c < |t.pc| == |t.monitor| && t.pc[c] == SetCore(Free(p)) && t.lock == 1
    requires p in t.mem && |t.mem[p]| == 512 && p in t.owner
    ensures Reaches(s, t') && t'.pc == t.pc[c := Idle] && t'.lock == 0
    ensures t'.list == [p] + t.list && t'.owner == t.owner[p := Nobody] && t'.head == p
  {
    hide Reaches;
    ReachesNext(s, t, Tick(c));
    var t1 := Goto(t.(coreid := c), c, LoadHead(Free(p)));
    assert Apply(t, Tick(c)) == t1;
    ReachesNext(s, t1, Tick(c));
    var t2 := Goto(t1, c, StoreNext(p, t1.head));
    assert Apply(t1, Tick(c)) == t2;
    t' := Links(s, t2, c, p);
    t' := Releases(s, t', c, Idle);
  }

  lemma Links(s: State, t: State, c: nat, p: nat) returns (t': State)
    requires Reaches(s, t) && c < |t.pc| == |t.monitor| && t.pc[c] == StoreNext(p, t.head)
    requires p in t.mem && |t.mem[p]| == 512 && p in t.owner
    ensures Reaches(s, t') && t'.pc == t.pc[c := UnlockLock(Idle)] && t'.lock == t.lock && t'.coreid == t.coreid
    ensures t'.list == [p] + t.list && t'.owner == t.owner[p := Nobody] && t'.head == p && t'.monitor == t.monitor
  {
    hide Reaches;
    ReachesNext(s, t, Tick(c));
    var t1 := Goto(WriteWord(t, p, 0, t.head), c, StoreFreed(p));
    assert Apply(t, Tick(c)) == t1;
    ReachesNext(s, t1, Tick(c));
    t' := Apply(t1, Tick(c));
  }

  /** One whole free by a core alone at a free lock: its page is the first of the list again. */
  lemma Frees(s: State, t: State, c: nat, p: nat) returns (t': State)
    requires Reaches(s, t) && c < |t.pc| == |t.monitor| && t.pc[c] == Idle && t.lock == 0 && Owns(t, c, p)
    ensures Reaches(s, t') && t'.pc == t.pc && t'.lock == 0 && t'.head == p
    ensures t'.list == [p] + t.list && t'.owner == t.owner[p := Nobody]
  {
    ReachesNext(s, t, CallFree(c, p));
    hide Reaches, Execute, Apply, Enabled, Holding;
    var t1 := Goto(t, c, Zeroing(p, 0));
    assert Apply(t, CallFree(c, p)) == t1;
    t' := ZeroesPage(s, t1, c, p, 0);
    t' := GetsLock(s, t', c, Free(p));
    t' := LinksPage(s, t', c, p);
    assert t'.pc == t.pc;
  }

  /** From boot: a core takes the first page and gives it back, and the list is what it was. */
  lemma TakesAndFrees(s: State, c: nat) returns (t: State)
    requires Init(s) && c < |s.pc| && s.list != []
    ensures Reaches(s, t) && t.pc == s.pc && t.lock == 0 && t.list == s.list && t.owner == s.owner
  {
    hide Reaches, Init, Inv, Owns;
    BootFacts(s, c);
    ReachesSelf(s);
    var t1 := Allocates(s, s, c);
    ReachesInv(s, t1);
    MonitorPerCore(t1);
    t := Frees(s, t1, c, s.head);
    assert s.owner[s.head := Core(c)][s.head := Nobody] == s.owner;
  }

  lemma BootFacts(s: State, c: nat)
    requires Init(s) && c < |s.pc| && s.list != []
    ensures Inv(s) && s.pc[c] == Idle && s.lock == 0 && s.list == [s.head] + s.list[1..]
    ensures s.head in s.owner && s.owner[s.head] == Nobody
  {
    InitInv(s);
    HeadFree(s);
  }

  lemma MonitorPerCore(s: State)
    requires Inv(s)
    ensures |s.monitor| == |s.pc|
  {}

  /** And on an empty list it gets NULL. */
  lemma GetsNull(s: State, t: State, c: nat) returns (t': State)
    requires Inv(s) && Reaches(s, t) && c < |t.pc| && t.pc[c] == Idle && t.lock == 0 && t.list == []
    ensures Reaches(s, t') && t'.pc == t.pc[c := NullHeld] && t'.list == []
  {
    ReachesInv(s, t);
    assert |t.monitor| == |t.pc| && t.head == 0;
    hide Reaches, Inv;
    t' := TakesLock(s, t, c);
    ReachesNext(s, t', Tick(c));
    var t1 := Goto(t'.(coreid := c), c, LoadHead(Alloc));
    assert Apply(t', Tick(c)) == t1;
    ReachesNext(s, t1, Tick(c));
    var t2 := Goto(t1, c, TestHead(0));
    assert Apply(t1, Tick(c)) == t2;
    ReachesNext(s, t2, Tick(c));
    t' := Goto(t1, c, NullHeld);
    assert Apply(t2, Tick(c)) == t';
  }

  lemma {:induction false} UsesUp(s: State, t: State, c: nat) returns (t': State)
    requires Inv(s) && Reaches(s, t) && c < |t.pc| && t.pc[c] == Idle && t.lock == 0
    ensures Reaches(s, t') && t'.pc == t.pc[c := NullHeld] && t'.list == []
    decreases |t.list|
  {
    hide Inv, Reaches;
    if t.list == [] {
      t' := GetsNull(s, t, c);
    } else {
      t' := Allocates(s, t, c);
      t' := UsesUp(s, t', c);
    }
  }

  /** From boot, whatever the pool's size: a core that keeps allocating gets NULL and the lock. */
  lemma NullReached(s: State, c: nat) returns (t: State)
    requires Init(s) && c < |s.pc|
    ensures Reaches(s, t) && t.pc == s.pc[c := NullHeld] && t.list == []
  {
    InitInv(s);
    ReachesSelf(s);
    t := UsesUp(s, s, c);
  }
}
