/** The interleaved allocator of SpinAlloc refines the sequential one of Kalloc: whatever the cores do,
    their calls take effect one at a time, each at one of its instructions, and in that order
    AllocOnePage and FreeOnePage give the same answers and leave the same free list. */
module Linear {
  import opened SpinAlloc
  import opened Kalloc
  import Frames

  /** A call with its answer. */
  datatype Call = Took(core: nat, page: nat) | Gave(core: nat, page: nat) | Refused(core: nat)

  /** The call that takes effect in a step: at the store to pages.freelist, or at the test that
      finds it NULL. */
  function Decides(s: State, a: Action): seq<Call>
    requires Enabled(s, a)
  {
    if !a.Tick? then []
    else match s.pc[a.c]
      case StoreHead(p, _) => [Took(a.c, p)]
      case StoreFreed(p) => [Gave(a.c, p)]
      case TestHead(p) => if p == 0 then [Refused(a.c)] else []
      case _ => []
  }

  ghost function Calls(s: State, acts: seq<Action>): seq<Call>
    requires IsRun(s, acts)
    decreases |acts|
  {
    if acts == [] then [] else Decides(s, acts[0]) + Calls(Apply(s, acts[0]), acts[1..])
  }

  type OwnerMap = map<nat, Owner>

  /** The answer is the one owners and list demand: the first free page to whoever asks, a page back
      only from its owner, NULL only from an empty list. */
  predicate Can(owner: OwnerMap, list: seq<nat>, call: Call) {
    match call
    case Took(_, p) => list != [] && p == list[0] && p in owner && owner[p] == Nobody
    case Gave(c, p) => p in owner && owner[p] == Core(c)
    case Refused(_) => list == []
  }

  function NewOwner(owner: OwnerMap, call: Call): OwnerMap {
    match call
    case Took(c, p) => owner[p := Core(c)]
    case Gave(_, p) => owner[p := Nobody]
    case Refused(_) => owner
  }

  function NewList(list: seq<nat>, call: Call): seq<nat> {
    match call
    case Took(_, _) => if list == [] then [] else list[1..]
    case Gave(_, p) => [p] + list
    case Refused(_) => list
  }

  /** The calls can be made one after another, and none follows a refused one. */
  predicate Sequential(owner: OwnerMap, list: seq<nat>, calls: seq<Call>)
    decreases |calls|
  {
    calls == [] || (Can(owner, list, calls[0]) && (calls[0].Refused? ==> |calls| == 1)
                    && Sequential(NewOwner(owner, calls[0]), NewList(list, calls[0]), calls[1..]))
  }

  function Outcome(owner: OwnerMap, list: seq<nat>, calls: seq<Call>): (OwnerMap, seq<nat>)
    decreases |calls|
  {
    if calls == [] then (owner, list)
    else Outcome(NewOwner(owner, calls[0]), NewList(list, calls[0]), calls[1..])
  }

  ghost predicate TakesEffect(s: State, s': State, d: seq<Call>) {
    if d == [] then s'.owner == s.owner && s'.list == s.list
    else |d| == 1 && Can(s.owner, s.list, d[0])
         && s'.owner == NewOwner(s.owner, d[0]) && s'.list == NewList(s.list, d[0])
  }

  predicate Stores(pc: Pc) {
    pc.StoreHead? || pc.StoreFreed?
  }

  lemma QuietTick(s: State, c: nat)
    requires Enabled(s, Tick(c)) && !Stores(s.pc[c])
    ensures Execute(s, c).owner == s.owner && Execute(s, c).list == s.list
  {
    hide Owns;
  }

  lemma Popping(s: State, c: nat)
    requires Inv(s) && Enabled(s, Tick(c)) && s.pc[c].StoreHead?
    ensures TakesEffect(s, Execute(s, c), [Took(c, s.pc[c].page)])
  {
    assert PcOk(s, c, s.pc[c]);
    HeadFree(s);
    hide Inv, PcOk, ListOk, LockOk, PagesOk;
  }

  lemma Pushing(s: State, c: nat)
    requires Inv(s) && Enabled(s, Tick(c)) && s.pc[c].StoreFreed?
    ensures TakesEffect(s, Execute(s, c), [Gave(c, s.pc[c].page)])
  {
    assert PcOk(s, c, s.pc[c]);
    hide Inv, ListOk, LockOk, PagesOk;
  }

  lemma Testing(s: State, c: nat)
    requires Inv(s) && Enabled(s, Tick(c)) && s.pc[c].TestHead?
    ensures TakesEffect(s, Execute(s, c), if s.pc[c].page == 0 then [Refused(c)] else [])
  {
    assert PcOk(s, c, s.pc[c]);
    HeadFree(s);
    hide Inv, PcOk, ListOk, LockOk, PagesOk, MemoryThere;
  }

  /** A step that decides a call does to owners and list what the call says; every other step leaves
      them alone. */
  lemma StepDecides(s: State, a: Action)
    requires Inv(s) && Enabled(s, a)
    ensures TakesEffect(s, Apply(s, a), Decides(s, a))
  {
    hide Inv, MemoryThere, Can;
    if a.Tick? {
      var pc := s.pc[a.c];
      if pc.StoreHead? {
        Popping(s, a.c);
      } else if pc.StoreFreed? {
        Pushing(s, a.c);
      } else if pc.TestHead? {
        Testing(s, a.c);
      } else {
        QuietTick(s, a.c);
      }
    }
  }

  lemma NullDecides(s: State, a: Action, c: nat)
    requires Inv(s) && Enabled(s, a) && GotNull(s, c)
    ensures Decides(s, a) == []
  {
    GotNullHolds(s, c);
    hide Inv, MemoryThere;
  }

  /** After a NULL no call takes effect any more. */
  lemma {:induction false} NothingAfterNull(s: State, acts: seq<Action>, c: nat)
    requires Inv(s) && IsRun(s, acts) && GotNull(s, c)
    ensures Calls(s, acts) == []
    decreases |acts|
  {
    if acts != [] {
      NullDecides(s, acts[0], c);
      hide Inv, GotNull, Enabled, Apply, Decides;
      ApplyInv(s, acts[0]);
      GotNullStays(s, acts[0], c);
      NothingAfterNull(Apply(s, acts[0]), acts[1..], c);
    }
  }

  lemma RefusedIsNull(s: State, a: Action)
    requires Inv(s) && Enabled(s, a) && Decides(s, a) != [] && Decides(s, a)[0].Refused?
    ensures GotNull(Apply(s, a), a.c)
  {
    hide Inv, MemoryThere;
  }

  /** In every interleaving the calls are a sequential history, and owners and list are what that
      history leaves. */
  lemma {:induction false} Linearizes(s: State, acts: seq<Action>)
    requires Inv(s) && IsRun(s, acts)
    ensures Sequential(s.owner, s.list, Calls(s, acts))
    ensures Outcome(s.owner, s.list, Calls(s, acts)) == (After(s, acts).owner, After(s, acts).list)
    decreases |acts|
  {
    hide Inv, Enabled, Apply, Decides, Can, NewOwner, NewList, GotNull;
    if acts != [] {
      var a, s', rest := acts[0], Apply(s, acts[0]), acts[1..];
      ApplyInv(s, a);
      StepDecides(s, a);
      Linearizes(s', rest);
      var d, calls := Decides(s, a), Calls(s', rest);
      if d == [] {
        assert d + calls == calls;
      } else {
        if d[0].Refused? {
          RefusedIsNull(s, a);
          NothingAfterNull(s', rest, a.c);
        }
        assert (d + calls)[0] == d[0] && (d + calls)[1..] == calls;
      }
    }
  }

  // ---- every call is answered, once ----

  /** What core c asks for in an action. */
  function Request(a: Action, c: nat): seq<Op> {
    match a
    case CallAlloc(d) => if d == c then [Alloc] else []
    case CallFree(d, p) => if d == c then [Free(p)] else []
    case Reenter(d) => if d == c then [Alloc] else []
    case _ => []
  }

  function Requests(acts: seq<Action>, c: nat): seq<Op> {
    if acts == [] then [] else Request(acts[0], c) + Requests(acts[1..], c)
  }

  /** Core c's own calls. */
  function OwnCalls(calls: seq<Call>, c: nat): seq<Call> {
    if calls == [] then [] else (if calls[0].core == c then [calls[0]] else []) + OwnCalls(calls[1..], c)
  }

  function AnswerOf(call: Call): Op {
    match call
    case Took(_, _) => Alloc
    case Refused(_) => Alloc
    case Gave(_, p) => Free(p)
  }

  /** What the calls answer. */
  function Answered(calls: seq<Call>): (ops: seq<Op>)
    ensures |ops| == |calls|
  {
    if calls == [] then [] else [AnswerOf(calls[0])] + Answered(calls[1..])
  }

  /** What a core has been asked for and has not done yet. */
  function Owed(pc: Pc): seq<Op> {
    match pc
    case Zeroing(p, _) => [Free(p)]
    case CheckLock(op) => [op]
    case CheckCore(op) => [op]
    case Ldxr(op) => [op]
    case Cbnz(op, _) => [op]
    case Stxr(op) => [op]
    case SetCore(op) => [op]
    case LoadHead(op) => [op]
    case TestHead(_) | LoadNext(_) | StoreHead(_, _) | RecheckLock | RecheckCore => [Alloc]
    case StoreNext(p, _) => [Free(p)]
    case StoreFreed(p) => [Free(p)]
    case _ => []
  }

  lemma {:induction false} OwnCallsPlus(a: seq<Call>, b: seq<Call>, c: nat)
    ensures OwnCalls(a + b, c) == OwnCalls(a, c) + OwnCalls(b, c)
  {
    if a == [] {
      assert a + b == b;
      assert OwnCalls(a, c) == [] && [] + OwnCalls(b, c) == OwnCalls(b, c);
    } else {
      var t, x := a[1..], if a[0].core == c then [a[0]] else [];
      assert (a + b)[1..] == t + b && (a + b)[0] == a[0];
      assert OwnCalls(a + b, c) == x + OwnCalls(t + b, c) && OwnCalls(a, c) == x + OwnCalls(t, c);
      OwnCallsPlus(t, b, c);
      hide OwnCalls;
      assert x + (OwnCalls(t, c) + OwnCalls(b, c)) == (x + OwnCalls(t, c)) + OwnCalls(b, c);
    }
  }

  lemma {:induction false} AnsweredPlus(a: seq<Call>, b: seq<Call>)
    ensures Answered(a + b) == Answered(a) + Answered(b)
  {
    if a == [] {
      assert a + b == b;
      assert Answered(a) == [] && [] + Answered(b) == Answered(b);
    } else {
      var t, x := a[1..], [AnswerOf(a[0])];
      assert (a + b)[1..] == t + b && (a + b)[0] == a[0];
      assert Answered(a + b) == x + Answered(t + b) && Answered(a) == x + Answered(t);
      AnsweredPlus(t, b);
      hide Answered;
      assert x + (Answered(t) + Answered(b)) == (x + Answered(t)) + Answered(b);
    }
  }

  /** On the way to the lock. */
  predicate Entering(pc: Pc) {
    || pc.Zeroing? || pc.CheckLock? || pc.CheckCore? || pc.Ldxr? || pc.Cbnz? || pc.Stxr? || pc.SetCore?
    || pc.RecheckLock? || pc.RecheckCore?
  }

  lemma EnteringStays(s: State, c: nat, d: nat)
    requires Enabled(s, Tick(c)) && Entering(s.pc[c]) && d < |s.pc| && d != c
    ensures |Execute(s, c).pc| == |s.pc| && Execute(s, c).pc[d] == s.pc[d]
  {
    hide Owns, MemoryThere;
  }

  lemma LeavingStays(s: State, c: nat, d: nat)
    requires Enabled(s, Tick(c)) && !Entering(s.pc[c]) && d < |s.pc| && d != c
    ensures |Execute(s, c).pc| == |s.pc| && Execute(s, c).pc[d] == s.pc[d]
  {
    hide Owns, MemoryThere;
  }

  lemma OtherTickStays(s: State, c: nat, d: nat)
    requires c < |s.pc| && Enabled(s, Tick(c)) && d < |s.pc| && d != c
    ensures |Execute(s, c).pc| == |s.pc| && Execute(s, c).pc[d] == s.pc[d]
  {
    hide Enabled, Execute, Entering;
    if Entering(s.pc[c]) { EnteringStays(s, c, d); } else { LeavingStays(s, c, d); }
  }

  lemma DecidesOwn(s: State, a: Action)
    requires Enabled(s, a)
    ensures Decides(s, a) == [] || (|Decides(s, a)| == 1 && Decides(s, a)[0].core == a.c)
  {}

  lemma OneCall(d: seq<Call>, c: nat)
    requires d == [] || |d| == 1
    ensures OwnCalls(d, c) == if d != [] && d[0].core == c then d else []
    ensures Answered(d) == if d == [] then [] else [AnswerOf(d[0])]
  {}

  /** Steps of other cores concern c in nothing. */
  lemma OtherStep(s: State, a: Action, c: nat)
    requires Enabled(s, a) && c < |s.pc| && a.c != c
    ensures |Apply(s, a).pc| == |s.pc| && Apply(s, a).pc[c] == s.pc[c]
    ensures Request(a, c) == [] && OwnCalls(Decides(s, a), c) == []
  {
    hide Decides, Owns, MemoryThere, Execute;
    if a.Tick? { OtherTickStays(s, a.c, c); }
    DecidesOwn(s, a);
    OneCall(Decides(s, a), c);
  }

  /** An instruction answers what its core owed, or leaves it owed. */
  ghost predicate Settles(s: State, c: nat)
    requires Enabled(s, Tick(c))
  {
    && |Execute(s, c).pc| == |s.pc|
    && (!Execute(s, c).pc[c].Aborted? ==>
          var d := Decides(s, Tick(c));
          if d == [] then Owed(Execute(s, c).pc[c]) == Owed(s.pc[c])
          else |d| == 1 && Owed(s.pc[c]) == [AnswerOf(d[0])] && Owed(Execute(s, c).pc[c]) == [])
  }

  lemma EnteringTick(s: State, c: nat)
    requires Enabled(s, Tick(c)) && Entering(s.pc[c])
    ensures Settles(s, c)
  {
    hide MemoryThere, Owns;
  }

  lemma LeavingTick(s: State, c: nat)
    requires Enabled(s, Tick(c)) && !Entering(s.pc[c]) && (s.pc[c].Unlock? ==> AfterOk(s, c, s.pc[c].after))
    ensures Settles(s, c)
  {
    hide MemoryThere, Owns;
  }

  lemma OwnTick(s: State, c: nat)
    requires c < |s.pc| && Enabled(s, Tick(c)) && (s.pc[c].Unlock? ==> AfterOk(s, c, s.pc[c].after))
    ensures Settles(s, c)
  {
    hide Settles, Enabled, Entering;
    if Entering(s.pc[c]) { EnteringTick(s, c); } else { LeavingTick(s, c); }
  }

  /** A step answers what it was asked for, or owes it still. */
  lemma OwnStep(s: State, a: Action)
    requires Enabled(s, a) && (s.pc[a.c].Unlock? ==> AfterOk(s, a.c, s.pc[a.c].after))
    ensures |Apply(s, a).pc| == |s.pc| && OwnCalls(Decides(s, a), a.c) == Decides(s, a)
    ensures !Apply(s, a).pc[a.c].Aborted? ==>
              && !s.pc[a.c].Aborted?
              && Owed(s.pc[a.c]) + Request(a, a.c) == Answered(Decides(s, a)) + Owed(Apply(s, a).pc[a.c])
  {
    DecidesOwn(s, a);
    OneCall(Decides(s, a), a.c);
    if a.Tick? {
      OwnTick(s, a.c);
      hide Execute, Owed, Decides, MemoryThere;
    } else {
      hide MemoryThere, Owns;
    }
  }

  lemma StepOwed(s: State, a: Action, c: nat)
    requires Inv(s) && Enabled(s, a) && c < |s.pc|
    ensures |Apply(s, a).pc| == |s.pc|
    ensures !Apply(s, a).pc[c].Aborted? ==>
              && !s.pc[c].Aborted?
              && Owed(s.pc[c]) + Request(a, c) == Answered(OwnCalls(Decides(s, a), c)) + Owed(Apply(s, a).pc[c])
  {
    if a.c == c {
      assert PcOk(s, c, s.pc[c]);
      hide Inv;
      OwnStep(s, a);
    } else {
      hide Inv;
      OtherStep(s, a, c);
      assert Answered([]) == [];
    }
  }

  lemma Chain(a: seq<Op>, r: seq<Op>, rs: seq<Op>, d: seq<Op>, b: seq<Op>, ds: seq<Op>, e: seq<Op>)
    requires a + r == d + b && b + rs == ds + e
    ensures a + (r + rs) == (d + ds) + e
  {
    assert a + (r + rs) == (a + r) + rs == (d + b) + rs == d + (b + rs) == d + (ds + e) == (d + ds) + e;
  }

  /** Over every run, what core c owed and was asked for is what its calls answered and what it owes
      in the end, in that order. */
  lemma {:induction false} RunOwed(s: State, acts: seq<Action>, c: nat)
    requires Inv(s) && IsRun(s, acts) && c < |s.pc|
    ensures |After(s, acts).pc| == |s.pc|
    ensures !After(s, acts).pc[c].Aborted? ==>
              && !s.pc[c].Aborted?
              && Owed(s.pc[c]) + Requests(acts, c)
                 == Answered(OwnCalls(Calls(s, acts), c)) + Owed(After(s, acts).pc[c])
    decreases |acts|
  {
    if acts == [] {
      assert Owed(s.pc[c]) + [] == [] + Owed(s.pc[c]);
    } else {
      var a, s', rest := acts[0], Apply(s, acts[0]), acts[1..];
      StepOwed(s, a, c);
      ApplyInv(s, a);
      hide Inv, Apply, Enabled, Owed, Request, Decides;
      RunOwed(s', rest, c);
      OwnCallsPlus(Decides(s, a), Calls(s', rest), c);
      var d, ds := OwnCalls(Decides(s, a), c), OwnCalls(Calls(s', rest), c);
      AnsweredPlus(d, ds);
      if !After(s, acts).pc[c].Aborted? {
        Chain(Owed(s.pc[c]), Request(a, c), Requests(rest, c), Answered(d), Owed(s'.pc[c]), Answered(ds),
              Owed(After(s, acts).pc[c]));
      }
    }
  }

  /** From boot, a core that is back outside the allocator, or got NULL, has had every call answered
      exactly once and in order: each alloc with a page or NULL, each free of a page with that page
      linked in front. */
  lemma EveryCallAnswered(s: State, acts: seq<Action>, c: nat)
    requires Init(s) && IsRun(s, acts) && c < |s.pc| && |After(s, acts).pc| == |s.pc|
    requires After(s, acts).pc[c] == Idle || After(s, acts).pc[c] == NullHeld
    ensures Answered(OwnCalls(Calls(s, acts), c)) == Requests(acts, c)
  {
    hide Init, Inv, IsRun, Calls, Requests, OwnCalls, Answered;
    InitInv(s);
    AtFirstIdle(s, c);
    RunOwed(s, acts, c);
    var done := Answered(OwnCalls(Calls(s, acts), c));
    assert [] + Requests(acts, c) == Requests(acts, c) && done + [] == done;
  }

  lemma AtFirstIdle(s: State, c: nat)
    requires Init(s) && c < |s.pc|
    ensures s.pc[c] == Idle
  {}

  /** A core that was given NULL is never outside again. */
  lemma {:induction false} RefusedStays(s: State, acts: seq<Action>, c: nat)
    requires Inv(s) && IsRun(s, acts) && Refused(c) in Calls(s, acts)
    ensures GotNull(After(s, acts), c)
    decreases |acts|
  {
    hide Inv, GotNull, Apply, Enabled, Decides;
    var a, s', rest := acts[0], Apply(s, acts[0]), acts[1..];
    ApplyInv(s, a);
    if Refused(c) in Decides(s, a) {
      DecidesOwn(s, a);
      RefusedIsNull(s, a);
      NullKeepsLock(s', rest, c);
    } else {
      RefusedStays(s', rest, c);
    }
  }

  lemma {:induction false} OwnCallsIn(calls: seq<Call>, c: nat)
    ensures forall call :: call in OwnCalls(calls, c) ==> call in calls && call.core == c
  {
    if calls != [] { OwnCallsIn(calls[1..], c); }
  }

  /** One free: between the call and the return exactly one Gave of that page, and nothing else. */
  lemma OneFree(s: State, acts: seq<Action>, c: nat, p: nat)
    requires Inv(s) && IsRun(s, acts) && c < |s.pc| == |After(s, acts).pc|
    requires s.pc[c] == Idle && Requests(acts, c) == [Free(p)] && After(s, acts).pc[c] == Idle
    ensures OwnCalls(Calls(s, acts), c) == [Gave(c, p)]
  {
    RunOwed(s, acts, c);
    var own := OwnCalls(Calls(s, acts), c);
    OwnCallsIn(Calls(s, acts), c);
    hide Inv, IsRun;
    assert Answered(own) + [] == Answered(own) && [] + [Free(p)] == [Free(p)];
    JustOne(own, Free(p));
  }

  lemma JustOne(own: seq<Call>, op: Op)
    requires Answered(own) == [op]
    ensures |own| == 1
    ensures AnswerOf(own[0]) == op
  {
    assert |own| == 1;
  }

  // ---- the page that is returned ----

  /** The page a core is about to return. */
  function Returning(pc: Pc): seq<nat> {
    match pc
    case Clearing(p, _) => [p]
    case UnlockLock(after) => if after.Clearing? then [after.page] else []
    case UnlockCore(after) => if after.Clearing? then [after.page] else []
    case Unlock(after) => if after.Clearing? then [after.page] else []
    case _ => []
  }

  lemma StepReturning(s: State, a: Action, c: nat)
    requires Enabled(s, a) && c < |s.pc| && (s.pc[c].Unlock? ==> AfterOk(s, c, s.pc[c].after))
    ensures |Apply(s, a).pc| == |s.pc|
    ensures Returning(Apply(s, a).pc[c]) != [] ==>
              if OwnCalls(Decides(s, a), c) == [] then Returning(s.pc[c]) == Returning(Apply(s, a).pc[c])
              else OwnCalls(Decides(s, a), c) == [Took(c, Returning(Apply(s, a).pc[c])[0])]
  {
    DecidesOwn(s, a);
    OneCall(Decides(s, a), c);
    hide OwnCalls, Answered;
    if a.c != c {
      OtherStep(s, a, c);
      hide Apply, Decides, Enabled;
    } else if a.Tick? {
      TickReturning(s, c);
      hide Execute, Decides, MemoryThere;
    }
  }

  ghost predicate Returns(s: State, c: nat)
    requires Enabled(s, Tick(c))
  {
    && |Execute(s, c).pc| == |s.pc|
    && var page := Returning(Execute(s, c).pc[c]);
    page != [] ==> if Decides(s, Tick(c)) == [] then Returning(s.pc[c]) == page
                   else Decides(s, Tick(c)) == [Took(c, page[0])]
  }

  lemma EnteringReturns(s: State, c: nat)
    requires Enabled(s, Tick(c)) && Entering(s.pc[c])
    ensures Returns(s, c)
  {
    hide MemoryThere, Owns;
  }

  lemma LeavingReturns(s: State, c: nat)
    requires Enabled(s, Tick(c)) && !Entering(s.pc[c]) && (s.pc[c].Unlock? ==> AfterOk(s, c, s.pc[c].after))
    ensures Returns(s, c)
  {
    hide MemoryThere, Owns;
  }

  lemma TickReturning(s: State, c: nat)
    requires c < |s.pc| && Enabled(s, Tick(c)) && (s.pc[c].Unlock? ==> AfterOk(s, c, s.pc[c].after))
    ensures Returns(s, c)
  {
    hide Returns, Enabled, Entering;
    if Entering(s.pc[c]) { EnteringReturns(s, c); } else { LeavingReturns(s, c); }
  }

  /** The page is that of the last of the core's calls; without one it was on its way before. */
  ghost predicate TookIt(own: seq<Call>, c: nat, before: seq<nat>, page: seq<nat>) {
    page != [] ==> if own == [] then before == page else own[|own| - 1] == Took(c, page[0])
  }

  lemma TookLater(a: seq<Call>, b: seq<Call>, c: nat, x: seq<nat>, y: seq<nat>, z: seq<nat>)
    requires TookIt(a, c, x, y) && TookIt(b, c, y, z)
    ensures TookIt(a + b, c, x, z)
  {}

  lemma OneReturning(s: State, a: Action, c: nat)
    requires Inv(s) && Enabled(s, a) && c < |s.pc|
    ensures |Apply(s, a).pc| == |s.pc|
    ensures TookIt(OwnCalls(Decides(s, a), c), c, Returning(s.pc[c]), Returning(Apply(s, a).pc[c]))
  {
    assert PcOk(s, c, s.pc[c]);
    hide Inv, OwnCalls, Returning, Decides;
    StepReturning(s, a, c);
  }

  lemma {:induction false} ReturningTook(s: State, acts: seq<Action>, c: nat)
    requires Inv(s) && IsRun(s, acts) && c < |s.pc|
    ensures |After(s, acts).pc| == |s.pc|
    ensures TookIt(OwnCalls(Calls(s, acts), c), c, Returning(s.pc[c]), Returning(After(s, acts).pc[c]))
    decreases |acts|
  {
    if acts != [] {
      var a, s', rest := acts[0], Apply(s, acts[0]), acts[1..];
      hide Inv, Apply, Enabled, Returning, Decides, TookIt;
      OneReturning(s, a, c);
      ApplyInv(s, a);
      ReturningTook(s', rest, c);
      OwnCallsPlus(Decides(s, a), Calls(s', rest), c);
      TookLater(OwnCalls(Decides(s, a), c), OwnCalls(Calls(s', rest), c), c,
                Returning(s.pc[c]), Returning(s'.pc[c]), Returning(After(s, acts).pc[c]));
    }
  }

  /** alloc_one_page returns the page its call took off the list, zero throughout and the core's. */
  lemma AllocReturns(s: State, acts: seq<Action>, c: nat, p: nat)
    requires Init(s) && IsRun(s, acts) && c < |s.pc| == |After(s, acts).pc| && After(s, acts).pc[c] == Clearing(p, 512)
    ensures var own := OwnCalls(Calls(s, acts), c); own != [] && own[|own| - 1] == Took(c, p)
    ensures var r := After(s, acts);
            && Enabled(r, Tick(c)) && |Execute(r, c).pc| == |r.pc| && Execute(r, c).pc[c] == Idle
            && Owns(Execute(r, c), c, p) && forall j :: 0 <= j < 512 ==> Execute(r, c).mem[p][j] == 0
  {
    InitInv(s);
    RunInv(s, acts);
    ReturningTook(s, acts, c);
    hide Inv, Init, IsRun;
    NeverPruned(After(s, acts), c);
    ReturnsZeroedPage(After(s, acts), c);
  }

  /** Core c writes no page itself. */
  predicate NoWrites(acts: seq<Action>, c: nat) {
    forall i :: 0 <= i < |acts| ==> !(acts[i].ClientWrite? && acts[i].c == c)
  }

  /** Core c is about to return page p, or has it: owned, and zero throughout. */
  ghost predicate HasPage(s: State, c: nat, p: nat) {
    c < |s.pc| && (Returning(s.pc[c]) == [p] || (s.pc[c] == Idle && Owns(s, c, p) && Zeros(s.mem[p], 0, 512)))
  }

  lemma OthersKeepPage(s: State, a: Action, c: nat, p: nat)
    requires Inv(s) && Enabled(s, a) && HasPage(s, c, p) && a.c != c
    ensures HasPage(Apply(s, a), c, p)
  {
    OtherStep(s, a, c);
    if s.pc[c] == Idle { WritesOwnPages(s, a, p); }
    hide Inv, Enabled, Apply, Request, Decides;
  }

  lemma OwnKeepsPage(s: State, a: Action, p: nat)
    requires Inv(s) && Enabled(s, a) && HasPage(s, a.c, p) && Request(a, a.c) == [] && !a.ClientWrite?
    ensures HasPage(Apply(s, a), a.c, p)
  {
    if a.Tick? {
      assert PcOk(s, a.c, s.pc[a.c]);
      if Holding(s.pc[a.c]) { HolderHasLock(s, a.c); }
      hide Inv, MemoryThere;
      TickKeepsPage(s, a.c, p);
    } else {
      hide Inv, MemoryThere;
    }
  }

  /** Unlocking and clearing lead to the return. */
  lemma TickKeepsPage(s: State, c: nat, p: nat)
    requires Enabled(s, Tick(c)) && HasPage(s, c, p) && PcOk(s, c, s.pc[c])
    requires Holding(s.pc[c]) ==> s.lock == 1
    ensures HasPage(Execute(s, c), c, p)
  {
    hide MemoryThere;
    var pc := s.pc[c];
    assert Returning(pc) == [p] && (pc.UnlockLock? || pc.UnlockCore? || pc.Unlock? || pc.Clearing?);
  }

  lemma NoWritesTail(acts: seq<Action>, c: nat)
    requires acts != [] && NoWrites(acts, c)
    ensures NoWrites(acts[1..], c) && !(acts[0].ClientWrite? && acts[0].c == c)
  {}

  lemma OneKeepsPage(s: State, a: Action, c: nat, p: nat)
    requires Inv(s) && Enabled(s, a) && HasPage(s, c, p) && Request(a, c) == [] && !(a.ClientWrite? && a.c == c)
    ensures Inv(Apply(s, a)) && HasPage(Apply(s, a), c, p)
  {
    hide Inv, Enabled, Apply, HasPage, Request;
    ApplyInv(s, a);
    if a.c == c { OwnKeepsPage(s, a, p); } else { OthersKeepPage(s, a, c, p); }
  }

  lemma {:induction false} KeepsPage(s: State, acts: seq<Action>, c: nat, p: nat)
    requires Inv(s) && IsRun(s, acts) && HasPage(s, c, p) && Requests(acts, c) == [] && NoWrites(acts, c)
    ensures HasPage(After(s, acts), c, p)
    decreases |acts|
  {
    hide Inv, Enabled, Apply, HasPage, Request, NoWrites;
    if acts != [] {
      NoWritesTail(acts, c);
      OneKeepsPage(s, acts[0], c, p);
      KeepsPage(Apply(s, acts[0]), acts[1..], c, p);
    }
  }

  lemma TookPage(s: State, a: Action, p: nat)
    requires Enabled(s, a) && Decides(s, a) == [Took(a.c, p)]
    ensures HasPage(Apply(s, a), a.c, p)
  {
    hide MemoryThere, Owns;
  }

  /** With one request outstanding, the page taken is the page the core has when it is back outside. */
  lemma {:induction false} TookIsHeld(s: State, acts: seq<Action>, c: nat, p: nat)
    requires Inv(s) && IsRun(s, acts) && c < |s.pc| == |After(s, acts).pc| && !After(s, acts).pc[c].Aborted?
    requires OwnCalls(Calls(s, acts), c) == [Took(c, p)] && |Owed(s.pc[c])| + |Requests(acts, c)| == 1
    requires NoWrites(acts, c)
    ensures HasPage(After(s, acts), c, p)
    decreases |acts|
  {
    hide Inv, Enabled, Apply, HasPage, Request, Owed, Decides, NoWrites, OwnCalls, Answered;
    if acts == [] {
      NoCalls(c);
    } else {
      var a, s', rest := acts[0], Apply(s, acts[0]), acts[1..];
      StepOwed(s, a, c);
      ApplyInv(s, a);
      RunOwed(s', rest, c);
      NoWritesTail(acts, c);
      OwnCallsPlus(Decides(s, a), Calls(s', rest), c);
      var d, ds := OwnCalls(Decides(s, a), c), OwnCalls(Calls(s', rest), c);
      assert |Owed(s.pc[c])| + |Request(a, c)| == |d| + |Owed(s'.pc[c])|;
      if d == [] {
        assert ds == [Took(c, p)];
        TookIsHeld(s', rest, c, p);
      } else {
        DecidesOwn(s, a);
        OneCall(Decides(s, a), c);
        assert d == [(d + ds)[0]];
        TookPage(s, a, p);
        KeepsPage(s', rest, c, p);
      }
    }
  }

  lemma NoCalls(c: nat)
    ensures OwnCalls([], c) == []
  {}

  /** One alloc: exactly one Took, of a page the core then owns, zero throughout unless the core has
      written it since. */
  lemma OneAlloc(s: State, acts: seq<Action>, c: nat)
    requires Inv(s) && IsRun(s, acts) && c < |s.pc| == |After(s, acts).pc|
    requires s.pc[c] == Idle && Requests(acts, c) == [Alloc] && After(s, acts).pc[c] == Idle
    ensures exists p :: OwnCalls(Calls(s, acts), c) == [Took(c, p)]
                        && (NoWrites(acts, c) ==> Owns(After(s, acts), c, p)
                                                  && forall j :: 0 <= j < 512 ==> After(s, acts).mem[p][j] == 0)
  {
    RunOwed(s, acts, c);
    var own := OwnCalls(Calls(s, acts), c);
    OwnCallsIn(Calls(s, acts), c);
    if Refused(c) in Calls(s, acts) { RefusedStays(s, acts, c); }
    hide Inv, IsRun, NoWrites, Requests;
    assert Answered(own) + [] == Answered(own) && [] + [Alloc] == [Alloc];
    JustOne(own, Alloc);
    assert own[0] in own;
    var p := own[0].page;
    assert own == [Took(c, p)];
    if NoWrites(acts, c) { TookIsHeld(s, acts, c, p); }
  }

  // ---- the sequential allocator ----

  /** The roles of Frames: a page a core owns is held. */
  function Roles(owner: OwnerMap): Frames.Owners {
    map p | p in owner :: if owner[p] == Nobody then Frames.Free else Frames.Held
  }

  lemma RolesNext(owner: OwnerMap, list: seq<nat>, call: Call)
    requires Can(owner, list, call)
    ensures Roles(NewOwner(owner, call)) == match call
                                            case Took(_, p) => Roles(owner)[p := Frames.Held]
                                            case Gave(_, p) => Roles(owner)[p := Frames.Free]
                                            case Refused(_) => Roles(owner)
    ensures call.Gave? ==> call.page in Roles(owner) && Roles(owner)[call.page] == Frames.Held
  {}

  lemma NotZero(k: Machine, p: nat)
    requires k.KallocOk() && p in k.own
    ensures p > 0
  {}

  /** What the calls were answered: the page's address, or NULL. */
  predicate Answers(calls: seq<Call>, got: seq<nat>) {
    |got| == |calls| && forall i :: 0 <= i < |calls| ==> AnswerIs(calls[i], got[i])
  }

  predicate AnswerIs(call: Call, got: nat) {
    match call
    case Took(_, p) => got == p * 4096
    case Refused(_) => got == 0
    case Gave(_, _) => true
  }

  lemma OneMore(calls: seq<Call>, first: nat, got: seq<nat>)
    requires calls != [] && AnswerIs(calls[0], first) && Answers(calls[1..], got)
    ensures Answers(calls, [first] + got)
  {}

  /** One call to the sequential allocator. */
  method ServeOne(k: Machine, ghost owner: OwnerMap, ghost list: seq<nat>, call: Call) returns (page: nat)
    requires k.KallocOk() && !k.locked && k.own == Roles(owner) && k.free == list
    requires Can(owner, list, call)
    modifies k`locked, k`freelist, k`own, k`free, k.mem
    ensures k.KallocOk() && k.own == Roles(NewOwner(owner, call)) && k.free == NewList(list, call)
    ensures (k.locked <==> call.Refused?) && AnswerIs(call, page)
  {
    hide Frames.PagePool, DataKept, RolesKept, Roles;
    RolesNext(owner, list, call);
    if call.Gave? {
      NotZero(k, call.page);
      k.FreeOnePage(call.page * 4096, call.page);
      page := 0;
    } else {
      page := k.AllocOnePage();
    }
  }

  /** The sequential allocator given the same calls one by one: each alloc_one_page returns the page
      its call got, and owners and list end up the same. */
  method Serve(k: Machine, ghost owner: OwnerMap, ghost list: seq<nat>, calls: seq<Call>)
    returns (got: seq<nat>)
    requires k.KallocOk() && !k.locked && k.own == Roles(owner) && k.free == list
    requires Sequential(owner, list, calls)
    modifies k`locked, k`freelist, k`own, k`free, k.mem
    ensures k.KallocOk()
    ensures k.own == Roles(Outcome(owner, list, calls).0) && k.free == Outcome(owner, list, calls).1
    ensures k.locked <==> calls != [] && calls[|calls| - 1].Refused?
    ensures Answers(calls, got)
    decreases |calls|
  {
    hide Frames.PagePool, Roles, Can, NewOwner, NewList, AnswerIs, Answers;
    if calls == [] {
      NoAnswers();
      return [];
    }
    var call := calls[0];
    var page := ServeOne(k, owner, list, call);
    ghost var owner', list' := NewOwner(owner, call), NewList(list, call);
    if call.Refused? {
      NoAnswers();
      got := [];
    } else {
      got := Serve(k, owner', list', calls[1..]);
    }
    OneMore(calls, page, got);
    got := [page] + got;
  }

  lemma NoAnswers()
    ensures Answers([], [])
  {}

  /** So the sequential allocator, started as the cores started, does what they did. */
  method Agrees(k: Machine, ghost s: State, ghost acts: seq<Action>, calls: seq<Call>) returns (got: seq<nat>)
    requires Init(s) && IsRun(s, acts) && calls == Calls(s, acts)
    requires k.KallocOk() && !k.locked && k.own == Roles(s.owner) && k.free == s.list
    modifies k`locked, k`freelist, k`own, k`free, k.mem
    ensures k.KallocOk() && k.own == Roles(After(s, acts).owner) && k.free == After(s, acts).list
    ensures (k.locked <==> calls != [] && calls[|calls| - 1].Refused?) && Answers(calls, got)
  {
    InitInv(s);
    Linearizes(s, acts);
    hide Init, Inv, Frames.PagePool;
    got := Serve(k, s.owner, s.list, calls);
  }
}
