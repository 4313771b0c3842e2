/** The page pool as a transition system: any number of tasks, in every interleaving. */
module PoolProtocol {
  import opened Json
  import opened PoolState

  /** Where one `acquire` is. From `Granted` on the task holds a permit. */
  datatype Pc =
    | Waiting                // for a permit
    | Granted                // permit given, not resumed yet
    | Checking(page: Page)   // waiting for the liveness round-trip
    | Creating               // waiting for a new tab
    | Recovering             // dead page dropped, waiting for its replacement
    | Queued                 // waiting for a page to come back
    | Using(page: Page)
    | Done

  datatype System = System(pool: Pool, tasks: seq<Pc>, nextPage: Page, now: int)

  /** Checkouts, returns, page creations, recoveries, failures, sweeps and suspensions: each event is one
      stretch of code between two awaits. `park` is taken as one step, guarded by zero outstanding leases. */
  datatype Event =
    | Arrive
    | Grant(i: nat)
    | GiveUp(i: nat)         // POOL_CHECKOUT_TIMEOUT
    | Revoke(i: nat)         // cancelled with the permit already given, which goes back
    | Choose(i: nat)
    | Created(i: nat)
    | OpenFails(i: nat)      // a new tab cannot be opened, or the task is cancelled meanwhile
    | Alive(i: nat)
    | Dead(i: nat)
    | Cancelled(i: nat)      // during the liveness check
    | Recovered(i: nat)
    | Return(i: nat)
    | FromQueue(i: nat)
    | QueueTimeout(i: nat)
    | Sweep
    | Suspend
    | Resume
    | Tick(elapsed: nat)

  function Move(s: System, i: nat, pool: Pool, pc: Pc): System
    requires i < |s.tasks|
  {
    s.(pool := pool, tasks := s.tasks[i := pc])
  }

  /** After the permit: an idle page, or room for a new one, or the queue. A parked pool has no context,
      so opening a tab fails on the spot. */
  function ChooseStep(s: System, c: Config, i: nat): System
    requires i < |s.tasks| && s.tasks[i].Granted?
  {
    var p := s.pool.(checkouts := s.pool.checkouts + 1);
    if p.available != [] then Move(s, i, p.(available := p.available[1..]), Checking(p.available[0]))
    else if |p.allPages| < c.maxPages then
      if p.suspended then Move(s, i, Finish(p, None, s.now), Done) else Move(s, i, p, Creating)
    else Move(s, i, p, Queued)
  }

  function Next(s: System, c: Config, e: Event): System {
    match e
    case Arrive => if s.pool.suspended then s else s.(tasks := s.tasks + [Waiting])
    case Grant(i) =>
      if i < |s.tasks| && s.tasks[i].Waiting? && s.pool.permits > 0 then
        Move(s, i, s.pool.(permits := s.pool.permits - 1), Granted)
      else s
    case GiveUp(i) => if i < |s.tasks| && s.tasks[i].Waiting? then Move(s, i, s.pool, Done) else s
    case Revoke(i) =>
      if i < |s.tasks| && s.tasks[i].Granted? then Move(s, i, s.pool.(permits := s.pool.permits + 1), Done) else s
    case Choose(i) => if i < |s.tasks| && s.tasks[i].Granted? then ChooseStep(s, c, i) else s
    case Created(i) =>
      if i < |s.tasks| && s.tasks[i].Creating? then
        Move(s, i, AddPage(s.pool, s.nextPage, s.now), Checking(s.nextPage)).(nextPage := s.nextPage + 1)
      else s
    case OpenFails(i) =>
      if i < |s.tasks| && (s.tasks[i].Creating? || s.tasks[i].Recovering?) then Move(s, i, Finish(s.pool, None, s.now), Done) else s
    case Alive(i) =>
      if i < |s.tasks| && s.tasks[i].Checking? then Move(s, i, s.pool, Using(s.tasks[i].page)) else s
    case Dead(i) =>
      if i < |s.tasks| && s.tasks[i].Checking? then Move(s, i, DropPage(s.pool, s.tasks[i].page), Recovering) else s
    case Cancelled(i) =>
      if i < |s.tasks| && s.tasks[i].Checking? then
        Move(s, i, Finish(s.pool, Some(s.tasks[i].page), s.now), Done)
      else s
    case Recovered(i) =>
      if i < |s.tasks| && s.tasks[i].Recovering? then
        Move(s, i, AddPage(s.pool, s.nextPage, s.now), Using(s.nextPage)).(nextPage := s.nextPage + 1)
      else s
    case Return(i) =>
      if i < |s.tasks| && s.tasks[i].Using? then
        Move(s, i, Finish(s.pool, Some(s.tasks[i].page), s.now), Done)
      else s
    case FromQueue(i) =>
      if i < |s.tasks| && s.tasks[i].Queued? && s.pool.available != [] then
        Move(s, i, s.pool.(available := s.pool.available[1..]), Checking(s.pool.available[0]))
      else s
    case QueueTimeout(i) => if i < |s.tasks| && s.tasks[i].Queued? then Move(s, i, Finish(s.pool, None, s.now), Done) else s
    case Sweep => s.(pool := Reap(s.pool, c, s.now))
    case Suspend =>
      if !s.pool.suspended && Outstanding(s.pool) == 0 then s.(pool := Park(s.pool)) else s
    case Resume =>
      if s.pool.suspended then s.(pool := Rebind(s.pool, s.nextPage, s.now), nextPage := s.nextPage + 1) else s
    case Tick(elapsed) => s.(now := s.now + elapsed)
  }

  function Run(s: System, c: Config, events: seq<Event>): System
    decreases |events|
  {
    if events == [] then s else Run(Next(s, c, events[0]), c, events[1..])
  }

  /** A new pool seeded with the context's first page. */
  function Initial(c: Config, now: int): System {
    System(Pool(c.maxPages, [0], [0], map[0 := now], 0, 0, false), [], 1, now)
  }

  // ---------------------------------------------------------------- counting

  /** What a task past its permit occupies. */
  datatype Slot = Permit | Hold | Opening | Queue

  predicate Occupies(pc: Pc, slot: Slot) {
    match slot
    case Permit => pc.Granted?
    case Hold => pc.Checking? || pc.Using?
    case Opening => pc.Creating? || pc.Recovering?
    case Queue => pc.Queued?
  }

  function Unit(pc: Pc, slot: Slot): nat {
    if Occupies(pc, slot) then 1 else 0
  }

  function Count(tasks: seq<Pc>, slot: Slot): nat {
    if tasks == [] then 0 else Unit(tasks[0], slot) + Count(tasks[1..], slot)
  }

  /** The pages that tasks hold. */
  function HeldBy(pc: Pc): multiset<Page> {
    if pc.Checking? || pc.Using? then multiset{pc.page} else multiset{}
  }

  function Held(tasks: seq<Pc>): multiset<Page> {
    if tasks == [] then multiset{} else HeldBy(tasks[0]) + Held(tasks[1..])
  }

  lemma {:induction false} CountMove(tasks: seq<Pc>, i: nat, pc: Pc, slot: Slot)
    requires i < |tasks|
    ensures Count(tasks[i := pc], slot) == Count(tasks, slot) - Unit(tasks[i], slot) + Unit(pc, slot)
    ensures Count(tasks, slot) >= Unit(tasks[i], slot)
  {
    var tasks' := tasks[i := pc];
    if i > 0 {
      assert tasks'[1..] == tasks[1..][i - 1 := pc];
      CountMove(tasks[1..], i - 1, pc, slot);
    } else {
      assert tasks'[1..] == tasks[1..];
    }
  }

  lemma {:induction false} HeldMove(tasks: seq<Pc>, i: nat, pc: Pc)
    requires i < |tasks|
    ensures HeldBy(tasks[i]) <= Held(tasks)
    ensures Held(tasks[i := pc]) == Held(tasks) - HeldBy(tasks[i]) + HeldBy(pc)
  {
    hide Held, HeldBy;
    var tasks', tail := tasks[i := pc], tasks[1..];
    HeldSplit(tasks);
    HeldSplit(tasks');
    if i > 0 {
      assert tasks'[1..] == tail[i - 1 := pc];
      HeldMove(tail, i - 1, pc);
      assert HeldBy(tasks[0]) + Held(tail[i - 1 := pc]) == Held(tasks) - HeldBy(tasks[i]) + HeldBy(pc);
    } else {
      assert tasks'[1..] == tail;
      assert HeldBy(pc) + Held(tail) == Held(tasks) - HeldBy(tasks[0]) + HeldBy(pc);
    }
  }

  lemma HeldSplit(tasks: seq<Pc>)
    requires tasks != []
    ensures Held(tasks) == HeldBy(tasks[0]) + Held(tasks[1..])
  {
  }

  lemma {:induction false} CountArrive(tasks: seq<Pc>, slot: Slot)
    ensures Count(tasks + [Waiting], slot) == Count(tasks, slot)
    ensures Held(tasks + [Waiting]) == Held(tasks)
  {
    if tasks == [] {
      assert [Waiting][1..] == [];
      assert tasks + [Waiting] == [Waiting];
    } else {
      assert (tasks + [Waiting])[1..] == tasks[1..] + [Waiting];
      CountArrive(tasks[1..], slot);
    }
  }

  lemma Arrived(tasks: seq<Pc>)
    ensures forall slot :: Count(tasks + [Waiting], slot) == Count(tasks, slot)
    ensures Held(tasks + [Waiting]) == Held(tasks)
  {
    forall slot ensures Count(tasks + [Waiting], slot) == Count(tasks, slot) {
      CountArrive(tasks, slot);
    }
    CountArrive(tasks, Hold);
  }

  lemma {:induction false} HeldSize(tasks: seq<Pc>)
    ensures |Held(tasks)| == Count(tasks, Hold)
  {
    if tasks != [] {
      HeldSize(tasks[1..]);
      assert |HeldBy(tasks[0])| == Unit(tasks[0], Hold);
    }
  }

  lemma {:induction false} QueuedCounts(tasks: seq<Pc>, i: nat)
    requires i < |tasks| && tasks[i].Queued?
    ensures Count(tasks, Queue) > 0
  {
    if i > 0 {
      QueuedCounts(tasks[1..], i - 1);
    }
  }

  // ---------------------------------------------------------------- the invariant

  ghost predicate NoRepeats(pages: seq<Page>) {
    forall x :: multiset(pages)[x] <= 1
  }

  ghost predicate Inv(s: System, c: Config) {
    var p := s.pool;
    && p.permits + Count(s.tasks, Permit) + Count(s.tasks, Hold) + Count(s.tasks, Opening) == c.maxPages
    && Count(s.tasks, Queue) == 0
    && multiset(p.allPages) == multiset(p.available) + Held(s.tasks)
    && NoRepeats(p.allPages)
    && (forall x :: x in p.allPages ==> x < s.nextPage)
    && |p.allPages| + Count(s.tasks, Opening) <= c.maxPages
    && p.checkouts == p.returned + Count(s.tasks, Hold) + Count(s.tasks, Opening)
    && (p.suspended ==> p.allPages == [] && Count(s.tasks, Opening) == 0)
  }

  lemma Sizes(s: System)
    requires multiset(s.pool.allPages) == multiset(s.pool.available) + Held(s.tasks)
    ensures |s.pool.allPages| == |s.pool.available| + Count(s.tasks, Hold)
  {
    HeldSize(s.tasks);
    assert |multiset(s.pool.allPages)| == |multiset(s.pool.available)| + |Held(s.tasks)|;
  }

  /** A caller that has its permit finds an idle page or room for a new one: the queue is never used. */
  lemma RoomWhenGranted(s: System, c: Config, i: nat)
    requires Inv(s, c) && i < |s.tasks| && s.tasks[i].Granted?
    ensures s.pool.available != [] || |s.pool.allPages| + Count(s.tasks, Opening) < c.maxPages
  {
    Sizes(s);
    CountMove(s.tasks, i, Waiting, Permit);
  }

  lemma BagMove(all: multiset<Page>, idle: multiset<Page>, held: multiset<Page>,
                all': multiset<Page>, idle': multiset<Page>, out: multiset<Page>, into: multiset<Page>)
    requires all == idle + held && out <= held
    requires all' + idle + out == all + idle' + into
    ensures all' == idle' + (held - out + into)
  {
    forall x ensures all'[x] == (idle' + (held - out + into))[x] {
      assert (all' + idle + out)[x] == (all + idle' + into)[x];
    }
  }

  function Load(pc: Pc): nat {
    Unit(pc, Permit) + Unit(pc, Hold) + Unit(pc, Opening)
  }

  function Lease(pc: Pc): nat {
    Unit(pc, Hold) + Unit(pc, Opening)
  }

  /** What one task's move must balance for the invariant to survive: its permit, its page, the tab it
      is opening, and its lease. */
  ghost predicate Balanced(p: Pool, pc: Pc, p': Pool, pc': Pc) {
    && !pc'.Queued?
    && p'.permits + Load(pc') == p.permits + Load(pc)
    && multiset(p'.allPages) + multiset(p.available) + HeldBy(pc) ==
         multiset(p.allPages) + multiset(p'.available) + HeldBy(pc')
    && p'.checkouts + Lease(pc) + p.returned == p'.returned + Lease(pc') + p.checkouts
    && p'.suspended == p.suspended
    && (p.suspended ==> p'.allPages == [] && !Occupies(pc', Opening))
  }

  lemma MoveKeepsInv(s: System, c: Config, i: nat, pool: Pool, pc: Pc, nextPage: Page)
    requires Inv(s, c) && i < |s.tasks|
    requires Balanced(s.pool, s.tasks[i], pool, pc)
    requires |pool.allPages| + Count(s.tasks, Opening) + Unit(pc, Opening) <= c.maxPages + Unit(s.tasks[i], Opening)
    requires NoRepeats(pool.allPages) && forall x :: x in pool.allPages ==> x < nextPage
    ensures Inv(Move(s, i, pool, pc).(nextPage := nextPage), c)
  {
    hide Count, Held, HeldBy, NoRepeats;
    NoneQueued(s, c);
    CountMove(s.tasks, i, pc, Permit);
    CountMove(s.tasks, i, pc, Hold);
    CountMove(s.tasks, i, pc, Opening);
    CountMove(s.tasks, i, pc, Queue);
    HeldMove(s.tasks, i, pc);
    BagMove(multiset(s.pool.allPages), multiset(s.pool.available), Held(s.tasks),
            multiset(pool.allPages), multiset(pool.available), HeldBy(s.tasks[i]), HeldBy(pc));
  }

  lemma InvFacts(s: System, c: Config)
    requires Inv(s, c)
    ensures NoRepeats(s.pool.allPages) && forall x :: x in s.pool.allPages ==> x < s.nextPage
    ensures |s.pool.allPages| + Count(s.tasks, Opening) <= c.maxPages
    ensures s.pool.suspended ==> s.pool.allPages == [] && Count(s.tasks, Opening) == 0
  {
  }

  lemma NoneQueued(s: System, c: Config)
    requires Inv(s, c)
    ensures forall i :: 0 <= i < |s.tasks| ==> !s.tasks[i].Queued?
  {
    forall i | 0 <= i < |s.tasks| ensures !s.tasks[i].Queued? {
      if s.tasks[i].Queued? {
        QueuedCounts(s.tasks, i);
      }
    }
  }

  lemma IdleTaken(idle: seq<Page>)
    requires idle != []
    ensures multiset(idle) == multiset(idle[1..]) + multiset{idle[0]}
  {
    assert idle == [idle[0]] + idle[1..];
  }

  lemma ChooseIsBalanced(s: System, c: Config, i: nat)
    requires i < |s.tasks| && s.tasks[i].Granted? && (s.pool.suspended ==> s.pool.allPages == [])
    requires s.pool.available != [] || |s.pool.allPages| < c.maxPages
    ensures var s' := ChooseStep(s, c, i);
      && s' == Move(s, i, s'.pool, s'.tasks[i])
      && Balanced(s.pool, s.tasks[i], s'.pool, s'.tasks[i])
      && s'.pool.allPages == s.pool.allPages
      && (Occupies(s'.tasks[i], Opening) ==> s.pool.available == [])
  {
    if s.pool.available != [] {
      IdleTaken(s.pool.available);
    }
  }

  lemma ChooseKeepsInv(s: System, c: Config, i: nat)
    requires Inv(s, c) && i < |s.tasks| && s.tasks[i].Granted?
    ensures Inv(ChooseStep(s, c, i), c)
  {
    hide Inv, Balanced, ChooseStep;
    RoomWhenGranted(s, c, i);
    InvFacts(s, c);
    ChooseIsBalanced(s, c, i);
    var s' := ChooseStep(s, c, i);
    MoveKeepsInv(s, c, i, s'.pool, s'.tasks[i], s.nextPage);
  }

  lemma Opened(pages: seq<Page>, x: Page)
    requires NoRepeats(pages) && x !in pages
    ensures NoRepeats(pages + [x]) && multiset(pages + [x]) == multiset(pages) + multiset{x}
  {
    assert x !in multiset(pages);
  }

  lemma OpenedKeepsInv(s: System, c: Config, i: nat, pc: Pc)
    requires Inv(s, c) && i < |s.tasks| && (s.tasks[i].Creating? || s.tasks[i].Recovering?)
    requires pc == Checking(s.nextPage) || pc == Using(s.nextPage)
    ensures Inv(Move(s, i, AddPage(s.pool, s.nextPage, s.now), pc).(nextPage := s.nextPage + 1), c)
  {
    hide Inv, Balanced, Count, NoRepeats;
    CountMove(s.tasks, i, pc, Opening);
    InvFacts(s, c);
    OpenedIsBalanced(s.pool, s.tasks[i], s.nextPage, s.now, pc);
    MoveKeepsInv(s, c, i, AddPage(s.pool, s.nextPage, s.now), pc, s.nextPage + 1);
  }

  lemma OpenedIsBalanced(p: Pool, pc: Pc, page: Page, now: int, pc': Pc)
    requires Occupies(pc, Opening) && !p.suspended && (pc' == Checking(page) || pc' == Using(page))
    requires NoRepeats(p.allPages) && page !in p.allPages
    ensures var p' := AddPage(p, page, now);
      Balanced(p, pc, p', pc') && NoRepeats(p'.allPages) && p'.allPages == p.allPages + [page]
  {
    Opened(p.allPages, page);
    hide NoRepeats;
  }

  lemma FinishIsBalanced(p: Pool, pc: Pc, now: int)
    requires Lease(pc) > 0 && (p.suspended ==> p.allPages == [])
    ensures var back := if Occupies(pc, Hold) then Some(pc.page) else None;
      var p' := Finish(p, back, now);
      Balanced(p, pc, p', Done) && p'.allPages == p.allPages
  {
  }

  lemma FinishKeepsInv(s: System, c: Config, i: nat)
    requires Inv(s, c) && i < |s.tasks| && Lease(s.tasks[i]) > 0
    ensures var back := if Occupies(s.tasks[i], Hold) then Some(s.tasks[i].page) else None;
      Inv(Move(s, i, Finish(s.pool, back, s.now), Done), c)
  {
    hide Inv, Balanced, Count, Finish;
    InvFacts(s, c);
    FinishIsBalanced(s.pool, s.tasks[i], s.now);
    var back := if Occupies(s.tasks[i], Hold) then Some(s.tasks[i].page) else None;
    MoveKeepsInv(s, c, i, Finish(s.pool, back, s.now), Done, s.nextPage);
  }

  lemma DeadIsBalanced(s: System, c: Config, i: nat)
    requires Inv(s, c) && i < |s.tasks| && s.tasks[i].Checking?
    ensures var p := DropPage(s.pool, s.tasks[i].page);
      && Balanced(s.pool, s.tasks[i], p, Recovering)
      && |p.allPages| + 1 == |s.pool.allPages|
      && NoRepeats(p.allPages) && forall x :: x in p.allPages ==> x in s.pool.allPages
  {
    var page := s.tasks[i].page;
    OneHeld(s.tasks, i, page);
    assert multiset(s.pool.allPages)[page] >= Held(s.tasks)[page] >= 1;
    DropFacts(s.pool.allPages, page);
    NotSuspendedWhileHolding(s, c, i);
    DroppedBag(multiset(DropPage(s.pool, page).allPages), multiset(s.pool.available), multiset(s.pool.allPages), page);
  }

  lemma DeadKeepsInv(s: System, c: Config, i: nat)
    requires Inv(s, c) && i < |s.tasks| && s.tasks[i].Checking?
    ensures Inv(Move(s, i, DropPage(s.pool, s.tasks[i].page), Recovering), c)
  {
    DeadIsBalanced(s, c, i);
    MoveKeepsInv(s, c, i, DropPage(s.pool, s.tasks[i].page), Recovering, s.nextPage);
  }

  lemma AliveKeepsInv(s: System, c: Config, i: nat)
    requires Inv(s, c) && i < |s.tasks| && s.tasks[i].Checking?
    ensures Inv(Move(s, i, s.pool, Using(s.tasks[i].page)), c)
  {
    hide Inv, Count;
    InvFacts(s, c);
    MoveKeepsInv(s, c, i, s.pool, Using(s.tasks[i].page), s.nextPage);
  }

  lemma DroppedBag(rest: multiset<Page>, idle: multiset<Page>, all: multiset<Page>, x: Page)
    requires rest + multiset{x} == all
    ensures rest + idle + multiset{x} == all + idle + multiset{}
  {
  }

  lemma NotSuspendedWhileHolding(s: System, c: Config, i: nat)
    requires Inv(s, c) && i < |s.tasks| && Occupies(s.tasks[i], Hold)
    ensures !s.pool.suspended
  {
    HeldMove(s.tasks, i, Done);
    assert s.tasks[i].page in Held(s.tasks);
  }

  lemma {:induction false} DropSize(pages: seq<Page>, x: Page)
    requires x in pages
    ensures |RemoveFirst(pages, x)| + 1 == |pages|
  {
    if pages[0] != x {
      DropSize(pages[1..], x);
    }
  }

  lemma DropFacts(pages: seq<Page>, x: Page)
    requires x in multiset(pages)
    ensures var rest := RemoveFirst(pages, x);
      && |rest| + 1 == |pages|
      && multiset(rest) + multiset{x} == multiset(pages)
      && (forall y :: y in rest ==> y in pages)
      && (NoRepeats(pages) ==> NoRepeats(rest))
  {
    hide RemoveFirst, NoRepeats;
    RemoveFirstBag(pages, x);
    DropSize(pages, x);
    SubsetFacts(RemoveFirst(pages, x), pages);
  }

  lemma SubsetFacts(small: seq<Page>, big: seq<Page>)
    requires multiset(small) <= multiset(big)
    ensures forall x :: x in small ==> x in big
    ensures NoRepeats(big) ==> NoRepeats(small)
    ensures |small| <= |big|
  {
    forall x | x in small ensures x in big {
      assert x in multiset(small);
      assert x in multiset(big);
    }
    assert |multiset(small)| + |multiset(big) - multiset(small)| == |multiset(big)|;
  }

  lemma SweepKeepsInv(s: System, c: Config)
    requires Inv(s, c)
    ensures Inv(s.(pool := Reap(s.pool, c, s.now)), c)
  {
    ReapKeepsTheFreshest(s.pool, c, s.now);
    var (keep, doomed) := Decided(s.pool, c, s.now);
    var rest := RemoveAll(s.pool.allPages, doomed);
    RemoveAllBag(s.pool.allPages, doomed);
    assert multiset(s.pool.allPages) == multiset(keep) + multiset(doomed) + Held(s.tasks);
    SubsetFacts(rest, s.pool.allPages);
  }

  lemma ResumeKeepsInv(s: System, c: Config)
    requires c.maxPages >= 1 && Inv(s, c) && s.pool.suspended
    ensures Inv(s.(pool := Rebind(s.pool, s.nextPage, s.now), nextPage := s.nextPage + 1), c)
  {
    Sizes(s);
    assert s.pool.available == [];
  }

  lemma SuspendKeepsInv(s: System, c: Config)
    requires Inv(s, c) && Outstanding(s.pool) == 0
    ensures Inv(s.(pool := Park(s.pool)), c)
  {
    HeldSize(s.tasks);
  }

  predicate IsNeutral(e: Event) {
    e.Arrive? || e.Sweep? || e.Suspend? || e.Resume? || e.Tick? || e.FromQueue? || e.QueueTimeout?
  }

  lemma NeutralKeepsInv(s: System, c: Config, e: Event)
    requires c.maxPages >= 1 && Inv(s, c) && IsNeutral(e)
    ensures Inv(Next(s, c, e), c)
  {
    hide Inv, Reap, Park, Rebind;
    match e
    case Arrive => ArriveKeepsInv(s, c, s.now);
    case Sweep => SweepKeepsInv(s, c);
    case Suspend => if Outstanding(s.pool) == 0 { SuspendKeepsInv(s, c); }
    case Resume => if s.pool.suspended { ResumeKeepsInv(s, c); }
    case Tick(elapsed) => ArriveKeepsInv(s, c, s.now + elapsed);
    case _ => NoneQueued(s, c);
  }

  /** A new arrival changes no count, and neither does the clock. */
  lemma ArriveKeepsInv(s: System, c: Config, later: int)
    requires Inv(s, c)
    ensures Inv(s.(tasks := s.tasks + [Waiting]), c) && Inv(s.(now := later), c)
  {
    Arrived(s.tasks);
    hide Count, Held, NoRepeats;
  }

  lemma WaitingKeepsInv(s: System, c: Config, e: Event)
    requires Inv(s, c) && !IsNeutral(e) && e.i < |s.tasks| && s.tasks[e.i].Waiting?
    ensures Inv(Next(s, c, e), c)
  {
    hide Inv, Count;
    InvFacts(s, c);
    if e.Grant? && s.pool.permits > 0 {
      MoveKeepsInv(s, c, e.i, s.pool.(permits := s.pool.permits - 1), Granted, s.nextPage);
    } else {
      MoveKeepsInv(s, c, e.i, s.pool, Done, s.nextPage);
    }
  }

  lemma OpeningKeepsInv(s: System, c: Config, e: Event)
    requires Inv(s, c) && !IsNeutral(e) && e.i < |s.tasks| && Occupies(s.tasks[e.i], Opening)
    ensures Inv(Next(s, c, e), c)
  {
    hide Inv, AddPage, Finish;
    if e.OpenFails? {
      FinishKeepsInv(s, c, e.i);
    } else {
      OpenedKeepsInv(s, c, e.i, if e.Created? then Checking(s.nextPage) else Using(s.nextPage));
    }
  }

  lemma HoldingKeepsInv(s: System, c: Config, e: Event)
    requires Inv(s, c) && !IsNeutral(e) && e.i < |s.tasks| && Occupies(s.tasks[e.i], Hold)
    ensures Inv(Next(s, c, e), c)
  {
    var page := s.tasks[e.i].page;
    if e.Alive? && s.tasks[e.i].Checking? {
      AliveKeepsInv(s, c, e.i);
      assert Next(s, c, e) == Move(s, e.i, s.pool, Using(page));
    } else if e.Dead? && s.tasks[e.i].Checking? {
      DeadKeepsInv(s, c, e.i);
      assert Next(s, c, e) == Move(s, e.i, DropPage(s.pool, page), Recovering);
    } else if (e.Cancelled? && s.tasks[e.i].Checking?) || (e.Return? && s.tasks[e.i].Using?) {
      FinishKeepsInv(s, c, e.i);
      assert Next(s, c, e) == Move(s, e.i, Finish(s.pool, Some(page), s.now), Done);
    } else {
      assert Next(s, c, e) == s;
    }
  }

  lemma GrantedKeepsInv(s: System, c: Config, e: Event)
    requires Inv(s, c) && !IsNeutral(e) && e.i < |s.tasks| && s.tasks[e.i].Granted?
    ensures Inv(Next(s, c, e), c)
  {
    hide Inv, ChooseStep;
    if e.Revoke? {
      RevokeKeepsInv(s, c, e.i);
    } else if e.Choose? {
      ChooseKeepsInv(s, c, e.i);
    }
  }

  lemma RevokeKeepsInv(s: System, c: Config, i: nat)
    requires Inv(s, c) && i < |s.tasks| && s.tasks[i].Granted?
    ensures Inv(Move(s, i, s.pool.(permits := s.pool.permits + 1), Done), c)
  {
    hide Inv, Count;
    InvFacts(s, c);
    MoveKeepsInv(s, c, i, s.pool.(permits := s.pool.permits + 1), Done, s.nextPage);
  }

  lemma OthersStay(s: System, c: Config, e: Event)
    requires !IsNeutral(e) && (e.i >= |s.tasks| || s.tasks[e.i].Done?)
    ensures Next(s, c, e) == s
  {
  }

  lemma NextKeepsInv(s: System, c: Config, e: Event)
    requires c.maxPages >= 1 && Inv(s, c)
    ensures Inv(Next(s, c, e), c)
  {
    hide Inv, Next;
    if IsNeutral(e) {
      NeutralKeepsInv(s, c, e);
    } else if e.i < |s.tasks| {
      NoneQueued(s, c);
      var pc := s.tasks[e.i];
      if pc.Waiting? {
        WaitingKeepsInv(s, c, e);
      } else if pc.Granted? {
        GrantedKeepsInv(s, c, e);
      } else if Occupies(pc, Opening) {
        OpeningKeepsInv(s, c, e);
      } else if Occupies(pc, Hold) {
        HoldingKeepsInv(s, c, e);
      } else {
        OthersStay(s, c, e);
      }
    } else {
      OthersStay(s, c, e);
    }
  }

  lemma {:induction false} RunKeepsInv(s: System, c: Config, events: seq<Event>)
    requires c.maxPages >= 1 && Inv(s, c)
    ensures Inv(Run(s, c, events), c)
    decreases |events|
  {
    if events != [] {
      NextKeepsInv(s, c, events[0]);
      RunKeepsInv(Next(s, c, events[0]), c, events[1..]);
    }
  }

  lemma InitialInv(c: Config, now: int)
    requires c.maxPages >= 1
    ensures Inv(Initial(c, now), c)
  {
    assert multiset([0 as Page])[0] == 1;
  }

  // ---------------------------------------------------------------- main results

  /** In every reachable state the pages on the books are exactly the idle ones plus the held ones, each
      once; pages and tabs being opened never exceed the maximum; and nobody waits in the queue. */
  lemma PagesArePartitioned(c: Config, now: int, events: seq<Event>)
    requires c.maxPages >= 1
    ensures var s := Run(Initial(c, now), c, events);
      && multiset(s.pool.allPages) == multiset(s.pool.available) + Held(s.tasks)
      && NoRepeats(s.pool.allPages)
      && |s.pool.allPages| + Count(s.tasks, Opening) <= c.maxPages
      && (forall i :: 0 <= i < |s.tasks| ==> !s.tasks[i].Queued?)
  {
    InitialInv(c, now);
    RunKeepsInv(Initial(c, now), c, events);
    NoneQueued(Run(Initial(c, now), c, events), c);
  }

  /** No page is ever in two hands: not held twice, and not held while idle. */
  lemma HeldPagesAreExclusive(c: Config, now: int, events: seq<Event>, i: nat, j: nat)
    requires c.maxPages >= 1
    requires var tasks := Run(Initial(c, now), c, events).tasks;
      i < j < |tasks| && Occupies(tasks[i], Hold) && Occupies(tasks[j], Hold)
    ensures var s := Run(Initial(c, now), c, events);
      s.tasks[i].page != s.tasks[j].page && s.tasks[i].page !in s.pool.available
  {
    PagesArePartitioned(c, now, events);
    var s := Run(Initial(c, now), c, events);
    var x := s.tasks[i].page;
    TwoHeld(s.tasks, i, j, x);
    assert multiset(s.pool.allPages)[x] == multiset(s.pool.available)[x] + Held(s.tasks)[x];
  }

  lemma {:induction false} TwoHeld(tasks: seq<Pc>, i: nat, j: nat, x: Page)
    requires i < j < |tasks|
    ensures Held(tasks)[x] >= HeldBy(tasks[i])[x] + HeldBy(tasks[j])[x]
  {
    var tail := tasks[1..];
    assert tail[j - 1] == tasks[j];
    assert Held(tasks)[x] == HeldBy(tasks[0])[x] + Held(tail)[x];
    hide Held, HeldBy;
    if i > 0 {
      assert tail[i - 1] == tasks[i];
      TwoHeld(tail, i - 1, j - 1, x);
    } else {
      OneHeld(tail, j - 1, x);
    }
  }

  lemma {:induction false} OneHeld(tasks: seq<Pc>, i: nat, x: Page)
    requires i < |tasks|
    ensures Held(tasks)[x] >= HeldBy(tasks[i])[x]
  {
    if i > 0 {
      assert tasks[1..][i - 1] == tasks[i];
      OneHeld(tasks[1..], i - 1, x);
    }
  }

  /** The counters never drift: checkouts minus returns is the number of tasks past the permit that have
      not finished, so a suspension happens only when nobody holds a page or is opening one. */
  lemma LeasesAreCounted(c: Config, now: int, events: seq<Event>)
    requires c.maxPages >= 1
    ensures var s := Run(Initial(c, now), c, events);
      && Outstanding(s.pool) == Count(s.tasks, Hold) + Count(s.tasks, Opening)
      && s.pool.permits + Count(s.tasks, Permit) + Outstanding(s.pool) == c.maxPages
      && (Outstanding(s.pool) == 0 ==> Held(s.tasks) == multiset{})
  {
    InitialInv(c, now);
    RunKeepsInv(Initial(c, now), c, events);
    HeldSize(Run(Initial(c, now), c, events).tasks);
  }

  lemma {:induction false} NoneCounted(tasks: seq<Pc>, slot: Slot)
    ensures Count(tasks, slot) == 0 <==> forall i :: 0 <= i < |tasks| ==> !Occupies(tasks[i], slot)
  {
    if tasks != [] {
      NoneCounted(tasks[1..], slot);
      assert forall i :: 0 < i < |tasks| ==> tasks[i] == tasks[1..][i - 1];
    }
  }

  /** A suspension goes through exactly when nobody holds a page or is opening one, and leaves no page on the
      books; then nobody gets in until a resumption, which leaves one idle page. */
  lemma SuspensionsWaitForLeases(c: Config, now: int, events: seq<Event>)
    requires c.maxPages >= 1 && !Run(Initial(c, now), c, events).pool.suspended
    ensures var s := Run(Initial(c, now), c, events);
      var r := Next(s, c, Suspend);
      && (r.pool.suspended <==> forall i :: 0 <= i < |s.tasks| ==> !Occupies(s.tasks[i], Hold) && !Occupies(s.tasks[i], Opening))
      && (r.pool.suspended ==> r.pool.allPages == [] && r.pool.available == [] && r.pool.lastUsed == map[])
      && (!r.pool.suspended ==> r == s) && r.tasks == s.tasks
      && (r.pool.suspended ==> Next(r, c, Arrive) == r)
      && (r.pool.suspended ==>
            var back := Next(r, c, Resume).pool;
            !back.suspended && back.allPages == back.available == [s.nextPage] && back.lastUsed == map[s.nextPage := s.now])
  {
    hide Inv, Count, Run;
    var s := Run(Initial(c, now), c, events);
    LeasesAreCounted(c, now, events);
    NoneCounted(s.tasks, Hold);
    NoneCounted(s.tasks, Opening);
  }

  /** A sweep in any reachable state leaves every leased page on the books and out of the idle queue. */
  lemma SweepSparesLeases(c: Config, now: int, events: seq<Event>, i: nat)
    requires c.maxPages >= 1
    requires var tasks := Run(Initial(c, now), c, events).tasks; i < |tasks| && Occupies(tasks[i], Hold)
    ensures var s := Run(Initial(c, now), c, events);
      var swept := Reap(s.pool, c, s.now);
      s.tasks[i].page in swept.allPages && s.tasks[i].page !in swept.available
  {
    InitialInv(c, now);
    RunKeepsInv(Initial(c, now), c, events);
    var s := Run(Initial(c, now), c, events);
    SweepKeepsInv(s, c);
    var swept := Reap(s.pool, c, s.now);
    var x := s.tasks[i].page;
    OneHeld(s.tasks, i, x);
    assert multiset(swept.allPages)[x] == multiset(swept.available)[x] + Held(s.tasks)[x];
    assert x in multiset(swept.allPages) && x !in multiset(swept.available);
  }
}
