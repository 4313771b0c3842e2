/** When pages go idle: what the recorded times, the queue's order and the sweep mean over whole runs of the
    pool, told by the instants of the events themselves. */
module IdlePages {
  import opened Json
  import opened PoolState
  import opened PoolProtocol

  /** The page that a step puts into the idle queue, if it does. */
  function WentIdle(s: System, e: Event): Option<Page> {
    match e
    case Return(i) => if i < |s.tasks| && s.tasks[i].Using? then Some(s.tasks[i].page) else None
    case Cancelled(i) => if i < |s.tasks| && s.tasks[i].Checking? then Some(s.tasks[i].page) else None
    case Resume => if s.pool.suspended then Some(s.nextPage) else None
    case _ => None
  }

  function Noted(since: map<Page, int>, s: System, e: Event): map<Page, int> {
    var page := WentIdle(s, e);
    if page.None? then since else since[page.value := s.now]
  }

  /** The instant at which each page last went idle over a run, given those of before. */
  function IdleSince(s: System, c: Config, events: seq<Event>, since: map<Page, int>): map<Page, int>
    decreases |events|
  {
    if events == [] then since else IdleSince(Next(s, c, events[0]), c, events[1..], Noted(since, s, events[0]))
  }

  /** For a new pool: its first page is idle from the start. */
  function Idle(c: Config, now: int, events: seq<Event>): map<Page, int> {
    IdleSince(Initial(c, now), c, events, map[0 := now])
  }

  // ---------------------------------------------------------------- the recorded times

  /** The time on record for an idle page is when it went idle, and the pages on record are those on the
      books. */
  ghost predicate Recorded(p: Pool, since: map<Page, int>) {
    && (forall x :: x in p.available ==> x in p.lastUsed && x in since && p.lastUsed[x] == since[x])
    && (forall x :: x in p.lastUsed <==> x in p.allPages)
  }

  lemma BagFacts(s: System, c: Config)
    requires Inv(s, c)
    ensures forall x :: x in s.pool.available ==> x in s.pool.allPages
    ensures forall x :: x in s.pool.allPages ==> x < s.nextPage
    ensures s.pool.suspended ==> s.pool.allPages == []
  {
    forall x | x in s.pool.available ensures x in s.pool.allPages {
      assert x in multiset(s.pool.available);
      assert x in multiset(s.pool.allPages);
    }
  }

  /** A held page is on the books and not idle. */
  lemma HeldFacts(s: System, c: Config, i: nat)
    requires Inv(s, c) && i < |s.tasks| && Occupies(s.tasks[i], Hold)
    ensures s.tasks[i].page in s.pool.allPages && s.tasks[i].page !in s.pool.available
  {
    var x := s.tasks[i].page;
    OneHeld(s.tasks, i, x);
    assert multiset(s.pool.allPages)[x] == multiset(s.pool.available)[x] + Held(s.tasks)[x];
    assert x in multiset(s.pool.allPages) && x !in multiset(s.pool.available);
  }

  lemma DropKeepsRecord(p: Pool, page: Page, since: map<Page, int>)
    requires Recorded(p, since) && NoRepeats(p.allPages) && page !in p.available
    ensures Recorded(DropPage(p, page), since)
  {
    RemoveFirstBag(p.allPages, page);
    SameMembers(RemoveFirst(p.allPages, page), p.allPages, multiset{page});
  }

  /** Taking out of a list without repeats leaves the others. */
  lemma SameMembers(rest: seq<Page>, pages: seq<Page>, gone: multiset<Page>)
    requires NoRepeats(pages) && multiset(rest) == multiset(pages) - gone
    ensures forall x :: x in rest <==> x in pages && x !in gone
  {
    forall x ensures x in rest <==> x in pages && x !in gone {
      assert x in rest <==> x in multiset(rest);
      assert x in pages <==> x in multiset(pages);
    }
  }

  lemma {:induction false} ForgetFacts(lastUsed: map<Page, int>, doomed: seq<Page>)
    ensures forall x :: x in Forget(lastUsed, doomed) <==> x in lastUsed && x !in doomed
    ensures forall x :: x in Forget(lastUsed, doomed) ==> Forget(lastUsed, doomed)[x] == lastUsed[x]
  {
    if doomed != [] {
      ForgetFacts(lastUsed, doomed[..|doomed| - 1]);
      assert doomed == doomed[..|doomed| - 1] + [doomed[|doomed| - 1]];
    }
  }

  lemma KeptIsIdle(p: Pool, c: Config, now: int)
    ensures forall x :: x in Decided(p, c, now).0 ==> x in p.available
    ensures NoRepeats(p.available) ==> forall x :: x in Decided(p, c, now).0 ==> x !in Decided(p, c, now).1
    ensures forall x :: x in p.available ==> x in Decided(p, c, now).0 || x in Decided(p, c, now).1
  {
    hide Decided, Reap, YoungCount;
    ReapKeepsTheFreshest(p, c, now);
    var (keep, doomed) := Decided(p, c, now);
    forall x
      ensures x in keep ==> x in p.available
      ensures NoRepeats(p.available) && x in keep ==> x !in doomed
      ensures x in p.available ==> x in keep || x in doomed
    {
      assert x in keep <==> x in multiset(keep);
      assert x in doomed <==> x in multiset(doomed);
      assert x in p.available <==> x in multiset(p.available);
      assert multiset(p.available)[x] == multiset(keep)[x] + multiset(doomed)[x];
    }
  }

  lemma IdleHasNoRepeats(s: System, c: Config)
    requires Inv(s, c)
    ensures NoRepeats(s.pool.available) && NoRepeats(s.pool.allPages)
  {
    forall x ensures multiset(s.pool.available)[x] <= 1 {
      assert multiset(s.pool.allPages)[x] == multiset(s.pool.available)[x] + Held(s.tasks)[x];
    }
  }

  lemma SweepKeepsRecord(s: System, c: Config, since: map<Page, int>)
    requires Inv(s, c) && Recorded(s.pool, since)
    ensures Recorded(Reap(s.pool, c, s.now), since)
  {
    hide Inv, Decided, RemoveAll, Forget, NoRepeats;
    IdleHasNoRepeats(s, c);
    KeptIsIdle(s.pool, c, s.now);
    var doomed := Decided(s.pool, c, s.now).1;
    RemoveAllBag(s.pool.allPages, doomed);
    SameMembers(RemoveAll(s.pool.allPages, doomed), s.pool.allPages, multiset(doomed));
    ForgetFacts(s.pool.lastUsed, doomed);
  }

  /** Apart from sweeps, suspensions and resumptions a step does one of four things to the pages: at most take
      the first idle page, open one, take one back, or drop a held one. */
  ghost predicate Leaves(p: Pool, p': Pool) {
    && p'.allPages == p.allPages && p'.lastUsed == p.lastUsed
    && (p'.available == p.available || (p.available != [] && p'.available == p.available[1..]))
  }

  ghost predicate TakesBack(p: Pool, p': Pool, page: Page, now: int) {
    && page in p.allPages && page !in p.available
    && p'.allPages == p.allPages && p'.lastUsed == p.lastUsed[page := now] && p'.available == p.available + [page]
  }

  predicate Moves(e: Event) {
    !e.Arrive? && !e.Sweep? && !e.Suspend? && !e.Resume? && !e.Tick?
  }

  lemma StepEffect(s: System, c: Config, e: Event)
    requires Inv(s, c) && Moves(e)
    ensures var p, p', idle := s.pool, Next(s, c, e).pool, WentIdle(s, e);
      if idle.Some? then TakesBack(p, p', idle.value, s.now)
      else if e.Dead? && e.i < |s.tasks| && s.tasks[e.i].Checking? then p' == DropPage(p, s.tasks[e.i].page) && s.tasks[e.i].page !in p.available
      else Leaves(p, p') || p' == AddPage(p, s.nextPage, s.now)
  {
    hide Inv, AddPage, DropPage, ChooseStep;
    if e.i < |s.tasks| {
      if Occupies(s.tasks[e.i], Hold) {
        HeldFacts(s, c, e.i);
      } else if s.tasks[e.i].Granted? {
        ChooseEffect(s, c, e.i);
      }
    }
  }

  lemma ChooseEffect(s: System, c: Config, i: nat)
    requires i < |s.tasks| && s.tasks[i].Granted?
    ensures Leaves(s.pool, ChooseStep(s, c, i).pool)
  {
  }

  lemma KeepsRecord(p: Pool, p': Pool, page: Page, now: int, since: map<Page, int>)
    requires Recorded(p, since)
    ensures Leaves(p, p') ==> Recorded(p', since)
    ensures TakesBack(p, p', page, now) ==> Recorded(p', since[page := now])
    ensures page !in p.available ==> Recorded(AddPage(p, page, now), since)
  {
  }

  lemma MoveKeepsRecord(s: System, c: Config, e: Event, since: map<Page, int>)
    requires Inv(s, c) && Recorded(s.pool, since) && Moves(e)
    ensures Recorded(Next(s, c, e).pool, Noted(since, s, e))
  {
    hide Inv, Next, WentIdle, Recorded, Leaves, TakesBack, AddPage, DropPage, NoRepeats;
    BagFacts(s, c);
    IdleHasNoRepeats(s, c);
    StepEffect(s, c, e);
    var p', idle := Next(s, c, e).pool, WentIdle(s, e);
    KeepsRecord(s.pool, p', if idle.Some? then idle.value else s.nextPage, s.now, since);
    if idle.None? && e.Dead? && e.i < |s.tasks| && s.tasks[e.i].Checking? {
      DropKeepsRecord(s.pool, s.tasks[e.i].page, since);
    }
  }

  lemma NextKeepsRecord(s: System, c: Config, e: Event, since: map<Page, int>)
    requires Inv(s, c) && Recorded(s.pool, since)
    ensures Recorded(Next(s, c, e).pool, Noted(since, s, e))
  {
    hide Inv, Reap;
    if Moves(e) {
      MoveKeepsRecord(s, c, e, since);
    } else if e.Sweep? {
      SweepKeepsRecord(s, c, since);
    } else {
      BagFacts(s, c);
    }
  }

  lemma {:induction false} RunKeepsRecord(s: System, c: Config, events: seq<Event>, since: map<Page, int>)
    requires c.maxPages >= 1 && Inv(s, c) && Recorded(s.pool, since)
    ensures Recorded(Run(s, c, events).pool, IdleSince(s, c, events, since))
    decreases |events|
  {
    if events != [] {
      hide Inv, Next, Noted, Recorded;
      NextKeepsInv(s, c, events[0]);
      NextKeepsRecord(s, c, events[0], since);
      RunKeepsRecord(Next(s, c, events[0]), c, events[1..], Noted(since, s, events[0]));
    }
  }

  /** In every reachable state each idle page carries the instant at which it last went idle: its return, its
      cancelled check, the resumption that opened it, or the start. And a time is on record for exactly the
      pages on the books. */
  lemma IdlePagesCarryTheirInstant(c: Config, now: int, events: seq<Event>)
    requires c.maxPages >= 1
    ensures var p, idle := Run(Initial(c, now), c, events).pool, Idle(c, now, events);
      && (forall x :: x in p.available ==> x in p.lastUsed && x in idle && p.lastUsed[x] == idle[x])
      && (forall x :: x in p.lastUsed <==> x in p.allPages)
  {
    InitialInv(c, now);
    RunKeepsRecord(Initial(c, now), c, events, map[0 := now]);
  }

  // ---------------------------------------------------------------- the sweep

  lemma Ages(p: Pool, since: map<Page, int>, now: int)
    requires Recorded(p, since)
    ensures forall x :: x in p.available ==> Age(p.lastUsed, x, now) == now - since[x]
  {
  }

  /** What a sweep closes, by the instants alone: only pages idle for the whole timeout, the longest idle
      first, and of these all but what the floor needs; what it keeps is queued freshest first. */
  ghost predicate SweepsByInstant(before: Pool, after: Pool, since: map<Page, int>, c: Config, now: int) {
    && (forall x :: x in before.available ==> x in since) && (forall x :: x in after.available ==> x in before.available)
    && (forall x :: x in before.available && x !in after.available ==>
          now - since[x] >= c.idleTimeout && |after.available| >= c.minPages)
    && (forall x, y :: x in after.available && y in before.available && y !in after.available ==> since[x] >= since[y])
    && (forall i, j :: 0 <= i < j < |after.available| ==> since[after.available[i]] >= since[after.available[j]])
    && (forall x :: x in after.available && now - since[x] >= c.idleTimeout ==> |after.available| <= c.minPages)
  }

  lemma KeptInOrder(p: Pool, c: Config, now: int)
    ensures SortedByAge(Decided(p, c, now).0, p.lastUsed, now)
    ensures forall x :: x in Decided(p, c, now).0 && Age(p.lastUsed, x, now) >= c.idleTimeout ==> |Decided(p, c, now).0| <= c.minPages
  {
    hide SortByAge, Split, Age;
    var sorted := SortByAge(p.available, p.lastUsed, now);
    SortSorted(p.available, p.lastUsed, now);
    SplitIsACut(sorted, p.lastUsed, c, now);
    YoungLeads(sorted, p.lastUsed, c, now);
  }

  /** The pages before the count of young ones are the young ones. */
  lemma {:induction false} YoungLeads(s: seq<Page>, lastUsed: map<Page, int>, c: Config, now: int)
    requires SortedByAge(s, lastUsed, now)
    ensures forall i :: 0 <= i < YoungCount(s, lastUsed, c, now) ==> Age(lastUsed, s[i], now) < c.idleTimeout
  {
    hide Age;
    if s != [] {
      var front := s[..|s| - 1];
      YoungLeads(front, lastUsed, c, now);
      var young := YoungCount(front, lastUsed, c, now);
      forall i | 0 <= i < YoungCount(s, lastUsed, c, now) ensures Age(lastUsed, s[i], now) < c.idleTimeout {
        if i < young {
          assert s[i] == front[i];
        } else {
          assert SortedByAge(s, lastUsed, now);
        }
      }
    }
  }

  lemma ReapByInstant(s: System, c: Config, since: map<Page, int>)
    requires Inv(s, c) && Recorded(s.pool, since)
    ensures SweepsByInstant(s.pool, Reap(s.pool, c, s.now), since, c, s.now)
  {
    hide Inv, Decided, NoRepeats, Age, YoungCount, RemoveAll, Forget;
    var p := s.pool;
    IdleHasNoRepeats(s, c);
    KeptIsIdle(p, c, s.now);
    ReapKeepsTheFreshest(p, c, s.now);
    KeptInOrder(p, c, s.now);
    Ages(p, since, s.now);
    var (keep, doomed) := Decided(p, c, s.now);
    forall y | y in p.available && y !in keep
      ensures s.now - since[y] >= c.idleTimeout && |keep| >= c.minPages
      ensures forall x :: x in keep ==> since[x] >= since[y]
    {
      var j :| 0 <= j < |doomed| && doomed[j] == y;
      assert |keep| + |doomed| == |multiset(keep) + multiset(doomed)| == |p.available|;
      forall x | x in keep ensures since[x] >= since[y] {
        var i :| 0 <= i < |keep| && keep[i] == x;
        assert Age(p.lastUsed, keep[i], s.now) <= Age(p.lastUsed, doomed[j], s.now);
      }
    }
    forall i, j | 0 <= i < j < |keep| ensures since[keep[i]] >= since[keep[j]] {
      assert Age(p.lastUsed, keep[i], s.now) <= Age(p.lastUsed, keep[j], s.now);
    }
  }

  /** A sweep in any reachable state. */
  lemma SweepsGoByTheInstants(c: Config, now: int, events: seq<Event>)
    requires c.maxPages >= 1
    ensures var s := Run(Initial(c, now), c, events);
      SweepsByInstant(s.pool, Next(s, c, Sweep).pool, Idle(c, now, events), c, s.now)
  {
    InitialInv(c, now);
    RunKeepsInv(Initial(c, now), c, events);
    RunKeepsRecord(Initial(c, now), c, events, map[0 := now]);
    hide Inv, SweepsByInstant, Recorded, Reap;
    ReapByInstant(Run(Initial(c, now), c, events), c, Idle(c, now, events));
  }

  /** So a page that went idle less than the timeout ago is never closed. */
  lemma FreshPagesSurviveASweep(c: Config, now: int, events: seq<Event>, x: Page)
    requires c.maxPages >= 1 && x in Run(Initial(c, now), c, events).pool.available
    ensures x in Idle(c, now, events)
    ensures var s := Run(Initial(c, now), c, events);
      var swept := Next(s, c, Sweep).pool;
      s.now - Idle(c, now, events)[x] < c.idleTimeout ==> x in swept.available && x in swept.allPages
  {
    hide Inv, Next;
    var s := Run(Initial(c, now), c, events);
    InitialInv(c, now);
    RunKeepsInv(Initial(c, now), c, events);
    IdlePagesCarryTheirInstant(c, now, events);
    SweepsGoByTheInstants(c, now, events);
    NextKeepsInv(s, c, Sweep);
    BagFacts(Next(s, c, Sweep), c);
  }

  // ---------------------------------------------------------------- the order of the queue

  /** The queue in the order in which its pages went idle. */
  ghost predicate InOrder(queue: seq<Page>, since: map<Page, int>, now: int) {
    && (forall x :: x in queue ==> x in since && since[x] <= now)
    && (forall i, j :: 0 <= i < j < |queue| ==> since[queue[i]] <= since[queue[j]])
  }

  lemma StepQueue(s: System, c: Config, e: Event)
    requires Inv(s, c) && Moves(e)
    ensures var queue, queue', idle := s.pool.available, Next(s, c, e).pool.available, WentIdle(s, e);
      if idle.Some? then idle.value !in queue && queue' == queue + [idle.value]
      else queue' == queue || (queue != [] && queue' == queue[1..])
    ensures Next(s, c, e).now == s.now
  {
    hide Inv, Next, WentIdle, RemoveFirst;
    StepEffect(s, c, e);
    Clock(s, c, e);
  }

  lemma Clock(s: System, c: Config, e: Event)
    ensures Moves(e) ==> Next(s, c, e).now == s.now
  {
    hide AddPage, DropPage, Finish, Reap, Park, Rebind;
  }

  lemma QueueStaysInOrder(s: System, c: Config, e: Event, since: map<Page, int>)
    requires Inv(s, c) && InOrder(s.pool.available, since, s.now) && !e.Sweep?
    ensures InOrder(Next(s, c, e).pool.available, Noted(since, s, e), Next(s, c, e).now)
  {
    hide Inv;
    if Moves(e) {
      StepQueue(s, c, e);
      hide Next, WentIdle;
      assert forall k :: 0 <= k < |s.pool.available| ==> s.pool.available[k] in s.pool.available;
    } else {
      BagFacts(s, c);
    }
  }

  lemma {:induction false} RunStaysInOrder(s: System, c: Config, events: seq<Event>, since: map<Page, int>)
    requires c.maxPages >= 1 && Inv(s, c) && InOrder(s.pool.available, since, s.now) && forall e <- events :: !e.Sweep?
    ensures InOrder(Run(s, c, events).pool.available, IdleSince(s, c, events, since), Run(s, c, events).now)
    decreases |events|
  {
    if events != [] {
      hide Inv, Next, Noted, InOrder;
      assert events[0] in events && forall e <- events[1..] :: e in events;
      NextKeepsInv(s, c, events[0]);
      QueueStaysInOrder(s, c, events[0], since);
      RunStaysInOrder(Next(s, c, events[0]), c, events[1..], Noted(since, s, events[0]));
    }
  }

  /** As long as nothing has been swept, a checkout that finds idle pages is handed the one idle longest. */
  lemma TheLongestIdleIsHandedOut(c: Config, now: int, events: seq<Event>, i: nat)
    requires c.maxPages >= 1 && forall e <- events :: !e.Sweep?
    requires var s := Run(Initial(c, now), c, events);
      i < |s.tasks| && s.tasks[i].Granted? && s.pool.available != []
    ensures var s, idle := Run(Initial(c, now), c, events), Idle(c, now, events);
      var t := Next(s, c, Choose(i)).tasks[i];
      t.Checking? && t.page in s.pool.available && forall y :: y in s.pool.available ==> y in idle && t.page in idle && idle[t.page] <= idle[y]
  {
    InitialInv(c, now);
    RunStaysInOrder(Initial(c, now), c, events, map[0 := now]);
  }
}
