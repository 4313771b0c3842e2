/** The page pool as the object it is: one method per stretch of code between two awaits, each proved
    against the step of the same name in `PoolState`. */
module PagePoolObject {
  import opened Json
  import opened PoolState

  /** Where a checkout goes after its permit. */
  datatype Choice = Idle(page: Page) | Open | Wait

  class PagePool {
    const config: Config
    var permits: nat
    var available: seq<Page>
    var allPages: seq<Page>
    var lastUsed: map<Page, int>
    var checkouts: nat
    var returned: nat
    var suspended: bool
    var idleClosed: nat

    ghost function View(): Pool
      reads this
    {
      Pool(permits, available, allPages, lastUsed, checkouts, returned, suspended)
    }

    constructor (config: Config, firstPage: Page, now: int)
      ensures this.config == config && idleClosed == 0
      ensures View() == Pool(config.maxPages, [firstPage], [firstPage], map[firstPage := now], 0, 0, false)
    {
      this.config := config;
      permits := config.maxPages;
      available, allPages := [firstPage], [firstPage];
      lastUsed := map[firstPage := now];
      checkouts, returned, suspended, idleClosed := 0, 0, false, 0;
    }

    /** `outstanding_leases`. */
    method OutstandingLeases() returns (n: nat)
      ensures n == Outstanding(View())
    {
      n := if checkouts >= returned then checkouts - returned else 0;
    }

    /** Count the checkout, then take an idle page or decide how to get one. */
    method Choose() returns (choice: Choice)
      modifies this`checkouts, this`available
      ensures checkouts == old(checkouts) + 1
      ensures match choice
        case Idle(page) => old(available) == [page] + available
        case Open => available == old(available) == [] && |allPages| < config.maxPages
        case Wait => available == old(available) == [] && |allPages| >= config.maxPages
    {
      checkouts := checkouts + 1;
      if available != [] {
        choice := Idle(available[0]);
        available := available[1..];
      } else if |allPages| < config.maxPages {
        choice := Open;
      } else {
        choice := Wait;
      }
    }

    method Opened(page: Page, now: int)
      modifies this`allPages, this`lastUsed
      ensures View() == AddPage(old(View()), page, now)
    {
      allPages := allPages + [page];
      lastUsed := lastUsed[page := now];
    }

    /** The first half of `_recover_page`. */
    method DropDead(page: Page)
      modifies this`allPages, this`lastUsed
      ensures View() == DropPage(old(View()), page)
    {
      if page in allPages {
        allPages := RemoveFirst(allPages, page);
      } else {
        RemoveAbsent(allPages, page);
      }
      lastUsed := lastUsed - {page};
    }

    /** The `finally` block of a checkout. */
    method Finished(page: Option<Page>, now: int)
      modifies this`returned, this`permits, this`lastUsed, this`available
      ensures View() == Finish(old(View()), page, now)
      // counted and its permit back in any case; a page is stamped and goes to the end of the queue
      ensures returned == old(returned) + 1 && permits == old(permits) + 1
      ensures lastUsed == if page.Some? then old(lastUsed)[page.value := now] else old(lastUsed)
      ensures available == if page.Some? then old(available) + [page.value] else old(available)
    {
      returned := returned + 1;
      if page.Some? {
        lastUsed := lastUsed[page.value := now];
        available := available + [page.value];
      }
      permits := permits + 1;
    }

    method Parked()
      modifies this`allPages, this`available, this`lastUsed, this`suspended
      ensures View() == Park(old(View()))
    {
      allPages := [];
      lastUsed := map[];
      while available != []
        invariant View() == old(View()).(allPages := [], lastUsed := map[], available := available)
        decreases |available|
      {
        available := available[1..];
      }
      suspended := true;
    }

    method Rebound(first: Page, now: int)
      modifies this`suspended, this`allPages, this`lastUsed, this`available
      ensures View() == Rebind(old(View()), first, now)
    {
      suspended := false;
      allPages := allPages + [first];
      lastUsed := lastUsed[first := now];
      available := available + [first];
    }

    /** `idle.sort(key=age)`. */
    method SortIdle(idle: seq<Page>, now: int) returns (sorted: seq<Page>)
      ensures sorted == SortByAge(idle, lastUsed, now)
    {
      sorted := [];
      for i := 0 to |idle|
        invariant sorted == SortByAge(idle[..i], lastUsed, now)
      {
        assert idle[..i + 1][..i] == idle[..i];
        sorted := Insert(sorted, idle[i], lastUsed, now);
      }
      assert idle[..|idle|] == idle;
    }

    /** Keep the floor and the young; the rest is doomed. */
    method Partition(sorted: seq<Page>, now: int) returns (keep: seq<Page>, doomed: seq<Page>)
      ensures (keep, doomed) == Split(sorted, lastUsed, config, now)
    {
      keep, doomed := [], [];
      for i := 0 to |sorted|
        invariant (keep, doomed) == Split(sorted[..i], lastUsed, config, now)
      {
        assert sorted[..i + 1][..i] == sorted[..i];
        if |keep| < config.minPages || Age(lastUsed, sorted[i], now) < config.idleTimeout {
          keep := keep + [sorted[i]];
        } else {
          doomed := doomed + [sorted[i]];
        }
      }
      assert sorted[..|sorted|] == sorted;
    }

    method Drain() returns (idle: seq<Page>)
      modifies this`available
      ensures idle == old(available) && available == []
    {
      idle := [];
      while available != []
        invariant idle + available == old(available)
        decreases |available|
      {
        idle := idle + [available[0]];
        available := available[1..];
      }
    }

    /** Put the keepers back and strike the doomed off the books. */
    method Settle(keep: seq<Page>, doomed: seq<Page>)
      requires available == []
      modifies this`available, this`allPages, this`lastUsed
      ensures available == keep
      ensures allPages == RemoveAll(old(allPages), doomed)
      ensures lastUsed == Forget(old(lastUsed), doomed)
    {
      for i := 0 to |keep|
        invariant available == keep[..i] && allPages == old(allPages) && lastUsed == old(lastUsed)
      {
        available := available + [keep[i]];
      }
      for i := 0 to |doomed|
        invariant available == keep
        invariant allPages == RemoveAll(old(allPages), doomed[..i])
        invariant lastUsed == Forget(old(lastUsed), doomed[..i])
      {
        assert doomed[..i + 1][..i] == doomed[..i];
        if doomed[i] in allPages {
          allPages := RemoveFirst(allPages, doomed[i]);
        } else {
          RemoveAbsent(allPages, doomed[i]);
        }
        lastUsed := lastUsed - {doomed[i]};
      }
      assert doomed[..|doomed|] == doomed;
    }

    /** `reap_idle_pages`: drain the queue, sort, split, put the keepers back, drop the doomed. Nothing
        happens while the circuit is open. */
    method ReapIdlePages(circuitOpen: bool, now: int) returns (closed: nat)
      modifies this`available, this`allPages, this`lastUsed, this`idleClosed
      ensures View() == if circuitOpen then old(View()) else Reap(old(View()), config, now)
      ensures closed == if circuitOpen then 0 else |Decided(old(View()), config, now).1|
      ensures idleClosed == old(idleClosed) + closed
    {
      closed := 0;
      if !circuitOpen {
        var idle := Drain();
        if idle != [] {
          var sorted := SortIdle(idle, now);
          var keep, doomed := Partition(sorted, now);
          Settle(keep, doomed);
          idleClosed := idleClosed + |doomed|;
          closed := |doomed|;
        }
      }
    }
  }
}
