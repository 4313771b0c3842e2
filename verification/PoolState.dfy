/** The state of the browser page pool and what each uninterrupted stretch of its code does to it: opening,
    returning and dropping a page, parking and resuming the pool, and the sweep that closes pages idle for too
    long. Pages are numbered in the order they are opened. Times are those of one clock, which the sweep and
    the return of a page read. */
module PoolState {
  import opened Json

  type Page = nat

  datatype Config = Config(maxPages: nat, minPages: nat, idleTimeout: int)

  /** `available` is the FIFO queue of idle pages; `lastUsed` says when a page went idle. */
  datatype Pool = Pool(
    permits: nat,
    available: seq<Page>,
    allPages: seq<Page>,
    lastUsed: map<Page, int>,
    checkouts: nat,
    returned: nat,
    suspended: bool)

  function Outstanding(p: Pool): nat {
    if p.checkouts > p.returned then p.checkouts - p.returned else 0
  }

  // ---------------------------------------------------------------- checkout and return

  function AddPage(p: Pool, page: Page, now: int): Pool {
    p.(allPages := p.allPages + [page], lastUsed := p.lastUsed[page := now])
  }

  /** `list.remove`: the first occurrence, if any. */
  function RemoveFirst(s: seq<Page>, x: Page): seq<Page> {
    if s == [] then [] else if s[0] == x then s[1..] else [s[0]] + RemoveFirst(s[1..], x)
  }

  lemma {:induction false} RemoveFirstBag(s: seq<Page>, x: Page)
    ensures multiset(RemoveFirst(s, x)) == multiset(s) - multiset{x}
  {
    if s != [] {
      assert s == [s[0]] + s[1..];
      if s[0] != x {
        RemoveFirstBag(s[1..], x);
      }
    }
  }

  lemma {:induction false} RemoveAbsent(s: seq<Page>, x: Page)
    requires x !in s
    ensures RemoveFirst(s, x) == s
  {
    if s != [] {
      RemoveAbsent(s[1..], x);
    }
  }

  function DropPage(p: Pool, page: Page): Pool {
    p.(allPages := RemoveFirst(p.allPages, page), lastUsed := p.lastUsed - {page})
  }

  /** The `finally` block of a checkout. */
  function Finish(p: Pool, page: Option<Page>, now: int): Pool {
    var back := if page.None? then p
                else p.(lastUsed := p.lastUsed[page.value := now], available := p.available + [page.value]);
    back.(returned := p.returned + 1, permits := p.permits + 1)
  }

  // ---------------------------------------------------------------- suspension

  function Park(p: Pool): Pool {
    p.(available := [], allPages := [], lastUsed := map[], suspended := true)
  }

  /** `rebind_context` and `initialize`, which run with no await between them. */
  function Rebind(p: Pool, first: Page, now: int): Pool {
    p.(suspended := false, allPages := p.allPages + [first], lastUsed := p.lastUsed[first := now],
       available := p.available + [first])
  }

  // ---------------------------------------------------------------- reaping

  /** A page with no record counts as just used. */
  function Age(lastUsed: map<Page, int>, page: Page, now: int): int {
    if page in lastUsed then now - lastUsed[page] else 0
  }

  /** Stable insertion by age: after every element that is no older. */
  function Insert(s: seq<Page>, x: Page, lastUsed: map<Page, int>, now: int): seq<Page> {
    if s == [] || Age(lastUsed, x, now) < Age(lastUsed, s[0], now) then [x] + s
    else [s[0]] + Insert(s[1..], x, lastUsed, now)
  }

  function SortByAge(s: seq<Page>, lastUsed: map<Page, int>, now: int): seq<Page> {
    if s == [] then [] else Insert(SortByAge(s[..|s| - 1], lastUsed, now), s[|s| - 1], lastUsed, now)
  }

  /** The loop that splits the sorted idle pages into those kept and those closed. */
  function Split(sorted: seq<Page>, lastUsed: map<Page, int>, c: Config, now: int): (seq<Page>, seq<Page>) {
    if sorted == [] then ([], [])
    else
      var (keep, doomed) := Split(sorted[..|sorted| - 1], lastUsed, c, now);
      var page := sorted[|sorted| - 1];
      if |keep| < c.minPages || Age(lastUsed, page, now) < c.idleTimeout then (keep + [page], doomed)
      else (keep, doomed + [page])
  }

  function RemoveAll(s: seq<Page>, doomed: seq<Page>): seq<Page> {
    if doomed == [] then s else RemoveFirst(RemoveAll(s, doomed[..|doomed| - 1]), doomed[|doomed| - 1])
  }

  lemma {:induction false} RemoveAllBag(s: seq<Page>, doomed: seq<Page>)
    ensures multiset(RemoveAll(s, doomed)) == multiset(s) - multiset(doomed)
  {
    if doomed != [] {
      var front, last := doomed[..|doomed| - 1], doomed[|doomed| - 1];
      assert doomed == front + [last];
      RemoveAllBag(s, front);
      RemoveFirstBag(RemoveAll(s, front), last);
    }
  }

  function Forget(lastUsed: map<Page, int>, doomed: seq<Page>): map<Page, int> {
    if doomed == [] then lastUsed
    else Forget(lastUsed, doomed[..|doomed| - 1]) - {doomed[|doomed| - 1]}
  }

  function Decided(p: Pool, c: Config, now: int): (seq<Page>, seq<Page>) {
    Split(SortByAge(p.available, p.lastUsed, now), p.lastUsed, c, now)
  }

  /** The atomic part of `reap_idle_pages`. */
  function Reap(p: Pool, c: Config, now: int): Pool {
    var (keep, doomed) := Decided(p, c, now);
    p.(available := keep, allPages := RemoveAll(p.allPages, doomed), lastUsed := Forget(p.lastUsed, doomed))
  }

  // ---------------------------------------------------------------- what the reaper guarantees

  ghost predicate SortedByAge(s: seq<Page>, lastUsed: map<Page, int>, now: int) {
    forall i, j :: 0 <= i < j < |s| ==> Age(lastUsed, s[i], now) <= Age(lastUsed, s[j], now)
  }

  lemma {:induction false} InsertBag(s: seq<Page>, x: Page, lastUsed: map<Page, int>, now: int)
    ensures multiset(Insert(s, x, lastUsed, now)) == multiset(s) + multiset{x}
  {
    if s != [] && Age(lastUsed, x, now) >= Age(lastUsed, s[0], now) {
      assert s == [s[0]] + s[1..];
      InsertBag(s[1..], x, lastUsed, now);
    }
  }

  lemma {:induction false} SortBag(s: seq<Page>, lastUsed: map<Page, int>, now: int)
    ensures multiset(SortByAge(s, lastUsed, now)) == multiset(s)
  {
    if s != [] {
      assert s == s[..|s| - 1] + [s[|s| - 1]];
      SortBag(s[..|s| - 1], lastUsed, now);
      InsertBag(SortByAge(s[..|s| - 1], lastUsed, now), s[|s| - 1], lastUsed, now);
    }
  }

  lemma {:induction false} InsertSorted(s: seq<Page>, x: Page, lastUsed: map<Page, int>, now: int)
    requires SortedByAge(s, lastUsed, now)
    ensures SortedByAge(Insert(s, x, lastUsed, now), lastUsed, now)
  {
    if s != [] && Age(lastUsed, x, now) >= Age(lastUsed, s[0], now) {
      InsertSorted(s[1..], x, lastUsed, now);
      var rest := Insert(s[1..], x, lastUsed, now);
      InsertBag(s[1..], x, lastUsed, now);
      forall i | 0 <= i < |rest| ensures Age(lastUsed, s[0], now) <= Age(lastUsed, rest[i], now) {
        assert rest[i] in multiset(rest);
        if rest[i] != x {
          assert rest[i] in s[1..];
        }
      }
    }
  }

  lemma {:induction false} SortSorted(s: seq<Page>, lastUsed: map<Page, int>, now: int)
    ensures SortedByAge(SortByAge(s, lastUsed, now), lastUsed, now)
  {
    if s != [] {
      SortSorted(s[..|s| - 1], lastUsed, now);
      InsertSorted(SortByAge(s[..|s| - 1], lastUsed, now), s[|s| - 1], lastUsed, now);
    }
  }

  function YoungCount(s: seq<Page>, lastUsed: map<Page, int>, c: Config, now: int): (n: nat)
    ensures n <= |s|
  {
    if s == [] then 0
    else YoungCount(s[..|s| - 1], lastUsed, c, now) + (if Age(lastUsed, s[|s| - 1], now) < c.idleTimeout then 1 else 0)
  }

  function Min(a: nat, b: nat): nat { if a < b then a else b }
  function Max(a: nat, b: nat): nat { if a < b then b else a }

  lemma {:induction false} YoungComeFirst(s: seq<Page>, lastUsed: map<Page, int>, c: Config, now: int)
    requires SortedByAge(s, lastUsed, now)
    ensures forall i :: YoungCount(s, lastUsed, c, now) <= i < |s| ==> Age(lastUsed, s[i], now) >= c.idleTimeout
  {
    if s != [] {
      var front := s[..|s| - 1];
      YoungComeFirst(front, lastUsed, c, now);
      var young := YoungCount(front, lastUsed, c, now);
      if young < |front| {
        assert Age(lastUsed, front[young], now) >= c.idleTimeout;
        assert s[young] == front[young];
      }
      forall i | YoungCount(s, lastUsed, c, now) <= i < |s| ensures Age(lastUsed, s[i], now) >= c.idleTimeout {
        if i < |front| {
          assert s[i] == front[i];
        }
      }
    }
  }

  /** How many of the sorted pages stay. */
  function KeptCount(s: seq<Page>, lastUsed: map<Page, int>, c: Config, now: int): nat {
    Min(|s|, Max(c.minPages, YoungCount(s, lastUsed, c, now)))
  }

  lemma KeptStep(s: seq<Page>, lastUsed: map<Page, int>, c: Config, now: int)
    requires s != [] && SortedByAge(s, lastUsed, now)
    ensures var front, page := s[..|s| - 1], s[|s| - 1];
      var m, n := KeptCount(front, lastUsed, c, now), KeptCount(s, lastUsed, c, now);
      if m < c.minPages || Age(lastUsed, page, now) < c.idleTimeout then m == |front| && n == |s| else n == m
  {
    YoungComeFirst(s, lastUsed, c, now);
    if Age(lastUsed, s[|s| - 1], now) < c.idleTimeout {
      assert YoungCount(s, lastUsed, c, now) == |s|;
    }
  }

  /** On sorted pages the loop cuts once: the freshest are kept, in order, and the rest closed. */
  lemma {:induction false} SplitIsACut(s: seq<Page>, lastUsed: map<Page, int>, c: Config, now: int)
    requires SortedByAge(s, lastUsed, now)
    ensures var n := KeptCount(s, lastUsed, c, now);
      Split(s, lastUsed, c, now).0 == s[..n] && Split(s, lastUsed, c, now).1 == s[n..]
  {
    if s != [] {
      var front, page := s[..|s| - 1], s[|s| - 1];
      SplitIsACut(front, lastUsed, c, now);
      KeptStep(s, lastUsed, c, now);
      var m, n := KeptCount(front, lastUsed, c, now), KeptCount(s, lastUsed, c, now);
      if n == |s| {
        assert front[..|front|] + [page] == s[..n];
      } else {
        assert front[..m] == s[..n] && front[m..] + [page] == s[n..];
      }
    }
  }

  /** How many pages are past the timeout does not depend on their order. */
  lemma {:induction false} YoungIsCounted(s: seq<Page>, lastUsed: map<Page, int>, c: Config, now: int)
    ensures YoungCount(s, lastUsed, c, now) == |Young(s, lastUsed, c, now)|
  {
    if s != [] {
      YoungIsCounted(s[..|s| - 1], lastUsed, c, now);
    }
  }

  function Young(s: seq<Page>, lastUsed: map<Page, int>, c: Config, now: int): (r: multiset<Page>)
    ensures forall x :: r[x] == if Age(lastUsed, x, now) < c.idleTimeout then multiset(s)[x] else 0
  {
    if s == [] then multiset{}
    else
      assert s == s[..|s| - 1] + [s[|s| - 1]];
      Young(s[..|s| - 1], lastUsed, c, now) +
      (if Age(lastUsed, s[|s| - 1], now) < c.idleTimeout then multiset{s[|s| - 1]} else multiset{})
  }

  lemma SamePagesSameYoung(s: seq<Page>, t: seq<Page>, lastUsed: map<Page, int>, c: Config, now: int)
    requires multiset(s) == multiset(t)
    ensures YoungCount(s, lastUsed, c, now) == YoungCount(t, lastUsed, c, now)
  {
    YoungIsCounted(s, lastUsed, c, now);
    YoungIsCounted(t, lastUsed, c, now);
    assert Young(s, lastUsed, c, now) == Young(t, lastUsed, c, now);
  }

  /** One sweep: kept and closed pages together are the idle ones; every closed page is past the
      timeout and no fresher than any page kept; and the number kept is exactly what the floor and the
      young pages demand. */
  lemma ReapKeepsTheFreshest(p: Pool, c: Config, now: int)
    ensures var (keep, doomed) := Decided(p, c, now);
      && Reap(p, c, now).available == keep
      && multiset(keep) + multiset(doomed) == multiset(p.available)
      && (forall i :: 0 <= i < |doomed| ==> Age(p.lastUsed, doomed[i], now) >= c.idleTimeout)
      && (forall i, j :: 0 <= i < |keep| && 0 <= j < |doomed| ==>
            Age(p.lastUsed, keep[i], now) <= Age(p.lastUsed, doomed[j], now))
      && |keep| == Min(|p.available|, Max(c.minPages, YoungCount(p.available, p.lastUsed, c, now)))
  {
    hide SortByAge, Split, YoungCount, SortedByAge, Age;
    var sorted := SortByAge(p.available, p.lastUsed, now);
    SortSorted(p.available, p.lastUsed, now);
    SortBag(p.available, p.lastUsed, now);
    SplitIsACut(sorted, p.lastUsed, c, now);
    YoungComeFirst(sorted, p.lastUsed, c, now);
    SamePagesSameYoung(sorted, p.available, p.lastUsed, c, now);
    SameSize(sorted, p.available);
    var n := KeptCount(sorted, p.lastUsed, c, now);
    assert sorted == sorted[..n] + sorted[n..];
    CutIsOrdered(sorted, p.lastUsed, now, n, c.idleTimeout);
  }

  lemma SameSize(s: seq<Page>, t: seq<Page>)
    requires multiset(s) == multiset(t)
    ensures |s| == |t|
  {
    assert |s| == |multiset(s)| == |multiset(t)| == |t|;
  }

  lemma CutIsOrdered(s: seq<Page>, lastUsed: map<Page, int>, now: int, n: nat, timeout: int)
    requires n <= |s| && SortedByAge(s, lastUsed, now)
    requires forall i :: n <= i < |s| ==> Age(lastUsed, s[i], now) >= timeout
    ensures var keep, doomed := s[..n], s[n..];
      && (forall i :: 0 <= i < |doomed| ==> Age(lastUsed, doomed[i], now) >= timeout)
      && (forall i, j :: 0 <= i < |keep| && 0 <= j < |doomed| ==>
            Age(lastUsed, keep[i], now) <= Age(lastUsed, doomed[j], now))
  {
    forall j | 0 <= j < |s[n..]| ensures s[n..][j] == s[n + j] {
    }
  }
}
