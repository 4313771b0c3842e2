/** Single-flight token refresh: any number of callers share one cached token and one refresh lock. */
module TokenRefresh {
  import opened Json

  /** Where a caller stands. Each `await` is a point where another caller may run, so a refresh is several
      steps; a caller of `refresh`, or of the renewal in `ensure_token`, brings no stale token. `Inside` holds
      the lock but has not looked at the cache yet, `Reloading` has found it stale and emptied it, `Leaving` has
      an answer or an error and still holds the lock. */
  datatype Caller =
    | Outside
    | Waiting(stale: Option<string>)
    | Inside(stale: Option<string>)
    | Reloading(stale: Option<string>)
    | Leaving

  /** An empty token counts as no token, so `Some(t)` stands for a non-empty `t`. */
  datatype System = System(token: Option<string>, lock: Option<nat>, callers: seq<Caller>)

  datatype Event =
    | Ask(i: nat, stale: Option<string>)
    | GiveUp(i: nat)                          // the wait for the lock timed out
    | Enter(i: nat)
    | Check(i: nat)
    | Mint(i: nat, found: Option<string>)     // the page was reloaded and the cookies read
    | Fail(i: nat)                            // the reload raised, or the hold timed out
    | Leave(i: nat)
    | Found(token: Option<string>)            // a cookie read outside the lock
    | Invalidate

  /** The double check after the lock is taken: reuse the cache unless it is empty or still the stale one. */
  predicate Reuses(token: Option<string>, stale: Option<string>) {
    token.Some? && token != stale
  }

  predicate At(s: System, i: nat) {
    i < |s.callers|
  }

  function Move(s: System, i: nat, c: Caller): System
    requires At(s, i)
  {
    s.(callers := s.callers[i := c])
  }

  /** One step, or `None` when the event cannot happen now. */
  function Next(s: System, e: Event): Option<System> {
    match e
    case Ask(i, stale) => if At(s, i) && s.callers[i].Outside? then Some(Move(s, i, Waiting(stale))) else None
    case GiveUp(i) => if At(s, i) && s.callers[i].Waiting? then Some(Move(s, i, Outside)) else None
    case Enter(i) =>
      if At(s, i) && s.callers[i].Waiting? && s.lock.None?
      then Some(Move(s, i, Inside(s.callers[i].stale)).(lock := Some(i))) else None
    case Check(i) =>
      if !At(s, i) || !s.callers[i].Inside? then None
      else if Reuses(s.token, s.callers[i].stale) then Some(Move(s, i, Leaving))
      else Some(Move(s, i, Reloading(s.callers[i].stale)).(token := None))
    case Mint(i, found) =>
      if At(s, i) && s.callers[i].Reloading? then Some(Move(s, i, Leaving).(token := found)) else None
    case Fail(i) =>
      if At(s, i) && (s.callers[i].Inside? || s.callers[i].Reloading?) then Some(Move(s, i, Leaving)) else None
    case Leave(i) => if At(s, i) && s.callers[i].Leaving? then Some(Move(s, i, Outside).(lock := None)) else None
    case Found(token) => Some(s.(token := token))
    case Invalidate => Some(s.(token := None))
  }

  predicate Holds(c: Caller) {
    c.Inside? || c.Reloading? || c.Leaving?
  }

  /** The lock is held by exactly the one caller inside the refresh section, if there is one. */
  ghost predicate Inv(s: System) {
    && (forall i :: 0 <= i < |s.callers| ==> (Holds(s.callers[i]) <==> s.lock == Some(i)))
    && (s.lock.Some? ==> At(s, s.lock.value))
  }

  function Run(s: System, events: seq<Event>): Option<System> {
    if events == [] then Some(s) else
    var before := Run(s, events[..|events| - 1]);
    if before.None? then None else Next(before.value, events[|events| - 1])
  }

  ghost predicate Start(s: System) {
    s.lock.None? && forall i :: 0 <= i < |s.callers| ==> s.callers[i].Outside?
  }

  lemma NextKeepsInv(s: System, e: Event)
    requires Inv(s) && Next(s, e).Some?
    ensures Inv(Next(s, e).value)
  {
  }

  lemma {:induction false} RunKeepsInv(s: System, events: seq<Event>)
    requires Inv(s) && Run(s, events).Some?
    ensures Inv(Run(s, events).value)
  {
    if events != [] {
      RunKeepsInv(s, events[..|events| - 1]);
      NextKeepsInv(Run(s, events[..|events| - 1]).value, events[|events| - 1]);
    }
  }

  /** At most one caller is inside the refresh section at any point of any run, and the lock is free
      whenever nobody is: every way out gives it back. */
  lemma OneRefreshAtATime(s: System, events: seq<Event>)
    requires Start(s) && Run(s, events).Some?
    ensures var r := Run(s, events).value;
            && (forall i, j :: 0 <= i < j < |r.callers| ==> !(Holds(r.callers[i]) && Holds(r.callers[j])))
            && (r.lock.None? <==> forall c <- r.callers :: !Holds(c))
  {
    assert Inv(s);
    RunKeepsInv(s, events);
    var r := Run(s, events).value;
    if r.lock.Some? {
      assert r.callers[r.lock.value] in r.callers;
    }
  }

  // ---------------------------------------------------------------- one reload per stale token

  predicate Stale(s: System, i: nat, stale: string) {
    At(s, i) && s.callers[i].Inside? && s.callers[i].stale == Some(stale)
  }

  /** The event is a caller rejected with `stale` going to the browser. */
  predicate StartsReload(s: System, e: Event, stale: string) {
    e.Check? && Stale(s, e.i, stale) && Next(s, e).Some? && Next(s, e).value.callers[e.i].Reloading?
  }

  function Reloads(s: System, events: seq<Event>, stale: string): nat {
    if events == [] then 0 else
    var before := events[..|events| - 1];
    var mid := Run(s, before);
    Reloads(s, before, stale) + (if mid.Some? && StartsReload(mid.value, events[|events| - 1], stale) then 1 else 0)
  }

  /** A step that neither empties the cache, nor puts `stale` back, nor abandons a reload. */
  predicate Calm(s: System, e: Event, stale: string) {
    match e
    case Mint(_, found) => found.Some? && found.value != stale
    case Fail(i) => At(s, i) && !s.callers[i].Reloading?
    case Found(token) => token.Some? && token.value != stale
    case Invalidate => false
    case _ => true
  }

  ghost predicate AllCalm(s: System, events: seq<Event>, stale: string) {
    forall n :: 0 <= n < |events| ==> CalmAt(s, events, n, stale)
  }

  predicate CalmAt(s: System, events: seq<Event>, n: nat, stale: string)
    requires n < |events|
  {
    Run(s, events[..n]).Some? ==> Calm(Run(s, events[..n]).value, events[n], stale)
  }

  /** Another token is cached, or someone is fetching one. */
  predicate Covered(s: System, stale: string) {
    || (s.token.Some? && s.token.value != stale)
    || (s.lock.Some? && At(s, s.lock.value) && s.callers[s.lock.value].Reloading?)
  }

  lemma CoveredStays(s: System, e: Event, stale: string)
    requires Inv(s) && Next(s, e).Some? && Calm(s, e, stale) && Covered(s, stale)
    ensures Covered(Next(s, e).value, stale) && !StartsReload(s, e, stale)
  {
  }

  lemma AReloadCovers(s: System, e: Event, stale: string)
    requires Inv(s) && Next(s, e).Some? && StartsReload(s, e, stale)
    ensures Covered(Next(s, e).value, stale)
  {
  }

  /** However many callers come back with the same rejected token, at most one of them reloads, as long as
      the cache is not emptied, the token does not come back and no reload is abandoned; and none does
      once another token is cached. */
  lemma {:induction false} OneReloadPerStaleToken(s: System, events: seq<Event>, stale: string)
    requires Inv(s) && Run(s, events).Some? && AllCalm(s, events, stale)
    ensures Reloads(s, events, stale) <= (if Covered(s, stale) then 0 else 1)
    ensures Covered(s, stale) || Reloads(s, events, stale) == 1 ==> Covered(Run(s, events).value, stale)
  {
    if events != [] {
      var n := |events| - 1;
      var before, e := events[..n], events[n];
      forall k | 0 <= k < n ensures CalmAt(s, before, k, stale) {
        assert before[..k] == events[..k];
        assert CalmAt(s, events, k, stale);
      }
      OneReloadPerStaleToken(s, before, stale);
      RunKeepsInv(s, before);
      var mid := Run(s, before).value;
      assert CalmAt(s, events, n, stale);
      hide Next, Calm, StartsReload, Covered;
      if Covered(mid, stale) {
        CoveredStays(mid, e, stale);
      } else if StartsReload(mid, e, stale) {
        AReloadCovers(mid, e, stale);
      }
    }
  }

  /** How many steps of the run were not calm. */
  function Disturbances(s: System, events: seq<Event>, stale: string): nat {
    if events == [] then 0 else
    var before := events[..|events| - 1];
    var mid := Run(s, before);
    Disturbances(s, before, stale) + (if mid.Some? && !Calm(mid.value, events[|events| - 1], stale) then 1 else 0)
  }

  /** Over any run at all, the callers that come back with one rejected token reload at most once, and once
      more for every step that empties the cache, puts the token back or abandons a reload. */
  lemma {:induction false} ReloadsAreDisturbancesPlusOne(s: System, events: seq<Event>, stale: string)
    requires Inv(s) && Run(s, events).Some?
    ensures Reloads(s, events, stale) + (if Covered(Run(s, events).value, stale) then 0 else 1)
         <= Disturbances(s, events, stale) + (if Covered(s, stale) then 0 else 1)
  {
    if events != [] {
      var before, e := events[..|events| - 1], events[|events| - 1];
      ReloadsAreDisturbancesPlusOne(s, before, stale);
      RunKeepsInv(s, before);
      var mid := Run(s, before).value;
      hide Next, Covered;
      if !Calm(mid, e, stale) {
        assert !StartsReload(mid, e, stale);
      } else if Covered(mid, stale) {
        CoveredStays(mid, e, stale);
      } else if StartsReload(mid, e, stale) {
        AReloadCovers(mid, e, stale);
      }
    }
  }

  lemma OneMore(s: System, events: seq<Event>, e: Event, stale: string)
    requires Run(s, events).Some?
    ensures Run(s, events + [e]) == Next(Run(s, events).value, e)
    ensures Reloads(s, events + [e], stale)
         == Reloads(s, events, stale) + (if StartsReload(Run(s, events).value, e, stale) then 1 else 0)
  {
    assert (events + [e])[..|events|] == events;
  }

  /** Two callers are rejected with the same token and the first one mints another. */
  function Storm(stale: string, minted: string): seq<Event> {
    [Ask(0, Some(stale))] + [Ask(1, Some(stale))] + [Enter(0)] + [Check(0)] + [Mint(0, Some(minted))] + [Leave(0)]
  }

  predicate Reached(r: Option<System>, token: Option<string>, lock: Option<nat>, callers: seq<Caller>) {
    r.Some? && r.value.token == token && r.value.lock == lock && r.value.callers == callers
  }

  lemma AfterTheStorm(stale: string, minted: string)
    requires stale != minted
    ensures var s := System(Some(stale), None, [Outside, Outside]);
            && Run(s, Storm(stale, minted)) == Some(System(Some(minted), None, [Outside, Waiting(Some(stale))]))
            && Reloads(s, Storm(stale, minted), stale) == 1
  {
    hide Run, Reloads;
    var s := System(Some(stale), None, [Outside, Outside]);
    var waiting, inside := Waiting(Some(stale)), Inside(Some(stale));
    NoEvents(s, stale);
    var e1 := [Ask(0, Some(stale))];
    OneMore(s, [], Ask(0, Some(stale)), stale);
    assert [] + e1 == e1 && Reached(Run(s, e1), Some(stale), None, [waiting, Outside]);
    var e2 := e1 + [Ask(1, Some(stale))];
    OneMore(s, e1, Ask(1, Some(stale)), stale);
    assert Reached(Run(s, e2), Some(stale), None, [waiting, waiting]);
    var e3 := e2 + [Enter(0)];
    OneMore(s, e2, Enter(0), stale);
    assert Reached(Run(s, e3), Some(stale), Some(0), [inside, waiting]);
    var e4 := e3 + [Check(0)];
    OneMore(s, e3, Check(0), stale);
    assert Reached(Run(s, e4), None, Some(0), [Reloading(Some(stale)), waiting]);
    var e5 := e4 + [Mint(0, Some(minted))];
    OneMore(s, e4, Mint(0, Some(minted)), stale);
    assert Reached(Run(s, e5), Some(minted), Some(0), [Leaving, waiting]);
    OneMore(s, e5, Leave(0), stale);
    assert Reached(Run(s, e5 + [Leave(0)]), Some(minted), None, [Outside, waiting]);
  }

  lemma NoEvents(s: System, stale: string)
    ensures Run(s, []) == Some(s) && Reloads(s, [], stale) == 0
  {
  }

  /** The second caller then reuses the new token, unless the cache was emptied in between. */
  lemma AClearedCacheReloadsAgain(stale: string, minted: string)
    requires stale != minted
    ensures var s := System(Some(stale), None, [Outside, Outside]);
            && Reloads(s, Storm(stale, minted) + [Enter(1)] + [Check(1)], stale) == 1
            && Reloads(s, Storm(stale, minted) + [Invalidate] + [Enter(1)] + [Check(1)], stale) == 2
  {
    hide Run, Reloads, Storm;
    var s, storm := System(Some(stale), None, [Outside, Outside]), Storm(stale, minted);
    AfterTheStorm(stale, minted);
    OneMore(s, storm, Enter(1), stale);
    OneMore(s, storm + [Enter(1)], Check(1), stale);
    OneMore(s, storm, Invalidate, stale);
    OneMore(s, storm + [Invalidate], Enter(1), stale);
    OneMore(s, storm + [Invalidate] + [Enter(1)], Check(1), stale);
  }

  // ---------------------------------------------------------------- reading the cookies

  datatype Cookie = Cookie(name: string, value: string)

  /** `"; ".join(f"{name}={value}" ...)`. */
  function Header(cookies: seq<Cookie>): string {
    if cookies == [] then "" else
    var c := cookies[|cookies| - 1];
    (if |cookies| == 1 then "" else Header(cookies[..|cookies| - 1]) + "; ") + c.name + "=" + c.value
  }

  /** The first cookie called `nauk_at`, or the number of cookies. */
  function FirstToken(cookies: seq<Cookie>): (i: nat)
    ensures i <= |cookies| && (i < |cookies| ==> cookies[i].name == "nauk_at")
    ensures forall j :: 0 <= j < i ==> cookies[j].name != "nauk_at"
  {
    if cookies == [] || cookies[0].name == "nauk_at" then 0 else
    var rest := FirstToken(cookies[1..]);
    assert forall j :: 0 < j < rest + 1 ==> cookies[j] == cookies[1..][j - 1];
    rest + 1
  }

  /** The token the cookies carry: the first one of that name counts, even if it is empty. */
  function TokenIn(cookies: seq<Cookie>): Option<string> {
    var i := FirstToken(cookies);
    if i < |cookies| && cookies[i].value != "" then Some(cookies[i].value) else None
  }

  /** The token is the whole value of the first cookie of that name, and there is none if that value is empty. */
  lemma TheTokenIsTheFirst(cookies: seq<Cookie>, i: nat)
    requires i < |cookies| && cookies[i].name == "nauk_at" && forall j :: 0 <= j < i ==> cookies[j].name != "nauk_at"
    ensures TokenIn(cookies) == if cookies[i].value == "" then None else Some(cookies[i].value)
  {
    var k := FirstToken(cookies);
    assert k == i;
  }

  lemma NoCookieNoToken(cookies: seq<Cookie>)
    requires forall i :: 0 <= i < |cookies| ==> cookies[i].name != "nauk_at"
    ensures TokenIn(cookies) == None
  {
    var k := FirstToken(cookies);
  }

  lemma HeaderOneMore(cookies: seq<Cookie>, c: Cookie)
    ensures Header(cookies + [c]) == (if cookies == [] then "" else Header(cookies) + "; ") + c.name + "=" + c.value
  {
    assert (cookies + [c])[..|cookies|] == cookies;
  }

  lemma HeaderOfOne(c: Cookie)
    ensures Header([c]) == c.name + "=" + c.value
  {
    assert "" + c.name == c.name;
  }

  /** The header is the cookies in order, each as its name and value, with a separator between any two. */
  lemma {:induction false} HeadersJoin(a: seq<Cookie>, b: seq<Cookie>)
    requires a != [] && b != []
    ensures Header(a + b) == Header(a) + "; " + Header(b)
    ensures |b| == 1 ==> Header(b) == b[0].name + "=" + b[0].value
    decreases |b|
  {
    hide Header;
    var n := |b| - 1;
    var last := b[n];
    assert b == b[..n] + [last] && a + b == (a + b[..n]) + [last];
    HeaderOneMore(b[..n], last);
    HeaderOneMore(a + b[..n], last);
    if n == 0 {
      HeaderOfOne(last);
      assert a + b[..n] == a && b == [last];
      JoinRight(Header(a) + "; ", "", last.name, last.value);
    } else {
      HeadersJoin(a, b[..n]);
      JoinRight(Header(a) + "; ", Header(b[..n]) + "; ", last.name, last.value);
      assert Header(a) + "; " + Header(b[..n]) + "; " == Header(a) + "; " + (Header(b[..n]) + "; ");
    }
  }

  lemma JoinRight(a: string, b: string, name: string, value: string)
    ensures a + b + name + "=" + value == a + (b + name + "=" + value)
  {
  }

  /** What a reading leaves in the cache: nothing unless it succeeds. */
  function TokenAfter(read: Option<seq<Cookie>>): Option<string> {
    if read.None? then None else TokenIn(read.value)
  }

  // ---------------------------------------------------------------- the object

  /** The cache and the lock, with the stretches between two awaits as methods. */
  class TokenManager {
    var token: Option<string>
    var cookies: Option<string>
    var lock: Option<nat>

    ghost predicate Is(s: System)
      reads this
    {
      token == s.token && lock == s.lock
    }

    /** `await self._refresh_lock.acquire()` coming back to caller `i`. */
    method Acquired(ghost s: System, i: nat)
      requires Is(s) && Next(s, Enter(i)).Some?
      modifies this`lock
      ensures Is(Next(s, Enter(i)).value)
    {
      lock := Some(i);
    }

    /** The start of `_run`: reuse the cache or empty it. */
    method Reuse(ghost s: System, ghost i: nat, stale: Option<string>) returns (reused: bool)
      requires Is(s) && At(s, i) && s.callers[i] == Inside(stale)
      modifies this`token
      ensures Is(Next(s, Check(i)).value)
      ensures reused <==> Next(s, Check(i)).value.callers[i].Leaving?
      // the cache is reused exactly when it holds another token than the rejected one, and emptied otherwise
      ensures reused <==> old(token).Some? && old(token) != stale
      ensures token == if reused then old(token) else None
    {
      if token.Some? && token != stale {
        return true;
      }
      token := None;
      return false;
    }

    /** `extract`: `read` is what the context answers, `None` when it raises or does not answer in time.
        Without a context nothing changes; otherwise the cache takes the protocol's step `Found`, or under
        the lock `Mint`. */
    method Extract(context: bool, read: Option<seq<Cookie>>, ghost s: System)
      requires Is(s)
      modifies this`token, this`cookies
      ensures !context ==> Is(s) && cookies == old(cookies)
      ensures context ==> Is(Next(s, Found(TokenAfter(read))).value)
      ensures context ==> cookies == if read.Some? then Some(Header(read.value)) else old(cookies)
      ensures forall i :: context && Next(s, Mint(i, TokenAfter(read))).Some? ==> Is(Next(s, Mint(i, TokenAfter(read))).value)
    {
      if !context {
        return;
      }
      if read.Some? {
        var found := read.value;
        var header := JoinCookies(found);
        cookies := Some(header);
        for i := 0 to |found|
          invariant i <= FirstToken(found) && token == s.token && lock == s.lock
        {
          if found[i].name == "nauk_at" {
            token := if found[i].value != "" then Some(found[i].value) else None;
            return;
          }
        }
      }
      token := None;
    }

    method JoinCookies(found: seq<Cookie>) returns (header: string)
      ensures header == Header(found)
    {
      header := "";
      for i := 0 to |found|
        invariant header == Header(found[..i])
      {
        assert found[..i + 1][..i] == found[..i];
        header := (if i == 0 then "" else header + "; ") + found[i].name + "=" + found[i].value;
      }
      assert found[..|found|] == found;
    }

    /** The `finally` clause of `_with_refresh_lock`. */
    method Release(ghost s: System, ghost i: nat)
      requires Is(s) && Next(s, Leave(i)).Some?
      modifies this`lock
      ensures Is(Next(s, Leave(i)).value)
    {
      lock := None;
    }
  }
}
