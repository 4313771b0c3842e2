/** The REST client: its circuit breaker, and one request with its retries, its single token refresh and
    its counters. */
module ApiClients {

  // ---------------------------------------------------------------- the circuit breaker

  datatype Light = Closed | Open | HalfOpen

  datatype Breaker = Breaker(failures: nat, light: Light, lastFailure: real)

  const FRESH_BREAKER := Breaker(0, Closed, 0.0)

  /** What a breaker is told or asked. */
  datatype Mark = Good | Bad(at: real) | Ask(now: real)

  datatype Limits = Limits(threshold: int, timeout: real)

  function BreakerStep(b: Breaker, m: Mark, limits: Limits): Breaker {
    match m
    case Good => b.(failures := 0, light := Closed)
    case Bad(at) =>
      if b.failures + 1 >= limits.threshold then Breaker(b.failures + 1, Open, at) else b.(failures := b.failures + 1)
    case Ask(now) =>
      if b.light == Open && now - b.lastFailure > limits.timeout then b.(light := HalfOpen) else b
  }

  function BreakerRun(marks: seq<Mark>, limits: Limits): Breaker {
    if marks == [] then FRESH_BREAKER
    else BreakerStep(BreakerRun(marks[..|marks| - 1], limits), marks[|marks| - 1], limits)
  }

  /** How many failures have come in since the last success. */
  function TrailingFailures(marks: seq<Mark>): nat {
    if marks == [] then 0 else
    var before := TrailingFailures(marks[..|marks| - 1]);
    match marks[|marks| - 1]
    case Good => 0
    case Bad(_) => before + 1
    case Ask(_) => before
  }

  function LastFailure(marks: seq<Mark>): real {
    if marks == [] then 0.0
    else if marks[|marks| - 1].Bad? then marks[|marks| - 1].at
    else LastFailure(marks[..|marks| - 1])
  }

  /** Whether anyone has asked since the last failure, late enough to be let through. */
  predicate Probed(marks: seq<Mark>, timeout: real) {
    marks != [] &&
    var before, last := marks[..|marks| - 1], marks[|marks| - 1];
    last.Ask? && (Probed(before, timeout) || last.now - LastFailure(before) > timeout)
  }

  /** The breaker is its history: closed exactly while fewer failures than the threshold have come in
      since the last success, and otherwise half open exactly when it has been probed since the last one.
      So one failed probe reopens it. */
  lemma {:induction false} BreakerIsItsHistory(marks: seq<Mark>, limits: Limits)
    requires limits.threshold >= 1
    ensures var b, trailing := BreakerRun(marks, limits), TrailingFailures(marks);
            && b.failures == trailing
            && (b.light == Closed <==> trailing < limits.threshold)
            && (trailing >= limits.threshold ==> b.lastFailure == LastFailure(marks))
            && (trailing >= limits.threshold ==> (b.light == HalfOpen <==> Probed(marks, limits.timeout)))
  {
    if marks != [] {
      BreakerIsItsHistory(marks[..|marks| - 1], limits);
    }
  }

  predicate Admits(b: Breaker) {
    b.light != Open
  }

  /** A call is refused exactly when the service is failing, nobody has probed it since, and it is still
      too early. A half-open breaker admits every caller, not one. */
  lemma RefusedExactlyWhen(marks: seq<Mark>, limits: Limits, now: real)
    requires limits.threshold >= 1
    ensures !Admits(BreakerRun(marks + [Ask(now)], limits)) <==>
      && TrailingFailures(marks) >= limits.threshold
      && !Probed(marks, limits.timeout) && now - LastFailure(marks) <= limits.timeout
  {
    assert (marks + [Ask(now)])[..|marks|] == marks;
    BreakerIsItsHistory(marks, limits);
  }

  class ApiCircuitBreaker {
    const limits: Limits
    var failures: nat
    var light: Light
    var lastFailure: real

    ghost function State(): Breaker
      reads this
    {
      Breaker(failures, light, lastFailure)
    }

    constructor (limits: Limits)
      ensures this.limits == limits && State() == FRESH_BREAKER
    {
      this.limits := limits;
      failures, light, lastFailure := 0, Closed, 0.0;
    }

    method RecordSuccess()
      modifies this
      ensures State() == BreakerStep(old(State()), Good, limits)
    {
      failures := 0;
      light := Closed;
    }

    method RecordFailure(at: real)
      modifies this
      ensures State() == BreakerStep(old(State()), Bad(at), limits)
    {
      failures := failures + 1;
      if failures >= limits.threshold {
        light := Open;
        lastFailure := at;
      }
    }

    method CanExecute(now: real) returns (yes: bool)
      modifies this
      ensures State() == BreakerStep(old(State()), Ask(now), limits) && yes == Admits(State())
    {
      if light == Closed {
        return true;
      }
      if light == Open {
        if now - lastFailure > limits.timeout {
          light := HalfOpen;
          return true;
        }
        return false;
      }
      return true;
    }
  }

  /** One caller after another, none of which has reported yet. */
  function Asking(marks: seq<Mark>, times: seq<real>): seq<Mark> {
    if times == [] then marks else Asking(marks, times[..|times| - 1]) + [Ask(times[|times| - 1])]
  }

  /** Nor does a probe that has not been answered yet keep the next caller out, however many came before. */
  lemma {:induction false} ProbesAreNotCounted(marks: seq<Mark>, limits: Limits, times: seq<real>)
    requires Admits(BreakerRun(marks, limits))
    ensures Admits(BreakerRun(Asking(marks, times), limits))
  {
    if times != [] {
      var n := |times| - 1;
      ProbesAreNotCounted(marks, limits, times[..n]);
      var before := Asking(marks, times[..n]);
      assert (before + [Ask(times[n])])[..|before|] == before;
    }
  }

  // ---------------------------------------------------------------- one request

  datatype BodyRead = Parsed | Garbled | Dropped

  datatype Refresh = Renewed | AuthExpired | RefreshFailed

  /** What an attempt meets. `Transport` is a connection error or timeout before anything was recorded,
      `Breaks` any other exception there, and `Refused` an exception before the request is sent. */
  datatype Reply =
    | Refused
    | Breaks
    | Transport
    | NoContent
    | JsonBody(read: BodyRead)
    | OtherBody(status: int, block: bool)
    | Status(code: int, refresh: Refresh)

  datatype Result = Body | ApiError(status: int) | BotCheck(status: int) | Propagated

  datatype Event = Sent | Refreshed | Retried | Succeeded | Failed

  /** What one attempt does, and how the call ends if it ends here. */
  datatype Turn = Again(events: seq<Event>) | Ends(events: seq<Event>, result: Result)

  predicate IsBotCheck(code: int) {
    code == 403 || code == 406
  }

  predicate IsRetriable(code: int) {
    code == 429 || code == 502 || code == 503 || code == 504
  }

  function Attempt(reply: Reply, i: nat, max: nat): (turn: Turn)
    ensures turn.Again? ==> i < max || i == 0
  {
    match reply
    case Refused => Ends([], Propagated)
    case Breaks => Ends([Sent], Propagated)
    case Transport => if i < max then Again([Sent, Retried]) else Ends([Sent, Failed], ApiError(0))
    case NoContent => Ends([Sent, Succeeded], Body)
    case JsonBody(read) =>
      if read == Parsed then Ends([Sent, Succeeded], Body)
      else if read == Garbled then Ends([Sent, Succeeded], Propagated)
      else if i < max then Again([Sent, Succeeded, Retried])
      else Ends([Sent, Succeeded, Failed], ApiError(0))
    case OtherBody(status, block) => Ends([Sent, Failed], if block then BotCheck(status) else ApiError(status))
    case Status(code, refresh) =>
      if code == 401 && i == 0 then
        match refresh
        case Renewed => Again([Sent, Refreshed])
        case AuthExpired => Ends([Sent, Refreshed, Failed], ApiError(401))
        case RefreshFailed => Ends([Sent, Refreshed], ApiError(401))
      else if IsBotCheck(code) then
        if i > 0 then Ends([Sent, Failed], BotCheck(code))
        else if refresh == Renewed then Again([Sent, Refreshed])
        else Ends([Sent, Refreshed, Failed], BotCheck(code))
      else if IsRetriable(code) && i < max then Again([Sent, Retried])
      else Ends([Sent, Failed], ApiError(code))
  }

  function Bound(max: nat): nat {
    if max > 1 then max else 1
  }

  /** Attempt `i` and all that follow it; `replies(j)` is what attempt `j` meets. */
  function Course(replies: nat -> Reply, i: nat, max: nat): Turn
    requires i <= Bound(max)
    ensures Course(replies, i, max).Ends?
    decreases Bound(max) - i
  {
    var turn := Attempt(replies(i), i, max);
    if turn.Ends? then turn else
    var rest := Course(replies, i + 1, max);
    Ends(turn.events + rest.events, rest.result)
  }

  function LastAttempt(replies: nat -> Reply, i: nat, max: nat): (n: nat)
    requires i <= Bound(max)
    ensures i <= n <= Bound(max) && Attempt(replies(n), n, max).Ends?
    ensures forall j :: i <= j < n ==> Attempt(replies(j), j, max).Again?
    decreases Bound(max) - i
  {
    if Attempt(replies(i), i, max).Again? then LastAttempt(replies, i + 1, max) else i
  }

  // ---------------------------------------------------------------- what a call costs

  function Count(events: seq<Event>, e: Event): nat {
    multiset(events)[e]
  }

  lemma CountAppends(a: seq<Event>, b: seq<Event>, e: Event)
    ensures Count(a + b, e) == Count(a, e) + Count(b, e)
  {
  }

  /** Breaker records are successes and failures. */
  function Outcomes(events: seq<Event>): nat {
    Count(events, Succeeded) + Count(events, Failed)
  }

  /** The last attempt tells the breaker nothing. */
  predicate Silent(reply: Reply, i: nat) {
    reply.Refused? || reply.Breaks? || (reply.Status? && reply.code == 401 && i == 0 && reply.refresh == RefreshFailed)
  }

  predicate IsAt(events: seq<Event>, k: nat, e: Event) {
    k < |events| && events[k] == e
  }

  lemma CountShort(events: seq<Event>, e: Event)
    requires |events| <= 3
    ensures Count(events, e) == (if IsAt(events, 0, e) then 1 else 0) + (if IsAt(events, 1, e) then 1 else 0)
                                + (if IsAt(events, 2, e) then 1 else 0)
  {
    hide Count;
    CountFirst(events, e);
    if events != [] {
      var one := events[1..];
      CountFirst(one, e);
      if one != [] {
        var two := one[1..];
        CountFirst(two, e);
        if two != [] {
          CountFirst(two[1..], e);
          assert two[1..] == [];
        }
      }
    }
  }

  lemma CountFirst(events: seq<Event>, e: Event)
    ensures Count(events, e) == if events == [] then 0 else (if events[0] == e then 1 else 0) + Count(events[1..], e)
  {
    if events != [] {
      assert events == [events[0]] + events[1..];
    }
  }

  /** What one attempt costs. */
  lemma AttemptCosts(reply: Reply, i: nat, max: nat)
    ensures var turn := Attempt(reply, i, max);
            && (turn.Again? ==> !reply.Refused?) && Count(turn.events, Sent) == (if reply.Refused? then 0 else 1)
            && Count(turn.events, Refreshed) <= (if i == 0 then 1 else 0)
            && Outcomes(turn.events) == (if reply == JsonBody(Dropped) then 1 else 0)
                + (if turn.Again? || Silent(reply, i) then 0 else 1)
  {
    hide Count;
    var events := Attempt(reply, i, max).events;
    CountShort(events, Sent);
    CountShort(events, Refreshed);
    CountShort(events, Succeeded);
    CountShort(events, Failed);
  }

  /** How many attempts from `i` to `n` lose the connection while reading a success's body. */
  function LostBodies(replies: nat -> Reply, i: nat, n: nat): nat
    requires i <= n
    decreases n - i
  {
    (if replies(i) == JsonBody(Dropped) then 1 else 0) + (if i == n then 0 else LostBodies(replies, i + 1, n))
  }

  /** Every attempt but a refused last one sends one request; only attempt 0 refreshes the token; and the
      breaker hears once at the end, unless that end is silent, and once for every lost body. */
  lemma {:induction false} CourseCosts(replies: nat -> Reply, i: nat, max: nat)
    requires i <= Bound(max)
    ensures var events, n := Course(replies, i, max).events, LastAttempt(replies, i, max);
            && Count(events, Sent) == n - i + (if replies(n).Refused? then 0 else 1)
            && Count(events, Refreshed) <= (if i == 0 then 1 else 0)
            && Outcomes(events) == LostBodies(replies, i, n) + (if Silent(replies(n), n) then 0 else 1)
    decreases Bound(max) - i
  {
    var turn := Attempt(replies(i), i, max);
    AttemptCosts(replies(i), i, max);
    hide Attempt, Count, Silent;
    if turn.Again? {
      CourseCosts(replies, i + 1, max);
      var rest := Course(replies, i + 1, max);
      CountAppends(turn.events, rest.events, Sent);
      CountAppends(turn.events, rest.events, Refreshed);
      CountAppends(turn.events, rest.events, Succeeded);
      CountAppends(turn.events, rest.events, Failed);
    }
  }

  // ---------------------------------------------------------------- many calls

  datatype Call = Call(replies: nat -> Reply, now: real, failedAt: real)

  /** Everything that has happened: what the calls did, what the breaker heard, how many calls there were. */
  datatype History = History(trail: seq<Event>, marks: seq<Mark>, total: nat)

  /** What the breaker hears of an event. */
  function Heard(e: Event, failedAt: real): seq<Mark> {
    match e
    case Succeeded => [Good]
    case Failed => [Bad(failedAt)]
    case _ => []
  }

  function Marks(events: seq<Event>, failedAt: real): seq<Mark> {
    if events == [] then [] else Marks(events[..|events| - 1], failedAt) + Heard(events[|events| - 1], failedAt)
  }

  lemma MarksOneMore(events: seq<Event>, e: Event, failedAt: real)
    ensures Marks(events + [e], failedAt) == Marks(events, failedAt) + Heard(e, failedAt)
  {
    assert (events + [e])[..|events|] == events;
  }

  lemma {:induction false} MarksAppend(a: seq<Event>, b: seq<Event>, failedAt: real)
    ensures Marks(a + b, failedAt) == Marks(a, failedAt) + Marks(b, failedAt)
  {
    hide Heard;
    if b == [] {
      assert a + b == a;
    } else {
      var n := |b| - 1;
      assert a + b == (a + b[..n]) + [b[n]];
      MarksAppend(a, b[..n], failedAt);
      MarksOneMore(a + b[..n], b[n], failedAt);
    }
  }

  function Serve(h: History, call: Call, limits: Limits, max: nat): History {
    var asked := h.marks + [Ask(call.now)];
    if !Admits(BreakerRun(asked, limits)) then History(h.trail, asked, h.total + 1) else
    var events := Course(call.replies, 0, max).events;
    History(h.trail + events, asked + Marks(events, call.failedAt), h.total + 1)
  }

  function ServeAll(calls: seq<Call>, limits: Limits, max: nat): History {
    if calls == [] then History([], [], 0)
    else Serve(ServeAll(calls[..|calls| - 1], limits, max), calls[|calls| - 1], limits, max)
  }

  function LostIn(call: Call, max: nat): nat {
    LostBodies(call.replies, 0, LastAttempt(call.replies, 0, max))
  }

  function AllLost(calls: seq<Call>, max: nat): nat {
    if calls == [] then 0 else AllLost(calls[..|calls| - 1], max) + LostIn(calls[|calls| - 1], max)
  }

  /** At most 1 + max(1, retries) requests and one refresh per call; and at most one breaker record exactly
      when no success loses the connection while its body is read, or one does and the call ends silently. */
  lemma OneCallIsBounded(call: Call, max: nat)
    ensures var events, last := Course(call.replies, 0, max).events, LastAttempt(call.replies, 0, max);
            && Count(events, Sent) <= 1 + Bound(max) && Count(events, Refreshed) <= 1
            && Outcomes(events) <= 1 + LostIn(call, max)
            && (Outcomes(events) <= 1 <==>
                LostIn(call, max) == 0 || (LostIn(call, max) == 1 && Silent(call.replies(last), last)))
  {
    CourseCosts(call.replies, 0, max);
  }

  /** Successes and errors never pass the calls by more than the bodies lost while being read. */
  lemma {:induction false} BooksBalance(calls: seq<Call>, limits: Limits, max: nat)
    ensures var h := ServeAll(calls, limits, max);
            h.total == |calls| && Outcomes(h.trail) <= h.total + AllLost(calls, max)
  {
    if calls != [] {
      var before, call := ServeAll(calls[..|calls| - 1], limits, max), calls[|calls| - 1];
      BooksBalance(calls[..|calls| - 1], limits, max);
      OneCallIsBounded(call, max);
      CountAppends(before.trail, Course(call.replies, 0, max).events, Succeeded);
      CountAppends(before.trail, Course(call.replies, 0, max).events, Failed);
      hide Count, Course, LostIn, BreakerRun, Admits, Marks;
    }
  }

  /** One call can record two outcomes: a success is recorded before its body is read. */
  lemma ALostBodyIsCountedTwice(call: Call, limits: Limits, max: nat)
    requires max >= 1 && call.replies(0) == JsonBody(Dropped) && call.replies(1) == JsonBody(Parsed) && limits.threshold >= 1
    ensures Outcomes(ServeAll([call], limits, max).trail) == 2 > ServeAll([call], limits, max).total
  {
    var first := ServeAll([], limits, max);
    assert [call][..0] == [];
    assert ServeAll([call], limits, max) == Serve(first, call, limits, max);
    assert BreakerRun([Ask(call.now)], limits) == FRESH_BREAKER by {
      assert [Ask(call.now)][..0] == [];
    }
    assert first.marks + [Ask(call.now)] == [Ask(call.now)];
    var events := Course(call.replies, 0, max).events;
    assert LastAttempt(call.replies, 0, max) == 1;
    CourseCosts(call.replies, 0, max);
    assert first.trail + events == events;
  }

  lemma BreakerOneMore(marks: seq<Mark>, m: Mark, limits: Limits)
    ensures BreakerRun(marks + [m], limits) == BreakerStep(BreakerRun(marks, limits), m, limits)
  {
    assert (marks + [m])[..|marks|] == marks;
    hide BreakerStep;
  }
}
