/** The REST client as the object it is: the counters, the breaker it reports to, and one request with its
    retries, branch by branch. */
module ApiClientObject {
  import opened ApiClients
  import opened CallOutcomes

  lemma CountOneMore(events: seq<Event>, e: Event)
    ensures forall f :: Count(events + [e], f) == Count(events, f) + if e == f then 1 else 0
  {
    assert multiset(events + [e]) == multiset(events) + multiset{e};
  }

  lemma Extended(from: History, events: seq<Event>, e: Event, at: real)
    ensures (from.trail + events) + [e] == from.trail + (events + [e])
    ensures (from.marks + Marks(events, at)) + Heard(e, at) == from.marks + Marks(events + [e], at)
  {
    MarksOneMore(events, e, at);
    hide Marks, Heard;
  }

  lemma Joined()
    ensures forall e :: [Sent] + [e] == [Sent, e]
    ensures forall e, f :: [Sent, e] + [f] == [Sent, e, f]
  {
  }

  class ApiClient {
    const maxRetries: nat
    const breaker: ApiCircuitBreaker
    var total: nat
    var success: nat
    var errors: nat
    var retries: nat
    var authRefreshes: nat
    ghost var trail: seq<Event>
    ghost var marks: seq<Mark>

    ghost predicate Valid()
      reads this, breaker
    {
      && breaker.State() == BreakerRun(marks, breaker.limits)
      && success == Count(trail, Succeeded) && errors == Count(trail, Failed)
      && retries == Count(trail, Retried) && authRefreshes == Count(trail, Refreshed)
    }

    ghost function View(): History
      reads this
    {
      History(trail, marks, total)
    }

    constructor (maxRetries: nat, limits: Limits)
      ensures Valid() && fresh(breaker) && View() == History([], [], 0)
      ensures this.maxRetries == maxRetries && breaker.limits == limits
    {
      this.maxRetries := maxRetries;
      breaker := new ApiCircuitBreaker(limits);
      total, success, errors, retries, authRefreshes := 0, 0, 0, 0, 0;
      trail, marks := [], [];
    }

    /** Since `from`, exactly these events have been added and the breaker has heard of them. */
    ghost predicate Since(from: History, events: seq<Event>, at: real)
      reads this
    {
      trail == from.trail + events && marks == from.marks + Marks(events, at) && total == from.total
    }

    ghost method Send()
      requires Valid()
      modifies this`trail
      ensures Valid() && trail == old(trail) + [Sent]
    {
      CountOneMore(trail, Sent);
      trail := trail + [Sent];
    }

    method Retry()
      requires Valid()
      modifies this`retries, this`trail
      ensures Valid() && trail == old(trail) + [Retried]
    {
      CountOneMore(trail, Retried);
      retries := retries + 1;
      trail := trail + [Retried];
    }

    method Refresh()
      requires Valid()
      modifies this`authRefreshes, this`trail
      ensures Valid() && trail == old(trail) + [Refreshed]
    {
      CountOneMore(trail, Refreshed);
      authRefreshes := authRefreshes + 1;
      trail := trail + [Refreshed];
    }

    ghost method NoteSent(from: History, at: real)
      requires Valid() && Since(from, [], at)
      modifies this`trail
      ensures Valid() && Since(from, [Sent], at)
    {
      hide Valid, Marks;
      Extended(from, [], Sent, at);
      assert marks + [] == marks && [] + [Sent] == [Sent];
      Send();
    }

    method NoteRetry(ghost from: History, ghost events: seq<Event>, at: real)
      requires Valid() && Since(from, events, at)
      modifies this`retries, this`trail
      ensures Valid() && Since(from, events + [Retried], at)
    {
      hide Valid, Marks;
      Extended(from, events, Retried, at);
      assert marks + [] == marks;
      Retry();
    }

    method NoteRefresh(ghost from: History, ghost events: seq<Event>, at: real)
      requires Valid() && Since(from, events, at)
      modifies this`authRefreshes, this`trail
      ensures Valid() && Since(from, events + [Refreshed], at)
    {
      hide Valid, Marks;
      Extended(from, events, Refreshed, at);
      assert marks + [] == marks;
      Refresh();
    }

    method Succeed()
      requires Valid()
      modifies this`success, this`trail, this`marks, breaker
      ensures Valid() && trail == old(trail) + [Succeeded] && marks == old(marks) + [Good]
    {
      CountOneMore(trail, Succeeded);
      BreakerOneMore(marks, Good, breaker.limits);
      hide Count, BreakerRun, BreakerStep;
      success := success + 1;
      breaker.RecordSuccess();
      trail, marks := trail + [Succeeded], marks + [Good];
    }

    method Fail(at: real)
      requires Valid()
      modifies this`errors, this`trail, this`marks, breaker
      ensures Valid() && trail == old(trail) + [Failed] && marks == old(marks) + [Bad(at)]
    {
      CountOneMore(trail, Failed);
      BreakerOneMore(marks, Bad(at), breaker.limits);
      hide Count, BreakerRun, BreakerStep;
      errors := errors + 1;
      breaker.RecordFailure(at);
      trail, marks := trail + [Failed], marks + [Bad(at)];
    }

    method NoteSuccess(ghost from: History, ghost events: seq<Event>, at: real)
      requires Valid() && Since(from, events, at)
      modifies this`success, this`trail, this`marks, breaker
      ensures Valid() && Since(from, events + [Succeeded], at)
    {
      hide Valid, Marks;
      Extended(from, events, Succeeded, at);
      Succeed();
    }

    method NoteFailure(ghost from: History, ghost events: seq<Event>, at: real)
      requires Valid() && Since(from, events, at)
      modifies this`errors, this`trail, this`marks, breaker
      ensures Valid() && Since(from, events + [Failed], at)
    {
      hide Valid, Marks;
      Extended(from, events, Failed, at);
      Fail(at);
    }

    /** Whether the answer is followed by another attempt and, if not, what the caller gets. */
    ghost predicate Told(reply: Reply, attempt: nat, again: bool, r: Result) {
      (again <==> IsFollowed(reply, attempt, maxRetries)) && (!again ==> Gives(reply, r))
    }

    lemma AttemptIsTold(reply: Reply, attempt: nat)
      ensures forall r :: Attempt(reply, attempt, maxRetries).Again? ==> Told(reply, attempt, true, r)
      ensures Attempt(reply, attempt, maxRetries).Ends? ==> Told(reply, attempt, false, Attempt(reply, attempt, maxRetries).result)
    {
      AttemptEnds(reply, attempt, maxRetries);
    }

    /** One attempt, up to the point where it would call `_api_request` again. */
    method Meet(ghost from: History, reply: Reply, attempt: nat, at: real) returns (again: bool, r: Result)
      requires Valid() && Since(from, [], at)
      modifies this, breaker
      ensures var turn := Attempt(reply, attempt, maxRetries);
        && again == turn.Again? && (turn.Ends? ==> r == turn.result)
        && Valid() && Since(from, turn.events, at)
      ensures Told(reply, attempt, again, r)
    {
      hide Valid, Since, Told;
      Joined();
      AttemptIsTold(reply, attempt);
      again, r := false, Propagated;
      if reply.Refused? {
        return;
      }
      NoteSent(from, at);
      match reply {
        case Breaks =>
        case Transport =>
          again, r := RetryOrGiveUp(from, [Sent], attempt, at);
        case NoContent =>
          NoteSuccess(from, [Sent], at);
          r := Body;
        case JsonBody(read) =>
          NoteSuccess(from, [Sent], at);
          if read == Parsed {
            r := Body;
          } else if read == Dropped {
            again, r := RetryOrGiveUp(from, [Sent, Succeeded], attempt, at);
          }
        case OtherBody(status, block) =>
          NoteFailure(from, [Sent], at);
          r := if block then BotCheck(status) else ApiError(status);
        case Status(code, refresh) =>
          again, r := Answer(from, code, refresh, attempt, at);
      }
    }

    /** The `except` clause around the request. */
    method RetryOrGiveUp(ghost from: History, ghost events: seq<Event>, attempt: nat, at: real) returns (again: bool, r: Result)
      requires Valid() && Since(from, events, at)
      modifies this, breaker
      ensures again == (attempt < maxRetries) && r == ApiError(0)
      ensures Valid() && Since(from, events + [if again then Retried else Failed], at)
    {
      hide Valid, Since;
      Joined();
      r := ApiError(0);
      again := attempt < maxRetries;
      if again {
        NoteRetry(from, events, at);
      } else {
        NoteFailure(from, events, at);
      }
    }

    /** A status that is not a success. */
    method Answer(ghost from: History, code: int, refresh: Refresh, attempt: nat, at: real) returns (again: bool, r: Result)
      requires Valid() && Since(from, [Sent], at)
      modifies this, breaker
      ensures var turn := Attempt(Status(code, refresh), attempt, maxRetries);
        && again == turn.Again? && (turn.Ends? ==> r == turn.result)
        && Valid() && Since(from, turn.events, at)
      ensures Told(Status(code, refresh), attempt, again, r)
    {
      hide Valid, Since, Told;
      Joined();
      AttemptIsTold(Status(code, refresh), attempt);
      again, r := false, ApiError(code);
      if code == 401 && attempt == 0 {
        NoteRefresh(from, [Sent], at);
        again := refresh == Renewed;
        if refresh == AuthExpired {
          NoteFailure(from, [Sent, Refreshed], at);
        }
      } else if IsBotCheck(code) {
        again, r := AnswerBotCheck(from, code, refresh, attempt, at);
      } else if IsRetriable(code) && attempt < maxRetries {
        NoteRetry(from, [Sent], at);
        again := true;
      } else {
        NoteFailure(from, [Sent], at);
      }
    }

    method AnswerBotCheck(ghost from: History, code: int, refresh: Refresh, attempt: nat, at: real)
      returns (again: bool, r: Result)
      requires Valid() && Since(from, [Sent], at) && IsBotCheck(code)
      modifies this, breaker
      ensures again == (attempt == 0 && refresh == Renewed) && r == BotCheck(code) && Valid()
      ensures Since(from, if attempt > 0 then [Sent, Failed] else if again then [Sent, Refreshed] else [Sent, Refreshed, Failed], at)
    {
      hide Valid, Since;
      Joined();
      again, r := false, BotCheck(code);
      if attempt == 0 {
        NoteRefresh(from, [Sent], at);
        again := refresh == Renewed;
        if !again {
          NoteFailure(from, [Sent, Refreshed], at);
        }
      } else {
        NoteFailure(from, [Sent], at);
      }
    }

    /** `_api_request`, from attempt `attempt` on. The recursive call sits inside its caller's `try`, but it
        never raises what that `try` catches: transport errors are turned into API errors where they are
        given up on. */
    method Continue(ghost from: History, call: Call, attempt: nat) returns (r: Result)
      requires Valid() && attempt <= Bound(maxRetries) && Since(from, [], call.failedAt)
      modifies this, breaker
      ensures var course := Course(call.replies, attempt, maxRetries);
        r == course.result && Valid() && Since(from, course.events, call.failedAt)
      decreases Bound(maxRetries) - attempt
    {
      hide Valid, Attempt;
      var again;
      again, r := Meet(from, call.replies(attempt), attempt, call.failedAt);
      if again {
        ghost var mid := View();
        r := Continue(mid, call, attempt + 1);
        Twice(from, mid, Attempt(call.replies(attempt), attempt, maxRetries).events,
              Course(call.replies, attempt + 1, maxRetries).events, call.failedAt);
      }
    }

    lemma Twice(from: History, mid: History, a: seq<Event>, b: seq<Event>, at: real)
      requires mid == History(from.trail + a, from.marks + Marks(a, at), from.total) && Since(mid, b, at)
      ensures Since(from, a + b, at)
    {
      MarksAppend(a, b, at);
      hide Marks;
    }

    method ApiRequest(call: Call) returns (r: Result)
      requires Valid()
      modifies this, breaker
      ensures Valid() && View() == Serve(old(View()), call, breaker.limits, maxRetries)
      ensures var asked := old(marks) + [Ask(call.now)];
        r == if Admits(BreakerRun(asked, breaker.limits)) then Course(call.replies, 0, maxRetries).result else ApiError(503)
      // told by the answers: refused calls count nothing; the others a success for every answer that is one, an
      // error exactly when they end in a failure, and the caller gets what the last answer gives
      ensures var n := LastAttempt(call.replies, 0, maxRetries);
        if !Admits(BreakerRun(old(marks) + [Ask(call.now)], breaker.limits)) then
          r == ApiError(503) && success == old(success) && errors == old(errors) && retries == old(retries) && authRefreshes == old(authRefreshes)
        else
          && success == old(success) + Successes(call.replies, 0, n)
          && errors == old(errors) + One(IsFailure(call.replies(n), n))
          && authRefreshes == old(authRefreshes) + One(AsksForToken(call.replies(0)))
          && retries == old(retries) + n - One(n > 0 && AsksForToken(call.replies(0)))
          && Gives(call.replies(n), r)
    {
      hide Valid, BreakerRun, Course, IsFailure, AsksForToken, Gives, LastAttempt, Successes;
      ghost var before := trail;
      CountersAreCounts();
      var yes := CanExecute(call.now);
      assert Since(View(), [], call.failedAt);
      if yes {
        r := Continue(View(), call, 0);
        Counted(before, call);
      } else {
        r := ApiError(503);
      }
      CountersAreCounts();
    }

    lemma CountersAreCounts()
      requires Valid()
      ensures success == Count(trail, Succeeded) && errors == Count(trail, Failed)
      ensures retries == Count(trail, Retried) && authRefreshes == Count(trail, Refreshed)
    {
    }

    lemma Counted(before: seq<Event>, call: Call)
      ensures var course, n := Course(call.replies, 0, maxRetries), LastAttempt(call.replies, 0, maxRetries);
        var all := before + course.events;
        && Count(all, Succeeded) == Count(before, Succeeded) + Successes(call.replies, 0, n)
        && Count(all, Failed) == Count(before, Failed) + One(IsFailure(call.replies(n), n))
        && Count(all, Refreshed) == Count(before, Refreshed) + One(AsksForToken(call.replies(0)))
        && Count(all, Retried) == Count(before, Retried) + n - One(n > 0 && AsksForToken(call.replies(0)))
        && Gives(call.replies(n), course.result)
    {
      hide Course, Count, IsFailure, AsksForToken, Gives, Successes;
      ACallComesTo(call.replies, 0, maxRetries);
      var events := Course(call.replies, 0, maxRetries).events;
      CountAppends(before, events, Succeeded);
      CountAppends(before, events, Failed);
      CountAppends(before, events, Refreshed);
      CountAppends(before, events, Retried);
    }

    /** Counting the call and asking the breaker. */
    method CanExecute(now: real) returns (yes: bool)
      requires Valid()
      modifies this`total, this`marks, breaker
      ensures Valid() && total == old(total) + 1 && marks == old(marks) + [Ask(now)]
      ensures yes == Admits(BreakerRun(marks, breaker.limits))
    {
      total := total + 1;
      BreakerOneMore(marks, Ask(now), breaker.limits);
      yes := breaker.CanExecute(now);
      marks := marks + [Ask(now)];
    }
  }
}
