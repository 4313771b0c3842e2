/** When a task is started: over whole runs, told by the instants at which starts were decided on and stamped,
    the rows on record and the restarts. */
module IntervalRuns {
  import opened Json
  import opened DayWindow
  import opened ScheduleRuns

  /** A start: when it was decided on and stamped, and whether the schedule or an operator made it. */
  datatype Start = Start(decided: int, stamped: int, scheduled: bool)

  /** This event begins a start. */
  predicate Begins(t: TaskDef, s: Server, e: Event) {
    (e.Wake? || e.RunNow?) && !s.phase.Stamped? && Next(t, s, e).phase.Stamped?
  }

  /** The starts begun over a run, in order. */
  function Starts(t: TaskDef, s: Server, events: seq<Event>): seq<Start> {
    if events == [] then [] else
    var before, e := events[..|events| - 1], events[|events| - 1];
    var mid := After(t, s, before);
    Starts(t, s, before) + (if Begins(t, mid, e) then [Start(mid.now, mid.now + e.toStamp, e.Wake?)] else [])
  }

  /** `Run`, event by event from the end. */
  function After(t: TaskDef, s: Server, events: seq<Event>): Server {
    if events == [] then s else Next(t, After(t, s, events[..|events| - 1]), events[|events| - 1])
  }

  lemma {:induction false} AfterIsRun(t: TaskDef, s: Server, events: seq<Event>)
    ensures After(t, s, events) == Run(t, s, events)
  {
    if events != [] {
      var n := |events| - 1;
      AfterIsRun(t, s, events[..n]);
      assert events == events[..n] + [events[n]];
      RunAppend(t, s, events[..n], [events[n]]);
      assert [events[n]][1..] == [];
      assert Run(t, Run(t, s, events[..n]), [events[n]]) == Run(t, Next(t, Run(t, s, events[..n]), events[n]), []);
      hide Next;
    }
  }

  /** Neither a crash nor a restart. */
  predicate Uninterrupted(events: seq<Event>) {
    forall e <- events :: !e.Crash? && !e.Restart?
  }

  /** The last stamp there is: of the run, or the one it began with. */
  function LastStamp(t: TaskDef, s: Server, events: seq<Event>): Option<int> {
    var starts := Starts(t, s, events);
    if starts == [] then s.last else Some(starts[|starts| - 1].stamped)
  }

  lemma LastEvent(t: TaskDef, s: Server, events: seq<Event>)
    requires events != []
    ensures var before, e := events[..|events| - 1], events[|events| - 1];
      var mid := After(t, s, before);
      && After(t, s, events) == Next(t, mid, e)
      && Starts(t, s, events) ==
           Starts(t, s, before) + (if Begins(t, mid, e) then [Start(mid.now, mid.now + e.toStamp, e.Wake?)] else [])
      && e in events && forall x <- before :: x in events
  {
    hide Next, Begins;
  }

  lemma StepLeads(t: TaskDef, s: Server, e: Event)
    requires !e.Crash? && !e.Restart?
    ensures var r := Next(t, s, e);
      && r.up == s.up && s.now <= r.now
      && (if Begins(t, s, e) then r.last == Some(s.now + e.toStamp) && s.now + e.toStamp <= r.now else r.last == s.last)
  {
  }

  /** Without interruption the clock of the schedule shows the last stamp, and time goes on. */
  lemma {:induction false} TheClockShowsTheLastStamp(t: TaskDef, s: Server, events: seq<Event>)
    requires Uninterrupted(events)
    ensures var r := After(t, s, events);
      && r.up == s.up && s.now <= r.now && r.last == LastStamp(t, s, events)
      && (forall start <- Starts(t, s, events) :: s.now <= start.decided <= start.stamped <= r.now)
  {
    if events == [] {
    } else {
      hide Starts, After, Next, Begins;
      var before, e := events[..|events| - 1], events[|events| - 1];
      LastEvent(t, s, events);
      TheClockShowsTheLastStamp(t, s, before);
      StepLeads(t, After(t, s, before), e);
    }
  }

  /** What a wake of a server that is up and idle goes by. */
  predicate Awaits(t: TaskDef, last: Option<int>, now: int) {
    match t.hour
    case None => last.None? || now >= last.value + t.interval
    case Some(h) =>
      now < WindowStart(h, now) + t.catchUpWindow && (last.None? || last.value < WindowStart(h, now))
  }

  /** At any point of any run without interruption, a wake that finds the task at rest begins a start exactly
      when the interval has passed since the last stamp; for a fixed hour, exactly when its window is open and
      nothing has been stamped in it. */
  lemma AWakeBeginsExactlyWhen(t: TaskDef, s: Server, events: seq<Event>, toStamp: nat, toRow: nat)
    requires Uninterrupted(events) && s.up && Run(t, s, events).phase.Idle?
    ensures Begins(t, Run(t, s, events), Wake(toStamp, toRow))
      <==> Awaits(t, LastStamp(t, s, events), Run(t, s, events).now)
  {
    AfterIsRun(t, s, events);
    TheClockShowsTheLastStamp(t, s, events);
    hide After, Run, Starts, WindowStart;
  }

  /** Nothing but a wake begins a scheduled start, and only when it is awaited. */
  lemma StartsAreAwaited(t: TaskDef, s: Server, e: Event)
    requires Begins(t, s, e) && e.Wake?
    ensures Awaits(t, s.last, s.now)
  {
    hide WindowStart;
  }

  /** Every scheduled start keeps the interval from the stamp before it, whoever made that one. */
  ghost predicate KeepsItsInterval(starts: seq<Start>, last: Option<int>, interval: int) {
    forall j :: 0 <= j < |starts| && starts[j].scheduled ==>
      if j > 0 then starts[j].decided - starts[j - 1].stamped >= interval
      else last.Some? ==> starts[0].decided - last.value >= interval
  }

  /** Over any run without interruption every scheduled start of an interval task is decided at least the
      interval after the stamp before it. */
  lemma {:induction false} IntervalsAreKept(t: TaskDef, s: Server, events: seq<Event>)
    requires t.hour.None? && Uninterrupted(events)
    ensures KeepsItsInterval(Starts(t, s, events), s.last, t.interval)
  {
    if events == [] {
    } else {
      hide Starts, After, Next, Begins;
      var before, e := events[..|events| - 1], events[|events| - 1];
      LastEvent(t, s, events);
      IntervalsAreKept(t, s, before);
      TheClockShowsTheLastStamp(t, s, before);
      var mid, earlier, starts := After(t, s, before), Starts(t, s, before), Starts(t, s, events);
      if Begins(t, mid, e) {
        if e.Wake? {
          StartsAreAwaited(t, mid, e);
        }
        OneMoreKeeps(earlier, s.last, t.interval, Start(mid.now, mid.now + e.toStamp, e.Wake?));
      } else {
        assert starts == earlier;
      }
    }
  }

  lemma OneMoreKeeps(starts: seq<Start>, last: Option<int>, interval: int, next: Start)
    requires KeepsItsInterval(starts, last, interval)
    requires next.scheduled ==>
      if starts != [] then next.decided - starts[|starts| - 1].stamped >= interval
      else last.Some? ==> next.decided - last.value >= interval
    ensures KeepsItsInterval(starts + [next], last, interval)
  {
  }

  /** So of any two starts, a scheduled later one is stamped at least the interval after the earlier. */
  lemma {:induction false} AnyTwoStartsAreApart(t: TaskDef, s: Server, events: seq<Event>, i: nat, j: nat)
    requires t.hour.None? && t.interval >= 0 && Uninterrupted(events)
    requires i < j < |Starts(t, s, events)| && Starts(t, s, events)[j].scheduled
    ensures Starts(t, s, events)[j].stamped - Starts(t, s, events)[i].stamped >= t.interval
  {
    IntervalsAreKept(t, s, events);
    StampsAscend(t, s, events);
    TheClockShowsTheLastStamp(t, s, events);
    var starts := Starts(t, s, events);
    hide Starts, After;
    assert starts[j] in starts;
    assert starts[j].decided - starts[j - 1].stamped >= t.interval;
  }

  lemma {:induction false} StampsAscend(t: TaskDef, s: Server, events: seq<Event>)
    requires Uninterrupted(events)
    ensures var starts := Starts(t, s, events);
      forall i, j :: 0 <= i < j < |starts| ==> starts[i].stamped <= starts[j].stamped
  {
    if events == [] {
    } else {
      hide Starts, After, Next, Begins;
      var before := events[..|events| - 1];
      LastEvent(t, s, events);
      StampsAscend(t, s, before);
      TheClockShowsTheLastStamp(t, s, before);
      var earlier := Starts(t, s, before);
      assert forall i :: 0 <= i < |earlier| ==> earlier[i] in earlier;
    }
  }

  // ---------------------------------------------------------------- after a restart

  /** What a restart leaves to go by: for a plain interval task the instant of the restart; for a catch-up one
      its latest row, and nothing without a row or with history that cannot be read. */
  lemma RestartSeeds(t: TaskDef, s: Server, readable: bool)
    requires t.hour.None? && !s.up
    ensures var r := Next(t, s, Restart(readable));
      && r.up && r.now == s.now && r.phase == s.phase
      && (!t.catchUp ==> r.last == Some(s.now))
      && (t.catchUp ==> (r.last.Some? <==> readable && s.rows != []))
      && (t.catchUp && r.last.Some? ==> r.last.value in s.rows && forall row <- s.rows :: row <= r.last.value)
  {
  }

  /** After a restart, as long as nothing has been started, a wake of an interval task begins a start exactly
      when, for a plain task, a whole interval has passed since the restart; for a catch-up task, when the
      interval has passed since every row on record at the restart, or its history could not be read. */
  lemma AfterARestart(t: TaskDef, s: Server, readable: bool, events: seq<Event>, toStamp: nat, toRow: nat)
    requires t.hour.None? && !s.up && Uninterrupted(events)
    requires var r := Next(t, s, Restart(readable));
      Starts(t, r, events) == [] && Run(t, r, events).phase.Idle?
    ensures var m := Run(t, s, [Restart(readable)] + events);
      Begins(t, m, Wake(toStamp, toRow)) <==>
        if t.catchUp then !readable || forall row <- s.rows :: m.now >= row + t.interval
        else m.now >= s.now + t.interval
  {
    var r := Next(t, s, Restart(readable));
    RestartSeeds(t, s, readable);
    AWakeBeginsExactlyWhen(t, r, events, toStamp, toRow);
    assert ([Restart(readable)] + events)[1..] == events;
    assert Run(t, s, [Restart(readable)] + events) == Run(t, r, events);
    hide Run, Starts, Begins, Next;
  }
}
