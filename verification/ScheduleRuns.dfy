/** Scheduled starts of one task over the whole life of the server: ticks, wakes, manual runs,
    crashes, restarts with or without readable history, and row retention. */
module ScheduleRuns {
  import opened Json
  import opened DayWindow

  /** Times are microseconds. `hour` is the task's `run_at_hour`, `None` for an interval task. */
  datatype TaskDef = TaskDef(name: string, interval: int, hour: Option<Hour>, catchUp: bool, catchUpWindow: int)

  /** `is_due`, given the time of the last start. */
  predicate Due(t: TaskDef, last: Option<int>, now: int) {
    if t.hour.Some? then
      var start := WindowStart(t.hour.value, now);
      now < start + t.catchUpWindow && (last.None? || last.value < start)
    else last.None? || now - last.value >= t.interval
  }

  /** What reading a task's history gives: the latest start on record, or an exception. */
  datatype History = Unreadable | Readable(latest: Option<int>)

  /** The seed of the interval clock. A fixed-hour task whose history cannot be read counts as served:
      unseeded would mean due. */
  function Seed(t: TaskDef, h: History, now: int): Option<int> {
    if !t.catchUp && t.hour.None? then Some(now)
    else match h
      case Unreadable => if t.hour.Some? then Some(now) else None
      case Readable(latest) => latest
  }

  /** What the first loop finds: plain interval tasks are not looked up. */
  function Consulted(t: TaskDef, h: History, now: int): Option<int> {
    if !t.catchUp && t.hour.None? then None else Seed(t, h, now)
  }

  /** What the second loop makes of it. */
  function Primed(t: TaskDef, seed: map<string, int>, now: int): Option<int> {
    if t.name in seed then Some(seed[t.name]) else if t.catchUp || t.hour.Some? then None else Some(now)
  }

  function Lookup(m: map<string, int>, name: string): Option<int> {
    if name in m then Some(m[name]) else None
  }

  class TaskScheduler {
    var tasks: seq<TaskDef>
    var lastStarted: map<string, int>

    ghost predicate Valid()
      reads this
    {
      forall i, j :: 0 <= i < j < |tasks| ==> tasks[i].name != tasks[j].name
    }

    constructor ()
      ensures Valid() && tasks == [] && lastStarted == map[]
    {
      tasks, lastStarted := [], map[];
    }

    method IsDue(t: TaskDef, now: int) returns (due: bool)
      ensures due == Due(t, Lookup(lastStarted, t.name), now)
      // an interval task without a start to go by is due, any other once the interval has passed since its last
      ensures t.hour.None? && t.name !in lastStarted ==> due
      ensures t.hour.None? && t.name in lastStarted ==> (due <==> now >= lastStarted[t.name] + t.interval)
      // a fixed-hour task in the window open at its hour, unless it was started in it
      ensures t.hour.Some? ==> var w := WindowStart(t.hour.value, now);
        due <==> now < w + t.catchUpWindow && !(t.name in lastStarted && lastStarted[t.name] >= w)
    {
      var last := Lookup(lastStarted, t.name);
      if t.hour.Some? {
        var start := WindowStart(t.hour.value, now);
        if now >= start + t.catchUpWindow {
          return false;
        }
        return last.None? || last.value < start;
      }
      if last.None? {
        return true;
      }
      return now - last.value >= t.interval;
    }

    /** The first half of `prime_schedule_from_db`: consult persisted history. */
    method ReadHistory(history: map<string, History>, now: int) returns (seed: map<string, int>)
      requires Valid() && forall i :: 0 <= i < |tasks| ==> tasks[i].name in history
      ensures forall i :: 0 <= i < |tasks| ==>
        Lookup(seed, tasks[i].name) == Consulted(tasks[i], history[tasks[i].name], now)
    {
      seed := map[];
      for i := 0 to |tasks|
        invariant forall j :: i <= j < |tasks| ==> tasks[j].name !in seed
        invariant forall j :: 0 <= j < i ==> Lookup(seed, tasks[j].name) == Consulted(tasks[j], history[tasks[j].name], now)
      {
        var t := tasks[i];
        if t.catchUp || t.hour.Some? {
          match history[t.name] {
            case Unreadable =>
              if t.hour.Some? {
                seed := seed[t.name := now];
              }
            case Readable(latest) =>
              if latest.Some? {
                seed := seed[t.name := latest.value];
              }
          }
        }
      }
    }

    /** `prime_schedule`: a seeded task takes its seed; an unseeded catch-up or fixed-hour task is due;
        any other waits a full interval from now. */
    method Prime(seed: map<string, int>, now: int)
      requires Valid()
      modifies this`lastStarted
      ensures forall i :: 0 <= i < |tasks| ==> Lookup(lastStarted, tasks[i].name) == Primed(tasks[i], seed, now)
      ensures forall name :: (forall i :: 0 <= i < |tasks| ==> tasks[i].name != name) ==>
        Lookup(lastStarted, name) == Lookup(old(lastStarted), name)
    {
      for i := 0 to |tasks|
        invariant forall j :: 0 <= j < i ==> Lookup(lastStarted, tasks[j].name) == Primed(tasks[j], seed, now)
        invariant forall name :: (forall j :: 0 <= j < |tasks| ==> tasks[j].name != name) ==>
          Lookup(lastStarted, name) == Lookup(old(lastStarted), name)
      {
        var t := tasks[i];
        if t.name in seed {
          lastStarted := lastStarted[t.name := seed[t.name]];
        } else if t.catchUp || t.hour.Some? {
          lastStarted := lastStarted - {t.name};
        } else {
          lastStarted := lastStarted[t.name := now];
        }
      }
    }

    method PrimeFromDb(history: map<string, History>, now: int)
      requires Valid() && forall i :: 0 <= i < |tasks| ==> tasks[i].name in history
      modifies this`lastStarted
      ensures forall i :: 0 <= i < |tasks| ==>
        Lookup(lastStarted, tasks[i].name) == Seed(tasks[i], history[tasks[i].name], now)
      ensures forall name :: (forall i :: 0 <= i < |tasks| ==> tasks[i].name != name) ==>
        Lookup(lastStarted, name) == Lookup(old(lastStarted), name)
    {
      var seed := ReadHistory(history, now);
      Prime(seed, now);
      forall i | 0 <= i < |tasks|
        ensures Lookup(lastStarted, tasks[i].name) == Seed(tasks[i], history[tasks[i].name], now)
      {
        assert Lookup(seed, tasks[i].name) == Consulted(tasks[i], history[tasks[i].name], now);
      }
    }
  }

  // ---------------------------------------------------------------- one task, all runs

  /** Where `_execute_task` is, under the task's lock: the clock is stamped, then the row is inserted,
      then the function runs. `decided` is when the start was decided on. */
  datatype Phase =
    | Idle
    | Stamped(decided: int, row: int, scheduled: bool)
    | Recorded(decided: int, scheduled: bool)
    | Running

  /** `starts` lists when each scheduled start of the function was decided, in order. */
  datatype Server = Server(now: int, up: bool, last: Option<int>, rows: seq<int>, phase: Phase, starts: seq<int>)

  datatype Event =
    | Tick(elapsed: nat)
    | Wake(toStamp: nat, toRow: nat)      // the bucket loop looks at the task
    | RunNow(toStamp: nat, toRow: nat)    // an operator runs it on demand
    | InsertCommits
    | InsertFails
    | FunctionStarts
    | FunctionEnds
    | Crash(committed: bool)              // a pending insert may or may not have reached the disk
    | Restart(readable: bool)
    | Prune(days: nat)

  /** `ORDER BY started_at DESC LIMIT 1`. */
  function Latest(rows: seq<int>): (r: Option<int>)
    ensures r.None? <==> rows == []
    ensures r.Some? ==> r.value in rows && forall x :: x in rows ==> x <= r.value
  {
    if rows == [] then None
    else
      var rest := Latest(rows[1..]);
      assert forall x :: x in rows ==> x == rows[0] || x in rows[1..];
      if rest.Some? && rest.value > rows[0] then rest else Some(rows[0])
  }

  /** Retention compares the UTC date of a row with that of the cutoff; within the cutoff day itself a
      row survives. */
  predicate Expired(row: int, now: int, days: nat) {
    row / DAY < (now - days * DAY) / DAY
  }

  function Surviving(rows: seq<int>, now: int, days: nat): (kept: seq<int>)
    ensures forall r :: r in kept <==> r in rows && !Expired(r, now, days)
  {
    if rows == [] then []
    else (if Expired(rows[0], now, days) then [] else [rows[0]]) + Surviving(rows[1..], now, days)
  }

  /** So a row survives exactly when it is not from before midnight UTC of the day of the cutoff. */
  lemma SurvivesFromMidnight(rows: seq<int>, now: int, days: nat, row: int)
    ensures row in Surviving(rows, now, days) <==> row in rows && row >= now / DAY * DAY - days * DAY
  {
    var back: int := days;
    DivMul(now, -back);
    hide Surviving;
  }

  function Begin(s: Server, toStamp: nat, toRow: nat, scheduled: bool): Server {
    var stamp := s.now + toStamp;
    s.(now := stamp + toRow, last := Some(stamp), phase := Stamped(s.now, stamp + toRow, scheduled))
  }

  function Next(t: TaskDef, s: Server, e: Event): Server {
    match e
    case Tick(elapsed) => s.(now := s.now + elapsed)
    case Wake(toStamp, toRow) =>
      if s.up && s.phase.Idle? && Due(t, s.last, s.now) then Begin(s, toStamp, toRow, true) else s
    case RunNow(toStamp, toRow) =>
      if s.up && s.phase.Idle? then Begin(s, toStamp, toRow, false) else s
    case InsertCommits =>
      if s.phase.Stamped? then
        s.(rows := s.rows + [s.phase.row], phase := Recorded(s.phase.decided, s.phase.scheduled))
      else s
    case InsertFails => if s.phase.Stamped? then s.(phase := Idle) else s
    case FunctionStarts =>
      if s.phase.Recorded? then
        s.(phase := Running, starts := if s.phase.scheduled then s.starts + [s.phase.decided] else s.starts)
      else s
    case FunctionEnds => if s.phase.Running? then s.(phase := Idle) else s
    case Crash(committed) =>
      s.(up := false, last := None, phase := Idle,
         rows := if s.phase.Stamped? && committed then s.rows + [s.phase.row] else s.rows)
    case Restart(readable) =>
      if s.up then s
      else s.(up := true, last := Seed(t, if readable then Readable(Latest(s.rows)) else Unreadable, s.now))
    case Prune(days) => s.(rows := Surviving(s.rows, s.now, days))
  }

  function Run(t: TaskDef, s: Server, events: seq<Event>): Server
    decreases |events|
  {
    if events == [] then s else Run(t, Next(t, s, events[0]), events[1..])
  }

  // ---------------------------------------------------------------- the invariant

  /** Some row proves that the window opening at `w` was served. */
  predicate ServedSince(rows: seq<int>, w: int) {
    exists r :: r in rows && r >= w
  }

  ghost predicate OncePerWindow(h: Hour, starts: seq<int>) {
    forall i, j :: 0 <= i < j < |starts| ==> WindowStart(h, starts[i]) != WindowStart(h, starts[j])
  }

  /** Nothing recorded lies in the future. */
  ghost predicate Past(s: Server) {
    && (forall i :: 0 <= i < |s.starts| ==> s.starts[i] <= s.now)
    && (s.phase.Stamped? || s.phase.Recorded? ==> s.phase.decided <= s.now)
    && (s.phase.Stamped? ==> s.phase.decided <= s.phase.row <= s.now)
  }

  ghost predicate MemoryShows(s: Server, w: int) {
    s.up ==> s.last.Some? && s.last.value >= w
  }

  ghost predicate Inv(h: Hour, s: Server) {
    var w := WindowStart(h, s.now);
    && Past(s)
    && OncePerWindow(h, s.starts)
    && (!s.up ==> s.phase.Idle?)
    // a start in the current window shows both in memory and on disk
    && (forall i :: 0 <= i < |s.starts| && s.starts[i] >= w ==> MemoryShows(s, w) && ServedSince(s.rows, w))
    // so does one about to happen, and its window has had no start yet
    && (s.phase.Stamped? || s.phase.Recorded? ==>
          && (s.phase.decided >= w ==> MemoryShows(s, w) && (s.phase.Recorded? ==> ServedSince(s.rows, w)))
          && (s.phase.scheduled ==> NoStartIn(h, s.starts, WindowStart(h, s.phase.decided))))
  }

  ghost predicate NoStartIn(h: Hour, starts: seq<int>, w: int) {
    forall i :: 0 <= i < |starts| ==> WindowStart(h, starts[i]) != w
  }

  /** Moving the clock: either the window stays, or everything recorded lies before the new one. */
  lemma ClockMoves(h: Hour, s: Server, now: int)
    requires Inv(h, s) && s.now <= now
    ensures Inv(h, s.(now := now))
  {
    WindowMonotone(h, s.now, now);
  }

  lemma BeginKeepsInv(h: Hour, s: Server, toStamp: nat, toRow: nat, scheduled: bool)
    requires Inv(h, s) && s.up && s.phase.Idle?
    requires scheduled ==> s.last.None? || s.last.value < WindowStart(h, s.now)
    ensures Inv(h, Begin(s, toStamp, toRow, scheduled))
  {
    var s' := Begin(s, toStamp, toRow, scheduled);
    var w := WindowStart(h, s.now);
    ClosedForm(h, s.now);
    WindowMonotone(h, s.now, s'.now);
    if scheduled {
      forall i | 0 <= i < |s.starts| ensures WindowStart(h, s.starts[i]) != w {
        WindowMonotone(h, s.starts[i], s.now);
        ClosedForm(h, s.starts[i]);
      }
    }
  }

  lemma StartKeepsInv(h: Hour, s: Server)
    requires Inv(h, s) && s.phase.Recorded? && s.phase.scheduled
    ensures Inv(h, s.(phase := Running, starts := s.starts + [s.phase.decided]))
  {
    var starts := s.starts + [s.phase.decided];
    forall i, j | 0 <= i < j < |starts| ensures WindowStart(h, starts[i]) != WindowStart(h, starts[j]) {
      if j == |s.starts| {
        assert NoStartIn(h, s.starts, WindowStart(h, s.phase.decided));
      }
    }
  }

  /** A horizon of at least a day spares every row of the current window. */
  lemma PruneSparesWindow(h: Hour, rows: seq<int>, now: int, days: nat)
    requires days >= 1 && ServedSince(rows, WindowStart(h, now))
    ensures ServedSince(Surviving(rows, now, days), WindowStart(h, now))
  {
    var w := WindowStart(h, now);
    var r :| r in rows && r >= w;
    ClosedForm(h, now);
    assert days * DAY >= DAY;
    assert !Expired(r, now, days);
    assert r in Surviving(rows, now, days);
  }

  lemma SeedShows(h: Hour, t: TaskDef, rows: seq<int>, readable: bool, now: int)
    requires t.hour == Some(h) && ServedSince(rows, WindowStart(h, now))
    ensures var seed := Seed(t, if readable then Readable(Latest(rows)) else Unreadable, now);
      seed.Some? && seed.value >= WindowStart(h, now)
  {
    ClosedForm(h, now);
    var r :| r in rows && r >= WindowStart(h, now);
  }

  lemma MoreRows(rows: seq<int>, more: seq<int>, w: int)
    requires ServedSince(rows, w)
    ensures ServedSince(rows + more, w)
  {
    var r :| r in rows && r >= w;
    assert r in rows + more;
  }

  lemma CommitKeepsInv(h: Hour, s: Server)
    requires Inv(h, s) && s.phase.Stamped?
    ensures Inv(h, s.(rows := s.rows + [s.phase.row], phase := Recorded(s.phase.decided, s.phase.scheduled)))
  {
    var w := WindowStart(h, s.now);
    assert s.phase.row in s.rows + [s.phase.row];
    if ServedSince(s.rows, w) {
      MoreRows(s.rows, [s.phase.row], w);
    }
  }

  lemma IdleKeepsInv(h: Hour, s: Server)
    requires Inv(h, s)
    ensures Inv(h, s.(phase := Idle)) && (s.phase.Recorded? ==> Inv(h, s.(phase := Running)))
  {
  }

  lemma RowsKeepInv(h: Hour, s: Server, rows: seq<int>)
    requires Inv(h, s)
    requires ServedSince(s.rows, WindowStart(h, s.now)) ==> ServedSince(rows, WindowStart(h, s.now))
    ensures Inv(h, s.(rows := rows))
  {
    hide WindowStart, ServedSince;
  }

  lemma CrashKeepsInv(h: Hour, s: Server, committed: bool)
    requires Inv(h, s)
    ensures var rows := if s.phase.Stamped? && committed then s.rows + [s.phase.row] else s.rows;
      Inv(h, s.(up := false, last := None, phase := Idle, rows := rows))
  {
    hide WindowStart, ServedSince;
    var w := WindowStart(h, s.now);
    if s.phase.Stamped? && committed && ServedSince(s.rows, w) {
      MoreRows(s.rows, [s.phase.row], w);
    }
  }

  lemma RestartKeepsInv(h: Hour, s: Server, last: Option<int>)
    requires Inv(h, s) && !s.up
    requires ServedSince(s.rows, WindowStart(h, s.now)) ==> last.Some? && last.value >= WindowStart(h, s.now)
    ensures Inv(h, s.(up := true, last := last))
  {
    hide WindowStart, ServedSince;
  }

  lemma NextKeepsInv(t: TaskDef, s: Server, e: Event)
    requires t.hour.Some? && Inv(t.hour.value, s)
    requires e.Prune? ==> e.days >= 1
    ensures Inv(t.hour.value, Next(t, s, e))
  {
    hide Inv, Begin, WindowStart, ServedSince, Surviving, Latest, Seed;
    var h := t.hour.value;
    var w := WindowStart(h, s.now);
    match e
    case Tick(elapsed) => ClockMoves(h, s, s.now + elapsed);
    case Wake(toStamp, toRow) =>
      if s.up && s.phase.Idle? && Due(t, s.last, s.now) {
        BeginKeepsInv(h, s, toStamp, toRow, true);
      }
    case RunNow(toStamp, toRow) =>
      if s.up && s.phase.Idle? {
        BeginKeepsInv(h, s, toStamp, toRow, false);
      }
    case InsertCommits =>
      if s.phase.Stamped? {
        CommitKeepsInv(h, s);
      }
    case FunctionStarts =>
      if s.phase.Recorded? && s.phase.scheduled {
        StartKeepsInv(h, s);
      }
      IdleKeepsInv(h, s);
    case Crash(committed) => CrashKeepsInv(h, s, committed);
    case Restart(readable) =>
      if !s.up {
        if ServedSince(s.rows, w) {
          SeedShows(h, t, s.rows, readable, s.now);
        }
        RestartKeepsInv(h, s, Seed(t, if readable then Readable(Latest(s.rows)) else Unreadable, s.now));
      }
    case Prune(days) =>
      if ServedSince(s.rows, w) {
        PruneSparesWindow(h, s.rows, s.now, days);
      }
      RowsKeepInv(h, s, Surviving(s.rows, s.now, days));
    case _ => IdleKeepsInv(h, s);
  }

  lemma {:induction false} RunKeepsInv(t: TaskDef, s: Server, events: seq<Event>)
    requires t.hour.Some? && Inv(t.hour.value, s)
    requires forall i :: 0 <= i < |events| && events[i].Prune? ==> events[i].days >= 1
    ensures Inv(t.hour.value, Run(t, s, events))
    decreases |events|
  {
    if events != [] {
      NextKeepsInv(t, s, events[0]);
      RunKeepsInv(t, Next(t, s, events[0]), events[1..]);
    }
  }

  /** Whatever happens to the server, the schedule starts a fixed-hour task at most once in each of its
      daily windows, from any history of rows. */
  lemma AtMostOncePerWindow(t: TaskDef, now: int, rows: seq<int>, events: seq<Event>)
    requires t.hour.Some?
    requires forall i :: 0 <= i < |events| && events[i].Prune? ==> events[i].days >= 1
    ensures OncePerWindow(t.hour.value, Run(t, Server(now, false, None, rows, Idle, []), events).starts)
  {
    RunKeepsInv(t, Server(now, false, None, rows, Idle, []), events);
  }

  /** After a restart with readable history the task is due exactly when its window is still open for
      catching up and no row falls in it; with unreadable history it never is. */
  lemma DueAfterRestart(t: TaskDef, s: Server, readable: bool)
    requires t.hour.Some? && !s.up
    ensures var w := WindowStart(t.hour.value, s.now);
      Due(t, Next(t, s, Restart(readable)).last, s.now) <==>
        readable && s.now < w + t.catchUpWindow && !ServedSince(s.rows, w)
  {
    ClosedForm(t.hour.value, s.now);
    var latest := Latest(s.rows);
    if latest.Some? && latest.value >= WindowStart(t.hour.value, s.now) {
      assert latest.value in s.rows;
    }
  }

  lemma {:induction false} RunAppend(t: TaskDef, s: Server, a: seq<Event>, b: seq<Event>)
    ensures Run(t, s, a + b) == Run(t, Run(t, s, a), b)
    decreases |a|
  {
    if a == [] {
      assert a + b == b;
    } else {
      assert (a + b)[1..] == a[1..] + b;
      RunAppend(t, Next(t, s, a[0]), a[1..], b);
    }
  }

  lemma RunThree(t: TaskDef, s: Server, a: seq<Event>, b: seq<Event>, c: seq<Event>)
    ensures Run(t, s, a + b + c) == Run(t, Run(t, Run(t, s, a), b), c)
  {
    RunAppend(t, s, a + b, c);
    RunAppend(t, s, a, b);
  }

  const ONE_RUN := [Restart(true), Wake(0, 0), InsertCommits, FunctionStarts, FunctionEnds]

  /** From a stopped server with an empty history inside an open window, the task runs. */
  lemma RunsOnce(t: TaskDef, now: int, starts: seq<int>)
    requires t.hour.Some? && now < WindowStart(t.hour.value, now) + t.catchUpWindow
    ensures Run(t, Server(now, false, None, [], Idle, starts), ONE_RUN) ==
      Server(now, true, Some(now), [now], Idle, starts + [now])
  {
    var s0 := Server(now, false, None, [], Idle, starts);
    var s1 := Next(t, s0, Restart(true));
    assert s1 == Server(now, true, None, [], Idle, starts);
    var s2 := Next(t, s1, Wake(0, 0));
    var s3 := Next(t, s2, InsertCommits);
    assert s3.rows == [now];
    var s4 := Next(t, s3, FunctionStarts);
    assert ONE_RUN[1..][1..][1..] == [FunctionStarts, FunctionEnds];
    assert ONE_RUN[1..][1..][1..][1..] == [FunctionEnds];
    assert [FunctionEnds][1..] == [];
    assert Run(t, s4, [FunctionEnds]) == Run(t, Next(t, s4, FunctionEnds), []);
  }

  const SWEEP := [Crash(false), Tick(3 * HOUR), Prune(0)]

  lemma SweepForgets(t: TaskDef, evening: int)
    requires evening / DAY < (evening + 3 * HOUR) / DAY
    ensures Run(t, Server(evening, true, Some(evening), [evening], Idle, [evening]), SWEEP) ==
      Server(evening + 3 * HOUR, false, None, [], Idle, [evening])
  {
    var s := Server(evening, true, Some(evening), [evening], Idle, [evening]);
    var s1 := Next(t, s, Crash(false));
    var s2 := Next(t, s1, Tick(3 * HOUR));
    assert Surviving([evening], s2.now, 0) == [];
    assert SWEEP[1..] == [Tick(3 * HOUR), Prune(0)] && SWEEP[1..][1..] == [Prune(0)];
    assert [Prune(0)][1..] == [];
    assert Run(t, s2, [Prune(0)]) == Run(t, Next(t, s2, Prune(0)), []);
  }

  /** The horizon matters: with none, a sweep just after midnight UTC forgets a run of the evening
      before, and a restart starts the function a second time in the same window. */
  lemma ZeroHorizonRunsTwice(t: TaskDef)
    requires t.hour == Some(3) && t.catchUpWindow == 6 * HOUR
    ensures var evening := 22 * HOUR;  // 03:30 IST; the window opened at 21:30 UTC
      var s := Run(t, Server(evening, false, None, [], Idle, []), ONE_RUN + SWEEP + ONE_RUN);
      s.starts == [evening, evening + 3 * HOUR] && !OncePerWindow(3, s.starts)
  {
    var evening, night := 22 * HOUR, 25 * HOUR;
    hide Run, WindowStart;
    EarlyWindow();
    var s0 := Server(evening, false, None, [], Idle, []);
    RunThree(t, s0, ONE_RUN, SWEEP, ONE_RUN);
    RunsOnce(t, evening, []);
    assert [] + [evening] == [evening];
    SweepForgets(t, evening);
    RunsOnce(t, night, [evening]);
    var starts := [evening, night];
    assert [evening] + [night] == starts;
    assert WindowStart(3, starts[0]) == WindowStart(3, starts[1]);
  }

  lemma EarlyWindow()
    ensures WindowStart(3, 22 * HOUR) == WindowStart(3, 25 * HOUR) == 21 * HOUR + 1800 * SECOND
  {
    hide WindowStart;
    WindowIsUnique(3, 21 * HOUR + 1800 * SECOND, 22 * HOUR);
    WindowIsUnique(3, 21 * HOUR + 1800 * SECOND, 25 * HOUR);
  }
}
