/** The once-a-day window of a fixed-hour task, in IST (UTC+5:30). Instants are whole microseconds
    since the epoch, the resolution of Python's `datetime`. */
module DayWindow {
  const SECOND := 1_000_000
  const HOUR := 3600 * SECOND
  const DAY := 24 * HOUR
  const IST_OFFSET := 5 * HOUR + 1800 * SECOND

  /** `datetime.replace` rejects any other hour. */
  type Hour = h: nat | h < 24

  /** A calendar reading in IST: a day number and a time of day. */
  datatype Reading = Reading(day: int, hour: nat, minute: nat, second: nat, micro: nat)

  function FromTimestamp(t: int): (r: Reading)
    ensures r.hour < 24 && r.minute < 60 && r.second < 60 && r.micro < SECOND
    ensures Timestamp(r) == t
  {
    var local := t + IST_OFFSET;
    var inDay := local % DAY;
    var inHour := inDay % HOUR;
    var inMinute := inHour % (60 * SECOND);
    Reading(local / DAY, inDay / HOUR, inHour / (60 * SECOND), inMinute / SECOND, inMinute % SECOND)
  }

  function Timestamp(r: Reading): int {
    r.day * DAY + r.hour * HOUR + r.minute * (60 * SECOND) + r.second * SECOND + r.micro - IST_OFFSET
  }

  /** `now.replace(hour=h, minute=0, second=0, microsecond=0)`. */
  function AtHour(r: Reading, h: Hour): Reading {
    r.(hour := h, minute := 0, second := 0, micro := 0)
  }

  /** `_window_start`: today's occurrence of the hour, or yesterday's if that has not come yet. */
  function WindowStart(h: Hour, now: int): int {
    var start := AtHour(FromTimestamp(now), h);
    if Timestamp(start) > now then Timestamp(start.(day := start.day - 1)) else Timestamp(start)
  }

  /** The target of `_seconds_until_next_run`: today's occurrence, or tomorrow's if that has passed. */
  function NextTarget(h: Hour, now: int): int {
    var target := AtHour(FromTimestamp(now), h);
    if Timestamp(target) <= now then Timestamp(target.(day := target.day + 1)) else Timestamp(target)
  }

  lemma DivMul(a: int, k: int)
    ensures (a + k * DAY) / DAY == a / DAY + k
  {
  }

  lemma ReadingDay(now: int)
    ensures FromTimestamp(now).day == (now + IST_OFFSET) / DAY
  {
  }

  /** Which of the three days around `now` the window opens on. */
  lemma SteppedBack(h: Hour, now: int)
    ensures var day, inDay := (now + IST_OFFSET) / DAY, (now + IST_OFFSET) % DAY;
      var back := if inDay < h * HOUR then 1 else 0;
      && WindowStart(h, now) == (day - back) * DAY + h * HOUR - IST_OFFSET
      && NextTarget(h, now) == (day - back + 1) * DAY + h * HOUR - IST_OFFSET
  {
    hide FromTimestamp;
    ReadingDay(now);
  }

  lemma OnTheGrid(local: int, shift: int)
    requires 0 <= shift < DAY
    ensures var back := if local % DAY < shift then 1 else 0;
      (local - shift) / DAY == local / DAY - back && local / DAY * DAY + local % DAY == local
  {
    DivMul(local % DAY - shift, local / DAY);
    assert local - shift == local % DAY - shift + local / DAY * DAY;
  }

  /** Replacing the hour and stepping back a day is floor division on the day grid of that hour; the
      next target is exactly one day later. */
  lemma ClosedForm(h: Hour, now: int)
    ensures WindowStart(h, now) == (now + IST_OFFSET - h * HOUR) / DAY * DAY + h * HOUR - IST_OFFSET
    ensures WindowStart(h, now) <= now < WindowStart(h, now) + DAY
    ensures NextTarget(h, now) == WindowStart(h, now) + DAY
  {
    hide WindowStart, NextTarget;
    SteppedBack(h, now);
    OnTheGrid(now + IST_OFFSET, h * HOUR);
  }

  /** The window is the only one of its hour that contains `now`. */
  lemma WindowIsUnique(h: Hour, w: int, now: int)
    requires (w + IST_OFFSET - h * HOUR) % DAY == 0
    requires w <= now < w + DAY
    ensures w == WindowStart(h, now)
  {
    hide WindowStart;
    ClosedForm(h, now);
    var k := (w + IST_OFFSET - h * HOUR) / DAY;
    DivMul(now - w, k);
    assert now + IST_OFFSET - h * HOUR == now - w + k * DAY;
  }

  /** Windows advance with the clock, and a later one opens only after every earlier instant. */
  lemma WindowMonotone(h: Hour, a: int, b: int)
    requires a <= b
    ensures WindowStart(h, a) <= WindowStart(h, b)
    ensures WindowStart(h, a) != WindowStart(h, b) ==> a < WindowStart(h, b)
    ensures WindowStart(h, b) <= a ==> WindowStart(h, a) == WindowStart(h, b)
  {
    hide WindowStart;
    ClosedForm(h, a);
    ClosedForm(h, b);
    var x, y := (a + IST_OFFSET - h * HOUR) / DAY, (b + IST_OFFSET - h * HOUR) / DAY;
    assert x <= y;
    if x < y {
      assert (x + 1) * DAY <= y * DAY;
    }
  }

  // ---------------------------------------------------------------- waiting for the next opening

  /** What the sleep of a bucket depends on; `hour` is meaningful only when `fixedHour`. */
  datatype Task = Task(enabled: bool, fixedHour: bool, hour: Hour)

  predicate Awaited(t: Task) {
    t.enabled && t.fixedHour
  }

  /** `_seconds_until_next_run`: the shortest wait for an opening, a day when there is none to wait for. */
  method UntilNextRun(tasks: seq<Task>, now: int) returns (wait: int)
    ensures 0 < wait <= DAY
    ensures forall i :: 0 <= i < |tasks| && tasks[i].enabled && tasks[i].fixedHour ==>
      now + wait <= WindowStart(tasks[i].hour, now) + DAY
    ensures wait == DAY || exists i :: 0 <= i < |tasks| && tasks[i].enabled && tasks[i].fixedHour && now + wait == WindowStart(tasks[i].hour, now) + DAY
  {
    wait := DAY;
    for i := 0 to |tasks|
      invariant 0 < wait <= DAY
      invariant forall j :: 0 <= j < i && Awaited(tasks[j]) ==> now + wait <= WindowStart(tasks[j].hour, now) + DAY
      invariant wait == DAY || exists j :: 0 <= j < i && Awaited(tasks[j]) && now + wait == WindowStart(tasks[j].hour, now) + DAY
    {
      if Awaited(tasks[i]) {
        ClosedForm(tasks[i].hour, now);
        var candidate := NextTarget(tasks[i].hour, now) - now;
        if candidate < wait {
          wait := candidate;
        }
      }
    }
  }

  /** The sleep of the daily bucket when nothing is due yet: never more than an hour, and never past
      the next opening of any of its tasks. */
  method DailySleep(tasks: seq<Task>, now: int) returns (sleep: int)
    ensures 0 < sleep <= HOUR
    ensures forall i :: 0 <= i < |tasks| && tasks[i].enabled && tasks[i].fixedHour ==>
      now + sleep <= WindowStart(tasks[i].hour, now) + DAY
  {
    var wait := UntilNextRun(tasks, now);
    if wait > 0 {
      sleep := if wait < HOUR then wait else HOUR;
    } else {
      sleep := 60 * SECOND;
    }
  }
}
