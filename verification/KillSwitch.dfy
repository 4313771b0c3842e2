/** The kill switch: the record that halts apply and hunt, its mirror on disk, and the rolling list of
    soft block signals. Signal times are reals from one monotonic clock; `at` is the wall clock's text. */
module KillSwitches {
  import Json
  import opened SlidingWindow

  datatype Core = Core(tripped: bool, reason: string, blockKind: string, trippedAt: Json.Option<string>, tripCount: int)

  const PRISTINE := Core(false, "", "", Json.None, 0)

  /** What a starting process finds where the state file should be. */
  datatype StateFile =
    | Absent
    | Unreadable          // an operating-system error, or text that is not JSON
    | NotUtf8             // bytes that do not decode, which the reader does not catch
    | NullDocument        // the JSON text `null`, which the loader takes for no file
    | NotAnObject         // any other JSON value that is not an object
    | BadRecord           // an object with a field that does not convert
    | Record(core: Core)

  datatype Boot = Ready(core: Core) | Raises

  function LoadInitialState(file: StateFile, at: string): Boot {
    match file
    case Absent => Ready(PRISTINE)
    case NullDocument => Ready(PRISTINE)
    case Unreadable => Ready(Core(true, "state file unreadable at startup \U{2014} failing closed", "", Json.Some(at), 1))
    case BadRecord => Ready(Core(true, "state file malformed \U{2014} failing closed", "", Json.Some(at), 1))
    case NotUtf8 => Raises
    case NotAnObject => Raises
    case Record(core) => Ready(core)
  }

  // ---------------------------------------------------------------- one process and its file

  datatype Policy = Policy(threshold: int, window: real)

  datatype State = Up(core: Core, soft: seq<real>, file: StateFile) | Down(file: StateFile)

  /** `saved` says whether the state file could be written; `damage` is what befell it before a start. */
  datatype Op =
    | Trip(reason: string, kind: string, at: string, saved: bool)
    | Reset(saved: bool)
    | Signal(kind: string, now: real, at: string, saved: bool)
    | Restart(damage: Json.Option<StateFile>, at: string)

  function TripCore(c: Core, reason: string, kind: string, at: string): Core {
    if c.tripped then c.(tripCount := c.tripCount + 1)
    else Core(true, if reason == "" then "tripped by caller" else reason, kind, Json.Some(at), c.tripCount + 1)
  }

  /** `int(WINDOW_SECONDS)` as text. */
  function Seconds(window: real): string {
    if window >= 0.0 then Json.Decimal(window.Floor)
    else if window > -1.0 then "0"
    else "-" + Json.Decimal((-window).Floor)
  }

  /** The whole seconds, cut towards zero. */
  lemma SecondsAreCut(window: real, k: int)
    requires if window >= 0.0 then k as real <= window < (k + 1) as real else (k - 1) as real < window <= k as real
    ensures Seconds(window) == if k >= 0 then Json.Decimal(k) else "-" + Json.Decimal(-k)
  {
    if window < 0.0 {
      assert (-window).Floor == -k;
    } else {
      assert window.Floor == k;
    }
  }

  function ClusterReason(count: nat, window: real): string {
    Json.Decimal(count) + " soft block signals within " + Seconds(window) + "s window"
  }

  function Written(file: StateFile, core: Core, saved: bool): StateFile {
    if saved then Record(core) else file
  }

  function Start(file: StateFile, at: string): State {
    var boot := LoadInitialState(file, at);
    if boot.Ready? then Up(boot.core, [], file) else Down(file)
  }

  function Step(p: Policy, s: State, op: Op): State {
    match op
    case Restart(damage, at) => Start(if damage.Some? then damage.value else s.file, at)
    case Trip(reason, kind, at, saved) =>
      if s.Down? then s else
      var core := TripCore(s.core, reason, kind, at);
      Up(core, s.soft, Written(s.file, core, saved))
    case Reset(saved) =>
      if s.Down? then s else Up(PRISTINE, [], Written(s.file, PRISTINE, saved))
    case Signal(kind, now, at, saved) =>
      if s.Down? || s.core.tripped then s else
      var soft := Fresh(s.soft, now, p.window) + [now];
      if |soft| < p.threshold then s.(soft := soft) else
      var core := TripCore(s.core, ClusterReason(|soft|, p.window), kind, at);
      Up(core, soft, Written(s.file, core, saved))
  }

  function Run(p: Policy, s: State, ops: seq<Op>): State {
    if ops == [] then s else Step(p, Run(p, s, ops[..|ops| - 1]), ops[|ops| - 1])
  }

  lemma RunOneMore(p: Policy, s: State, ops: seq<Op>, op: Op)
    ensures Run(p, s, ops + [op]) == Step(p, Run(p, s, ops), op)
  {
    assert (ops + [op])[..|ops|] == ops;
  }

  // ---------------------------------------------------------------- the first reason stays

  predicate SameTrip(c: Core, d: Core) {
    c.tripped && c == d.(tripCount := c.tripCount)
  }

  predicate LeavesAlone(op: Op) {
    !op.Reset? && (op.Restart? ==> op.damage.None?)
  }

  /** Once a trip has reached the disk, its reason, kind and time outlive every later trip, signal and
      restart until a reset, whether or not any later write succeeds. */
  lemma {:induction false} FirstReasonStays(p: Policy, s: State, ops: seq<Op>)
    requires s.Up? && s.core.tripped && s.file.Record? && SameTrip(s.file.core, s.core)
    requires forall op <- ops :: LeavesAlone(op)
    ensures Run(p, s, ops).Up? && SameTrip(Run(p, s, ops).core, s.core)
    ensures Run(p, s, ops).file.Record? && SameTrip(Run(p, s, ops).file.core, s.core)
  {
    if ops != [] {
      FirstReasonStays(p, s, ops[..|ops| - 1]);
      assert LeavesAlone(ops[|ops| - 1]);
    }
  }

  function Trips(ops: seq<Op>): nat {
    if ops == [] then 0 else Trips(ops[..|ops| - 1]) + (if ops[|ops| - 1].Trip? then 1 else 0)
  }

  /** When writes succeed the counter counts every trip, across restarts. */
  lemma {:induction false} EveryTripIsCounted(p: Policy, s: State, ops: seq<Op>)
    requires s.Up? && s.core.tripped && s.file == Record(s.core)
    requires forall op <- ops :: LeavesAlone(op) && (op.Trip? ==> op.saved)
    ensures Run(p, s, ops).Up? && Run(p, s, ops).file == Record(Run(p, s, ops).core)
    ensures Run(p, s, ops).core == s.core.(tripCount := s.core.tripCount + Trips(ops))
  {
    if ops != [] {
      EveryTripIsCounted(p, s, ops[..|ops| - 1]);
      assert LeavesAlone(ops[|ops| - 1]);
    }
  }

  /** The record in memory is the one a start would load, save for the time of a failed-closed load. */
  predicate Mirrored(s: State) {
    s.Up? ==>
      var boot := LoadInitialState(s.file, "");
      boot.Ready? && (if s.file.Record? then boot.core == s.core else boot.core == s.core.(trippedAt := boot.core.trippedAt))
  }

  predicate Saves(op: Op) {
    match op
    case Trip(_, _, _, saved) => saved
    case Reset(saved) => saved
    case Signal(_, _, _, saved) => saved
    case Restart(_, _) => true
  }

  lemma StartMirrors(file: StateFile, at: string)
    ensures Mirrored(Start(file, at))
  {
  }

  lemma SoftMirrors(core: Core, soft: seq<real>, file: StateFile, more: seq<real>)
    ensures Mirrored(Up(core, soft, Record(core)))
    ensures Mirrored(Up(core, soft, file)) ==> Mirrored(Up(core, more, file))
  {
  }

  lemma MirrorStep(p: Policy, s: State, op: Op)
    requires Mirrored(s) && Saves(op)
    ensures Mirrored(Step(p, s, op))
  {
    hide Mirrored, Start, TripCore, Fresh, ClusterReason;
    match op
    case Restart(damage, at) => StartMirrors(if damage.Some? then damage.value else s.file, at);
    case Trip(reason, kind, at, _) =>
      if s.Up? {
        SoftMirrors(TripCore(s.core, reason, kind, at), s.soft, s.file, s.soft);
      }
    case Reset(_) => SoftMirrors(PRISTINE, [], s.file, []);
    case Signal(kind, now, at, _) =>
      if s.Up? && !s.core.tripped {
        var soft := Fresh(s.soft, now, p.window) + [now];
        SoftMirrors(s.core, s.soft, s.file, soft);
        SoftMirrors(TripCore(s.core, ClusterReason(|soft|, p.window), kind, at), soft, s.file, soft);
      }
  }

  /** With every write successful, memory and disk agree at any point of any run, from any first file
      and under any damage. */
  lemma {:induction false} DiskMirrorsMemory(p: Policy, file: StateFile, at: string, ops: seq<Op>)
    requires forall op <- ops :: Saves(op)
    ensures Mirrored(Run(p, Start(file, at), ops))
  {
    if ops != [] {
      DiskMirrorsMemory(p, file, at, ops[..|ops| - 1]);
      assert Saves(ops[|ops| - 1]);
      MirrorStep(p, Run(p, Start(file, at), ops[..|ops| - 1]), ops[|ops| - 1]);
    } else {
      StartMirrors(file, at);
    }
  }

  lemma MirroredReloads(s: State, later: string)
    requires s.Up? && Mirrored(s)
    ensures var r := Start(s.file, later);
            r.Up? && r.core.tripped == s.core.tripped && r.core.reason == s.core.reason && r.core.tripCount == s.core.tripCount
  {
    hide LoadInitialState;
    LoadsAlike(s.file, "", later);
  }

  lemma LoadsAlike(file: StateFile, at: string, later: string)
    ensures var a, b := LoadInitialState(file, at), LoadInitialState(file, later);
            if a.Ready? then b.Ready? && b.core == a.core.(trippedAt := b.core.trippedAt) else b.Raises?
  {
  }

  /** So a restart at any point comes back tripped exactly when the process was, for the same reason. */
  lemma RestartReloads(p: Policy, file: StateFile, at: string, ops: seq<Op>, later: string)
    requires forall op <- ops :: Saves(op)
    requires Run(p, Start(file, at), ops).Up?
    ensures var s, r := Run(p, Start(file, at), ops), Run(p, Start(file, at), ops + [Restart(Json.None, later)]);
            r.Up? && r.core.tripped == s.core.tripped && r.core.reason == s.core.reason && r.core.tripCount == s.core.tripCount
  {
    hide Run, Mirrored, Start;
    DiskMirrorsMemory(p, file, at, ops);
    RunOneMore(p, Start(file, at), ops, Restart(Json.None, later));
    MirroredReloads(Run(p, Start(file, at), ops), later);
  }

  // ---------------------------------------------------------------- failing closed

  /** Nothing gets applied: tripped, or no process at all. */
  predicate Halted(s: State) {
    s.Down? || s.core.tripped
  }

  /** A start from this file is halted. A file that says `null` is not such a file. */
  predicate FileHalts(file: StateFile) {
    !file.Absent? && !file.NullDocument? && (file.Record? ==> file.core.tripped)
  }

  predicate Harmless(op: Op) {
    !op.Reset? && (op.Restart? && op.damage.Some? ==> FileHalts(op.damage.value))
  }

  lemma {:induction false} StaysHalted(p: Policy, s: State, ops: seq<Op>)
    requires Halted(s) && FileHalts(s.file) && forall op <- ops :: Harmless(op)
    ensures Halted(Run(p, s, ops)) && FileHalts(Run(p, s, ops).file)
  {
    if ops != [] {
      StaysHalted(p, s, ops[..|ops| - 1]);
      assert Harmless(ops[|ops| - 1]);
    }
  }

  /** A restart on a damaged file comes up halted exactly when the damage left something other than no
      file, a `null` document or an untripped record. */
  lemma DamageIsClosedExactlyWhen(p: Policy, s: State, ops: seq<Op>, found: StateFile, at: string)
    ensures Halted(Run(p, s, ops + [Restart(Json.Some(found), at)])) <==> FileHalts(found)
  {
    RunOneMore(p, s, ops, Restart(Json.Some(found), at));
  }

  /** A start on a file it cannot read or convert, but which is text and an object if it is JSON, comes up
      tripped, for one trip at that time; on no file, or `null`, pristine; on a record, as recorded. */
  lemma WhatAStartFinds(file: StateFile, at: string)
    ensures file.Unreadable? || file.BadRecord? ==>
      var s := Start(file, at);
      s.Up? && s.core.tripped && s.core.tripCount == 1 && s.core.trippedAt == Json.Some(at) && s.core.blockKind == ""
    ensures file.Absent? || file.NullDocument? ==>
      var s := Start(file, at);
      s.Up? && !s.core.tripped && s.core.tripCount == 0 && s.core.trippedAt == Json.None
    ensures file.Record? ==> Start(file, at) == Up(file.core, [], file)
    ensures Start(file, at).Down? <==> file.NotUtf8? || file.NotAnObject?
  {
  }

  /** In particular a file that says `null` is not failed closed, whatever came before. */
  lemma ANullFileOpens(p: Policy, s: State, ops: seq<Op>, at: string)
    ensures Run(p, s, ops + [Restart(Json.Some(NullDocument), at)]) == Up(PRISTINE, [], NullDocument)
  {
    RunOneMore(p, s, ops, Restart(Json.Some(NullDocument), at));
  }

  /** Over a run without a reset, a switch halted on a halting file is halted at every point if and only if
      no restart finds anything but a halting file. A file that says `null` is the first exception. */
  lemma HaltedThroughoutExactlyWhen(p: Policy, s: State, ops: seq<Op>)
    requires Halted(s) && FileHalts(s.file) && forall op <- ops :: !op.Reset?
    ensures (forall n :: 0 <= n <= |ops| ==> Halted(Run(p, s, ops[..n]))) <==> forall op <- ops :: Harmless(op)
  {
    if forall op <- ops :: Harmless(op) {
      forall n | 0 <= n <= |ops| ensures Halted(Run(p, s, ops[..n])) {
        StaysHalted(p, s, ops[..n]);
      }
    } else {
      var op :| op in ops && !Harmless(op);
      var n :| 0 <= n < |ops| && ops[n] == op;
      assert ops[..n + 1] == ops[..n] + [op];
      DamageIsClosedExactlyWhen(p, s, ops[..n], op.damage.value, op.at);
      assert op == Restart(Json.Some(op.damage.value), op.at);
      assert !Halted(Run(p, s, ops[..n + 1]));
    }
  }

  /** A first trip outlives a crash exactly when it could be written, or the old file halts anyway. */
  lemma TripOutlivesACrashExactlyWhen(p: Policy, s: State, ops: seq<Op>, op: Op, at: string)
    requires op.Trip? && Run(p, s, ops).Up?
    ensures Halted(Run(p, s, ops + [op] + [Restart(Json.None, at)])) <==> op.saved || FileHalts(Run(p, s, ops).file)
  {
    hide Run, TripCore, LoadInitialState, Start, Halted, FileHalts;
    var mid := Run(p, s, ops);
    RunOneMore(p, s, ops, op);
    RunOneMore(p, s, ops + [op], Restart(Json.None, at));
    TripThenStart(p, mid, op, at);
  }

  lemma TripThenStart(p: Policy, s: State, op: Op, at: string)
    requires op.Trip? && s.Up?
    ensures Halted(Step(p, Step(p, s, op), Restart(Json.None, at))) <==> op.saved || FileHalts(s.file)
  {
  }

  // ---------------------------------------------------------------- what a trip and a reset leave

  /** A first trip keeps what it was told, on disk too if it could be written; one more only counts. */
  lemma ATripIsKept(p: Policy, s: State, ops: seq<Op>, reason: string, kind: string, at: string, saved: bool)
    requires Run(p, s, ops).Up?
    ensures var m, r := Run(p, s, ops), Run(p, s, ops + [Trip(reason, kind, at, saved)]);
      && r.Up? && r.core.tripped && r.core.tripCount == m.core.tripCount + 1 && r.soft == m.soft
      && (!m.core.tripped ==>
            && r.core.blockKind == kind && r.core.trippedAt == Json.Some(at)
            && r.core.reason == if reason != "" then reason else "tripped by caller")
      && (m.core.tripped ==> r.core.blockKind == m.core.blockKind && r.core.trippedAt == m.core.trippedAt && r.core.reason == m.core.reason)
      && r.file == if saved then Record(r.core) else m.file
  {
    RunOneMore(p, s, ops, Trip(reason, kind, at, saved));
    hide Run;
  }

  /** A reset ends the halt and forgets everything about it; after a restart it is still over exactly when it
      could be written, or the file that stayed does not halt. */
  lemma AResetEndsTheHalt(p: Policy, s: State, ops: seq<Op>, saved: bool, at: string)
    requires Run(p, s, ops).Up?
    ensures var r := Run(p, s, ops + [Reset(saved)]);
      !Halted(r) && r.soft == [] && r.core.tripCount == 0 && r.core.reason == "" && r.core.blockKind == "" && r.core.trippedAt == Json.None
    ensures !Halted(Run(p, s, ops + [Reset(saved)] + [Restart(Json.None, at)])) <==> saved || !FileHalts(Run(p, s, ops).file)
  {
    RunOneMore(p, s, ops, Reset(saved));
    RunOneMore(p, s, ops + [Reset(saved)], Restart(Json.None, at));
    hide Run;
  }

  // ---------------------------------------------------------------- the rolling window

  /** All soft signals since the last reset or start. */
  function Signals(ops: seq<Op>): seq<real> {
    if ops == [] then [] else
    var before := Signals(ops[..|ops| - 1]);
    match ops[|ops| - 1]
    case Signal(_, now, _, _) => before + [now]
    case Trip(_, _, _, _) => before
    case Reset(_) => []
    case Restart(_, _) => []
  }

  /** The clock does not run backwards between signals. */
  predicate Clocked(ops: seq<Op>) {
    ops == [] ||
    var before, last := ops[..|ops| - 1], ops[|ops| - 1];
    && Clocked(before)
    && (last.Signal? && Signals(before) != [] ==> Signals(before)[|Signals(before)| - 1] <= last.now)
  }

  lemma {:induction false} SignalsAreSorted(ops: seq<Op>)
    requires Clocked(ops)
    ensures Sorted(Signals(ops))
  {
    if ops != [] {
      SignalsAreSorted(ops[..|ops| - 1]);
    }
  }

  /** The pruned list is the part of the whole history that a later window can still see. */
  ghost predicate Agrees(signals: seq<real>, soft: seq<real>, window: real) {
    Covers(signals, soft, if signals == [] then 0.0 else signals[|signals| - 1], window)
  }

  lemma SignalAgrees(signals: seq<real>, soft: seq<real>, now: real, window: real)
    requires Sorted(signals) && Agrees(signals, soft, window)
    requires signals != [] ==> signals[|signals| - 1] <= now
    ensures Fresh(soft, now, window) == Fresh(signals, now, window)
    ensures Agrees(signals + [now], Fresh(soft, now, window) + [now], window)
  {
    hide Fresh;
    var k := PrunedAgrees(signals, soft, now, window);
    var all, live := signals + [now], Fresh(soft, now, window) + [now];
    assert |all| - |live| == k;
    assert all[k..] == live;
  }

  predicate TripsOn(count: nat, p: Policy, kind: string, r: State) {
    && r.Up?
    && (r.core.tripped <==> count >= p.threshold)
    && (r.core.tripped ==> r.core.reason == ClusterReason(count, p.window) && r.core.blockKind == kind)
  }

  /** What one signal does to an untripped switch. */
  lemma SignalStep(p: Policy, s: State, op: Op)
    requires op.Signal? && s.Up? && !s.core.tripped
    ensures Step(p, s, op).Up? && Step(p, s, op).soft == Fresh(s.soft, op.now, p.window) + [op.now]
    ensures TripsOn(|Fresh(s.soft, op.now, p.window)| + 1, p, op.kind, Step(p, s, op))
  {
    hide Fresh, LoadInitialState;
    var count := |Fresh(s.soft, op.now, p.window)| + 1;
    assert |ClusterReason(count, p.window)| >= |Json.Decimal(count)| > 0;
  }

  /** Any other step leaves an untripped switch with an empty list, if with one at all. */
  lemma OtherStep(p: Policy, s: State, op: Op)
    requires !op.Signal? || s.Down? || s.core.tripped
    ensures op.Signal? ==> Step(p, s, op) == s
    ensures !op.Signal? && Step(p, s, op).Up? && !Step(p, s, op).core.tripped ==>
      (op.Reset? || op.Restart?) && Step(p, s, op).soft == []
  {
  }

  lemma {:induction false} SoftListAgrees(p: Policy, s: State, ops: seq<Op>)
    requires (s.Up? ==> s.soft == []) && Clocked(ops)
    ensures Run(p, s, ops).Up? && !Run(p, s, ops).core.tripped ==> Agrees(Signals(ops), Run(p, s, ops).soft, p.window)
  {
    if ops != [] {
      var before, op := ops[..|ops| - 1], ops[|ops| - 1];
      var mid, end := Run(p, s, before), Run(p, s, ops);
      assert end == Step(p, mid, op);
      hide Step, Run, Fresh;
      if op.Signal? {
        if mid.Up? && !mid.core.tripped {
          SoftListAgrees(p, s, before);
          SignalsAreSorted(before);
          SignalAgrees(Signals(before), mid.soft, op.now, p.window);
          SignalStep(p, mid, op);
        } else {
          OtherStep(p, mid, op);
        }
      } else if end.Up? && !end.core.tripped {
        OtherStep(p, mid, op);
      }
    }
  }

  lemma ClockedBefore(ops: seq<Op>, op: Op)
    requires op.Signal? && Clocked(ops + [op])
    ensures Clocked(ops) && (Signals(ops) != [] ==> Signals(ops)[|Signals(ops)| - 1] <= op.now)
  {
    assert (ops + [op])[..|ops|] == ops;
  }

  /** An untripped switch trips at a signal exactly when at least the threshold number of signals since
      the last reset or start, this one included, lie inside the window. */
  lemma TripsExactlyOnACluster(p: Policy, s: State, ops: seq<Op>, op: Op)
    requires (s.Up? ==> s.soft == []) && op.Signal? && Clocked(ops + [op])
    requires Run(p, s, ops).Up? && !Run(p, s, ops).core.tripped
    ensures TripsOn(|Fresh(Signals(ops), op.now, p.window)| + 1, p, op.kind, Run(p, s, ops + [op]))
  {
    hide *;
    ClockedBefore(ops, op);
    var mid := Run(p, s, ops);
    SoftListAgrees(p, s, ops);
    SignalsAreSorted(ops);
    SignalAgrees(Signals(ops), mid.soft, op.now, p.window);
    SignalStep(p, mid, op);
    RunOneMore(p, s, ops, op);
  }

  // ---------------------------------------------------------------- the module's record and functions

  /** The module-level `_state`, with the state file it mirrors. */
  class KillSwitch {
    const policy: Policy
    var tripped: bool
    var reason: string
    var blockKind: string
    var trippedAt: Json.Option<string>
    var tripCount: int
    var soft: seq<real>
    var file: StateFile

    ghost function Record(): Core
      reads this
    {
      Core(tripped, reason, blockKind, trippedAt, tripCount)
    }

    ghost function State(): State
      reads this
    {
      Up(Record(), soft, file)
    }

    constructor (policy: Policy, core: Core, file: StateFile)
      ensures this.policy == policy && State() == Up(core, [], file)
    {
      this.policy, this.file, soft := policy, file, [];
      tripped, reason, blockKind := core.tripped, core.reason, core.blockKind;
      trippedAt, tripCount := core.trippedAt, core.tripCount;
    }

    method WriteStateFile(saved: bool)
      modifies this`file
      ensures file == Written(old(file), Record(), saved)
    {
      if saved {
        file := StateFile.Record(Core(tripped, reason, blockKind, trippedAt, tripCount));
      }
    }

    method TripSwitch(reason: string, kind: string, at: string, saved: bool) returns (first: bool)
      modifies this
      ensures State() == Step(policy, old(State()), Trip(reason, kind, at, saved))
      ensures first == !old(tripped)
    {
      first := !tripped;
      tripCount := tripCount + 1;
      if first {
        tripped := true;
        this.reason := if reason == "" then "tripped by caller" else reason;
        blockKind := kind;
        trippedAt := Json.Some(at);
      }
      WriteStateFile(saved);
    }

    method ResetSwitch(saved: bool)
      modifies this
      ensures State() == Step(policy, old(State()), Reset(saved))
    {
      tripped, reason, blockKind := false, "", "";
      trippedAt, tripCount := Json.None, 0;
      soft := [];
      WriteStateFile(saved);
    }

    method RecordSoftSignal(kind: string, now: real, at: string, saved: bool) returns (caused: bool)
      modifies this
      ensures State() == Step(policy, old(State()), Signal(kind, now, at, saved))
      ensures caused <==> !old(tripped) && tripped
    {
      if tripped {
        return false;
      }
      soft := Filter(soft, now, policy.window);
      soft := soft + [now];
      if |soft| >= policy.threshold {
        var _ := TripSwitch(ClusterReason(|soft|, policy.window), kind, at, saved);
        return true;
      }
      return false;
    }
  }
}
