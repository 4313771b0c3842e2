/** The one-approval-cycle gate: an agent configured to apply on its own drops to asking for one cycle
    after the policy fingerprint moves. */
module PolicyGate {
  import opened Json

  // ---------------------------------------------------------------- the state file

  // The fingerprints are opaque texts, and the test for a change is whether the current one differs from the
  // last one recorded on disk.

  datatype Key = Absent | Null | Hash(h: string)

  /** The two names the fingerprint has been stored under; an unreadable file reads as having neither. */
  datatype Disk = Disk(policyHash: Key, scoringHash: Key)

  const EMPTY := Disk(Absent, Absent)

  /** `state.get("last_policy_hash", state.get("last_scoring_hash"))`. */
  function LastSeen(d: Disk): Option<string> {
    var key := if d.policyHash.Absent? then d.scoringHash else d.policyHash;
    if key.Hash? then Some(key.h) else None
  }

  // ---------------------------------------------------------------- one cycle

  /** `NotifyFailed` is the approval list that could not be stored; it matters only where one is. A crash may
      come before or after the list is stored, but before the fingerprint is. */
  datatype Ending = Crashed(stored: bool) | NotifyFailed | Finished

  /** The fingerprint is read twice in a cycle, when the mode is decided (`seen`, `None` if it or the test
      is unavailable) and for the record (`current`). Only `auto` makes the first reading; in any other mode
      `seen` is what it would have found. `saved` says whether the file could be written. */
  datatype Cycle = Cycle(mode: string, seen: Option<string>, current: Option<string>, candidates: bool, ending: Ending, saved: bool)

  /** `_effective_mode`. */
  function EffectiveMode(d: Disk, mode: string, seen: Option<string>): string {
    if mode == "auto" && seen.Some? && LastSeen(d) != seen then "approval" else mode
  }

  /** The branch of `_act` that submits: every mode that is not one of the other two. */
  predicate Submits(d: Disk, c: Cycle) {
    var mode := EffectiveMode(d, c.mode, c.seen);
    c.candidates && mode != "dry_run" && mode != "approval"
  }

  predicate AsksForApproval(d: Disk, c: Cycle) {
    c.candidates && EffectiveMode(d, c.mode, c.seen) == "approval"
  }

  /** The cycle gets as far as recording the fingerprint. */
  predicate Completes(d: Disk, c: Cycle) {
    c.ending == Finished || (c.ending == NotifyFailed && !AsksForApproval(d, c))
  }

  function After(d: Disk, c: Cycle): Disk {
    if Completes(d, c) && c.current.Some? && c.saved then d.(policyHash := Hash(c.current.value)) else d
  }

  /** Besides cycles, the file may be lost. */
  datatype Event = Ran(cycle: Cycle) | Lost

  function Run(d: Disk, events: seq<Event>): Disk {
    if events == [] then d else
    var before := Run(d, events[..|events| - 1]);
    match events[|events| - 1]
    case Ran(c) => After(before, c)
    case Lost => EMPTY
  }

  /** The fingerprint of the last cycle that was completed and recorded since the file was last lost. */
  function LastRecorded(d: Disk, events: seq<Event>): Option<string> {
    if events == [] then LastSeen(d) else
    var before := events[..|events| - 1];
    match events[|events| - 1]
    case Lost => None
    case Ran(c) =>
      if Completes(Run(d, before), c) && c.current.Some? && c.saved then c.current else LastRecorded(d, before)
  }

  lemma {:induction false} TheFileRemembers(d: Disk, events: seq<Event>)
    ensures LastSeen(Run(d, events)) == LastRecorded(d, events)
  {
    if events != [] {
      TheFileRemembers(d, events[..|events| - 1]);
    }
  }

  /** The modes the validator admits. */
  predicate KnownMode(mode: string) {
    mode == "dry_run" || mode == "approval" || mode == "auto"
  }

  /** With a readable fingerprint, a cycle with candidates submits exactly when it is configured to and the
      last cycle recorded ran under that same fingerprint, or when its mode is none of the three at all. */
  lemma SubmitsExactlyWhen(d: Disk, events: seq<Event>, c: Cycle)
    requires c.seen.Some?
    ensures Submits(Run(d, events), c) <==>
      c.candidates && ((c.mode == "auto" && LastRecorded(d, events) == c.seen) || !KnownMode(c.mode))
  {
    TheFileRemembers(d, events);
  }

  /** A cycle leaves its fingerprint in the file exactly when it finishes, or fails to store a list that it was
      not to put up, with a fingerprint to record and a file that can be written. */
  lemma RecordsExactlyWhen(d: Disk, c: Cycle)
    ensures var toReview := c.candidates && (c.mode == "approval" || (c.mode == "auto" && c.seen.Some? && LastSeen(d) != c.seen));
      After(d, c) ==
        if (c.ending == Finished || (c.ending == NotifyFailed && !toReview)) && c.current.Some? && c.saved
        then Disk(Hash(c.current.value), d.scoringHash) else d
  {
  }

  /** A file from before the key was renamed still counts, as long as it has no key of the new name, null or
      not. */
  lemma TheOldNameStillCounts(h: string, c: Cycle)
    requires c.mode == "auto" && c.seen == Some(h) && c.candidates
    ensures Submits(Disk(Absent, Hash(h)), c) && !Submits(Disk(Key.Null, Hash(h)), c)
    ensures forall g, key :: Submits(Disk(Hash(g), key), c) <==> g == h
  {
  }

  // ---------------------------------------------------------------- exactly one approval cycle

  /** A cycle of a known mode that reads the same fingerprint both times. */
  predicate Under(e: Event, f: string) {
    e.Ran? && KnownMode(e.cycle.mode) && e.cycle.seen == Some(f) && e.cycle.current == Some(f)
  }

  predicate Pays(d: Disk, e: Event) {
    e.Ran? && Completes(d, e.cycle) && e.cycle.saved
  }

  predicate Applies(d: Disk, e: Event) {
    e.Ran? && Submits(d, e.cycle)
  }

  /** While the approval is owed, cycles that crash, fail to notify or cannot write neither submit nor pay,
      however many there are; a completed and recorded one does not submit either, and pays. */
  lemma {:induction false} OwedUntilPaid(d: Disk, events: seq<Event>, f: string)
    requires LastSeen(d) != Some(f) && forall e <- events :: Under(e, f)
    requires forall n :: 0 <= n < |events| ==> !Pays(Run(d, events[..n]), events[n])
    ensures Run(d, events) == d
    ensures forall e <- events :: !Applies(d, e)
  {
    if events != [] {
      var n := |events| - 1;
      var before := events[..n];
      forall k | 0 <= k < n ensures !Pays(Run(d, before[..k]), before[k]) {
        assert before[..k] == events[..k];
      }
      OwedUntilPaid(d, before, f);
      assert Under(events[n], f);
    }
  }

  /** Once paid, no later cycle under the same fingerprint is downgraded, whatever becomes of it. */
  lemma {:induction false} PaidStaysPaid(d: Disk, events: seq<Event>, f: string)
    requires LastSeen(d) == Some(f) && forall e <- events :: Under(e, f)
    ensures LastSeen(Run(d, events)) == Some(f)
    ensures forall n :: 0 <= n < |events| ==> NotDowngraded(d, events, n)
  {
    if events != [] {
      var n := |events| - 1;
      var before := events[..n];
      PaidStaysPaid(d, before, f);
      assert Under(events[n], f);
      forall k | 0 <= k <= n ensures NotDowngraded(d, events, k) {
        if k < n {
          assert before[..k] == events[..k];
          assert NotDowngraded(d, before, k);
        }
      }
    }
  }

  predicate NotDowngraded(d: Disk, events: seq<Event>, n: nat)
    requires n < |events|
  {
    events[n].Ran? ==> var c := events[n].cycle; EffectiveMode(Run(d, events[..n]), c.mode, c.seen) == c.mode
  }

  /** After a change of fingerprint: nothing is submitted until one cycle is completed and recorded, that
      cycle submits nothing, and every later one runs in its configured mode. */
  lemma OneCycleIsHeldBack(d: Disk, failed: seq<Event>, paying: Cycle, later: seq<Event>, f: string)
    requires LastSeen(d) != Some(f) && forall e <- failed + [Ran(paying)] + later :: Under(e, f)
    requires forall n :: 0 <= n < |failed| ==> !Pays(Run(d, failed[..n]), failed[n])
    requires Pays(d, Ran(paying))
    ensures forall e <- failed :: !Applies(d, e)
    ensures Run(d, failed) == d && !Submits(d, paying)
    ensures LastSeen(After(d, paying)) == Some(f)
    ensures forall n :: 0 <= n < |later| ==> NotDowngraded(After(d, paying), later, n)
  {
    var all := failed + [Ran(paying)] + later;
    assert all[|failed|] == Ran(paying);
    assert Under(all[|failed|], f);
    forall e | e in failed ensures Under(e, f) {
      assert e in all;
    }
    forall e | e in later ensures Under(e, f) {
      assert e in all;
    }
    OwedUntilPaid(d, failed, f);
    PaidStaysPaid(After(d, paying), later, f);
  }

  // ---------------------------------------------------------------- what was reviewed

  predicate ListStored(e: Ending) {
    e == Finished || e == Crashed(true)
  }

  /** The cycle puts a list up for approval that was chosen under `f`. */
  predicate PutsUp(d: Disk, e: Event, f: string) {
    e.Ran? && e.cycle.seen == Some(f) && AsksForApproval(d, e.cycle) && ListStored(e.cycle.ending)
  }

  predicate SubmitsUnder(d: Disk, e: Event, f: string) {
    e.Ran? && e.cycle.seen == Some(f) && Submits(d, e.cycle)
  }

  predicate ReviewedBefore(d: Disk, events: seq<Event>, f: string, n: nat)
    requires n <= |events|
  {
    exists k :: 0 <= k < n && PutsUp(Run(d, events[..k]), events[k], f)
  }

  /** The promise: whatever is submitted under `f`, a list was put up under `f` before. */
  predicate AllReviewed(d: Disk, events: seq<Event>, f: string) {
    forall n :: 0 <= n < |events| && SubmitsUnder(Run(d, events[..n]), events[n], f) ==> ReviewedBefore(d, events, f, n)
  }

  /** The cycle saw `f`, had candidates, was not a dry run and got past the place where a list is stored. */
  predicate Reviewable(e: Event, f: string) {
    e.Ran? && e.cycle.seen == Some(f) && e.cycle.candidates && e.cycle.mode != "dry_run" && ListStored(e.cycle.ending)
  }

  predicate ReviewableBefore(events: seq<Event>, f: string, n: nat)
    requires n <= |events|
  {
    exists k :: 0 <= k < n && Reviewable(events[k], f)
  }

  /** The cycle is let through: `auto` with `f` the last fingerprint recorded, or a mode the gate ignores. */
  predicate LetThrough(d: Disk, events: seq<Event>, f: string, n: nat)
    requires n < |events|
  {
    && events[n].Ran? && events[n].cycle.seen == Some(f) && events[n].cycle.candidates
    && (events[n].cycle.mode == "auto" ==> LastRecorded(d, events[..n]) == Some(f))
    && events[n].cycle.mode != "dry_run" && events[n].cycle.mode != "approval"
  }

  predicate ReviewableWherever(d: Disk, events: seq<Event>, f: string) {
    forall n :: 0 <= n < |events| && LetThrough(d, events, f, n) ==> ReviewableBefore(events, f, n)
  }

  lemma LetThroughSubmits(d: Disk, events: seq<Event>, f: string, n: nat)
    requires n < |events|
    ensures LetThrough(d, events, f, n) <==> SubmitsUnder(Run(d, events[..n]), events[n], f)
  {
    TheFileRemembers(d, events[..n]);
  }

  /** A reviewable cycle either puts its list up or submits, and then an earlier one was reviewable. */
  lemma {:induction false} SomeListWasPutUp(d: Disk, events: seq<Event>, f: string, k: nat, n: nat)
    requires k < n <= |events| && Reviewable(events[k], f) && ReviewableWherever(d, events, f)
    ensures ReviewedBefore(d, events, f, n)
  {
    if !PutsUp(Run(d, events[..k]), events[k], f) {
      assert Submits(Run(d, events[..k]), events[k].cycle);
      LetThroughSubmits(d, events, f, k);
      var j :| 0 <= j < k && Reviewable(events[j], f);
      SomeListWasPutUp(d, events, f, j, n);
    }
  }

  /** A list is put up under a policy before anything is submitted under it if and only if every cycle that
      is let through under it comes after one that saw it, had candidates, was not a dry run and got past
      the place where a list is stored. The cycles are arbitrary: any modes, any two readings each. */
  lemma ReviewedExactlyWhen(d: Disk, events: seq<Event>, f: string)
    ensures AllReviewed(d, events, f) <==> ReviewableWherever(d, events, f)
  {
    forall n | 0 <= n < |events|
      ensures LetThrough(d, events, f, n) <==> SubmitsUnder(Run(d, events[..n]), events[n], f)
    {
      LetThroughSubmits(d, events, f, n);
    }
    if ReviewableWherever(d, events, f) {
      forall n | 0 <= n < |events| && SubmitsUnder(Run(d, events[..n]), events[n], f)
        ensures ReviewedBefore(d, events, f, n)
      {
        var k :| 0 <= k < n && Reviewable(events[k], f);
        SomeListWasPutUp(d, events, f, k, n);
      }
    }
    if AllReviewed(d, events, f) {
      forall n | 0 <= n < |events| && LetThrough(d, events, f, n) ensures ReviewableBefore(events, f, n) {
        var k :| 0 <= k < n && PutsUp(Run(d, events[..k]), events[k], f);
        assert Reviewable(events[k], f);
      }
    }
  }

  /** While the approval is owed, a cycle under the new fingerprint puts a list up exactly when it has
      candidates, is not a dry run and stores the list; but any completed and recorded one lets the next
      cycle through. */
  lemma AnyCompletedCyclePays(d: Disk, c: Cycle, f: string, next: Cycle)
    requires LastSeen(d) != Some(f) && Under(Ran(c), f) && Under(Ran(next), f) && next.mode == "auto" && next.candidates
    ensures PutsUp(d, Ran(c), f) <==> c.candidates && c.mode != "dry_run" && ListStored(c.ending)
    ensures Submits(After(d, c), next) <==> Completes(d, c) && c.saved
    ensures AllReviewed(d, [Ran(c), Ran(next)], f) <==>
      !(Completes(d, c) && c.saved) || (c.candidates && c.mode != "dry_run" && c.ending == Finished)
  {
    var events := [Ran(c), Ran(next)];
    RunShort(d, events);
    assert !SubmitsUnder(d, events[0], f);
    if AllReviewed(d, events, f) && Completes(d, c) && c.saved {
      assert SubmitsUnder(Run(d, events[..1]), events[1], f);
      assert ReviewedBefore(d, events, f, 1);
    }
    if PutsUp(d, Ran(c), f) {
      assert PutsUp(Run(d, events[..0]), events[0], f);
      assert ReviewedBefore(d, events, f, 1);
    }
  }

  lemma RunShort(d: Disk, events: seq<Event>)
    requires |events| == 2 && events[0].Ran?
    ensures Run(d, events[..0]) == d && Run(d, events[..1]) == After(d, events[0].cycle)
  {
    assert events[..1][..0] == [];
  }

  /** A fingerprint that moves between the two readings is recorded without having been held back, and the
      next cycle submits under it with nothing reviewed. */
  lemma AChangeWithinACycleIsMissed(d: Disk, c: Cycle, f: string, g: string, next: Cycle)
    requires f != g && LastSeen(d) == Some(f)
    requires c.mode == "auto" && c.seen == Some(f) && c.current == Some(g) && c.ending == Finished && c.saved
    requires Under(Ran(next), g) && next.mode == "auto" && next.candidates
    ensures Submits(After(d, c), next) && LastSeen(d) != Some(g) && !AllReviewed(d, [Ran(c), Ran(next)], g)
  {
    var events := [Ran(c), Ran(next)];
    RunShort(d, events);
    assert SubmitsUnder(Run(d, events[..1]), events[1], g);
    assert !ReviewedBefore(d, events, g, 1);
  }

  // ---------------------------------------------------------------- the agent

  class PolicyState {
    var disk: Disk

    constructor (disk: Disk)
      ensures this.disk == disk
    {
      this.disk := disk;
    }

    method Decide(mode: string, seen: Option<string>) returns (effective: string, downgraded: bool)
      ensures effective == EffectiveMode(disk, mode, seen) && (downgraded <==> effective != mode)
    {
      if mode != "auto" || seen.None? {
        return mode, false;
      }
      var lastSeen := LastSeen(disk);
      if lastSeen == seen {
        return mode, false;
      }
      return "approval", true;
    }

    method Record(hash: string, saved: bool)
      modifies this
      ensures disk == if saved then old(disk).(policyHash := Hash(hash)) else old(disk)
    {
      if saved {
        disk := disk.(policyHash := Hash(hash));
      }
    }

    /** `_act`, as far as the gate is concerned. */
    method Act(c: Cycle) returns (mode: string, submits: bool)
      modifies this
      ensures disk == After(old(disk), c) && mode == EffectiveMode(old(disk), c.mode, c.seen)
      ensures submits <==> Submits(old(disk), c)
    {
      var downgraded;
      mode, downgraded := Decide(c.mode, c.seen);
      submits := false;
      if c.candidates && mode == "approval" {
        if c.ending == NotifyFailed {
          return;
        }
      } else if c.candidates && mode != "dry_run" {
        submits := true;
      }
      if c.ending.Crashed? {
        return;
      }
      if c.current.Some? {
        Record(c.current.value, c.saved);
      }
    }
  }
}
