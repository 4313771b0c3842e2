/** The agent's cycle: choosing candidates from many searches under a quota, a fit floor, a blocklist and
    two kinds of duplicate, then submitting them until the kill switch stops it. */
module AgentCycle {
  import opened Json
  import Blocklist

  // The searches, their results, the applications and the switch are arbitrary inputs.

  // ---------------------------------------------------------------- configuration

  /** A configuration value the code passes to `int`. */
  datatype Setting = Missing | Unreadable | Number(n: int)

  const PER_SEARCH_LIMIT_DEFAULT := 20
  const PER_SEARCH_LIMIT_CEILING := 100

  datatype Search = Search(name: string, enabled: bool, minFit: Setting)

  datatype Config = Config(minFit: Setting, perSearchLimit: Setting, maxDaily: int, blocklist: Blocklist.AgentBlocklist)

  function Max(a: int, b: int): int {
    if a >= b then a else b
  }

  /** The agent-wide threshold: the configured one, or the default if it does not convert, never below
      the floor. */
  function MinFit(c: Config, default: int, floor: int): (m: int)
    ensures IsLeastAbove(m, floor, if c.minFit.Number? then c.minFit.n else default)
  {
    Max(if c.minFit.Number? then c.minFit.n else default, floor)
  }

  /** A search's own threshold, under the same floor. */
  function SearchMinFit(s: Search, minFit: int, floor: int): (m: int)
    requires minFit >= floor
    ensures IsLeastAbove(m, floor, if s.minFit.Number? then s.minFit.n else minFit)
  {
    if s.minFit.Number? then Max(s.minFit.n, floor) else minFit
  }

  function PerSearchLimit(c: Config): (n: int)
    ensures 1 <= n <= PER_SEARCH_LIMIT_CEILING
  {
    var n := if c.perSearchLimit.Number? then c.perSearchLimit.n else PER_SEARCH_LIMIT_DEFAULT;
    Max(1, if n <= PER_SEARCH_LIMIT_CEILING then n else PER_SEARCH_LIMIT_CEILING)
  }

  /** `_observe`: what is left of the day's quota. */
  function DailyRemaining(maxDaily: int, dailyApplied: nat): nat {
    Max(0, maxDaily - dailyApplied)
  }

  // ---------------------------------------------------------------- choosing

  datatype Candidate = Candidate(jobId: string, company: string, title: string, fit: int, searchName: string)

  /** What one search came back with: its ranked jobs, or no success. */
  datatype Hunt = NoSuccess | Ranked(jobs: seq<Candidate>)

  /** What the decide loop holds every job against. */
  datatype Rules = Rules(applied: set<string>, blocklist: Blocklist.AgentBlocklist, lower: string -> string, floor: int, remaining: nat)

  datatype Verdict = Apply | Skip(reason: string)

  datatype Decision = Decision(jobId: string, verdict: Verdict)

  function Ids(cs: seq<Candidate>): (ids: seq<string>)
    ensures |ids| == |cs| && forall i :: 0 <= i < |cs| ==> ids[i] == cs[i].jobId
  {
    seq(|cs|, i requires 0 <= i < |cs| => cs[i].jobId)
  }

  predicate HasId(cs: seq<Candidate>, id: string) {
    exists i :: 0 <= i < |cs| && cs[i].jobId == id
  }

  /** All jobs of the enabled, successful searches, in order. */
  function Offered(searches: seq<Search>, hunts: seq<Hunt>): seq<Candidate>
    requires |hunts| == |searches|
  {
    if searches == [] then [] else
    var n := |searches| - 1;
    Offered(searches[..n], hunts[..n]) + (if searches[n].enabled && hunts[n].Ranked? then hunts[n].jobs else [])
  }

  /** A job the rules have nothing against, quota and repetition aside. */
  predicate Eligible(c: Candidate, r: Rules) {
    && c.jobId !in r.applied
    && Blocklist.Reason(r.blocklist, c.company, c.title, r.lower).None?
    && c.fit >= r.floor
  }

  /** The first eligible offer of every job. */
  function FirstEligible(offers: seq<Candidate>, r: Rules): seq<Candidate> {
    if offers == [] then [] else
    var n := |offers| - 1;
    var before := FirstEligible(offers[..n], r);
    if Eligible(offers[n], r) && !HasId(before, offers[n].jobId) then before + [offers[n]] else before
  }

  function Take(cs: seq<Candidate>, n: nat): seq<Candidate> {
    if |cs| <= n then cs else cs[..n]
  }

  /** What the decide loop keeps: the first eligible offers, as many as the quota allows. */
  function Kept(offers: seq<Candidate>, r: Rules): seq<Candidate> {
    Take(FirstEligible(offers, r), r.remaining)
  }

  /** The order in which the loop asks. */
  function Judge(c: Candidate, kept: seq<Candidate>, r: Rules): Verdict {
    var blocked := Blocklist.Reason(r.blocklist, c.company, c.title, r.lower);
    if c.jobId in r.applied || HasId(kept, c.jobId) then Skip("already_applied")
    else if blocked.Some? then Skip(blocked.value)
    else if |kept| >= r.remaining then Skip("daily_cap")
    else if c.fit < r.floor then Skip("below_min_agent_fit_floor")
    else Apply
  }

  /** The decision recorded for every offer, in order. */
  function Decisions(offers: seq<Candidate>, r: Rules): seq<Decision> {
    if offers == [] then [] else
    var n := |offers| - 1;
    Decisions(offers[..n], r) + [Decision(offers[n].jobId, Judge(offers[n], Kept(offers[..n], r), r))]
  }

  /** The order of the questions does not matter to what is kept. */
  lemma JudgeKeeps(offers: seq<Candidate>, c: Candidate, r: Rules)
    ensures Kept(offers + [c], r) == Kept(offers, r) + (if Judge(c, Kept(offers, r), r) == Apply then [c] else [])
  {
    assert (offers + [c])[..|offers|] == offers;
    hide Blocklist.Reason;
  }

  /** Every offer gets one decision, and no decision gives a reason that does not hold: a job is applied to
      exactly when it is kept, called applied already only when it is, over the cap only when the quota is
      used up, below the floor only when it is, and anything else is the blocklist's word. */
  lemma {:induction false} EveryReasonHolds(offers: seq<Candidate>, r: Rules, k: nat)
    requires k < |offers|
    ensures |Decisions(offers, r)| == |offers|
    ensures var c, d, kept := offers[k], Decisions(offers, r)[k], Kept(offers[..k], r);
      && d.jobId == c.jobId
      && (d.verdict == Apply <==> Kept(offers[..k + 1], r) == kept + [c])
      && (d.verdict == Skip("already_applied") ==> c.jobId in r.applied || HasId(kept, c.jobId))
      && (d.verdict == Skip("daily_cap") ==> |kept| == r.remaining)
      && (d.verdict == Skip("below_min_agent_fit_floor") ==> c.fit < r.floor)
      && (d.verdict.Skip? && d.verdict.reason !in ["already_applied", "daily_cap", "below_min_agent_fit_floor"] ==>
            Blocklist.Reason(r.blocklist, c.company, c.title, r.lower) == Some(d.verdict.reason))
  {
    hide Kept, Blocklist.Reason;
    var n := |offers| - 1;
    if k < n {
      EveryReasonHolds(offers[..n], r, k);
      assert offers[..n][..k] == offers[..k] && offers[..n][..k + 1] == offers[..k + 1];
    } else {
      LengthsAgree(offers[..n], r);
      JudgeKeeps(offers[..n], offers[n], r);
      NeverTooMany(offers[..n], r);
      assert offers[..n] + [offers[n]] == offers[..k + 1] == offers;
      ReasonsDiffer(r.blocklist, offers[n], r.lower);
    }
  }

  lemma NeverTooMany(offers: seq<Candidate>, r: Rules)
    ensures |Kept(offers, r)| <= r.remaining
  {
    hide FirstEligible;
  }

  lemma {:induction false} LengthsAgree(offers: seq<Candidate>, r: Rules)
    ensures |Decisions(offers, r)| == |offers|
  {
    if offers != [] {
      LengthsAgree(offers[..|offers| - 1], r);
    }
  }

  /** A blocklist's reason is none of the others. */
  lemma ReasonsDiffer(bl: Blocklist.AgentBlocklist, c: Candidate, lower: string -> string)
    ensures var reason := Blocklist.Reason(bl, c.company, c.title, lower);
      reason.Some? ==> reason.value !in ["already_applied", "daily_cap", "below_min_agent_fit_floor"]
  {
    hide Blocklist.FirstHit;
    var reason := Blocklist.Reason(bl, c.company, c.title, lower);
    if reason.Some? {
      assert reason.value[0] == 'c' || reason.value[0] == 't';
      assert "already_applied"[0] == 'a' && "daily_cap"[0] == 'd' && "below_min_agent_fit_floor"[0] == 'b';
    }
  }

  /** The inner loop over one search's jobs. */
  method Screen(jobs: seq<Candidate>, r: Rules, ghost offers: seq<Candidate>, kept: seq<Candidate>, log: seq<Decision>)
    returns (candidates: seq<Candidate>, decisions: seq<Decision>)
    requires kept == Kept(offers, r) && log == Decisions(offers, r)
    ensures candidates == Kept(offers + jobs, r) && decisions == Decisions(offers + jobs, r)
  {
    candidates, decisions := kept, log;
    assert offers + jobs[..0] == offers;
    for i := 0 to |jobs|
      invariant candidates == Kept(offers + jobs[..i], r) && decisions == Decisions(offers + jobs[..i], r)
    {
      ghost var seen := offers + jobs[..i];
      assert offers + jobs[..i + 1] == seen + [jobs[i]] && (seen + [jobs[i]])[..|seen|] == seen;
      JudgeKeeps(seen, jobs[i], r);
      assert Decisions(seen + [jobs[i]], r) == Decisions(seen, r) + [Decision(jobs[i].jobId, Judge(jobs[i], Kept(seen, r), r))];
      hide Kept, Decisions;
      var verdict := JudgeOne(jobs[i], candidates, r);
      if verdict == Apply {
        candidates := candidates + [jobs[i]];
      }
      decisions := decisions + [Decision(jobs[i].jobId, verdict)];
    }
    assert jobs[..|jobs|] == jobs;
  }

  method JudgeOne(c: Candidate, candidates: seq<Candidate>, r: Rules) returns (v: Verdict)
    ensures v == Judge(c, candidates, r)
  {
    if c.jobId in r.applied || HasId(candidates, c.jobId) {
      return Skip("already_applied");
    }
    var blocked := Blocklist.Check(r.blocklist, c.company, c.title, r.lower);
    if blocked.Some? {
      return Skip(blocked.value);
    }
    if |candidates| >= r.remaining {
      return Skip("daily_cap");
    }
    if c.fit < r.floor {
      return Skip("below_min_agent_fit_floor");
    }
    return Apply;
  }

  /** What a search is asked for: its threshold and its page. */
  datatype Query = Query(minFit: int, limit: int)

  /** What the enabled searches are asked for: never below the floor, never a page out of bounds. */
  function Queries(c: Config, defaultFit: int, searches: seq<Search>, floor: int): (queries: seq<Query>)
    ensures forall q <- queries :: q.minFit >= floor && 1 <= q.limit <= PER_SEARCH_LIMIT_CEILING
  {
    if searches == [] then [] else
    var n := |searches| - 1;
    var before := Queries(c, defaultFit, searches[..n], floor);
    if !searches[n].enabled then before
    else before + [Query(SearchMinFit(searches[n], MinFit(c, defaultFit, floor), floor), PerSearchLimit(c))]
  }

  /** The enabled searches, in order. */
  function EnabledOf(searches: seq<Search>): seq<Search> {
    if searches == [] then [] else
    var n := |searches| - 1;
    EnabledOf(searches[..n]) + (if searches[n].enabled then [searches[n]] else [])
  }

  /** The setting that decides a search's threshold: its own if that converts, else the agent's if that does,
      else the default. */
  function Deciding(s: Search, c: Config, defaultFit: int): int {
    match (s.minFit, c.minFit)
    case (Number(own), _) => own
    case (_, Number(agents)) => agents
    case _ => defaultFit
  }

  /** The least number below neither of the two. */
  predicate IsLeastAbove(m: int, a: int, b: int) {
    m >= a && m >= b && (m == a || m == b)
  }

  /** The configured page where it lies within bounds, else the nearer bound; 20 if none converts. */
  predicate IsPage(page: int, configured: Setting) {
    if !configured.Number? then page == 20
    else if 1 <= configured.n <= 100 then page == configured.n
    else page == if configured.n < 1 then 1 else 100
  }

  /** One query for each enabled search, in order: its threshold is the least number below neither the floor
      nor the deciding setting, and its page is the configured one within bounds. */
  lemma {:induction false} QueriesAskForTheirSearches(c: Config, defaultFit: int, searches: seq<Search>, floor: int)
    ensures var queries, enabled := Queries(c, defaultFit, searches, floor), EnabledOf(searches);
      && |queries| == |enabled|
      && forall k :: 0 <= k < |queries| ==>
           IsLeastAbove(queries[k].minFit, floor, Deciding(enabled[k], c, defaultFit)) && IsPage(queries[k].limit, c.perSearchLimit)
  {
    if searches != [] {
      QueriesAskForTheirSearches(c, defaultFit, searches[..|searches| - 1], floor);
    }
  }

  lemma QueriesOneMore(c: Config, defaultFit: int, searches: seq<Search>, i: nat, floor: int)
    requires i < |searches|
    ensures Queries(c, defaultFit, searches[..i + 1], floor) ==
      if searches[i].enabled
      then Queries(c, defaultFit, searches[..i], floor)
        + [Query(SearchMinFit(searches[i], MinFit(c, defaultFit, floor), floor), PerSearchLimit(c))]
      else Queries(c, defaultFit, searches[..i], floor)
  {
    assert searches[..i + 1][..i] == searches[..i];
  }

  lemma OfferedOneMore(searches: seq<Search>, hunts: seq<Hunt>, i: nat)
    requires i < |searches| == |hunts|
    ensures Offered(searches[..i + 1], hunts[..i + 1]) ==
      if searches[i].enabled && hunts[i].Ranked? then Offered(searches[..i], hunts[..i]) + hunts[i].jobs
      else Offered(searches[..i], hunts[..i])
  {
    assert searches[..i + 1][..i] == searches[..i] && hunts[..i + 1][..i] == hunts[..i];
  }

  /** `_decide`: `hunts[i]` is what search `i` would come back with. */
  method Decide(c: Config, defaultFit: int, searches: seq<Search>, hunts: seq<Hunt>, r: Rules)
    returns (candidates: seq<Candidate>, decisions: seq<Decision>, queries: seq<Query>)
    requires |hunts| == |searches|
    ensures candidates == ByFit(Kept(Offered(searches, hunts), r))
    ensures decisions == Decisions(Offered(searches, hunts), r)
    ensures queries == Queries(c, defaultFit, searches, r.floor)
  {
    var minFit := MinFit(c, defaultFit, r.floor);
    candidates, decisions, queries := [], [], [];
    assert Kept([], r) == [] && Decisions([], r) == [] && Offered(searches[..0], hunts[..0]) == [];
    assert Queries(c, defaultFit, searches[..0], r.floor) == [];
    hide Kept, Decisions, ByFit, Offered, Queries;
    for i := 0 to |searches|
      invariant candidates == Kept(Offered(searches[..i], hunts[..i]), r)
      invariant decisions == Decisions(Offered(searches[..i], hunts[..i]), r)
      invariant queries == Queries(c, defaultFit, searches[..i], r.floor)
    {
      ghost var offers := Offered(searches[..i], hunts[..i]);
      OfferedOneMore(searches, hunts, i);
      QueriesOneMore(c, defaultFit, searches, i, r.floor);
      if searches[i].enabled {
        queries := queries + [Query(SearchMinFit(searches[i], minFit, r.floor), PerSearchLimit(c))];
        if hunts[i].Ranked? {
          candidates, decisions := Screen(hunts[i].jobs, r, offers, candidates, decisions);
        }
      }
    }
    assert searches[..|searches|] == searches && hunts[..|hunts|] == hunts;
    candidates := ByFit(candidates);
  }

  // ---------------------------------------------------------------- the order of submission

  /** Into a descending list, after everything that fits at least as well. */
  function Insert(c: Candidate, cs: seq<Candidate>): seq<Candidate> {
    if cs == [] || cs[|cs| - 1].fit >= c.fit then cs + [c] else Insert(c, cs[..|cs| - 1]) + [cs[|cs| - 1]]
  }

  /** `candidates.sort(key=lambda c: c.fit_score, reverse=True)`. */
  function ByFit(cs: seq<Candidate>): seq<Candidate> {
    if cs == [] then [] else Insert(cs[|cs| - 1], ByFit(cs[..|cs| - 1]))
  }

  ghost predicate Descending(cs: seq<Candidate>) {
    forall i, j :: 0 <= i < j < |cs| ==> cs[i].fit >= cs[j].fit
  }

  /** The candidates of one fit score, in order. */
  function OfFit(cs: seq<Candidate>, fit: int): seq<Candidate> {
    if cs == [] then [] else OfFit(cs[..|cs| - 1], fit) + (if cs[|cs| - 1].fit == fit then [cs[|cs| - 1]] else [])
  }

  lemma OfFitOneMore(cs: seq<Candidate>, c: Candidate, fit: int)
    ensures OfFit(cs + [c], fit) == OfFit(cs, fit) + (if c.fit == fit then [c] else [])
  {
    assert (cs + [c])[..|cs|] == cs;
  }

  lemma {:induction false} InsertSorts(c: Candidate, cs: seq<Candidate>)
    requires Descending(cs)
    ensures Descending(Insert(c, cs)) && |Insert(c, cs)| == |cs| + 1
    ensures forall d <- Insert(c, cs) :: d == c || d in cs
  {
    if cs != [] && cs[|cs| - 1].fit < c.fit {
      var rest, last := cs[..|cs| - 1], cs[|cs| - 1];
      InsertSorts(c, rest);
      var inserted := Insert(c, rest);
      assert forall k :: 0 <= k < |inserted| ==> inserted[k] in inserted;
      assert forall d <- rest :: exists k :: 0 <= k < |cs| - 1 && cs[k] == d;
      hide Insert;
      assert forall k :: 0 <= k < |inserted| ==> inserted[k].fit >= last.fit;
    }
  }

  /** Insertion adds one to the end of its own score and leaves the others as they are. */
  lemma {:induction false} InsertIsStable(c: Candidate, cs: seq<Candidate>, fit: int)
    requires Descending(cs)
    ensures OfFit(Insert(c, cs), fit) == OfFit(cs, fit) + (if c.fit == fit then [c] else [])
  {
    hide OfFit;
    if cs == [] || cs[|cs| - 1].fit >= c.fit {
      OfFitOneMore(cs, c, fit);
    } else {
      var rest, last := cs[..|cs| - 1], cs[|cs| - 1];
      InsertIsStable(c, rest, fit);
      OfFitOneMore(Insert(c, rest), last, fit);
      OfFitOneMore(rest, last, fit);
      assert cs == rest + [last];
      assert Insert(c, cs) == Insert(c, rest) + [last];
    }
  }

  lemma {:induction false} InsertPermutes(c: Candidate, cs: seq<Candidate>)
    ensures multiset(Insert(c, cs)) == multiset(cs) + multiset{c}
  {
    if cs != [] && cs[|cs| - 1].fit < c.fit {
      InsertPermutes(c, cs[..|cs| - 1]);
      assert cs == cs[..|cs| - 1] + [cs[|cs| - 1]];
    }
  }

  /** The sort is a descending permutation that keeps the order of equal scores. */
  lemma {:induction false} ByFitSorts(cs: seq<Candidate>, fit: int)
    ensures Descending(ByFit(cs)) && multiset(ByFit(cs)) == multiset(cs)
    ensures OfFit(ByFit(cs), fit) == OfFit(cs, fit)
  {
    hide *;
    if cs == [] {
      NothingToSort(fit);
    } else {
      var rest, last := cs[..|cs| - 1], cs[|cs| - 1];
      ByFitSorts(rest, fit);
      assert cs == rest + [last];
      ByFitOneMore(rest, last);
      InsertSorts(last, ByFit(rest));
      InsertIsStable(last, ByFit(rest), fit);
      InsertPermutes(last, ByFit(rest));
      OfFitOneMore(rest, last, fit);
    }
  }

  lemma NothingToSort(fit: int)
    ensures ByFit([]) == OfFit([], fit) == [] && Descending([])
  {
  }

  lemma ByFitOneMore(cs: seq<Candidate>, c: Candidate)
    ensures ByFit(cs + [c]) == Insert(c, ByFit(cs))
  {
    assert (cs + [c])[..|cs|] == cs;
  }

  // ---------------------------------------------------------------- what is chosen

  ghost predicate Distinct(cs: seq<Candidate>) {
    forall i, j :: 0 <= i < j < |cs| ==> cs[i].jobId != cs[j].jobId
  }

  lemma {:induction false} FirstEligibleIsSound(offers: seq<Candidate>, r: Rules)
    ensures Distinct(FirstEligible(offers, r))
    ensures forall c <- FirstEligible(offers, r) :: c in offers && Eligible(c, r)
  {
    if offers != [] {
      FirstEligibleIsSound(offers[..|offers| - 1], r);
      hide Eligible;
    }
  }

  /** No eligible job is overlooked: unless the quota is used up, every one of them is kept. */
  lemma {:induction false} NothingIsOverlooked(offers: seq<Candidate>, r: Rules, c: Candidate)
    requires c in offers && Eligible(c, r)
    ensures HasId(FirstEligible(offers, r), c.jobId)
    ensures HasId(Kept(offers, r), c.jobId) || |Kept(offers, r)| == r.remaining
  {
    var n := |offers| - 1;
    var before := FirstEligible(offers[..n], r);
    if HasId(before, c.jobId) {
      var i :| 0 <= i < |before| && before[i].jobId == c.jobId;
      assert FirstEligible(offers, r)[i] == before[i];
    } else if c == offers[n] {
      assert FirstEligible(offers, r)[|before|] == c;
    } else {
      NothingIsOverlooked(offers[..n], r, c);
    }
  }

  /** What a permutation cannot spoil. */
  lemma PermutationKeeps(a: seq<Candidate>, b: seq<Candidate>)
    requires multiset(a) == multiset(b) && Distinct(b)
    ensures |a| == |b| && Distinct(a) && forall c <- a :: c in b
  {
    assert |multiset(a)| == |a| && |multiset(b)| == |b|;
    forall c | c in a ensures c in b {
      assert c in multiset(a);
    }
    forall i, j | 0 <= i < j < |a| ensures a[i].jobId != a[j].jobId {
      if a[i].jobId == a[j].jobId {
        assert a[i] in b && a[j] in b;
        var p :| 0 <= p < |b| && b[p] == a[i];
        var q :| 0 <= q < |b| && b[q] == a[j];
        assert p == q;
        Twice(a, i, j);
        OnceEach(b, a[i]);
        assert false;
      }
    }
  }

  lemma {:induction false} OnceEach(b: seq<Candidate>, c: Candidate)
    requires Distinct(b)
    ensures multiset(b)[c] <= 1
  {
    if b != [] {
      OnceEach(b[1..], c);
      assert b == [b[0]] + b[1..];
      assert forall k :: 0 <= k < |b| - 1 ==> b[1..][k] == b[k + 1] && b[k + 1].jobId != b[0].jobId;
    }
  }

  lemma Twice(a: seq<Candidate>, i: nat, j: nat)
    requires i < j < |a| && a[i] == a[j]
    ensures multiset(a)[a[i]] >= 2
  {
    assert a == a[..j] + [a[j]] + a[j + 1..];
    assert a[i] in a[..j] && a[i] in multiset(a[..j]);
  }

  /** Whatever the searches return, the candidates are distinct jobs, none applied to, none blocked, all at
      or above the floor, no more than the quota left, best first. */
  lemma CandidatesAreSound(offers: seq<Candidate>, r: Rules)
    ensures var cs := ByFit(Kept(offers, r));
            && |cs| <= r.remaining && Distinct(cs) && Descending(cs)
            && forall c <- cs :: c in offers && Eligible(c, r)
  {
    var kept := Kept(offers, r);
    FirstEligibleIsSound(offers, r);
    ByFitSorts(kept, 0);
    hide FirstEligible, Eligible, ByFit, OfFit;
    assert forall c <- kept :: c in FirstEligible(offers, r);
    PermutationKeeps(ByFit(kept), kept);
  }

  // ---------------------------------------------------------------- submitting

  /** How `_apply_single` and the row update after it went. `Raised` covers both; `recorded` says whether
      the error could then be written down, for if not the whole step fails. */
  datatype Outcome = Applied | HaltedByBlock | OtherStatus | Raised(recorded: bool)

  /** The act loop ends after candidate `i`. */
  predicate Stops(o: Outcome) {
    o == HaltedByBlock || o == Raised(false)
  }

  /** How many candidates are submitted: up to the first at which the switch is already tripped, or the
      first whose outcome stops the loop, that one included. */
  function Reach(tripped: seq<bool>, outcomes: seq<Outcome>): (k: nat)
    requires |tripped| == |outcomes|
    ensures k <= |outcomes|
    ensures forall i :: 0 <= i < k ==> !tripped[i] && (i < k - 1 ==> !Stops(outcomes[i]))
    ensures k < |outcomes| ==> tripped[k] || (k > 0 && Stops(outcomes[k - 1]))
  {
    if outcomes == [] || tripped[0] then 0
    else if Stops(outcomes[0]) then 1
    else
      var rest := Reach(tripped[1..], outcomes[1..]);
      assert forall i :: 0 < i < rest + 1 ==> tripped[i] == tripped[1..][i - 1] && outcomes[i] == outcomes[1..][i - 1];
      rest + 1
  }

  /** The loop ends before the first candidate at which the switch is tripped, or after the first submission
      that is halted by a block or raises without being recorded. */
  lemma TheLoopEndsWhere(tripped: seq<bool>, outcomes: seq<Outcome>, k: nat)
    requires |tripped| == |outcomes| && k <= |outcomes|
    requires forall i :: 0 <= i < k ==> !tripped[i]
    requires forall i :: 0 <= i < k - 1 ==> outcomes[i] != HaltedByBlock && outcomes[i] != Raised(false)
    requires k < |outcomes| ==> tripped[k] || (k > 0 && (outcomes[k - 1] == HaltedByBlock || outcomes[k - 1] == Raised(false)))
    ensures Reach(tripped, outcomes) == k
  {
    var _ := Reach(tripped, outcomes);
  }

  function CountApplied(outcomes: seq<Outcome>): (n: nat)
    ensures n <= |outcomes|
  {
    if outcomes == [] then 0
    else CountApplied(outcomes[..|outcomes| - 1]) + (if outcomes[|outcomes| - 1] == Applied then 1 else 0)
  }

  lemma {:induction false} CountAppliedCounts(outcomes: seq<Outcome>)
    ensures CountApplied(outcomes) == multiset(outcomes)[Applied]
  {
    if outcomes != [] {
      CountAppliedCounts(outcomes[..|outcomes| - 1]);
      assert outcomes == outcomes[..|outcomes| - 1] + [outcomes[|outcomes| - 1]];
    }
  }

  /** The `auto` branch of `_act`: `tripped[i]` is what the switch says before candidate `i`. */
  method Act(candidates: seq<Candidate>, tripped: seq<bool>, outcomes: seq<Outcome>)
    returns (submitted: seq<string>, applied: nat, halted: bool, crashed: bool)
    requires |tripped| == |outcomes| == |candidates|
    ensures var k := Reach(tripped, outcomes);
      && submitted == Ids(candidates)[..k] && applied == CountApplied(outcomes[..k])
      && (crashed <==> k > 0 && outcomes[k - 1] == Raised(false))
      && (halted <==> !crashed && (k < |candidates| || (k > 0 && outcomes[k - 1] == HaltedByBlock)))
  {
    hide Reach;
    submitted, applied, halted, crashed := [], 0, false, false;
    var i := 0;
    while i < |candidates|
      invariant 0 <= i <= Reach(tripped, outcomes)
      invariant submitted == Ids(candidates)[..i] && applied == CountApplied(outcomes[..i])
      invariant !halted && !crashed && (i > 0 ==> !Stops(outcomes[i - 1]))
    {
      if tripped[i] {
        halted := true;
        return;
      }
      submitted := submitted + [candidates[i].jobId];
      assert outcomes[..i + 1][..i] == outcomes[..i];
      match outcomes[i] {
        case Applied => applied := applied + 1;
        case HaltedByBlock =>
          halted := true;
          return;
        case OtherStatus =>
        case Raised(recorded) =>
          if !recorded {
            crashed := true;
            return;
          }
      }
      i := i + 1;
    }
  }

  /** A day's total: what was already applied to, and what a whole cycle submits, however many of those
      submissions are then reported as applied. */
  lemma DayStaysWithinItsMaximum(maxDaily: int, dailyApplied: nat, offers: seq<Candidate>, r: Rules,
                                 tripped: seq<bool>, outcomes: seq<Outcome>)
    requires r.remaining == DailyRemaining(maxDaily, dailyApplied)
    requires |tripped| == |outcomes| == |ByFit(Kept(offers, r))|
    ensures var ids := Ids(ByFit(Kept(offers, r)))[..Reach(tripped, outcomes)];
            && dailyApplied + |ids| <= Max(maxDaily, dailyApplied)
            && (forall i, j :: 0 <= i < j < |ids| ==> ids[i] != ids[j])
            && (forall id <- ids :: id !in r.applied)
  {
    CandidatesAreSound(offers, r);
    var cs := ByFit(Kept(offers, r));
    var ids := Ids(cs)[..Reach(tripped, outcomes)];
    forall id | id in ids ensures id !in r.applied {
      var i :| 0 <= i < |ids| && ids[i] == id;
      assert cs[i] in cs;
    }
  }

  // ---------------------------------------------------------------- a day of cycles

  /** One cycle of a day: what it was offered and held it against, and for every candidate what the switch
      says before it, how its submission goes, and whether that ends up counted as an application of today. */
  datatype Cycle = Cycle(offers: seq<Candidate>, rules: Rules, tripped: nat -> bool, outcomes: nat -> Outcome, counted: nat -> bool)

  /** Today's applications on record, and the submissions that are not. */
  datatype Day = Day(recorded: nat, missed: nat)

  function CycleCandidates(c: Cycle, maxDaily: int, d: Day): seq<Candidate> {
    ByFit(Kept(c.offers, c.rules.(remaining := DailyRemaining(maxDaily, d.recorded))))
  }

  /** How many the cycle submits. */
  function Submissions(c: Cycle, maxDaily: int, d: Day): (k: nat)
    ensures k <= |CycleCandidates(c, maxDaily, d)|
  {
    var n := |CycleCandidates(c, maxDaily, d)|;
    Reach(seq(n, i requires 0 <= i < n => c.tripped(i)), seq(n, i requires 0 <= i < n => c.outcomes(i)))
  }

  function CountUpTo(counted: nat -> bool, k: nat): (n: nat)
    ensures n <= k
  {
    if k == 0 then 0 else CountUpTo(counted, k - 1) + (if counted(k - 1) then 1 else 0)
  }

  function AfterCycle(c: Cycle, maxDaily: int, d: Day): Day {
    var k := Submissions(c, maxDaily, d);
    var n := CountUpTo(c.counted, k);
    Day(d.recorded + n, d.missed + k - n)
  }

  function AfterCycles(cycles: seq<Cycle>, maxDaily: int, recorded: nat): Day {
    if cycles == [] then Day(recorded, 0)
    else AfterCycle(cycles[|cycles| - 1], maxDaily, AfterCycles(cycles[..|cycles| - 1], maxDaily, recorded))
  }

  lemma CycleStaysWithin(c: Cycle, maxDaily: int, d: Day)
    ensures d.recorded + Submissions(c, maxDaily, d) <= Max(maxDaily, d.recorded)
  {
    CandidatesAreSound(c.offers, c.rules.(remaining := DailyRemaining(maxDaily, d.recorded)));
    hide Kept, ByFit, Reach;
  }

  /** What the cycles have submitted, on record or not. */
  function Submitted(cycles: seq<Cycle>, maxDaily: int, recorded: nat): nat {
    if cycles == [] then 0 else
    var before := cycles[..|cycles| - 1];
    Submitted(before, maxDaily, recorded) + Submissions(cycles[|cycles| - 1], maxDaily, AfterCycles(before, maxDaily, recorded))
  }

  /** Over a day's cycles, from any count on record, what is on record never passes the maximum (or the count
      it began with); what has been submitted is what is on record and what is not. */
  lemma {:induction false} TheRecordStaysWithinTheDay(cycles: seq<Cycle>, maxDaily: int, recorded: nat)
    ensures var d, limit := AfterCycles(cycles, maxDaily, recorded), Max(maxDaily, recorded);
            && recorded <= d.recorded <= limit == Max(maxDaily, d.recorded)
            && recorded + Submitted(cycles, maxDaily, recorded) == d.recorded + d.missed
  {
    if cycles != [] {
      var n := |cycles| - 1;
      TheRecordStaysWithinTheDay(cycles[..n], maxDaily, recorded);
      CycleStaysWithin(cycles[n], maxDaily, AfterCycles(cycles[..n], maxDaily, recorded));
      hide Submissions, CycleCandidates;
    }
  }

  /** All that cycle `n` of the day submitted has been counted. */
  predicate OnRecord(cycles: seq<Cycle>, n: nat, maxDaily: int, recorded: nat)
    requires n < |cycles|
  {
    var k := Submissions(cycles[n], maxDaily, AfterCycles(cycles[..n], maxDaily, recorded));
    forall i :: 0 <= i < k ==> cycles[n].counted(i)
  }

  predicate AllOnRecord(cycles: seq<Cycle>, maxDaily: int, recorded: nat) {
    forall n :: 0 <= n < |cycles| ==> OnRecord(cycles, n, maxDaily, recorded)
  }

  lemma {:induction false} AllCountedExactlyWhen(counted: nat -> bool, k: nat)
    ensures CountUpTo(counted, k) == k <==> forall i :: 0 <= i < k ==> counted(i)
  {
    if k > 0 {
      AllCountedExactlyWhen(counted, k - 1);
    }
  }

  lemma OnRecordOneMore(cycles: seq<Cycle>, maxDaily: int, recorded: nat)
    requires cycles != []
    ensures var n := |cycles| - 1;
            AllOnRecord(cycles, maxDaily, recorded)
            <==> AllOnRecord(cycles[..n], maxDaily, recorded) && OnRecord(cycles, n, maxDaily, recorded)
  {
    hide Submissions, AfterCycles;
    var n := |cycles| - 1;
    forall k | 0 <= k < n ensures OnRecord(cycles, k, maxDaily, recorded) <==> OnRecord(cycles[..n], k, maxDaily, recorded) {
      assert cycles[..n][..k] == cycles[..k];
    }
  }

  lemma MissedOneMore(cycles: seq<Cycle>, maxDaily: int, recorded: nat)
    requires cycles != []
    ensures var n := |cycles| - 1;
            AfterCycles(cycles, maxDaily, recorded).missed == 0
            <==> AfterCycles(cycles[..n], maxDaily, recorded).missed == 0 && OnRecord(cycles, n, maxDaily, recorded)
  {
    hide Submissions;
    var n := |cycles| - 1;
    AllCountedExactlyWhen(cycles[n].counted, Submissions(cycles[n], maxDaily, AfterCycles(cycles[..n], maxDaily, recorded)));
  }

  lemma {:induction false} NothingMissedExactlyWhen(cycles: seq<Cycle>, maxDaily: int, recorded: nat)
    ensures AfterCycles(cycles, maxDaily, recorded).missed == 0 <==> AllOnRecord(cycles, maxDaily, recorded)
  {
    if cycles != [] {
      hide AfterCycles, OnRecord, AllOnRecord;
      NothingMissedExactlyWhen(cycles[..|cycles| - 1], maxDaily, recorded);
      OnRecordOneMore(cycles, maxDaily, recorded);
      MissedOneMore(cycles, maxDaily, recorded);
    }
  }

  // a cycle that submits all the quota left to it

  /** Job number `i` of a search; its id is unlike any other's by its length. */
  function Job(i: nat): Candidate {
    Candidate(seq(i, _ => 'x'), "Acme", "Engineer", 100, "jobs")
  }

  function Jobs(k: nat): (cs: seq<Candidate>)
    ensures |cs| == k && forall i :: 0 <= i < k ==> cs[i] == Job(i)
  {
    seq(k, i requires 0 <= i < k => Job(i))
  }

  /** `k` jobs are found, every submission goes through, and none ends up on record. */
  function Unrecorded(k: nat): Cycle {
    Cycle(Jobs(k), Rules({}, Blocklist.AgentBlocklist([], [], false), s => s, 60, 0), _ => false, _ => Applied, _ => false)
  }

  lemma JobIsFresh(k: nat)
    ensures Jobs(k + 1) == Jobs(k) + [Job(k)] && !HasId(Jobs(k), Job(k).jobId)
  {
    var before := Jobs(k);
    forall i | 0 <= i < |before| ensures before[i].jobId != Job(k).jobId {
      assert |before[i].jobId| == i;
    }
  }

  lemma FirstOneMore(offers: seq<Candidate>, c: Candidate, r: Rules)
    requires Eligible(c, r) && !HasId(FirstEligible(offers, r), c.jobId)
    ensures FirstEligible(offers + [c], r) == FirstEligible(offers, r) + [c]
  {
    assert (offers + [c])[..|offers|] == offers;
    hide Eligible;
  }

  lemma {:induction false} AllFirst(k: nat, r: Rules)
    requires r.applied == {} && !r.blocklist.enabled && r.floor <= 100
    ensures FirstEligible(Jobs(k), r) == Jobs(k)
  {
    if k > 0 {
      AllFirst(k - 1, r);
      JobIsFresh(k - 1);
      FirstOneMore(Jobs(k - 1), Job(k - 1), r);
    }
  }

  lemma {:induction false} NothingStops(tripped: seq<bool>, outcomes: seq<Outcome>)
    requires |tripped| == |outcomes|
    requires forall i :: 0 <= i < |outcomes| ==> !tripped[i] && outcomes[i] == Applied
    ensures Reach(tripped, outcomes) == |outcomes|
  {
    if outcomes != [] {
      NothingStops(tripped[1..], outcomes[1..]);
    }
  }

  lemma UnrecordedUsesTheQuota(maxDaily: int, d: Day)
    ensures Submissions(Unrecorded(DailyRemaining(maxDaily, d.recorded)), maxDaily, d) == DailyRemaining(maxDaily, d.recorded)
  {
    hide ByFit, OfFit, Reach, Jobs, DailyRemaining, Kept;
    var k := DailyRemaining(maxDaily, d.recorded);
    var c := Unrecorded(k);
    AllKept(k, c.rules.(remaining := k));
    ByFitSorts(Jobs(k), 0);
    var cs := CycleCandidates(c, maxDaily, d);
    assert |cs| == |multiset(cs)| == |multiset(Jobs(k))| == k;
    NothingStops(seq(k, i requires 0 <= i < k => c.tripped(i)), seq(k, i requires 0 <= i < k => c.outcomes(i)));
  }

  lemma AllKept(k: nat, r: Rules)
    requires r.applied == {} && !r.blocklist.enabled && r.floor <= 100 && r.remaining == k
    ensures Kept(Jobs(k), r) == Jobs(k)
  {
    AllFirst(k, r);
  }

  /** The day is sure to stay within its maximum through the next cycle, whatever that cycle finds and however
      it goes, if and only if every submission so far is on record. */
  lemma NextCycleStaysWithinExactlyWhen(cycles: seq<Cycle>, maxDaily: int, recorded: nat)
    ensures (forall c: Cycle :: recorded + Submitted(cycles + [c], maxDaily, recorded) <= Max(maxDaily, recorded))
      <==> AllOnRecord(cycles, maxDaily, recorded)
  {
    hide Submissions, AllOnRecord, DailyRemaining;
    var d := AfterCycles(cycles, maxDaily, recorded);
    TheRecordStaysWithinTheDay(cycles, maxDaily, recorded);
    NothingMissedExactlyWhen(cycles, maxDaily, recorded);
    forall c: Cycle
      ensures Submitted(cycles + [c], maxDaily, recorded) == Submitted(cycles, maxDaily, recorded) + Submissions(c, maxDaily, d)
      ensures d.recorded + Submissions(c, maxDaily, d) <= Max(maxDaily, recorded)
    {
      assert (cycles + [c])[..|cycles|] == cycles;
      CycleStaysWithin(c, maxDaily, d);
    }
    if d.missed > 0 {
      var full := Unrecorded(DailyRemaining(maxDaily, d.recorded));
      UnrecordedUsesTheQuota(maxDaily, d);
      RemainingFillsTheDay(maxDaily, d.recorded);
      assert recorded + Submitted(cycles + [full], maxDaily, recorded) > Max(maxDaily, recorded);
    }
  }

  lemma RemainingFillsTheDay(maxDaily: int, recorded: nat)
    ensures recorded + DailyRemaining(maxDaily, recorded) == Max(maxDaily, recorded)
  {
  }

  /** Without any record there is no bound: a cycle that submits anything and has nothing counted can be
      repeated until the day has passed any number. */
  lemma {:induction false} NothingRecordedIsNoBound(c: Cycle, maxDaily: int, recorded: nat, n: nat)
    requires Submissions(c, maxDaily, Day(recorded, 0)) > 0 && forall i :: !c.counted(i)
    ensures Submitted(seq(n, _ => c), maxDaily, recorded) >= n
    ensures AfterCycles(seq(n, _ => c), maxDaily, recorded).recorded == recorded
  {
    if n > 0 {
      NothingRecordedIsNoBound(c, maxDaily, recorded, n - 1);
      assert seq(n, _ => c)[..n - 1] == seq(n - 1, _ => c);
      var before := AfterCycles(seq(n - 1, _ => c), maxDaily, recorded);
      assert Submissions(c, maxDaily, before) == Submissions(c, maxDaily, Day(recorded, 0));
      hide Submissions, CycleCandidates;
      NoneCounted(c.counted, Submissions(c, maxDaily, before));
    }
  }

  lemma {:induction false} NoneCounted(counted: nat -> bool, k: nat)
    requires forall i :: !counted(i)
    ensures CountUpTo(counted, k) == 0
  {
    if k > 0 {
      NoneCounted(counted, k - 1);
    }
  }

  lemma NoRecord(k: nat)
    ensures forall i :: !Unrecorded(k).counted(i)
  {
  }

  /** For one, a maximum of one a day and two cycles that each find one job and leave no record. */
  lemma TwoOnADayOfOne()
    ensures Submitted([Unrecorded(1), Unrecorded(1)], 1, 0) >= 2 && Max(1, 0) == 1
  {
    hide Submitted, Submissions, AfterCycles, Unrecorded;
    UnrecordedUsesTheQuota(1, Day(0, 0));
    assert forall i :: !Unrecorded(1).counted(i) by { NoRecord(1); }
    NothingRecordedIsNoBound(Unrecorded(1), 1, 0, 2);
    assert seq(2, _ => Unrecorded(1)) == [Unrecorded(1), Unrecorded(1)];
  }
}
