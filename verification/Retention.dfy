/** Applications on record and their archive. A purge reads the table in one transaction and archives and
    deletes what it chose in another, so upserts and other purges may come in between. */
module Retention {
  import opened Json

  /** The columns an upsert overwrites are taken together in `fields`; `extra` is the JSON blob. */
  datatype Row = Row(id: string, fields: string, appliedAt: string, source: string, extra: Option<string>)

  datatype Archived = Archived(row: Row, at: string, reason: string)

  type Table = map<string, Row>
  type Archive = map<string, Archived>

  /** `real_applied_date` on a row's blob: the parsed date as text, or `None`. */
  type DateOf = Option<string> -> Option<string>

  /** `<` on text, by code points. */
  predicate Before(a: string, b: string) {
    b != "" && (a == "" || a[0] < b[0] || (a[0] == b[0] && Before(a[1..], b[1..])))
  }

  /** The one predicate that preview and deletion share. */
  predicate Purgeable(row: Row, date: string, dateOf: DateOf) {
    dateOf(row.extra).Some? && Before(dateOf(row.extra).value, date)
  }

  /** That is, they agree up to some point, and there the first ends or has the smaller character. */
  lemma {:induction false} BeforeExactlyWhen(a: string, b: string)
    ensures Before(a, b) <==>
      exists k :: 0 <= k <= |a| && k < |b| && a[..k] == b[..k] && (k == |a| || a[k] < b[k])
  {
    if a == [] || b == [] || a[0] != b[0] {
      assert a[..0] == b[..0];
    } else {
      BeforeExactlyWhen(a[1..], b[1..]);
      if Before(a[1..], b[1..]) {
        var k :| 0 <= k <= |a[1..]| && k < |b[1..]| && a[1..][..k] == b[1..][..k] && (k == |a[1..]| || a[1..][k] < b[1..][k]);
        assert a[..k + 1] == [a[0]] + a[1..][..k] && b[..k + 1] == [b[0]] + b[1..][..k];
      }
      if k :| 0 <= k <= |a| && k < |b| && a[..k] == b[..k] && (k == |a| || a[k] < b[k]) {
        assert k > 0;
        assert a[1..][..k - 1] == a[..k][1..] && b[1..][..k - 1] == b[..k][1..];
      }
    }
  }

  // ---------------------------------------------------------------- one row, one statement

  /** The upsert: apply time and source are kept, and a blob is never replaced by nothing. */
  function Merge(t: Table, app: Row): Row {
    if app.id in t then
      app.(appliedAt := t[app.id].appliedAt, source := t[app.id].source, extra := if app.extra.None? then t[app.id].extra else app.extra)
    else app
  }

  function UpsertAll(t: Table, apps: seq<Row>): Table {
    if apps == [] then t else
    var before, app := UpsertAll(t, apps[..|apps| - 1]), apps[|apps| - 1];
    before[app.id := Merge(before, app)]
  }

  function IdsOf(rows: seq<Row>): set<string> {
    set row <- rows :: row.id
  }

  /** Every row sits under its own id. */
  ghost predicate Keyed(t: Table) {
    forall id :: id in t ==> t[id].id == id
  }

  /** The rows a purge to `date` would remove. */
  function Preview(t: Table, date: string, dateOf: DateOf): Table {
    map id | id in t && Purgeable(t[id], date, dateOf) :: t[id]
  }

  function ArchiveAll(a: Archive, doomed: Table, at: string, reason: string): Archive {
    a + map id | id in doomed :: Archived(doomed[id], at, reason)
  }

  // ---------------------------------------------------------------- runs

  /** A purge between its two transactions: the table it read, of which it keeps the rows the preview lists,
      and which ids have been upserted since. */
  datatype Pending = Pending(date: string, seen: Table, touched: set<string>)

  /** What the second transaction will archive and delete. */
  function Doomed(p: Pending, dateOf: DateOf): Table {
    Preview(p.seen, p.date, dateOf)
  }

  datatype Store = Store(live: Table, archive: Archive, pending: seq<Pending>)

  datatype Event =
    | Upsert(apps: seq<Row>)
    | Read(date: string)
    | Commit(k: nat, at: string, reason: string)
    | Abandon(k: nat)

  function Touch(pending: seq<Pending>, ids: set<string>): (r: seq<Pending>)
    ensures |r| == |pending|
    ensures forall k :: 0 <= k < |r| ==> r[k] == pending[k].(touched := pending[k].touched + ids)
  {
    seq(|pending|, k requires 0 <= k < |pending| => pending[k].(touched := pending[k].touched + ids))
  }

  function Drop(pending: seq<Pending>, k: nat): seq<Pending>
    requires k < |pending|
  {
    pending[..k] + pending[k + 1..]
  }

  function Next(s: Store, e: Event, dateOf: DateOf): Store {
    match e
    case Upsert(apps) => s.(live := UpsertAll(s.live, apps), pending := Touch(s.pending, IdsOf(apps)))
    case Read(date) => s.(pending := s.pending + [Pending(date, s.live, {})])
    case Commit(k, at, reason) =>
      if k >= |s.pending| then s else
      var doomed := Doomed(s.pending[k], dateOf);
      Store(s.live - doomed.Keys, ArchiveAll(s.archive, doomed, at, reason), Drop(s.pending, k))
    case Abandon(k) => if k >= |s.pending| then s else s.(pending := Drop(s.pending, k))
  }

  function Run(s: Store, events: seq<Event>, dateOf: DateOf): Store {
    if events == [] then s else Next(Run(s, events[..|events| - 1], dateOf), events[|events| - 1], dateOf)
  }

  function Known(s: Store): set<string> {
    s.live.Keys + s.archive.Keys
  }

  function Upserted(events: seq<Event>): set<string> {
    if events == [] then {} else
    var e := events[|events| - 1];
    Upserted(events[..|events| - 1]) + (if e.Upsert? then IdsOf(e.apps) else {})
  }

  lemma {:induction false} UpsertKeys(t: Table, apps: seq<Row>)
    ensures UpsertAll(t, apps).Keys == t.Keys + IdsOf(apps)
  {
    if apps != [] {
      UpsertKeys(t, apps[..|apps| - 1]);
      assert apps == apps[..|apps| - 1] + [apps[|apps| - 1]];
    }
  }

  ghost predicate Inv(s: Store) {
    && Keyed(s.live)
    && forall k :: 0 <= k < |s.pending| ==> PendingOk(s, s.pending[k])
  }

  /** What a purge has read is still on record, and a live row not upserted since is one that it read. */
  ghost predicate PendingOk(s: Store, p: Pending) {
    && Keyed(p.seen) && p.seen.Keys <= Known(s)
    && (forall id :: id in s.live && id !in p.touched ==> id in p.seen && p.seen[id] == s.live[id])
  }

  lemma {:induction false} UpsertLeavesOthers(t: Table, apps: seq<Row>, id: string)
    requires id in t && id !in IdsOf(apps)
    ensures id in UpsertAll(t, apps) && UpsertAll(t, apps)[id] == t[id]
  {
    if apps != [] {
      var n := |apps| - 1;
      assert apps[n] in apps;
      assert forall row <- apps[..n] :: row in apps;
      UpsertLeavesOthers(t, apps[..n], id);
    }
  }

  lemma {:induction false} UpsertKeepsKeyed(t: Table, apps: seq<Row>)
    requires Keyed(t)
    ensures Keyed(UpsertAll(t, apps))
  {
    if apps != [] {
      UpsertKeepsKeyed(t, apps[..|apps| - 1]);
    }
  }

  /** An upsert never changes when and where an application on record was made, and never empties its blob. */
  lemma {:induction false} UpsertKeepsTheOrigin(t: Table, apps: seq<Row>, id: string)
    requires id in t
    ensures id in UpsertAll(t, apps)
    ensures var r := UpsertAll(t, apps)[id];
      r.appliedAt == t[id].appliedAt && r.source == t[id].source && (t[id].extra.Some? ==> r.extra.Some?)
  {
    if apps != [] {
      UpsertKeepsTheOrigin(t, apps[..|apps| - 1], id);
    }
  }

  /** The other columns are those of the last row given for the id, and so is the blob if that row has one. */
  lemma UpsertTakesTheLast(t: Table, before: seq<Row>, app: Row, after: seq<Row>)
    requires app.id !in IdsOf(after)
    ensures var all := UpsertAll(t, before + [app] + after);
      && app.id in all && all[app.id].fields == app.fields && all[app.id].id == app.id
      && (app.extra.Some? ==> all[app.id].extra == app.extra)
      && (app.id !in UpsertAll(t, before) ==> all[app.id] == app)
  {
    hide Merge;
    var upTo := before + [app];
    assert upTo[..|upTo| - 1] == before;
    MergeTakes(UpsertAll(t, before), app);
    UpsertSplits(t, upTo, after);
    UpsertLeavesOthers(UpsertAll(t, upTo), after, app.id);
  }

  lemma MergeTakes(t: Table, app: Row)
    ensures var r := Merge(t, app);
      && r.id == app.id && r.fields == app.fields && (app.extra.Some? ==> r.extra == app.extra)
      && (app.id !in t ==> r == app)
  {
  }

  lemma {:induction false} UpsertSplits(t: Table, a: seq<Row>, b: seq<Row>)
    ensures UpsertAll(t, a + b) == UpsertAll(UpsertAll(t, a), b)
  {
    if b == [] {
      assert a + b == a;
    } else {
      assert (a + b)[..|a + b| - 1] == a + b[..|b| - 1];
      UpsertSplits(t, a, b[..|b| - 1]);
    }
  }

  lemma UpsertKeepsPending(s: Store, apps: seq<Row>, p: Pending, dateOf: DateOf)
    requires PendingOk(s, p)
    ensures PendingOk(Next(s, Upsert(apps), dateOf), p.(touched := p.touched + IdsOf(apps)))
  {
    UpsertKeys(s.live, apps);
    forall id | id in UpsertAll(s.live, apps) && id !in p.touched + IdsOf(apps)
      ensures id in p.seen && p.seen[id] == UpsertAll(s.live, apps)[id]
    {
      UpsertLeavesOthers(s.live, apps, id);
    }
  }

  lemma CommitKeepsPending(s: Store, e: Event, p: Pending, dateOf: DateOf)
    requires PendingOk(s, p) && e.Commit?
    ensures PendingOk(Next(s, e, dateOf), p)
  {
  }

  lemma PendingKeeps(s: Store, r: Store, p: Pending, dateOf: DateOf)
    requires PendingOk(s, p) && r.live == s.live && r.archive == s.archive
    ensures PendingOk(r, p)
  {
  }

  lemma UpsertKeepsInv(s: Store, apps: seq<Row>, dateOf: DateOf)
    requires Inv(s)
    ensures Inv(Next(s, Upsert(apps), dateOf))
  {
    hide PendingOk;
    var r := Next(s, Upsert(apps), dateOf);
    UpsertKeepsKeyed(s.live, apps);
    forall k | 0 <= k < |r.pending| ensures PendingOk(r, r.pending[k]) {
      UpsertKeepsPending(s, apps, s.pending[k], dateOf);
    }
  }

  lemma ReadKeepsInv(s: Store, date: string, dateOf: DateOf)
    requires Inv(s)
    ensures Inv(Next(s, Read(date), dateOf))
  {
    var r := Next(s, Read(date), dateOf);
    assert PendingOk(s, Pending(date, s.live, {}));
    forall k | 0 <= k < |r.pending| ensures PendingOk(r, r.pending[k]) {
      PendingKeeps(s, r, r.pending[k], dateOf);
    }
  }

  lemma EndKeepsInv(s: Store, e: Event, k: nat, dateOf: DateOf)
    requires Inv(s) && k < |s.pending| && ((e.Commit? && e.k == k) || e == Abandon(k))
    ensures Inv(Next(s, e, dateOf))
  {
    var r := Next(s, e, dateOf);
    assert Keyed(r.live);
    hide PendingOk, ArchiveAll;
    forall j | 0 <= j < |r.pending| ensures PendingOk(r, r.pending[j]) {
      assert r.pending[j] == s.pending[if j < k then j else j + 1];
      if e.Commit? {
        CommitKeepsPending(s, e, r.pending[j], dateOf);
      } else {
        PendingKeeps(s, r, r.pending[j], dateOf);
      }
    }
  }

  lemma NextKeepsInv(s: Store, e: Event, dateOf: DateOf)
    requires Inv(s)
    ensures Inv(Next(s, e, dateOf))
  {
    hide Inv;
    if e.Upsert? {
      UpsertKeepsInv(s, e.apps, dateOf);
    } else if e.Read? {
      ReadKeepsInv(s, e.date, dateOf);
    } else if e.k < |s.pending| {
      EndKeepsInv(s, e, e.k, dateOf);
    }
  }

  lemma {:induction false} RunKeepsInv(s: Store, events: seq<Event>, dateOf: DateOf)
    requires Inv(s)
    ensures Inv(Run(s, events, dateOf))
  {
    if events != [] {
      RunKeepsInv(s, events[..|events| - 1], dateOf);
      NextKeepsInv(Run(s, events[..|events| - 1], dateOf), events[|events| - 1], dateOf);
    }
  }

  /** Over any run of upserts and purges, however they interleave, the ids on record, live or archived, are
      those of the start and those upserted: none is ever lost and none appears from nowhere. */
  lemma {:induction false} NoIdIsLost(s: Store, events: seq<Event>, dateOf: DateOf)
    requires Inv(s)
    ensures Known(Run(s, events, dateOf)) == Known(s) + Upserted(events)
  {
    if events != [] {
      var before, e := events[..|events| - 1], events[|events| - 1];
      NoIdIsLost(s, before, dateOf);
      RunKeepsInv(s, before, dateOf);
      StepKeepsIds(Run(s, before, dateOf), e, dateOf);
    }
  }

  lemma StepKeepsIds(s: Store, e: Event, dateOf: DateOf)
    requires Inv(s)
    ensures Known(Next(s, e, dateOf)) == Known(s) + (if e.Upsert? then IdsOf(e.apps) else {})
  {
    if e.Upsert? {
      UpsertKeys(s.live, e.apps);
    } else if e.Commit? && e.k < |s.pending| {
      var p := s.pending[e.k];
      assert PendingOk(s, p);
      assert (s.live - Doomed(p, dateOf).Keys).Keys == s.live.Keys - Doomed(p, dateOf).Keys;
      assert ArchiveAll(s.archive, Doomed(p, dateOf), e.at, e.reason).Keys == s.archive.Keys + Doomed(p, dateOf).Keys;
    }
  }

  /** The row is on the preview of this table. */
  predicate Listed(t: Table, id: string, date: string, dateOf: DateOf) {
    id in t && Purgeable(t[id], date, dateOf)
  }

  /** At any commit of any run a live row goes exactly when the purge listed it when it read the table. If
      it has not been upserted since, that is exactly when the preview lists it now, and it is archived as
      it is. */
  lemma CommitFollowsItsReading(s: Store, events: seq<Event>, k: nat, at: string, reason: string, dateOf: DateOf, id: string)
    requires Inv(s) && k < |Run(s, events, dateOf).pending| && id in Run(s, events, dateOf).live
    ensures var m, r := Run(s, events, dateOf), Run(s, events + [Commit(k, at, reason)], dateOf);
            var p := m.pending[k];
            && (id !in r.live <==> Listed(p.seen, id, p.date, dateOf))
            && (id !in r.live ==> id in r.archive && r.archive[id] == Archived(p.seen[id], at, reason))
            && (id !in p.touched ==> (id !in r.live <==> Listed(m.live, id, p.date, dateOf)) && id in p.seen && p.seen[id] == m.live[id])
            && (id in r.live ==> r.live[id] == m.live[id])
  {
    RunOneMore(s, events, Commit(k, at, reason), dateOf);
    RunKeepsInv(s, events, dateOf);
    var m := Run(s, events, dateOf);
    hide Run;
    assert PendingOk(m, m.pending[k]);
    ArchiveHolds(m.archive, Doomed(m.pending[k], dateOf), at, reason);
  }

  /** An upsert has come in between and changed whether the row is to go. */
  predicate Overrun(m: Store, p: Pending, id: string, dateOf: DateOf) {
    id in m.live && id in p.touched && Listed(p.seen, id, p.date, dateOf) != Listed(m.live, id, p.date, dateOf)
  }

  /** A commit removes exactly the rows that the preview lists on the same table if and only if no row has
      been upserted since the reading so that the preview would now judge it otherwise. */
  lemma PreviewIsDeletedExactlyWhen(s: Store, events: seq<Event>, k: nat, at: string, reason: string, dateOf: DateOf)
    requires Inv(s) && k < |Run(s, events, dateOf).pending|
    ensures var m, r := Run(s, events, dateOf), Run(s, events + [Commit(k, at, reason)], dateOf);
            (forall id :: id in m.live ==> (id !in r.live <==> Listed(m.live, id, m.pending[k].date, dateOf)))
            <==> (forall id :: !Overrun(m, m.pending[k], id, dateOf))
  {
    var m, r := Run(s, events, dateOf), Run(s, events + [Commit(k, at, reason)], dateOf);
    var p := m.pending[k];
    forall id | id in m.live
      ensures (id !in r.live <==> Listed(m.live, id, p.date, dateOf)) <==> !Overrun(m, p, id, dateOf)
    {
      CommitFollowsItsReading(s, events, k, at, reason, dateOf, id);
    }
    hide Run, Listed;
    if forall id :: id in m.live ==> (id !in r.live <==> Listed(m.live, id, p.date, dateOf)) {
      forall id ensures !Overrun(m, p, id, dateOf) {
        assert id in m.live ==> (id !in r.live <==> Listed(m.live, id, p.date, dateOf));
      }
    }
  }

  /** A row whose date is known when it is read and unknown when it is deleted. */
  predicate LosesItsDate(m: Store, p: Pending, id: string, dateOf: DateOf) {
    id in m.live && id in p.touched && Listed(p.seen, id, p.date, dateOf) && dateOf(m.live[id].extra).None?
  }

  /** No row of unknown apply date is ever deleted if and only if none has been upserted since the reading
      so as to lose the date for which the purge had listed it. */
  lemma UnknownDatesAreKeptExactlyWhen(s: Store, events: seq<Event>, k: nat, at: string, reason: string, dateOf: DateOf)
    requires Inv(s) && k < |Run(s, events, dateOf).pending|
    ensures var m, r := Run(s, events, dateOf), Run(s, events + [Commit(k, at, reason)], dateOf);
            (forall id :: id in m.live && id !in r.live ==> dateOf(m.live[id].extra).Some?)
            <==> (forall id :: !LosesItsDate(m, m.pending[k], id, dateOf))
  {
    var m, r := Run(s, events, dateOf), Run(s, events + [Commit(k, at, reason)], dateOf);
    var p := m.pending[k];
    forall id | id in m.live
      ensures (id !in r.live ==> dateOf(m.live[id].extra).Some?) <==> !LosesItsDate(m, p, id, dateOf)
    {
      CommitFollowsItsReading(s, events, k, at, reason, dateOf, id);
    }
    hide Run, Listed;
    if forall id :: id in m.live && id !in r.live ==> dateOf(m.live[id].extra).Some? {
      forall id ensures !LosesItsDate(m, p, id, dateOf) {
        assert id in m.live && id !in r.live ==> dateOf(m.live[id].extra).Some?;
      }
    }
  }

  lemma RunTwo(s: Store, a: Event, b: Event, dateOf: DateOf)
    ensures Run(s, [a] + [b], dateOf) == Next(Next(s, a, dateOf), b, dateOf)
  {
    assert ([a] + [b])[..1] == [a] && [a][..0] == [];
    assert Run(s, [a], dateOf) == Next(Run(s, [], dateOf), a, dateOf);
    hide Next;
  }

  lemma RunOneMore(s: Store, events: seq<Event>, e: Event, dateOf: DateOf)
    ensures Run(s, events + [e], dateOf) == Next(Run(s, events, dateOf), e, dateOf)
  {
    assert (events + [e])[..|events|] == events;
    hide Next;
  }

  /** What a commit does when nothing has come in between. */
  lemma CommitAtOnce(s: Store, date: string, at: string, reason: string, dateOf: DateOf)
    ensures var gone := Preview(s.live, date, dateOf);
            Next(Next(s, Read(date), dateOf), Commit(|s.pending|, at, reason), dateOf)
            == Store(s.live - gone.Keys, ArchiveAll(s.archive, gone, at, reason), s.pending)
  {
    assert Drop(s.pending + [Pending(date, s.live, {})], |s.pending|) == s.pending;
    hide Preview, ArchiveAll;
  }

  lemma PreviewSplits(t: Table, date: string, dateOf: DateOf)
    ensures var gone := Preview(t, date, dateOf);
            && gone.Keys <= t.Keys && (forall id :: id in gone ==> gone[id] == t[id])
            && (t - gone.Keys) + gone == t && Preview(t - gone.Keys, date, dateOf) == map[]
  {
  }

  lemma ArchiveHolds(a: Archive, gone: Table, at: string, reason: string)
    ensures forall id :: id in gone ==>
      id in ArchiveAll(a, gone, at, reason) && ArchiveAll(a, gone, at, reason)[id] == Archived(gone[id], at, reason)
  {
  }

  /** A purge undisturbed since it read the table removes exactly the rows the preview lists and archives
      each as it was, so that putting them back restores the table; a second purge finds nothing. */
  lemma UndisturbedPurgeIsThePreview(s: Store, date: string, at: string, reason: string, dateOf: DateOf)
    ensures var r := Run(s, [Read(date)] + [Commit(|s.pending|, at, reason)], dateOf);
            var gone := Preview(s.live, date, dateOf);
            && (forall id :: id in s.live && id !in r.live <==> id in gone)
            && (forall id :: id in gone ==> id in r.archive && r.archive[id] == Archived(s.live[id], at, reason))
            && r.live + gone == s.live
            && Preview(r.live, date, dateOf) == map[]
  {
    RunTwo(s, Read(date), Commit(|s.pending|, at, reason), dateOf);
    CommitAtOnce(s, date, at, reason, dateOf);
    PreviewSplits(s.live, date, dateOf);
    ArchiveHolds(s.archive, Preview(s.live, date, dateOf), at, reason);
    hide *;
  }

  /** An upsert between the two transactions is overrun: the row goes although its date is now unknown,
      and what is archived is the row from before. */
  lemma AnUpsertInBetweenIsOverrun(s: Store, prior: Row, app: Row, date: string, at: string, reason: string, dateOf: DateOf)
    requires prior.id in s.live && s.live[prior.id] == prior && Purgeable(prior, date, dateOf)
    requires app.id == prior.id && app.extra.Some? && dateOf(app.extra).None?
    ensures var m := Run(s, [Read(date)] + [Upsert([app])], dateOf);
            prior.id in m.live && !Purgeable(m.live[prior.id], date, dateOf) && prior != m.live[prior.id]
    ensures var r := Run(s, [Read(date)] + [Upsert([app])] + [Commit(|s.pending|, at, reason)], dateOf);
            prior.id !in r.live && prior.id in r.archive && r.archive[prior.id].row == prior
  {
    RunTwo(s, Read(date), Upsert([app]), dateOf);
    RunOneMore(s, [Read(date)] + [Upsert([app])], Commit(|s.pending|, at, reason), dateOf);
    hide Run;
    UpsertOne(s.live, app);
    var m := Next(Next(s, Read(date), dateOf), Upsert([app]), dateOf);
    assert Doomed(m.pending[|s.pending|], dateOf) == Preview(s.live, date, dateOf);
    assert prior.id in Preview(s.live, date, dateOf);
  }

  lemma UpsertOne(t: Table, app: Row)
    ensures UpsertAll(t, [app]) == t[app.id := Merge(t, app)]
  {
    assert [app][..0] == [];
    hide Merge;
  }

  // ---------------------------------------------------------------- the database module

  function InsertRows(a: Archive, rows: seq<Row>, at: string, reason: string): Archive {
    if rows == [] then a else
    var row := rows[|rows| - 1];
    InsertRows(a, rows[..|rows| - 1], at, reason)[row.id := Archived(row, at, reason)]
  }

  /** Inserting row by row leaves every id with one of its rows, and the others alone. */
  lemma {:induction false} InsertRowsArchives(a: Archive, rows: seq<Row>, at: string, reason: string)
    ensures var r := InsertRows(a, rows, at, reason);
            && r.Keys == a.Keys + IdsOf(rows)
            && (forall id :: id in IdsOf(rows) ==> exists row <- rows :: row.id == id && r[id] == Archived(row, at, reason))
            && (forall id :: id in a && id !in IdsOf(rows) ==> r[id] == a[id])
  {
    if rows != [] {
      hide InsertRows, IdsOf;
      var rest, last := rows[..|rows| - 1], rows[|rows| - 1];
      InsertRowsArchives(a, rest, at, reason);
      LastRow(a, rows, at, reason);
    }
  }

  lemma LastRow(a: Archive, rows: seq<Row>, at: string, reason: string)
    requires rows != []
    ensures var rest, last := rows[..|rows| - 1], rows[|rows| - 1];
            && IdsOf(rows) == IdsOf(rest) + {last.id}
            && InsertRows(a, rows, at, reason) == InsertRows(a, rest, at, reason)[last.id := Archived(last, at, reason)]
            && last in rows && forall row <- rest :: row in rows
  {
    assert rows == rows[..|rows| - 1] + [rows[|rows| - 1]];
  }

  class ApplicationStore {
    var live: Table
    var archive: Archive

    method UpsertApplications(apps: seq<Row>) returns (n: nat)
      modifies this`live
      ensures live == UpsertAll(old(live), apps) && n == |apps|
    {
      for i := 0 to |apps|
        invariant live == UpsertAll(old(live), apps[..i])
      {
        assert apps[..i + 1][..i] == apps[..i];
        live := live[apps[i].id := Merge(live, apps[i])];
      }
      assert apps[..|apps|] == apps;
      return |apps|;
    }

    /** `SELECT *` may give the rows in any order. */
    ghost predicate Lists(rows: seq<Row>)
      reads this
    {
      && (forall row <- rows :: row.id in live && live[row.id] == row)
      && (forall id :: id in live ==> live[id] in rows)
    }

    method ListPurgeable(rows: seq<Row>, date: string, dateOf: DateOf) returns (doomed: seq<Row>)
      requires Keyed(live) && Lists(rows)
      ensures forall row :: row in doomed <==> row.id in Preview(live, date, dateOf) && row == live[row.id]
    {
      doomed := [];
      for i := 0 to |rows|
        invariant forall row :: row in doomed <==> row in rows[..i] && Purgeable(row, date, dateOf)
      {
        assert rows[..i + 1] == rows[..i] + [rows[i]];
        if Purgeable(rows[i], date, dateOf) {
          doomed := doomed + [rows[i]];
        }
      }
      assert rows[..|rows|] == rows;
    }

    /** The second transaction of `delete_applications_before`, on the rows the first one chose. */
    method ArchiveAndDelete(doomed: seq<Row>, ghost table: Table, at: string, reason: string) returns (n: nat)
      requires Keyed(table) && forall row :: row in doomed <==> row.id in table && table[row.id] == row
      modifies this
      ensures live == old(live) - table.Keys && archive == ArchiveAll(old(archive), table, at, reason) && n == |doomed|
    {
      n := |doomed|;
      AllIds(doomed, table);
      if doomed == [] {
        return;
      }
      InsertOrReplace(doomed, table, at, reason);
      DeleteRows(doomed);
    }

    method InsertOrReplace(doomed: seq<Row>, ghost table: Table, at: string, reason: string)
      requires Keyed(table) && forall row :: row in doomed <==> row.id in table && table[row.id] == row
      modifies this`archive
      ensures archive == ArchiveAll(old(archive), table, at, reason)
    {
      for i := 0 to |doomed|
        invariant archive == InsertRows(old(archive), doomed[..i], at, reason)
      {
        assert doomed[..i + 1][..i] == doomed[..i];
        archive := archive[doomed[i].id := Archived(doomed[i], at, reason)];
      }
      assert doomed[..|doomed|] == doomed;
      InsertRowsArchives(old(archive), doomed, at, reason);
      AllIds(doomed, table);
      hide InsertRows;
    }

    method DeleteRows(doomed: seq<Row>)
      modifies this`live
      ensures live == old(live) - IdsOf(doomed)
    {
      for i := 0 to |doomed|
        invariant live == old(live) - IdsOf(doomed[..i])
      {
        assert doomed[..i + 1] == doomed[..i] + [doomed[i]];
        live := live - {doomed[i].id};
      }
      assert doomed[..|doomed|] == doomed;
    }

    lemma AllIds(doomed: seq<Row>, table: Table)
      requires Keyed(table) && forall row :: row in doomed <==> row.id in table && table[row.id] == row
      ensures IdsOf(doomed) == table.Keys
    {
      forall id | id in table ensures id in IdsOf(doomed) {
        assert table[id] in doomed;
      }
    }
  }
}
