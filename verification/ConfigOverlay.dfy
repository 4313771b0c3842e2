/** The agent's configuration: a tree of dictionaries, the six keys a shared policy file may decide laid
    over it by path, and the validator that both must pass. What the file decides is taken as a whole or
    not at all, so that no configuration is loaded with an error its base did not have. */
module ConfigOverlay {
  import opened Json

  datatype Node =
    | Nothing
    | Flag(b: bool)
    | Whole(n: int)
    | Fraction(x: real)
    | Text(s: string)
    | List(items: seq<Node>)
    | Dict(entries: map<string, Node>)

  type Tree = map<string, Node>

  /** A dotted path, split. */
  type Path = p: seq<string> | p != [] witness [""]

  // ---------------------------------------------------------------- reading and writing by path

  /** `_dig`, with `None` for a path that leads nowhere. */
  function Dig(t: Tree, p: Path): Option<Node>
    decreases |p|
  {
    if p[0] !in t then None
    else if |p| == 1 then Some(t[p[0]])
    else if !t[p[0]].Dict? then None
    else Dig(t[p[0]].entries, p[1..])
  }

  /** What is in the way and is not a dictionary gives way to an empty one. */
  function Child(t: Tree, key: string): Tree {
    if key in t && t[key].Dict? then t[key].entries else map[]
  }

  /** One assignment of `_apply_overlay`. */
  function Put(t: Tree, p: Path, v: Node): Tree
    decreases |p|
  {
    if |p| == 1 then t[p[0] := v] else t[p[0] := Dict(Put(Child(t, p[0]), p[1..], v))]
  }

  /** Neither path leads through the other. */
  predicate Apart(p: Path, q: Path) {
    p[0] != q[0] || (|p| > 1 && |q| > 1 && Apart(p[1..], q[1..]))
  }

  lemma {:induction false} PutThenDig(t: Tree, p: Path, v: Node)
    ensures Dig(Put(t, p, v), p) == Some(v)
    decreases |p|
  {
    if |p| > 1 {
      PutThenDig(Child(t, p[0]), p[1..], v);
    }
  }

  /** Below the path that was set, the tree is the new value. */
  lemma {:induction false} PutThenDigBelow(t: Tree, p: Path, v: Node, rest: Path)
    ensures Dig(Put(t, p, v), p + rest) == if v.Dict? then Dig(v.entries, rest) else None
    decreases |p|
  {
    assert (p + rest)[1..] == p[1..] + rest;
    if |p| > 1 {
      PutThenDigBelow(Child(t, p[0]), p[1..], v, rest);
    } else {
      assert p[1..] + rest == rest;
    }
  }

  lemma {:induction false} PutLeavesTheRest(t: Tree, p: Path, v: Node, q: Path)
    requires Apart(p, q)
    ensures Dig(Put(t, p, v), q) == Dig(t, q)
    decreases |p|
  {
    if p[0] == q[0] {
      PutLeavesTheRest(Child(t, p[0]), p[1..], v, q[1..]);
    }
  }

  /** What `Put` stores under the path's first key. */
  function Slot(child: Tree, p: Path, v: Node): Node {
    if |p| == 1 then v else Dict(Put(child, p[1..], v))
  }

  lemma PutFillsASlot(t: Tree, p: Path, v: Node)
    ensures Put(t, p, v) == t[p[0] := Slot(Child(t, p[0]), p, v)]
  {
  }

  lemma PutsCommuteAtOnce(t: Tree, p: Path, v: Node, q: Path, w: Node)
    requires p[0] != q[0]
    ensures Put(Put(t, p, v), q, w) == Put(Put(t, q, w), p, v)
  {
    hide Put, Slot;
    var a, b := Slot(Child(t, p[0]), p, v), Slot(Child(t, q[0]), q, w);
    PutFillsASlot(t, p, v);
    PutFillsASlot(t, q, w);
    PutFillsASlot(t[p[0] := a], q, w);
    PutFillsASlot(t[q[0] := b], p, v);
    assert Child(t[p[0] := a], q[0]) == Child(t, q[0]) && Child(t[q[0] := b], p[0]) == Child(t, p[0]);
    assert t[p[0] := a][q[0] := b] == t[q[0] := b][p[0] := a];
  }

  lemma {:induction false} PutsCommute(t: Tree, p: Path, v: Node, q: Path, w: Node)
    requires Apart(p, q)
    ensures Put(Put(t, p, v), q, w) == Put(Put(t, q, w), p, v)
    decreases |p|
  {
    if p[0] != q[0] {
      PutsCommuteAtOnce(t, p, v, q, w);
    } else {
      PutsCommute(Child(t, p[0]), p[1..], v, q[1..], w);
    }
  }

  lemma {:induction false} ApartIsSymmetric(p: Path, q: Path)
    requires Apart(p, q)
    ensures Apart(q, p)
  {
    if p[0] == q[0] {
      ApartIsSymmetric(p[1..], q[1..]);
    }
  }

  /** Apart means that neither is a beginning of the other. */
  lemma {:induction false} ApartExactlyWhen(p: Path, q: Path)
    ensures Apart(p, q) <==> !(p <= q) && !(q <= p)
  {
    if p[0] == q[0] && |p| > 1 && |q| > 1 {
      ApartExactlyWhen(p[1..], q[1..]);
      assert p == [p[0]] + p[1..] && q == [q[0]] + q[1..];
    }
  }

  // ---------------------------------------------------------------- whole overlays

  datatype Setting = Setting(path: Path, value: Node)

  function ApplyAll(t: Tree, settings: seq<Setting>): Tree {
    if settings == [] then t else
    var last := settings[|settings| - 1];
    Put(ApplyAll(t, settings[..|settings| - 1]), last.path, last.value)
  }

  /** `_apply_overlay` on a copy of the configuration. */
  method ApplyOverlay(config: Tree, overlay: seq<Setting>) returns (out: Tree)
    ensures out == ApplyAll(config, overlay)
  {
    out := config;
    for i := 0 to |overlay|
      invariant out == ApplyAll(config, overlay[..i])
    {
      assert overlay[..i + 1][..i] == overlay[..i];
      out := Put(out, overlay[i].path, overlay[i].value);
    }
    assert overlay[..|overlay|] == overlay;
  }

  ghost predicate AllApart(settings: seq<Setting>) {
    forall i, j :: 0 <= i < j < |settings| ==> Apart(settings[i].path, settings[j].path)
  }

  /** Every setting reads back, and every path apart from all of them is as it was. */
  lemma {:induction false} OverlayReadsBack(t: Tree, settings: seq<Setting>, i: nat)
    requires AllApart(settings) && i < |settings|
    ensures Dig(ApplyAll(t, settings), settings[i].path) == Some(settings[i].value)
  {
    var n := |settings| - 1;
    var before := ApplyAll(t, settings[..n]);
    if i == n {
      PutThenDig(before, settings[n].path, settings[n].value);
    } else {
      OverlayReadsBack(t, settings[..n], i);
      ApartIsSymmetric(settings[i].path, settings[n].path);
      PutLeavesTheRest(before, settings[n].path, settings[n].value, settings[i].path);
    }
  }

  lemma {:induction false} OverlayLeavesTheRest(t: Tree, settings: seq<Setting>, q: Path)
    requires forall s <- settings :: Apart(s.path, q)
    ensures Dig(ApplyAll(t, settings), q) == Dig(t, q)
  {
    if settings != [] {
      var n := |settings| - 1;
      OverlayLeavesTheRest(t, settings[..n], q);
      PutLeavesTheRest(ApplyAll(t, settings[..n]), settings[n].path, settings[n].value, q);
    }
  }

  function Without(settings: seq<Setting>, i: nat): seq<Setting>
    requires i < |settings|
  {
    settings[..i] + settings[i + 1..]
  }

  lemma WithoutStaysApart(settings: seq<Setting>, i: nat)
    requires AllApart(settings) && i < |settings|
    ensures AllApart(Without(settings, i))
  {
    var rest := Without(settings, i);
    forall j, k | 0 <= j < k < |rest| ensures Apart(rest[j].path, rest[k].path) {
      assert rest[j] == settings[if j < i then j else j + 1] && rest[k] == settings[if k < i then k else k + 1];
    }
  }

  lemma WithoutTakesOne(settings: seq<Setting>, i: nat)
    requires i < |settings|
    ensures multiset(Without(settings, i)) == multiset(settings) - multiset{settings[i]}
  {
    assert settings == settings[..i] + [settings[i]] + settings[i + 1..];
  }

  lemma WithoutThenLast(settings: seq<Setting>, i: nat)
    requires i < |settings| - 1
    ensures Without(settings, i) == Without(settings[..|settings| - 1], i) + [settings[|settings| - 1]]
  {
  }

  lemma ApplyOneMore(t: Tree, settings: seq<Setting>, s: Setting)
    ensures ApplyAll(t, settings + [s]) == Put(ApplyAll(t, settings), s.path, s.value)
  {
    assert (settings + [s])[..|settings|] == settings;
  }

  /** A setting can be made last. */
  lemma {:induction false} AnyoneCanGoLast(t: Tree, settings: seq<Setting>, i: nat)
    requires AllApart(settings) && i < |settings|
    ensures ApplyAll(t, settings) == Put(ApplyAll(t, Without(settings, i)), settings[i].path, settings[i].value)
  {
    var n := |settings| - 1;
    var before, last, own := settings[..n], settings[n], settings[i];
    assert settings == before + [last];
    ApplyOneMore(t, before, last);
    if i == n {
      assert Without(settings, i) == before;
    } else {
      hide ApplyAll, Put;
      AnyoneCanGoLast(t, before, i);
      WithoutThenLast(settings, i);
      ApplyOneMore(t, Without(before, i), last);
      PutsCommute(ApplyAll(t, Without(before, i)), own.path, own.value, last.path, last.value);
    }
  }

  /** The order of the settings does not matter. */
  lemma {:induction false} OrderDoesNotMatter(t: Tree, a: seq<Setting>, b: seq<Setting>)
    requires AllApart(a) && AllApart(b) && multiset(a) == multiset(b)
    ensures ApplyAll(t, a) == ApplyAll(t, b)
    decreases |a|
  {
    assert |a| == |multiset(a)| == |multiset(b)| == |b|;
    if a != [] {
      var n := |a| - 1;
      assert a[n] in multiset(a);
      var i :| 0 <= i < |b| && b[i] == a[n];
      hide ApplyAll, Put, AllApart;
      AnyoneCanGoLast(t, a, n);
      AnyoneCanGoLast(t, b, i);
      WithoutTakesOne(a, n);
      WithoutTakesOne(b, i);
      WithoutStaysApart(a, n);
      WithoutStaysApart(b, i);
      OrderDoesNotMatter(t, Without(a, n), Without(b, i));
    }
  }

  // ---------------------------------------------------------------- the six keys

  const DECIDABLE: seq<Path> := [["enabled"], ["mode"], ["min_fit_score"], ["searches"], ["per_search_limit"], ["blocklist", "enabled"]]

  lemma TheSixKeysAreApart(i: nat, j: nat)
    requires i < j < |DECIDABLE|
    ensures Apart(DECIDABLE[i], DECIDABLE[j])
  {
  }

  /** Python's `not v`. */
  predicate Falsy(v: Node) {
    match v
    case Nothing => true
    case Flag(b) => !b
    case Whole(n) => n == 0
    case Fraction(x) => x == 0.0
    case Text(s) => s == ""
    case List(items) => items == []
    case Dict(entries) => entries == map[]
  }

  /** Whether the file decides a key: it has a value there, it is not an empty list of searches, and it is
      not what ships. `same` is `_same_value`. */
  predicate Decides(loaded: Tree, shipped: Tree, same: (Node, Node) -> bool, p: Path) {
    var value := Dig(loaded, p);
    && value.Some?
    && !(p == ["searches"] && Falsy(value.value))
    && !(Dig(shipped, p).Some? && same(value.value, Dig(shipped, p).value))
  }

  function Overlay(loaded: Tree, shipped: Tree, same: (Node, Node) -> bool, keys: seq<Path>): (settings: seq<Setting>)
    ensures forall s <- settings :: s.path in keys && Decides(loaded, shipped, same, s.path) && Dig(loaded, s.path) == Some(s.value)
    ensures forall p <- keys :: Decides(loaded, shipped, same, p) ==> exists s <- settings :: s.path == p
  {
    if keys == [] then [] else
    var p := keys[|keys| - 1];
    var before := Overlay(loaded, shipped, same, keys[..|keys| - 1]);
    if Decides(loaded, shipped, same, p) then
      var added := Setting(p, Dig(loaded, p).value);
      assert (before + [added])[|before|] == added;
      assert forall s <- before :: s in before + [added];
      before + [added]
    else before
  }

  method AgentConfigOverlay(loaded: Tree, shipped: Tree, same: (Node, Node) -> bool) returns (overlay: seq<Setting>)
    ensures overlay == Overlay(loaded, shipped, same, DECIDABLE)
  {
    hide Dig, Falsy;
    overlay := [];
    for i := 0 to |DECIDABLE|
      invariant overlay == Overlay(loaded, shipped, same, DECIDABLE[..i])
    {
      assert DECIDABLE[..i + 1][..i] == DECIDABLE[..i];
      var p := DECIDABLE[i];
      var value := Dig(loaded, p);
      if value.None? {
        continue;
      }
      if p == ["searches"] && Falsy(value.value) {
        continue;
      }
      var default := Dig(shipped, p);
      if default.Some? && same(value.value, default.value) {
        continue;
      }
      overlay := overlay + [Setting(p, value.value)];
    }
    assert DECIDABLE[..|DECIDABLE|] == DECIDABLE;
  }

  lemma TheSixAreDecidable(p: Path)
    ensures IsOneOfTheSix(p) <==> p in DECIDABLE
  {
    assert DECIDABLE[0] == ["enabled"] && DECIDABLE[1] == ["mode"] && DECIDABLE[2] == ["min_fit_score"];
    assert DECIDABLE[3] == ["searches"] && DECIDABLE[4] == ["per_search_limit"] && DECIDABLE[5] == ["blocklist", "enabled"];
  }

  lemma BlankIsFalsy(v: Option<Node>)
    ensures v.Some? ==> (IsBlank(v.value) <==> Falsy(v.value))
  {
  }

  lemma {:induction false} OverlayKeysAreApart(loaded: Tree, shipped: Tree, same: (Node, Node) -> bool, keys: seq<Path>)
    requires forall i, j :: 0 <= i < j < |keys| ==> Apart(keys[i], keys[j])
    ensures AllApart(Overlay(loaded, shipped, same, keys))
  {
    if keys != [] {
      OverlayKeysAreApart(loaded, shipped, same, keys[..|keys| - 1]);
      forall s | s in Overlay(loaded, shipped, same, keys[..|keys| - 1]) ensures Apart(s.path, keys[|keys| - 1]) {
        assert s.path in keys[..|keys| - 1];
      }
    }
  }

  /** Not `v` in Python: nothing, false, zero, or empty. */
  predicate IsBlank(v: Node) {
    || v == Nothing || v == Flag(false) || v == Whole(0) || v == Fraction(0.0)
    || v == Text("") || v == List([]) || v == Dict(map[])
  }

  predicate IsOneOfTheSix(p: Path) {
    || p == ["enabled"] || p == ["mode"] || p == ["min_fit_score"] || p == ["searches"] || p == ["per_search_limit"]
    || p == ["blocklist", "enabled"]
  }

  /** Laid over any configuration, in any order, the overlay changes the keys the file decides and nothing
      apart from them: a key reads as in the file if that has a value there which is not the shipped one, and
      not an empty list of searches; otherwise as before. */
  lemma TheOverlayDecidesItsKeysOnly(t: Tree, loaded: Tree, shipped: Tree, same: (Node, Node) -> bool, p: Path)
    requires IsOneOfTheSix(p)
    ensures var overlay, own, base := Overlay(loaded, shipped, same, DECIDABLE), Dig(loaded, p), Dig(shipped, p);
            Dig(ApplyAll(t, overlay), p) ==
              if own.Some? && !(p == ["searches"] && IsBlank(own.value)) && !(base.Some? && same(own.value, base.value))
              then own else Dig(t, p)
  {
    hide Falsy, IsBlank, Dig, ApplyAll, IsOneOfTheSix;
    BlankIsFalsy(Dig(loaded, p));
    TheSixAreDecidable(p);
    var overlay := Overlay(loaded, shipped, same, DECIDABLE);
    forall i, j | 0 <= i < j < |DECIDABLE| ensures Apart(DECIDABLE[i], DECIDABLE[j]) {
      TheSixKeysAreApart(i, j);
    }
    OverlayKeysAreApart(loaded, shipped, same, DECIDABLE);
    if Decides(loaded, shipped, same, p) {
      var s :| s in overlay && s.path == p;
      var i :| 0 <= i < |overlay| && overlay[i] == s;
      OverlayReadsBack(t, overlay, i);
    } else {
      forall s | s in overlay ensures Apart(s.path, p) {
        var i :| 0 <= i < |DECIDABLE| && DECIDABLE[i] == s.path;
        var j :| 0 <= j < |DECIDABLE| && DECIDABLE[j] == p;
        if i < j {
          TheSixKeysAreApart(i, j);
        } else {
          TheSixKeysAreApart(j, i);
          ApartIsSymmetric(p, s.path);
        }
      }
      OverlayLeavesTheRest(t, overlay, p);
    }
  }

  // ---------------------------------------------------------------- validation

  /** Python's `str` of a configuration value; an absent one is shown like `None`. */
  type Show = Node -> string

  /** The messages of `validate_agent_config`; the first one quotes the value it refuses, so that two
      values shown alike give the same message. */
  datatype Error =
    | InvalidMode(shown: string)
    | MaxDailyOutOfRange
    | MinFitOutOfRange
    | SearchesEmpty
    | KeywordsRequired(i: nat)
    | StartHourOutOfRange
    | EndHourOutOfRange

  /** A search or `quiet_hours` that is not an object, or an hour that is not a number, raises instead. */
  datatype Verdict = Found(errors: seq<Error>) | Raises

  function Get(t: Tree, key: string): Option<Node> {
    if key in t then Some(t[key]) else None
  }

  /** `isinstance(v, int)` with its value: in Python a boolean is one. */
  function AsInt(v: Option<Node>): Option<int> {
    if v.None? then None
    else if v.value.Whole? then Some(v.value.n)
    else if v.value.Flag? then Some(if v.value.b then 1 else 0)
    else None
  }

  predicate Within(v: Option<Node>, lo: int, hi: int) {
    AsInt(v).Some? && lo <= AsInt(v).value <= hi
  }

  predicate KnownMode(v: Option<Node>) {
    v.Some? && v.value.Text? && (v.value.s == "dry_run" || v.value.s == "approval" || v.value.s == "auto")
  }

  predicate HasKeywords(search: Node)
    requires search.Dict?
  {
    "keywords" in search.entries && !Falsy(search.entries["keywords"])
  }

  /** The loop over the searches, up to the first that raises. */
  function SearchErrors(items: seq<Node>): Verdict {
    if items == [] then Found([]) else
    var n := |items| - 1;
    var before := SearchErrors(items[..n]);
    if before.Raises? || !items[n].Dict? then Raises
    else if HasKeywords(items[n]) then before
    else Found(before.errors + [KeywordsRequired(n)])
  }

  /** `0 <= hour <= 23`; an absent hour counts as zero. */
  function HourOk(v: Option<Node>): Option<bool> {
    if v.None? then Some(true)
    else if AsInt(v).Some? then Some(0 <= AsInt(v).value <= 23)
    else if v.value.Fraction? then Some(0.0 <= v.value.x <= 23.0)
    else None
  }

  function QuietErrors(v: Option<Node>): Verdict {
    if v.None? then Found([])
    else if !v.value.Dict? then Raises
    else
      var quiet := v.value.entries;
      if Get(quiet, "enabled").None? || Falsy(quiet["enabled"]) then Found([]) else
      var start, end := HourOk(Get(quiet, "start_hour")), HourOk(Get(quiet, "end_hour"));
      if start.None? || end.None? then Raises
      else Found((if start.value then [] else [StartHourOutOfRange]) + (if end.value then [] else [EndHourOutOfRange]))
  }

  function Searches(t: Tree): Verdict {
    var v := Get(t, "searches");
    if v.None? || !v.value.List? || v.value.items == [] then Found([SearchesEmpty]) else SearchErrors(v.value.items)
  }

  function Shown(t: Tree, show: Show): string {
    show(if "mode" in t then t["mode"] else Nothing)
  }

  function ScalarErrors(t: Tree, show: Show): seq<Error> {
    (if KnownMode(Get(t, "mode")) then [] else [InvalidMode(Shown(t, show))])
    + (if Within(Get(t, "max_daily_applications"), 1, 100) then [] else [MaxDailyOutOfRange])
    + (if Within(Get(t, "min_fit_score"), 0, 100) then [] else [MinFitOutOfRange])
  }

  function Validate(t: Tree, show: Show): Verdict {
    var searches, quiet := Searches(t), QuietErrors(Get(t, "quiet_hours"));
    if searches.Raises? || quiet.Raises? then Raises else Found(ScalarErrors(t, show) + searches.errors + quiet.errors)
  }

  method ValidateAgentConfig(t: Tree, show: Show) returns (v: Verdict)
    ensures v == Validate(t, show)
  {
    var errors: seq<Error> := [];
    if !KnownMode(Get(t, "mode")) {
      errors := errors + [InvalidMode(Shown(t, show))];
    }
    if !Within(Get(t, "max_daily_applications"), 1, 100) {
      errors := errors + [MaxDailyOutOfRange];
    }
    if !Within(Get(t, "min_fit_score"), 0, 100) {
      errors := errors + [MinFitOutOfRange];
    }
    assert errors == ScalarErrors(t, show);
    hide ScalarErrors, SearchErrors, QuietErrors;
    var searches := ValidateSearches(Get(t, "searches"));
    if searches.Raises? {
      return Raises;
    }
    var quiet := QuietErrors(Get(t, "quiet_hours"));
    return if quiet.Raises? then Raises else Found(errors + searches.errors + quiet.errors);
  }

  method ValidateSearches(searches: Option<Node>) returns (v: Verdict)
    ensures v == if searches.None? || !searches.value.List? || searches.value.items == [] then Found([SearchesEmpty])
                 else SearchErrors(searches.value.items)
  {
    if searches.None? || !searches.value.List? || searches.value.items == [] {
      return Found([SearchesEmpty]);
    }
    var items := searches.value.items;
    var errors: seq<Error> := [];
    for i := 0 to |items|
      invariant SearchErrors(items[..i]) == Found(errors)
    {
      assert items[..i + 1][..i] == items[..i];
      if !items[i].Dict? {
        RaisesForGood(items, i + 1);
        return Raises;
      }
      if !HasKeywords(items[i]) {
        errors := errors + [KeywordsRequired(i)];
      }
    }
    assert items[..|items|] == items;
    return Found(errors);
  }

  lemma {:induction false} RaisesForGood(items: seq<Node>, i: nat)
    requires i <= |items| && SearchErrors(items[..i]).Raises?
    ensures SearchErrors(items).Raises?
    decreases |items|
  {
    if i < |items| {
      assert items[..|items| - 1][..i] == items[..i];
      RaisesForGood(items[..|items| - 1], i);
    } else {
      assert items[..i] == items;
    }
  }

  /** The key holds a whole number within bounds; true and false are one and zero. */
  predicate HoldsWithin(t: Tree, key: string, lo: int, hi: int) {
    key in t && match t[key]
      case Whole(n) => lo <= n <= hi
      case Flag(b) => lo <= (if b then 1 else 0) <= hi
      case _ => false
  }

  predicate HoldsMode(t: Tree) {
    "mode" in t && (t["mode"] == Text("dry_run") || t["mode"] == Text("approval") || t["mode"] == Text("auto"))
  }

  predicate HoldsSearches(t: Tree) {
    "searches" in t && t["searches"].List? && t["searches"].items != []
  }

  predicate HasWords(search: Node) {
    search.Dict? && "keywords" in search.entries && !IsBlank(search.entries["keywords"])
  }

  /** Quiet hours are asked for. */
  predicate AsksForQuiet(t: Tree) {
    && "quiet_hours" in t && t["quiet_hours"].Dict?
    && "enabled" in t["quiet_hours"].entries && !IsBlank(t["quiet_hours"].entries["enabled"])
  }

  predicate IsNumber(v: Node) {
    v.Whole? || v.Flag? || v.Fraction?
  }

  /** An hour from 0 to 23; an absent one is 0, and a boolean is an hour too. */
  predicate HoldsHour(quiet: Tree, key: string) {
    key !in quiet || match quiet[key]
      case Whole(n) => 0 <= n <= 23
      case Fraction(x) => 0.0 <= x <= 23.0
      case Flag(_) => true
      case _ => false
  }

  /** What an accepted configuration is. */
  predicate Sane(t: Tree) {
    && HoldsMode(t) && HoldsWithin(t, "max_daily_applications", 1, 100) && HoldsWithin(t, "min_fit_score", 0, 100)
    && HoldsSearches(t) && (forall s <- t["searches"].items :: HasWords(s))
    && ("quiet_hours" in t ==> t["quiet_hours"].Dict?)
    && (AsksForQuiet(t) ==>
          HoldsHour(t["quiet_hours"].entries, "start_hour") && HoldsHour(t["quiet_hours"].entries, "end_hour"))
  }

  /** The validator raises exactly when a search or the quiet hours are not objects, or an hour that is asked
      for is not a number. */
  predicate Breaks(t: Tree) {
    (HoldsSearches(t) && exists s <- t["searches"].items :: !s.Dict?) || QuietBreaks(t)
  }

  predicate QuietBreaks(t: Tree) {
    || ("quiet_hours" in t && !t["quiet_hours"].Dict?)
    || (AsksForQuiet(t) && (HourBreaks(t["quiet_hours"].entries, "start_hour") || HourBreaks(t["quiet_hours"].entries, "end_hour")))
  }

  predicate HourBreaks(quiet: Tree, key: string) {
    key in quiet && !IsNumber(quiet[key])
  }

  lemma {:induction false} SearchErrorsAre(items: seq<Node>)
    ensures SearchErrors(items).Raises? <==> exists s <- items :: !s.Dict?
    ensures SearchErrors(items).Found? ==> forall e :: e in SearchErrors(items).errors <==>
      e.KeywordsRequired? && e.i < |items| && !HasWords(items[e.i])
  {
    if items == [] {
    } else {
      hide IsBlank, Falsy;
      var n := |items| - 1;
      SearchErrorsAre(items[..n]);
      assert items == items[..n] + [items[n]];
      if items[n].Dict? && "keywords" in items[n].entries {
        BlankIsFalsy(Some(items[n].entries["keywords"]));
      }
      if exists s <- items[..n] :: !s.Dict? {
        var s :| s in items[..n] && !s.Dict?;
        assert s in items;
      }
      assert items[n] in items;
    }
  }

  lemma QuietErrorsAre(t: Tree)
    ensures var v := QuietErrors(Get(t, "quiet_hours"));
      && (v.Raises? <==> QuietBreaks(t))
      && (v.Found? ==>
            && (StartHourOutOfRange in v.errors <==> AsksForQuiet(t) && !HoldsHour(t["quiet_hours"].entries, "start_hour"))
            && (EndHourOutOfRange in v.errors <==> AsksForQuiet(t) && !HoldsHour(t["quiet_hours"].entries, "end_hour"))
            && (forall e <- v.errors :: e == StartHourOutOfRange || e == EndHourOutOfRange))
  {
    if "quiet_hours" in t && t["quiet_hours"].Dict? && "enabled" in t["quiet_hours"].entries {
      BlankIsFalsy(Some(t["quiet_hours"].entries["enabled"]));
    }
    hide IsBlank, Falsy;
  }

  lemma ScalarErrorsAre(t: Tree, show: Show)
    ensures forall e :: e in ScalarErrors(t, show) <==>
      || (e == InvalidMode(show(if "mode" in t then t["mode"] else Nothing)) && !HoldsMode(t))
      || (e == MaxDailyOutOfRange && !HoldsWithin(t, "max_daily_applications", 1, 100))
      || (e == MinFitOutOfRange && !HoldsWithin(t, "min_fit_score", 0, 100))
  {
  }

  /** Every error has its cause, and every cause its error, unless the validator raises. */
  predicate IsCaused(t: Tree, show: Show, e: Error) {
    match e
    case InvalidMode(shown) => !HoldsMode(t) && shown == show(if "mode" in t then t["mode"] else Nothing)
    case MaxDailyOutOfRange => !HoldsWithin(t, "max_daily_applications", 1, 100)
    case MinFitOutOfRange => !HoldsWithin(t, "min_fit_score", 0, 100)
    case SearchesEmpty => !HoldsSearches(t)
    case KeywordsRequired(i) => HoldsSearches(t) && i < |t["searches"].items| && !HasWords(t["searches"].items[i])
    case StartHourOutOfRange => AsksForQuiet(t) && !HoldsHour(t["quiet_hours"].entries, "start_hour")
    case EndHourOutOfRange => AsksForQuiet(t) && !HoldsHour(t["quiet_hours"].entries, "end_hour")
  }

  lemma TheErrorsAreTheirCauses(t: Tree, show: Show)
    ensures Validate(t, show).Raises? <==> Breaks(t)
    ensures Validate(t, show).Found? ==> forall e :: e in Validate(t, show).errors <==> IsCaused(t, show, e)
  {
    hide QuietErrors, ScalarErrors, SearchErrors, HoldsMode, HoldsWithin, HoldsHour, HourBreaks, AsksForQuiet, HasWords;
    QuietErrorsAre(t);
    ScalarErrorsAre(t, show);
    if HoldsSearches(t) {
      SearchErrorsAre(t["searches"].items);
    }
  }

  /** The validator passes exactly the sane configurations. */
  lemma ValidExactlyWhen(t: Tree, show: Show)
    ensures Validate(t, show) == Found([]) <==> Sane(t)
  {
    hide Validate, HoldsMode, HoldsWithin, HoldsHour, HasWords, AsksForQuiet;
    var v := Validate(t, show);
    TheErrorsAreTheirCauses(t, show);
    if v == Found([]) {
      assert forall e :: !IsCaused(t, show, e);
      assert !IsCaused(t, show, InvalidMode(show(if "mode" in t then t["mode"] else Nothing)));
      assert !IsCaused(t, show, MaxDailyOutOfRange) && !IsCaused(t, show, MinFitOutOfRange) && !IsCaused(t, show, SearchesEmpty);
      assert !IsCaused(t, show, StartHourOutOfRange) && !IsCaused(t, show, EndHourOutOfRange);
      forall s | s in t["searches"].items ensures HasWords(s) {
        var i :| 0 <= i < |t["searches"].items| && t["searches"].items[i] == s;
        assert !IsCaused(t, show, KeywordsRequired(i));
      }
    }
    if Sane(t) {
      SaneHasNoCause(t, show);
      if v.Found? {
        NoMembers(v.errors);
      }
    }
  }

  lemma NoMembers(errors: seq<Error>)
    ensures (forall e :: e !in errors) <==> errors == []
  {
    assert errors != [] ==> errors[0] in errors;
  }

  lemma SaneHasNoCause(t: Tree, show: Show)
    requires Sane(t)
    ensures !Breaks(t) && forall e :: !IsCaused(t, show, e)
  {
    hide HoldsMode, HoldsWithin, IsBlank;
  }

  // ---------------------------------------------------------------- loading

  datatype Load = Loaded(config: Tree) | LoadRaises

  predicate NoneNew(a: seq<Error>, b: seq<Error>) {
    forall e <- a :: e in b
  }

  /** `load_agent_config`, from the merged base on: the whole overlay or none of it. */
  function LoadConfig(base: Tree, overlay: seq<Setting>, show: Show): Load {
    if overlay == [] then Loaded(base) else
    var candidate := ApplyAll(base, overlay);
    var before, after := Validate(base, show), Validate(candidate, show);
    if before.Raises? || after.Raises? then LoadRaises
    else Loaded(if NoneNew(after.errors, before.errors) then candidate else base)
  }

  method LoadAgentConfig(base: Tree, overlay: seq<Setting>, show: Show) returns (load: Load)
    ensures load == LoadConfig(base, overlay, show)
  {
    hide Validate, ApplyAll;
    if overlay == [] {
      return Loaded(base);
    }
    var candidate := ApplyOverlay(base, overlay);
    var baseErrors := ValidateAgentConfig(base, show);
    if baseErrors.Raises? {
      return LoadRaises;
    }
    var candidateErrors := ValidateAgentConfig(candidate, show);
    if candidateErrors.Raises? {
      return LoadRaises;
    }
    var newErrors: seq<Error> := [];
    for i := 0 to |candidateErrors.errors|
      invariant newErrors == [] <==> NoneNew(candidateErrors.errors[..i], baseErrors.errors)
    {
      var errors := candidateErrors.errors;
      assert errors[..i + 1] == errors[..i] + [errors[i]];
      if errors[i] !in baseErrors.errors {
        newErrors := newErrors + [errors[i]];
      }
    }
    assert candidateErrors.errors[..|candidateErrors.errors|] == candidateErrors.errors;
    return Loaded(if newErrors != [] then base else candidate);
  }

  lemma NothingIsNew(a: seq<Error>)
    ensures NoneNew(a, []) <==> a == []
  {
    assert a != [] ==> a[0] in a;
  }

  /** What is loaded has no error the base did not have; it is sane exactly when the base is, or when there
      is an overlay and what it makes of the base is. */
  lemma LoadingNeverMakesItWorse(base: Tree, overlay: seq<Setting>, show: Show)
    requires LoadConfig(base, overlay, show).Loaded?
    ensures var config := LoadConfig(base, overlay, show).config;
            && (config == base || config == ApplyAll(base, overlay))
            && (Validate(base, show).Found? ==>
                Validate(config, show).Found? && NoneNew(Validate(config, show).errors, Validate(base, show).errors))
            && (Sane(config) <==> Sane(base) || (overlay != [] && Sane(ApplyAll(base, overlay))))
  {
    ValidExactlyWhen(base, show);
    ValidExactlyWhen(ApplyAll(base, overlay), show);
    if Validate(ApplyAll(base, overlay), show).Found? {
      NothingIsNew(Validate(ApplyAll(base, overlay), show).errors);
    }
    hide Validate, Sane, ApplyAll;
  }

  /** Without an overlay the base is not checked, so a mode that is none of the three is loaded as it is. */
  lemma AnUnknownModeIsLoaded(base: Tree, show: Show)
    requires "mode" in base && base["mode"] !in {Text("dry_run"), Text("approval"), Text("auto")}
    ensures LoadConfig(base, [], show) == Loaded(base) && !Sane(base)
  {
  }
}
