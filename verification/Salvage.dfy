/** `salvage_json`: reading a stored blob, repairing one that was cut at an arbitrary character. */
module BlobSalvage {
  import opened Json
  import opened JsonRoundTrip
  import opened Scanner

  datatype State = Readable | Salvaged | Unreadable

  /** The brackets that close what is open, innermost first. */
  function Closers(stack: string): string {
    if stack == "" then ""
    else Closers(stack[1..]) + [if stack[0] == '[' then ']' else '}']
  }

  lemma {:induction false} ClosersLast(stack: string, c: char)
    ensures Closers(stack + [c]) == [if c == '[' then ']' else '}'] + Closers(stack)
  {
    if stack == "" {
      assert [c][1..] == "";
      assert Closers([c]) == Closers("") + [if c == '[' then ']' else '}'];
      assert stack + [c] == [c];
    } else {
      ClosersLast(stack[1..], c);
      assert (stack + [c])[1..] == stack[1..] + [c];
    }
  }

  // ---------------------------------------------------------------- the function

  function Repair(raw: string): (Option<Value>, State) {
    var st := Feed(START, raw);
    if st.cutAt < 0 || st.cutAt > |raw| then (None, Unreadable)
    else
      var v := Loads(raw[..st.cutAt] + Closers(st.cutStack));
      if v.Some? then (v, Salvaged) else (None, Unreadable)
  }

  function Salvage(raw: Option<string>): (Option<Value>, State) {
    if raw.None? || raw.value == "" then (None, Unreadable)
    else if Loads(raw.value).Some? then (Loads(raw.value), Readable)
    else Repair(raw.value)
  }

  /** The loop as the source writes it, one character at a time, against the state machine. */
  method SalvageJson(raw: Option<string>) returns (obj: Option<Value>, state: State)
    ensures (obj, state) == Salvage(raw)
  {
    if raw.None? || raw.value == "" {
      return None, Unreadable;
    }
    var text := raw.value;
    var whole := Loads(text);
    if whole.Some? {
      return whole, Readable;
    }
    var stack: string := "";
    var inString, escaped := false, false;
    var cutAt := -1;
    var cutStack: string := "";
    for i := 0 to |text|
      invariant Feed(START, text[..i]) == Scan(stack, inString, escaped, cutAt, cutStack, i)
      invariant -1 <= cutAt <= i
    {
      var ch := text[i];
      assert text[..i + 1] == text[..i] + [ch];
      FeedAppend(START, text[..i], [ch]);
      FeedOne(Feed(START, text[..i]), ch);
      if inString {
        if escaped {
          escaped := false;
        } else if ch == BACKSLASH {
          escaped := true;
        } else if ch == QUOTE {
          inString := false;
        }
      } else if ch == QUOTE {
        inString := true;
      } else if ch == '[' || ch == '{' {
        stack := stack + [ch];
      } else if ch == ']' || ch == '}' {
        if stack != "" {
          stack := stack[..|stack| - 1];
        }
      } else if ch == ',' && stack != "" {
        cutAt := i;
        cutStack := stack;
      }
    }
    assert text[..|text|] == text;
    if cutAt < 0 {
      return None, Unreadable;
    }
    var closers: string := "";
    for i := 0 to |cutStack|
      invariant closers == Closers(cutStack[|cutStack| - i..])
    {
      var j := |cutStack| - i - 1;
      assert cutStack[j..][1..] == cutStack[j + 1..];
      closers := closers + [if cutStack[j] == '[' then ']' else '}'];
    }
    assert cutStack[0..] == cutStack;
    var v := Loads(text[..cutAt] + closers);
    if v.Some? {
      return v, Salvaged;
    }
    return None, Unreadable;
  }

  // ---------------------------------------------------------------- truncations

  /** `t` is `v` with trailing entries dropped: possibly at every level along the last branch kept. */
  ghost predicate Truncation(t: Value, v: Value)
    decreases v, 0
  {
    t == v || (t.Block? && v.Block? && t.shape == v.shape && TruncatedEntries(t.entries, v.entries))
  }

  /** All entries but the last are kept whole; at least one entry is kept. */
  ghost predicate TruncatedEntries(ts: seq<Entry>, es: seq<Entry>)
    decreases es, 1
  {
    && 1 <= |ts| <= |es|
    && ts[0].key == es[0].key
    && if |ts| == 1 then Truncation(ts[0].value, es[0].value)
       else ts[0] == es[0] && TruncatedEntries(ts[1..], es[1..])
  }

  /** The scanner found a comma inside `text`, and closing there gives `repaired`. */
  ghost predicate CutsTo(st: Scan, st': Scan, text: string, repaired: string) {
    && st.pos <= st'.cutAt < st.pos + |text|
    && st.stack <= st'.cutStack
    && text[..st'.cutAt - st.pos] + Closers(st'.cutStack[|st.stack|..]) == repaired
  }

  predicate CutUnmoved(st: Scan, st': Scan) {
    st'.cutAt == st.cutAt && st'.cutStack == st.cutStack
  }

  // ---------------------------------------------------------------- scanning a printed value

  lemma WholeIsPrefix(s: string)
    ensures s[..|s|] == s
  {
  }

  lemma FeedLabel(st: Scan, shape: Shape, key: string, k: nat)
    requires Clean(st) && k <= |Label(shape, key)|
    ensures Quiet(st, Feed(st, Label(shape, key)[..k]))
    ensures k == |Label(shape, key)| ==> Clean(Feed(st, Label(shape, key)[..k]))
  {
    if shape.Curly? {
      FeedPrefix(st, Quote(key), ": ", k);
      if k <= |Quote(key)| {
        FeedQuote(st, key, k);
      } else {
        FeedWholeQuote(st, key);
        FeedPlain(Feed(st, Quote(key)), ": "[..k - |Quote(key)|]);
      }
    }
  }

  lemma AtomIsPlain(v: Value)
    requires Writable(v) && !v.Block? && !v.Str?
    ensures forall c | c in Print(v) :: IsPlain(c)
  {
    if !v.Num? || IsNonFinite(v.lexeme) {
      WordIsPlain(Print(v));
    }
  }

  lemma FeedAtom(st: Scan, v: Value, k: nat)
    requires Clean(st) && Writable(v) && !v.Block? && k <= |Print(v)|
    ensures Quiet(st, Feed(st, Print(v)[..k]))
    ensures k == |Print(v)| ==> Clean(Feed(st, Print(v)[..k]))
  {
    if v.Str? {
      FeedQuote(st, v.s, k);
    } else {
      AtomIsPlain(v);
      var text := Print(v);
      forall c | c in text[..k] ensures IsPlain(c) {
        assert c in text;
      }
      FeedPlain(st, text[..k]);
    }
  }

  ghost predicate Kept(st: Scan, st': Scan, whole: bool) {
    st.stack <= st'.stack && (whole ==> SameLevel(st, st'))
  }

  lemma FeedBlock(st: Scan, shape: Shape, body: string, k: nat)
    requires 0 < k <= |body| + 2
    ensures var st1 := Step(st, Opener(shape));
      Feed(st, ([Opener(shape)] + body + [Closer(shape)])[..k]) ==
        if k <= |body| + 1 then Feed(st1, body[..k - 1]) else Step(Feed(st1, body), Closer(shape))
  {
    var open, close := [Opener(shape)], [Closer(shape)];
    assert open + body + close == open + (body + close);
    FeedPrefixFrom(st, open, body + close, k);
    FeedOne(st, Opener(shape));
    FeedPrefix(Step(st, Opener(shape)), body, close, k - 1);
    if k == |body| + 2 {
      WholeIsPrefix(close);
      FeedOne(Feed(Step(st, Opener(shape)), body), Closer(shape));
    }
  }

  /** At every prefix of a printed value what was open stays open; at the end nothing else is. */
  lemma {:induction false} ScanValue(st: Scan, v: Value, k: nat)
    requires Clean(st) && Writable(v) && k <= |Print(v)|
    ensures Kept(st, Feed(st, Print(v)[..k]), k == |Print(v)|)
    ensures v.Block? && 0 < k < |Print(v)| ==> st.stack + [Opener(v.shape)] <= Feed(st, Print(v)[..k]).stack
    decreases v, 0
  {
    if !v.Block? {
      FeedAtom(st, v, k);
    } else if k > 0 {
      EntriesWritable(v);
      var body := PrintEntries(v.shape, v.entries);
      FeedBlock(st, v.shape, body, k);
      PassOpenClose(st, v.shape);
      ScanEntries(Step(st, Opener(v.shape)), v.shape, v.entries, if k - 1 <= |body| then k - 1 else |body|);
      WholeIsPrefix(body);
    }
  }

  /** One entry of a block, cut anywhere. */
  lemma {:induction false} ScanFirst(st: Scan, shape: Shape, e: Entry, k: nat)
    requires Clean(st) && Writable(e.value) && k <= |PrintEntry(shape, e)|
    ensures Kept(st, Feed(st, PrintEntry(shape, e)[..k]), k == |PrintEntry(shape, e)|)
    decreases e, 1
  {
    var lead := Label(shape, e.key);
    FeedPrefix(st, lead, Print(e.value), k);
    FeedLabel(st, shape, e.key, if k <= |lead| then k else |lead|);
    WholeIsPrefix(lead);
    if k >= |lead| {
      FeedPrefixFrom(st, lead, Print(e.value), k);
      ScanValue(Feed(st, lead), e.value, k - |lead|);
    }
  }

  lemma {:induction false} ScanEntries(st: Scan, shape: Shape, entries: seq<Entry>, k: nat)
    requires Clean(st) && AllWritable(entries) && k <= |PrintEntries(shape, entries)|
    ensures Kept(st, Feed(st, PrintEntries(shape, entries)[..k]), k == |PrintEntries(shape, entries)|)
    decreases entries, 2
  {
    hide Feed, PrintEntry, PrintEntries, Writable;
    PrintNone(st, shape);
    if entries != [] {
      var first := PrintEntry(shape, entries[0]);
      SplitFirst(shape, entries);
      if k <= |first| {
        FeedPrefix(st, first, Rest(shape, entries), k);
        ScanFirst(st, shape, entries[0], k);
      } else {
        ScanFirst(st, shape, entries[0], |first|);
        WholeIsPrefix(first);
        FeedSecond(st, shape, entries, k);
        if k - |first| >= 2 {
          ScanEntries(Feed(Feed(st, first), ", "), shape, entries[1..], k - |first| - 2);
        }
      }
    }
  }

  lemma PrintNone(st: Scan, shape: Shape)
    ensures PrintEntries(shape, []) == "" && Feed(st, ""[..0]) == st
  {
  }

  function PrintEntry(shape: Shape, e: Entry): string {
    Label(shape, e.key) + Print(e.value)
  }

  /** What is printed after the first entry. */
  function Rest(shape: Shape, entries: seq<Entry>): string
    requires entries != []
  {
    if |entries| == 1 then "" else ", " + PrintEntries(shape, entries[1..])
  }

  lemma SplitFirst(shape: Shape, entries: seq<Entry>)
    requires entries != []
    ensures PrintEntries(shape, entries) == PrintEntry(shape, entries[0]) + Rest(shape, entries)
  {
  }

  lemma FeedPrefixFrom(st: Scan, a: string, b: string, k: nat)
    requires |a| <= k <= |a + b|
    ensures Feed(st, (a + b)[..k]) == Feed(Feed(st, a), b[..k - |a|])
  {
    assert (a + b)[..k] == a + b[..k - |a|];
    FeedAppend(st, a, b[..k - |a|]);
  }

  /** Past the first entry: the comma, then the space, then the remaining entries. */
  lemma FeedSecond(st: Scan, shape: Shape, entries: seq<Entry>, k: nat)
    requires entries != [] && |PrintEntry(shape, entries[0])| < k <= |PrintEntries(shape, entries)|
    requires Clean(Feed(st, PrintEntry(shape, entries[0])))
    ensures |entries| > 1
    ensures var first := PrintEntry(shape, entries[0]);
      var st1 := Feed(st, first);
      var st2 := Feed(st1, ", ");
      var cut := if st1.stack == "" then st1 else st1.(cutAt := st1.pos, cutStack := st1.stack);
      && st2 == cut.(pos := st1.pos + 2)
      && |PrintEntries(shape, entries)| == |first| + 2 + |PrintEntries(shape, entries[1..])|
      && Feed(st, PrintEntries(shape, entries)[..k]) ==
           if k == |first| + 1 then cut.(pos := st1.pos + 1)
           else Feed(st2, PrintEntries(shape, entries[1..])[..k - |first| - 2])
  {
    var first := PrintEntry(shape, entries[0]);
    SplitFirst(shape, entries);
    var more := PrintEntries(shape, entries[1..]);
    FeedPrefixFrom(st, first, Rest(shape, entries), k);
    FeedSeparator(Feed(st, first));
    FeedPrefix(Feed(st, first), ", ", more, k - |first|);
    if k == |first| + 2 {
      assert more[..0] == "";
    }
  }

  lemma FeedSeparator(st: Scan)
    requires Clean(st)
    ensures var cut := if st.stack == "" then st else st.(cutAt := st.pos, cutStack := st.stack);
      && Feed(st, ", ") == cut.(pos := st.pos + 2)
      && Feed(st, ", "[..1]) == cut.(pos := st.pos + 1)
      && ", "[..2] == ", "
  {
    assert ", "[1..] == " " && " "[1..] == "";
    assert ", "[..1] == [','];
    FeedOne(st, ',');
    FeedOne(Step(st, ','), ' ');
  }

  // ---------------------------------------------------------------- the last comma

  lemma Lift(st: Scan, st1: Scan, st': Scan, lead: string, text: string, repaired: string)
    requires st1.pos == st.pos + |lead| && st1.stack == st.stack
    requires CutsTo(st1, st', text, repaired)
    ensures CutsTo(st, st', lead + text, lead + repaired)
  {
    var j := st'.cutAt - st1.pos;
    assert (lead + text)[..|lead| + j] == lead + text[..j];
    assert lead + text[..j] + Closers(st'.cutStack[|st.stack|..]) == lead + repaired;
  }

  lemma LiftBlock(st: Scan, st': Scan, shape: Shape, body: string, text: string, repaired: string)
    requires Clean(st) && [Opener(shape)] + body <= text
    requires CutsTo(Step(st, Opener(shape)), st', body, repaired)
    ensures CutsTo(st, st', text, [Opener(shape)] + repaired + [Closer(shape)])
  {
    var st1 := Step(st, Opener(shape));
    var inner, outer := st'.cutStack[|st1.stack|..], st'.cutStack[|st.stack|..];
    var j := st'.cutAt - st1.pos;
    assert outer[0] == Opener(shape) && outer[1..] == inner;
    assert text[..1 + j] == ([Opener(shape)] + body)[..1 + j] == [Opener(shape)] + body[..j];
    assert Closers(outer) == Closers(inner) + [Closer(shape)];
  }

  /** If the scanner met a comma in `Print(v)[..k]`, then closing at the last one prints a proper
      truncation of `v`, which keeps every one of the first `m` entries that the prefix holds whole
      together with the comma after it. */
  lemma {:induction false} CutValue(st: Scan, v: Value, k: nat, m: nat) returns (t: Option<Value>)
    requires Clean(st) && Writable(v) && k <= |Print(v)|
    ensures ValueCut(st, Feed(st, Print(v)[..k]), Print(v)[..k], t, v)
    ensures v.Block? && HoldsWhole(v.shape, v.entries, m, k - 1) ==>
      t.Some? && t.value.Block? && KeepsFirst(t.value.entries, v.entries, m)
    decreases v, 0
  {
    if v.Block? && k > 0 {
      t := CutBlock(st, v, k, m);
    } else {
      t := None;
      if !v.Block? {
        FeedAtom(st, v, k);
      }
    }
  }

  lemma {:induction false} CutBlock(st: Scan, v: Value, k: nat, m: nat) returns (t: Option<Value>)
    requires Clean(st) && Writable(v) && v.Block? && 0 < k <= |Print(v)|
    ensures ValueCut(st, Feed(st, Print(v)[..k]), Print(v)[..k], t, v)
    ensures HoldsWhole(v.shape, v.entries, m, k - 1) ==>
      t.Some? && t.value.Block? && KeepsFirst(t.value.entries, v.entries, m)
    decreases v.entries, 3
  {
    hide Feed, Step, Print, PrintEntries, EntriesCut, ValueCut, Writable;
    EntriesWritable(v);
    BlockPrints(v);
    PassOpenClose(st, v.shape);
    var body := PrintEntries(v.shape, v.entries);
    var st1 := Step(st, Opener(v.shape));
    var n := if k - 1 <= |body| then k - 1 else |body|;
    FeedBlock(st, v.shape, body, k);
    WholeIsPrefix(body);
    if m < |v.entries| {
      PrefixPrintsLess(v.shape, v.entries, m);
    }
    var ts := CutEntries(st1, v.shape, v.entries, n, m);
    if ts == [] {
      t := None;
      BlockUncut(st, Feed(st1, body[..n]), v, k, body[..n]);
    } else {
      t := Some(Block(v.shape, ts));
      BlockCut(st, Feed(st1, body[..n]), v, k, ts);
    }
    ClosedAfter(st, Feed(st1, body[..n]), Print(v)[..k], t, v);
  }

  lemma BlockPrints(v: Value)
    requires v.Block?
    ensures Print(v) == [Opener(v.shape)] + PrintEntries(v.shape, v.entries) + [Closer(v.shape)]
  {
  }

  lemma {:induction false} PrefixPrintsLess(shape: Shape, entries: seq<Entry>, m: nat)
    requires m < |entries|
    ensures 1 <= m ==> |PrintEntries(shape, entries[..m])| < |PrintEntries(shape, entries)|
  {
    if m >= 1 {
      SplitFirst(shape, entries);
      SplitFirst(shape, entries[..m]);
      assert entries[..m][1..] == entries[1..][..m - 1];
      PrefixPrintsLess(shape, entries[1..], m - 1);
    }
  }

  ghost predicate ValueCut(st: Scan, st': Scan, text: string, t: Option<Value>, v: Value) {
    if t.None? then CutUnmoved(st, st')
    else Truncation(t.value, v) && t.value != v && CutsTo(st, st', text, Print(t.value))
  }

  lemma BlockCut(st: Scan, st': Scan, v: Value, k: nat, ts: seq<Entry>)
    requires Clean(st) && v.Block? && 0 < k <= |Print(v)| && ts != []
    requires var body := PrintEntries(v.shape, v.entries);
      var n := if k - 1 <= |body| then k - 1 else |body|;
      EntriesCut(Step(st, Opener(v.shape)), st', body[..n], ts, v.shape, v.entries)
    ensures ValueCut(st, st', Print(v)[..k], Some(Block(v.shape, ts)), v)
  {
    var body := PrintEntries(v.shape, v.entries);
    var n := if k - 1 <= |body| then k - 1 else |body|;
    PrefixOfBlock(v.shape, body, k);
    LiftBlock(st, st', v.shape, body[..n], Print(v)[..k], PrintEntries(v.shape, ts));
  }

  /** The closing bracket moves no cut. */
  lemma ClosedAfter(st: Scan, st': Scan, text: string, t: Option<Value>, v: Value)
    requires v.Block? && ValueCut(st, st', text, t, v)
    ensures ValueCut(st, Step(st', Closer(v.shape)), text, t, v)
  {
    hide Truncation;
  }

  lemma BlockUncut(st: Scan, st': Scan, v: Value, k: nat, inner: string)
    requires Clean(st) && v.Block? && 0 < k <= |Print(v)|
    requires EntriesCut(Step(st, Opener(v.shape)), st', inner, [], v.shape, v.entries)
    ensures ValueCut(st, st', Print(v)[..k], None, v)
  {
  }

  lemma PrefixOfBlock(shape: Shape, body: string, k: nat)
    requires 0 < k <= |body| + 2
    ensures var n := if k - 1 <= |body| then k - 1 else |body|;
      [Opener(shape)] + body[..n] <= ([Opener(shape)] + body + [Closer(shape)])[..k]
  {
  }

  /** The first `m` entries and the comma after them lie within the first `k` characters. */
  predicate HoldsWhole(shape: Shape, entries: seq<Entry>, m: nat, k: int) {
    1 <= m < |entries| && |PrintEntries(shape, entries[..m])| < k
  }

  predicate KeepsFirst(ts: seq<Entry>, entries: seq<Entry>, m: nat) {
    m <= |ts| && m <= |entries| && ts[..m] == entries[..m]
  }

  lemma {:induction false} CutFirst(st: Scan, shape: Shape, e: Entry, k: nat) returns (t: Option<Entry>)
    requires Clean(st) && Writable(e.value) && k <= |PrintEntry(shape, e)|
    ensures t.None? ==> CutUnmoved(st, Feed(st, PrintEntry(shape, e)[..k]))
    ensures t.Some? ==> t.value.key == e.key && Truncation(t.value.value, e.value) && t.value != e
    ensures t.Some? ==> CutsTo(st, Feed(st, PrintEntry(shape, e)[..k]), PrintEntry(shape, e)[..k], PrintEntry(shape, t.value))
    decreases e, 1
  {
    hide Feed, Label, Print, Truncation, CutsTo, Writable;
    var lead, text := Label(shape, e.key), Print(e.value);
    FeedPrefix(st, lead, text, k);
    FeedLabel(st, shape, e.key, if k <= |lead| then k else |lead|);
    WholeIsPrefix(lead);
    if k <= |lead| {
      t := None;
    } else {
      var st1 := Feed(st, lead);
      var tv := CutValue(st1, e.value, k - |lead|, 0);
      if tv.None? {
        t := None;
      } else {
        t := Some(Entry(e.key, tv.value));
        Lift(st, st1, Feed(st, (lead + text)[..k]), lead, text[..k - |lead|], Print(tv.value));
        assert (lead + text)[..k] == lead + text[..k - |lead|];
      }
    }
  }

  /** What the scanner's cut means for the entries of one block. */
  ghost predicate EntriesCut(st: Scan, st': Scan, text: string, ts: seq<Entry>, shape: Shape, entries: seq<Entry>) {
    if ts == [] then CutUnmoved(st, st')
    else TruncatedEntries(ts, entries) && ts != entries && CutsTo(st, st', text, PrintEntries(shape, ts))
  }

  lemma NoneIsUnmoved(st: Scan, st': Scan, text: string, shape: Shape, entries: seq<Entry>)
    requires EntriesCut(st, st', text, [], shape, entries)
    ensures CutUnmoved(st, st')
  {
  }

  /** The comma after the first entry is the last one seen. */
  lemma CutAtFirstComma(st: Scan, st': Scan, shape: Shape, entries: seq<Entry>, text: string)
    requires |entries| > 1 && PrintEntry(shape, entries[0]) < text
    requires st'.cutAt == st.pos + |PrintEntry(shape, entries[0])| && st'.cutStack == st.stack
    ensures EntriesCut(st, st', text, [entries[0]], shape, entries)
  {
    assert st.stack[|st.stack|..] == "";
    assert text[..|PrintEntry(shape, entries[0])|] == PrintEntry(shape, entries[0]);
  }

  /** A later comma: the first entry is kept whole in front of what the rest is cut to. */
  lemma CutFurther(st: Scan, st2: Scan, st': Scan, shape: Shape, entries: seq<Entry>, ts: seq<Entry>, text: string)
    requires |entries| > 1 && ts != []
    requires st2.stack == st.stack && st2.pos == st.pos + |PrintEntry(shape, entries[0])| + 2
    requires EntriesCut(st2, st', text, ts, shape, entries[1..])
    ensures EntriesCut(st, st', PrintEntry(shape, entries[0]) + ", " + text, [entries[0]] + ts, shape, entries)
  {
    var all := [entries[0]] + ts;
    assert all[1..] == ts;
    Lift(st, st2, st', PrintEntry(shape, entries[0]) + ", ", text, PrintEntries(shape, ts));
  }

  lemma {:induction false} CutEntries(st: Scan, shape: Shape, entries: seq<Entry>, k: nat, m: nat)
    returns (ts: seq<Entry>)
    requires Clean(st) && st.stack != "" && AllWritable(entries) && k <= |PrintEntries(shape, entries)|
    ensures EntriesCut(st, Feed(st, PrintEntries(shape, entries)[..k]), PrintEntries(shape, entries)[..k], ts, shape, entries)
    ensures HoldsWhole(shape, entries, m, k) ==> KeepsFirst(ts, entries, m)
    decreases entries, 2
  {
    if entries == [] {
      ts := [];
    } else if k <= |PrintEntry(shape, entries[0])| {
      ts := CutInFirst(st, shape, entries, k);
      if 1 <= m < |entries| {
        FirstPrintsLess(shape, entries, m);
      }
    } else {
      ts := CutBeyondFirst(st, shape, entries, k, m);
    }
  }

  lemma {:induction false} CutBeyondFirst(st: Scan, shape: Shape, entries: seq<Entry>, k: nat, m: nat)
    returns (ts: seq<Entry>)
    requires Clean(st) && st.stack != "" && AllWritable(entries) && entries != []
    requires |PrintEntry(shape, entries[0])| < k <= |PrintEntries(shape, entries)|
    ensures EntriesCut(st, Feed(st, PrintEntries(shape, entries)[..k]), PrintEntries(shape, entries)[..k], ts, shape, entries)
    ensures HoldsWhole(shape, entries, m, k) ==> KeepsFirst(ts, entries, m)
    decreases entries, 1
  {
    hide Feed, PrintEntry, PrintEntries, EntriesCut, Writable, KeepsFirst;
    var first, text := PrintEntry(shape, entries[0]), PrintEntries(shape, entries)[..k];
    ScanFirst(st, shape, entries[0], |first|);
    WholeIsPrefix(first);
    FeedSecond(st, shape, entries, k);
    PastFirst(shape, entries, k);
    var st2 := Feed(Feed(st, first), ", ");
    var n := k - |first| - 2;
    ts := [];
    if n >= 0 {
      ts := CutEntries(st2, shape, entries[1..], n, if m == 0 then 0 else m - 1);
    }
    if HoldsWhole(shape, entries, m, k) {
      if m > 1 {
        MoreHoldsWhole(shape, entries, m, k);
      }
      KeepsOneMore(entries, ts, m);
    }
    if ts == [] {
      if n >= 0 {
        NoneIsUnmoved(st2, Feed(st, text), PrintEntries(shape, entries[1..])[..n], shape, entries[1..]);
      }
      CutAtFirstComma(st, Feed(st, text), shape, entries, text);
      assert [entries[0]] + ts == [entries[0]];
    } else {
      CutFurther(st, st2, Feed(st, text), shape, entries, ts, PrintEntries(shape, entries[1..])[..n]);
    }
    ts := [entries[0]] + ts;
  }

  lemma {:induction false} CutInFirst(st: Scan, shape: Shape, entries: seq<Entry>, k: nat) returns (ts: seq<Entry>)
    requires entries != [] && Clean(st) && AllWritable(entries) && k <= |PrintEntry(shape, entries[0])|
    ensures k <= |PrintEntries(shape, entries)|
    ensures EntriesCut(st, Feed(st, PrintEntries(shape, entries)[..k]), PrintEntries(shape, entries)[..k], ts, shape, entries)
    decreases entries, 1
  {
    var first := PrintEntry(shape, entries[0]);
    SplitFirst(shape, entries);
    assert PrintEntries(shape, entries)[..k] == first[..k];
    var t := CutFirst(st, shape, entries[0], k);
    ts := if t.None? then [] else [t.value];
  }

  lemma PastFirst(shape: Shape, entries: seq<Entry>, k: nat)
    requires |entries| > 1 && |PrintEntry(shape, entries[0])| < k <= |PrintEntries(shape, entries)|
    ensures PrintEntry(shape, entries[0]) < PrintEntries(shape, entries)[..k]
    ensures var n := k - |PrintEntry(shape, entries[0])| - 2;
      0 <= n <= |PrintEntries(shape, entries[1..])| ==>
      PrintEntries(shape, entries)[..k] == PrintEntry(shape, entries[0]) + ", " + PrintEntries(shape, entries[1..])[..n]
  {
    SplitFirst(shape, entries);
  }

  lemma KeepsOneMore(entries: seq<Entry>, ts: seq<Entry>, m: nat)
    requires 1 <= m < |entries| && (m > 1 ==> KeepsFirst(ts, entries[1..], m - 1))
    ensures KeepsFirst([entries[0]] + ts, entries, m)
  {
    var all := [entries[0]] + ts;
    if m == 1 {
      assert all[..1] == [entries[0]] == entries[..1];
    } else {
      assert all[..m] == [entries[0]] + ts[..m - 1];
      assert entries[..m] == [entries[0]] + entries[1..][..m - 1];
    }
  }

  lemma FirstPrintsLess(shape: Shape, entries: seq<Entry>, m: nat)
    requires 1 <= m <= |entries|
    ensures |PrintEntry(shape, entries[0])| <= |PrintEntries(shape, entries[..m])|
  {
    SplitFirst(shape, entries[..m]);
  }

  lemma MoreHoldsWhole(shape: Shape, entries: seq<Entry>, m: nat, k: nat)
    requires HoldsWhole(shape, entries, m, k) && m > 1
    ensures HoldsWhole(shape, entries[1..], m - 1, k - |PrintEntry(shape, entries[0])| - 2)
  {
    SplitFirst(shape, entries[..m]);
    assert entries[..m][1..] == entries[1..][..m - 1];
  }

  // ---------------------------------------------------------------- main results

  lemma {:induction false} TruncatedKeys(ts: seq<Entry>, es: seq<Entry>)
    requires TruncatedEntries(ts, es)
    ensures |ts| <= |es| && forall i :: 0 <= i < |ts| ==> ts[i].key == es[i].key
    decreases es
  {
    if |ts| > 1 {
      TruncatedKeys(ts[1..], es[1..]);
      forall i | 0 <= i < |ts| ensures ts[i].key == es[i].key {
        if i > 0 {
          assert ts[i] == ts[1..][i - 1] && es[i] == es[1..][i - 1];
        }
      }
    }
  }

  lemma {:induction false} TruncationWritable(t: Value, v: Value)
    requires Writable(v) && Truncation(t, v)
    ensures Writable(t)
    decreases v, 0
  {
    if t != v {
      EntriesWritable(v);
      TruncatedKeys(t.entries, v.entries);
      TruncatedEntriesWritable(t.entries, v.entries);
    }
  }

  lemma {:induction false} TruncatedEntriesWritable(ts: seq<Entry>, es: seq<Entry>)
    requires TruncatedEntries(ts, es) && AllWritable(es)
    ensures AllWritable(ts)
    decreases es, 1
  {
    if |ts| == 1 {
      TruncationWritable(ts[0].value, es[0].value);
    } else {
      TruncatedEntriesWritable(ts[1..], es[1..]);
      forall i | 0 <= i < |ts| ensures Writable(ts[i].value) {
        if i > 0 {
          assert ts[i] == ts[1..][i - 1];
        }
      }
    }
  }

  /** No proper prefix of a printed list or dict is itself a document: the scanner ends it inside a
      string or with something open. */
  lemma ProperPrefixIsRejected(v: Value, k: nat)
    requires Writable(v) && v.Block? && k < |Print(v)|
    ensures Loads(Print(v)[..k]).None?
    ensures k > 0 ==> Feed(START, Print(v)[..k]).stack != ""
  {
    if k > 0 {
      ScanValue(START, v, k);
      if Loads(Print(v)[..k]).Some? {
        AcceptedIsBalanced(Print(v)[..k]);
      }
    }
  }

  /** Cut the printed form of any list or dict at any character. A whole document is read back as it
      was. A cut one is never taken for whole; when the scanner met a comma, what comes back is a
      proper truncation of the original, and the kept text with its closers is exactly how that
      truncation prints. */
  lemma CutAnywhere(v: Value, k: nat)
    requires Writable(v) && v.Block? && k <= |Print(v)|
    ensures k == |Print(v)| ==> Salvage(Some(Print(v)[..k])) == (Some(v), Readable)
    ensures k < |Print(v)| ==>
      var text := Print(v)[..k];
      var st := Feed(START, text);
      var (obj, state) := Salvage(Some(text));
      if st.cutAt < 0 then obj == None && state == Unreadable
      else
        && state == Salvaged
        && obj.Some? && Truncation(obj.value, v) && obj.value != v
        && st.cutAt < k && text[..st.cutAt] + Closers(st.cutStack) == Print(obj.value)
  {
    hide Feed, Print, Truncation, Writable;
    var text := Print(v)[..k];
    if k == |Print(v)| {
      WholeIsPrefix(Print(v));
      RoundTrip(v);
      FirstChar(v);
    } else {
      ProperPrefixIsRejected(v, k);
      var t := CutValue(START, v, k, 0);
      var st := Feed(START, text);
      if t.Some? {
        TruncationWritable(t.value, v);
        RoundTrip(t.value);
        assert st.cutStack[0..] == st.cutStack;
      }
    }
  }

  /** Every entry written before the cut with its comma is recovered unchanged: the counts that the
      tasks write first survive. */
  lemma LeadingEntriesSurvive(v: Value, k: nat, m: nat)
    requires Writable(v) && v.Block? && 0 < k < |Print(v)|
    requires HoldsWhole(v.shape, v.entries, m, k - 1)
    ensures var (obj, state) := Salvage(Some(Print(v)[..k]));
      state == Salvaged && obj.value.Block? && KeepsFirst(obj.value.entries, v.entries, m)
  {
    CutAnywhere(v, k);
    var t := CutValue(START, v, k, m);
    var st := Feed(START, Print(v)[..k]);
    assert st.cutStack[0..] == st.cutStack;
    TruncationWritable(t.value, v);
    RoundTrip(t.value);
  }
}
