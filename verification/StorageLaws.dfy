/** What `reduce_result_for_storage` guarantees of every result and every cap. */
module StorageLaws {
  import opened Json
  import opened JsonRoundTrip
  import opened BlobSalvage
  import opened ResultStorage

  // ---------------------------------------------------------------- numbers it writes

  lemma {:induction false} AllDigitsSkipped(s: string)
    requires forall c | c in s :: IsDigit(c)
    ensures SkipDigits(s) == ""
  {
    if s != "" {
      assert s[0] in s && forall c | c in s[1..] :: c in s;
      AllDigitsSkipped(s[1..]);
    }
  }

  lemma {:induction false} DecimalLeads(n: nat)
    ensures n > 0 ==> Decimal(n)[0] != '0'
    ensures n == 0 ==> Decimal(n) == "0"
  {
    if n >= 10 {
      DecimalLeads(n / 10);
    }
  }

  lemma NumberIsWritable(n: nat)
    ensures Writable(Number(n))
  {
    var s := Decimal(n);
    DecimalLeads(n);
    AllDigitsSkipped(s);
    assert s[0] in s;
    assert IsNumber(s);
    assert forall c | c in s :: IsNumeric(c);
  }

  // ---------------------------------------------------------------- every pass builds a proper dict

  lemma {:induction false} FieldValuesAreLexemes(items: seq<Entry>, field: string)
    requires forall i :: 0 <= i < |items| ==> WellFormed(items[i].value)
    ensures forall i :: 0 <= i < |FieldValues(items, field)| ==> IsLexeme(FieldValues(items, field)[i])
  {
    if items != [] {
      FieldValuesAreLexemes(items[1..], field);
      var it := items[0].value;
      if it.Block? {
        GetHolds(it.entries, field, WellFormed);
      }
    }
  }

  lemma {:induction false} LeastIsLexeme(less: Less, best: string, xs: seq<string>)
    requires IsLexeme(best) && forall i :: 0 <= i < |xs| ==> IsLexeme(xs[i])
    ensures IsLexeme(Least(less, best, xs)) && IsLexeme(Greatest(less, best, xs))
    decreases |xs|
  {
    if xs != [] {
      LeastIsLexeme(less, if less(xs[0], best) then xs[0] else best, xs[1..]);
      LeastIsLexeme(less, if less(best, xs[0]) then xs[0] else best, xs[1..]);
    }
  }

  lemma {:induction false} DigestHolds(items: seq<Entry>, fields: seq<string>, less: Less)
    requires forall i :: 0 <= i < |items| ==> WellFormed(items[i].value)
    ensures Holds(Digest(items, fields, less), Writable)
  {
    if fields != [] {
      var field := fields[|fields| - 1];
      var before := Digest(items, fields[..|fields| - 1], less);
      DigestHolds(items, fields[..|fields| - 1], less);
      var values := FieldValues(items, field);
      FieldValuesAreLexemes(items, field);
      if values != [] {
        LeastIsLexeme(less, values[0], values[1..]);
        var low := Num(Least(less, values[0], values[1..]));
        PutHolds(before, field + "_min", low, Writable);
        PutHolds(Put(before, field + "_min", low), field + "_max",
                 Num(Greatest(less, values[0], values[1..])), Writable);
      }
    }
  }

  lemma DescribeIsWritable(v: Value, less: Less)
    requires WellFormed(v) && v.Block?
    ensures Writable(Describe(v, less))
  {
    hide Writable, Number, PutAll, Digest, Holds;
    EntriesWellFormed(v);
    if v.shape.Square? {
      var head := [Entry("omitted", Str("list")), Entry("items", Number(|v.entries|))];
      DescribeHolds("list", "items", |v.entries|);
      DigestHolds(v.entries, DIGEST_FIELDS, less);
      DictIsWritable(Digest(v.entries, DIGEST_FIELDS, less));
      PutAllHolds(head, Digest(v.entries, DIGEST_FIELDS, less), Writable);
      DictIsWritable(PutAll(head, Digest(v.entries, DIGEST_FIELDS, less)));
    } else {
      DescribeHolds("dict", "keys", |v.entries|);
      DictIsWritable([Entry("omitted", Str("dict")), Entry("keys", Number(|v.entries|))]);
    }
  }

  lemma EntriesWellFormed(v: Value)
    requires WellFormed(v) && v.Block?
    ensures forall i :: 0 <= i < |v.entries| ==> WellFormed(v.entries[i].value)
  {
  }

  lemma DescribeHolds(kind: string, key: string, n: nat)
    requires key != "omitted"
    ensures Holds([Entry("omitted", Str(kind)), Entry(key, Number(n))], Writable)
  {
    NumberIsWritable(n);
  }

  lemma DictIsWritable(d: Dict)
    requires Holds(d, Writable)
    ensures Writable(DictValue(d)) && forall i :: 0 <= i < |d| ==> Writable(d[i].value)
  {
  }

  lemma ShrinkIsWellFormed(v: Value, less: Less)
    requires WellFormed(v)
    ensures WellFormed(Shrink(v, less))
    ensures Encodable(Shrink(v, less)) <==> !v.Foreign?
  {
    if v.Block? {
      DescribeIsWritable(v, less);
    }
  }

  lemma {:induction false} ShrinkAllHolds(d: Dict, less: Less)
    requires Holds(d, WellFormed)
    ensures Holds(ShrinkAll(d, less), WellFormed)
  {
    if d != [] {
      var before, last := d[..|d| - 1], d[|d| - 1];
      ShrinkAllHolds(before, less);
      ShrinkIsWellFormed(last.value, less);
      PutHolds(ShrinkAll(before, less), last.key, Shrink(last.value, less), WellFormed);
    }
  }

  lemma MarkHolds(d: Dict, n: nat)
    requires Holds(d, WellFormed)
    ensures Holds(Mark(d, n), WellFormed)
  {
    NumberIsWritable(n);
    PutHolds(d, "truncated", Bool(true), WellFormed);
    PutHolds(Put(d, "truncated", Bool(true)), "original_bytes", Number(n), WellFormed);
  }

  lemma {:induction false} SelectHolds(d: Dict, keys: seq<string>)
    requires Holds(d, WellFormed)
    ensures Holds(Select(d, keys), WellFormed)
  {
    if keys != [] {
      var before, key := keys[..|keys| - 1], keys[|keys| - 1];
      SelectHolds(d, before);
      GetHolds(d, key, WellFormed);
      if Get(d, key).Some? {
        PutHolds(Select(d, before), key, Get(d, key).value, WellFormed);
      }
    }
  }

  lemma Pass2Holds(reduced: Dict, fields: nat, n: nat)
    requires Holds(reduced, WellFormed)
    ensures Holds(Pass2(reduced, fields, n), WellFormed)
  {
    SelectHolds(reduced, KEPT_FIELDS);
    MarkHolds(Select(reduced, KEPT_FIELDS), n);
    PutHolds(Mark(Select(reduced, KEPT_FIELDS), n), "summary",
             Str(Decimal(fields) + " fields dropped; result too large to store"), WellFormed);
  }

  lemma FloorIsWritable(n: nat)
    ensures Writable(DictValue(Floor(n))) && WellFormed(DictValue(Floor(n)))
  {
    NumberIsWritable(n);
  }

  lemma WrapHolds(result: Value)
    requires WellFormed(result)
    ensures Holds(Wrap(result), WellFormed)
  {
  }

  lemma ChosenIsWellFormed(result: Value, cap: int, repr: Repr, less: Less)
    requires WellFormed(result)
    ensures WellFormed(DictValue(Chosen(result, cap, repr, less)))
  {
    hide *;
    var d, n := Wrap(result), OriginalBytes(result, repr);
    WrapHolds(result);
    Pass1Holds(d, n, less);
    Pass2Holds(Pass1(d, n, less), |d|, n);
    HoldsIsWellFormed(d);
    HoldsIsWellFormed(Pass1(d, n, less));
    HoldsIsWellFormed(Pass2(Pass1(d, n, less), |d|, n));
    FloorIsWritable(n);
    OneOfFour(result, cap, repr, less);
  }

  lemma Pass1Holds(d: Dict, n: nat, less: Less)
    requires Holds(d, WellFormed)
    ensures Holds(Pass1(d, n, less), WellFormed)
  {
    ShrinkAllHolds(d, less);
    MarkHolds(ShrinkAll(d, less), n);
  }

  lemma HoldsIsWellFormed(d: Dict)
    requires Holds(d, WellFormed)
    ensures WellFormed(DictValue(d))
  {
  }

  lemma OneOfFour(result: Value, cap: int, repr: Repr, less: Less)
    ensures var d, n := Wrap(result), OriginalBytes(result, repr);
      Chosen(result, cap, repr, less) in [d, Pass1(d, n, less), Pass2(Pass1(d, n, less), |d|, n), Floor(n)]
  {
  }

  lemma StoredIsWritable(v: Value, repr: Repr)
    requires WellFormed(v)
    ensures Writable(Stored(v, repr))
  {
    if !Encodable(v) {
      assert DistinctKeys(Envelope(v, repr).entries);
    }
  }

  // ---------------------------------------------------------------- it always reads back

  function Text(result: Value, cap: int, repr: Repr, less: Less): string {
    Dumps(DictValue(Chosen(result, cap, repr, less)), repr)
  }

  /** Whatever is stored is a complete document: `salvage_json` reads it as it is, and gets back
      exactly the dict that was chosen (or its envelope). */
  lemma AlwaysReadable(result: Value, cap: int, repr: Repr, less: Less)
    requires WellFormed(result)
    ensures Salvage(Some(Text(result, cap, repr, less))) ==
      (Some(Stored(DictValue(Chosen(result, cap, repr, less)), repr)), Readable)
  {
    var v := DictValue(Chosen(result, cap, repr, less));
    ChosenIsWellFormed(result, cap, repr, less);
    StoredIsWritable(v, repr);
    RoundTrip(Stored(v, repr));
    FirstChar(Stored(v, repr));
  }

  // ---------------------------------------------------------------- it fits

  predicate IsPrintable(s: string) {
    forall c | c in s :: ' ' <= c <= '~' && c != QUOTE && c != BACKSLASH
  }

  lemma PrintableEscape(c: char)
    requires ' ' <= c <= '~' && c != QUOTE && c != BACKSLASH
    ensures Escape(c) == [c]
  {
  }

  lemma {:induction false} PrintableIsVerbatim(s: string)
    requires IsPrintable(s)
    ensures EscapeAll(s) == s
  {
    if s != "" {
      assert s[0] in s && forall c | c in s[1..] :: c in s;
      PrintableEscape(s[0]);
      PrintableIsVerbatim(s[1..]);
      assert [s[0]] + s[1..] == s;
    }
  }

  lemma QuoteVerbatim(s: string)
    requires IsPrintable(s)
    ensures Quote(s) == "\"" + s + "\""
  {
    PrintableIsVerbatim(s);
  }

  lemma EntryLength(key: string, v: Value, rest: Dict)
    requires IsPrintable(key)
    ensures |PrintEntries(Curly, [Entry(key, v)] + rest)| ==
      |key| + 4 + |Print(v)| + if rest == [] then 0 else 2 + |PrintEntries(Curly, rest)|
  {
    QuoteVerbatim(key);
    var d := [Entry(key, v)] + rest;
    assert d[1..] == rest;
    assert Label(Curly, key) == "\"" + key + "\"" + ": ";
  }

  lemma ThreeEntries(k1: string, v1: Value, k2: string, v2: Value, k3: string, s3: string)
    requires IsPrintable(k1) && IsPrintable(k2) && IsPrintable(k3) && IsPrintable(s3)
    ensures |Print(DictValue([Entry(k1, v1), Entry(k2, v2), Entry(k3, Str(s3))]))| ==
      |k1| + |Print(v1)| + |k2| + |Print(v2)| + |k3| + |s3| + 20
  {
    var e1, e2, e3 := Entry(k1, v1), Entry(k2, v2), Entry(k3, Str(s3));
    QuoteVerbatim(s3);
    EntryLength(k3, Str(s3), []);
    assert [e3] + [] == [e3];
    EntryLength(k2, v2, [e3]);
    assert [e2] + [e3] == [e2, e3];
    EntryLength(k1, v1, [e2, e3]);
    assert [e1] + [e2, e3] == [e1, e2, e3];
  }

  lemma FloorTexts(n: nat)
    ensures IsPrintable("truncated") && IsPrintable("original_bytes") && IsPrintable("summary")
    ensures IsPrintable("result too large to store")
    ensures Print(Bool(true)) == "true" && Print(Number(n)) == Decimal(n)
  {
  }

  lemma FloorLength(n: nat)
    ensures |Print(DictValue(Floor(n)))| == 79 + |Decimal(n)|
  {
    hide IsPrintable, Print, Number;
    FloorTexts(n);
    ThreeEntries("truncated", Bool(true), "original_bytes", Number(n), "summary", "result too large to store");
  }

  lemma WhatIsDumped(result: Value, d: Dict, repr: Repr)
    ensures OriginalBytes(result, repr) == |Dumps(DictValue(Wrap(result)), repr)|
    ensures Encodable(DictValue(d)) ==> Dumps(DictValue(d), repr) == Print(DictValue(d))
  {
  }

  /** The stored text is no longer than the cap, or than the fixed floor when the cap is below that;
      a dump that fits is stored unchanged. */
  lemma FitsTheCap(result: Value, cap: int, repr: Repr, less: Less)
    requires WellFormed(result)
    ensures var n := OriginalBytes(result, repr);
      && |Text(result, cap, repr, less)| <= (if cap >= 79 + |Decimal(n)| then cap else 79 + |Decimal(n)|)
      && (n <= cap ==> Text(result, cap, repr, less) == Dumps(DictValue(Wrap(result)), repr))
  {
    hide Pass1, Pass2, Wrap, Dumps, OriginalBytes, Floor, Print, Encodable;
    var n := OriginalBytes(result, repr);
    WhatIsDumped(result, Floor(n), repr);
    var chosen := Chosen(result, cap, repr, less);
    if chosen == Floor(n) {
      FloorLength(n);
      FloorIsWritable(n);
    } else {
      assert |Dumps(DictValue(chosen), repr)| <= cap;
    }
  }

  // ---------------------------------------------------------------- it says what was dropped

  lemma {:induction false} GetShrinkAll(d: Dict, less: Less, k: string)
    requires DistinctKeys(d)
    ensures Get(ShrinkAll(d, less), k) ==
      if Get(d, k).Some? then Some(Shrink(Get(d, k).value, less)) else None
  {
    if d != [] {
      var before, last := d[..|d| - 1], d[|d| - 1];
      GetShrinkAll(before, less, k);
      GetPut(ShrinkAll(before, less), last.key, Shrink(last.value, less), k);
      GetLast(d, k);
    }
  }

  lemma {:induction false} GetLast(d: Dict, k: string)
    requires d != [] && DistinctKeys(d)
    ensures Get(d, k) == if d[|d| - 1].key == k then Some(d[|d| - 1].value) else Get(d[..|d| - 1], k)
  {
    if |d| > 1 {
      GetLast(d[1..], k);
      assert d[1..][..|d| - 2] == d[..|d| - 1][1..];
    }
  }

  lemma {:induction false} GetSelect(d: Dict, keys: seq<string>, k: string)
    ensures Get(Select(d, keys), k) == if k in keys then Get(d, k) else None
  {
    if keys != [] {
      var before, key := keys[..|keys| - 1], keys[|keys| - 1];
      GetSelect(d, before, k);
      if Get(d, key).Some? {
        GetPut(Select(d, before), key, Get(d, key).value, k);
      }
      assert keys == before + [key];
    }
  }

  lemma {:induction false} GetIndex(d: Dict, i: nat)
    requires i < |d| && DistinctKeys(d)
    ensures Get(d, d[i].key) == Some(d[i].value)
  {
    if i > 0 {
      GetIndex(d[1..], i - 1);
    }
  }

  lemma {:induction false} GetFinds(d: Dict, k: string) returns (i: nat)
    requires Get(d, k).Some?
    ensures i < |d| && d[i].key == k && d[i].value == Get(d, k).value
  {
    if d[0].key == k {
      i := 0;
    } else {
      var j := GetFinds(d[1..], k);
      i := j + 1;
    }
  }

  predicate IsMark(k: string) {
    k == "truncated" || k == "original_bytes"
  }

  lemma GetMark(d: Dict, n: nat, k: string)
    ensures Get(Mark(d, n), k) ==
      if k == "original_bytes" then Some(Number(n)) else if k == "truncated" then Some(Bool(true)) else Get(d, k)
  {
    GetPut(d, "truncated", Bool(true), k);
    GetPut(Put(d, "truncated", Bool(true)), "original_bytes", Number(n), k);
  }

  /** Pass 1 keeps every field: its value if scalar, a count of what it held if a container. */
  lemma GetPass1(d: Dict, n: nat, less: Less, k: string)
    requires DistinctKeys(d)
    ensures Get(Pass1(d, n, less), k) ==
      if k == "original_bytes" then Some(Number(n)) else if k == "truncated" then Some(Bool(true))
      else if Get(d, k).Some? then Some(Shrink(Get(d, k).value, less)) else None
  {
    GetMark(ShrinkAll(d, less), n, k);
    GetShrinkAll(d, less, k);
  }

  lemma GetPass2(reduced: Dict, fields: nat, n: nat, k: string)
    ensures Get(Pass2(reduced, fields, n), k) ==
      if k == "summary" then Some(Str(Decimal(fields) + " fields dropped; result too large to store"))
      else if k == "original_bytes" then Some(Number(n)) else if k == "truncated" then Some(Bool(true))
      else if k in KEPT_FIELDS then Get(reduced, k) else None
  {
    GetPut(Mark(Select(reduced, KEPT_FIELDS), n), "summary",
           Str(Decimal(fields) + " fields dropped; result too large to store"), k);
    GetMark(Select(reduced, KEPT_FIELDS), n, k);
    GetSelect(reduced, KEPT_FIELDS, k);
  }

  /** A field whose own value is an object `json.dumps` refuses. */
  predicate ForeignAt(d: Dict, k: string) {
    Get(d, k).Some? && Get(d, k).value.Foreign?
  }

  /** Such a field other than the two that pass 1 overwrites. */
  predicate ForeignField(d: Dict) {
    exists i :: 0 <= i < |d| && d[i].value.Foreign? && !IsMark(d[i].key)
  }

  predicate ForeignVerdict(d: Dict) {
    exists i :: 0 <= i < |KEPT_FIELDS| && ForeignAt(d, KEPT_FIELDS[i])
  }

  lemma Pass1Encodable(d: Dict, n: nat, less: Less)
    requires Holds(d, WellFormed)
    ensures Encodable(DictValue(Pass1(d, n, less))) <==> !ForeignField(d)
  {
    var r := Pass1(d, n, less);
    ShrinkAllHolds(d, less);
    MarkHolds(ShrinkAll(d, less), n);
    if ForeignField(d) {
      var i :| 0 <= i < |d| && d[i].value.Foreign? && !IsMark(d[i].key);
      GetIndex(d, i);
      GetPass1(d, n, less, d[i].key);
      var j := GetFinds(r, d[i].key);
    } else {
      forall j | 0 <= j < |r| ensures Encodable(r[j].value) {
        var k := r[j].key;
        GetIndex(r, j);
        GetPass1(d, n, less, k);
        if !IsMark(k) {
          var i := GetFinds(d, k);
          ShrinkIsWellFormed(d[i].value, less);
        }
      }
    }
  }

  lemma Pass2Encodable(d: Dict, n: nat, less: Less)
    requires Holds(d, WellFormed)
    ensures Encodable(DictValue(Pass2(Pass1(d, n, less), |d|, n))) <==> !ForeignVerdict(d)
  {
    hide Pass1, Pass2, Put, Get, ShrinkAll, Mark;
    var r := Pass1(d, n, less);
    var keep := Pass2(r, |d|, n);
    Pass1Holds(d, n, less);
    Pass2Holds(r, |d|, n);
    if ForeignVerdict(d) {
      var i :| 0 <= i < |KEPT_FIELDS| && ForeignAt(d, KEPT_FIELDS[i]);
      var k := KEPT_FIELDS[i];
      assert k != "summary" && !IsMark(k);
      GetPass2(r, |d|, n, k);
      GetPass1(d, n, less, k);
      var j := GetFinds(keep, k);
    } else {
      forall j | 0 <= j < |keep| ensures Encodable(keep[j].value) {
        var k := keep[j].key;
        GetIndex(keep, j);
        GetPass2(r, |d|, n, k);
        GetPass1(d, n, less, k);
        if k in KEPT_FIELDS {
          var i :| 0 <= i < |KEPT_FIELDS| && KEPT_FIELDS[i] == k;
          assert !ForeignAt(d, KEPT_FIELDS[i]);
          var m := GetFinds(d, k);
          ShrinkIsWellFormed(d[m].value, less);
        }
      }
    }
  }

  /** The one way a reduced result can lose its marks: pass 1 (or pass 2) kept a field that cannot be
      encoded, so `_dumps` fell back to its envelope, and the envelope fits the cap. */
  predicate EnvelopeTaken(result: Value, cap: int, repr: Repr, less: Less) {
    var d, n := Wrap(result), OriginalBytes(result, repr);
    var reduced := Pass1(d, n, less);
    if |Dumps(DictValue(reduced), repr)| <= cap then ForeignField(d)
    else |Dumps(DictValue(Pass2(reduced, |d|, n)), repr)| <= cap && ForeignVerdict(d)
  }

  predicate SaysTruncated(o: Dict, originalBytes: nat) {
    Get(o, "truncated") == Some(Bool(true)) && Get(o, "original_bytes") == Some(Number(originalBytes))
  }

  /** Every form but the full one carries the marks, until `_dumps` writes it. */
  lemma ChosenSaysTruncated(result: Value, cap: int, repr: Repr, less: Less)
    requires WellFormed(result)
    ensures OriginalBytes(result, repr) > cap ==>
      SaysTruncated(Chosen(result, cap, repr, less), OriginalBytes(result, repr))
  {
    hide Pass1, Pass2, Get, Wrap, Dumps, OriginalBytes, Floor;
    var d, n := Wrap(result), OriginalBytes(result, repr);
    WrapHolds(result);
    GetPass1(d, n, less, "truncated");
    GetPass1(d, n, less, "original_bytes");
    GetPass2(Pass1(d, n, less), |d|, n, "truncated");
    GetPass2(Pass1(d, n, less), |d|, n, "original_bytes");
    FloorHasMarks(n);
  }

  lemma ChosenEncodable(result: Value, cap: int, repr: Repr, less: Less)
    requires WellFormed(result)
    ensures OriginalBytes(result, repr) > cap ==>
      (Encodable(DictValue(Chosen(result, cap, repr, less))) <==> !EnvelopeTaken(result, cap, repr, less))
  {
    hide Pass1, Pass2, Wrap, Dumps, OriginalBytes, Floor, Encodable, ForeignField, ForeignVerdict;
    var d, n := Wrap(result), OriginalBytes(result, repr);
    WrapHolds(result);
    Pass1Encodable(d, n, less);
    Pass2Encodable(d, n, less);
    FloorIsWritable(n);
  }

  lemma EnvelopeHidesTheMarks(d: Dict, n: nat, repr: Repr)
    requires SaysTruncated(d, n)
    ensures var stored := Stored(DictValue(d), repr);
            stored.Block? && (SaysTruncated(stored.entries, n) <==> Encodable(DictValue(d)))
  {
    EnvelopeHasNoMark(DictValue(d), repr);
  }

  /** A result that did not fit says so, with its true original length, exactly when no envelope was
      stored in place of a reduced dict. */
  lemma SaysWhatWasDropped(result: Value, cap: int, repr: Repr, less: Less)
    requires WellFormed(result)
    ensures OriginalBytes(result, repr) > cap ==>
      var obj := Salvage(Some(Text(result, cap, repr, less))).0;
      && obj.Some? && obj.value.Block?
      && (SaysTruncated(obj.value.entries, OriginalBytes(result, repr)) <==> !EnvelopeTaken(result, cap, repr, less))
  {
    hide *;
    if OriginalBytes(result, repr) > cap {
      AlwaysReadable(result, cap, repr, less);
      ChosenSaysTruncated(result, cap, repr, less);
      ChosenEncodable(result, cap, repr, less);
      EnvelopeHidesTheMarks(Chosen(result, cap, repr, less), OriginalBytes(result, repr), repr);
    }
  }

  lemma EnvelopeHasNoMark(v: Value, repr: Repr)
    ensures Get(Envelope(v, repr).entries, "truncated") == None
  {
    var d := Envelope(v, repr).entries;
    assert |d[0].key| == 6 && |d[1].key| == 4 && |"truncated"| == 9;
    assert d[0].key != "truncated" && d[1].key != "truncated";
    assert Get(d, "truncated") == Get(d[1..], "truncated") == Get(d[1..][1..], "truncated");
  }

  lemma FloorHasMarks(n: nat)
    ensures SaysTruncated(Floor(n), n)
  {
    assert Floor(n)[1..][0] == Floor(n)[1];
  }

  /** In particular it does whenever no top-level field is foreign, as for any decoded JSON. */
  lemma EncodableFieldsSuffice(result: Value, cap: int, repr: Repr, less: Less)
    requires WellFormed(result) && !ForeignField(Wrap(result)) && !ForeignVerdict(Wrap(result))
    ensures !EnvelopeTaken(result, cap, repr, less)
  {
  }

  /** `str(obj)[:300]`. */
  function Clip(text: string): string {
    if |text| <= SCALAR_STRING_CAP then text else text[..SCALAR_STRING_CAP]
  }

  lemma EnvelopeLength(v: Value, repr: Repr)
    ensures |Print(Envelope(v, repr))| == 33 + |EscapeAll(Clip(repr(v)))|
  {
    hide *;
    var text := Clip(repr(v));
    var last := [Entry("repr", Str(text))];
    EnvelopeShape(v, repr);
    PlainWords();
    PrintLength([Entry("status", Str("unknown"))] + last, text);
    PrintLength([], "unknown");
    PrintableIsVerbatim("unknown");
    EntryLength("repr", Str(text), []);
    EntryLength("status", Str("unknown"), last);
    assert last + [] == last;
  }

  lemma EnvelopeShape(v: Value, repr: Repr)
    ensures Envelope(v, repr) == DictValue([Entry("status", Str("unknown"))] + [Entry("repr", Str(Clip(repr(v))))])
  {
  }

  lemma PlainWords()
    ensures IsPrintable("repr") && IsPrintable("status") && IsPrintable("unknown") && IsPrintable("{'rows': ['")
  {
  }

  lemma PrintLength(d: Dict, s: string)
    ensures |Print(DictValue(d))| == 2 + |PrintEntries(Curly, d)| && |Print(Str(s))| == |EscapeAll(s)| + 2
  {
  }

  // ---------------------------------------------------------------- a result that loses its marks

  const RESULT_STORAGE_CAP_BYTES := 2000

  /** Python's `str` where no string needs escaping; a foreign object is a set of one number. */
  function PyStr(v: Value): string {
    match v
    case Null => "None"
    case Bool(b) => if b then "True" else "False"
    case Num(lexeme) => lexeme
    case Str(s) => PyQuote(s)
    case Block(shape, entries) => [Opener(shape)] + PyEntries(shape, entries) + [Closer(shape)]
    case Foreign(id) => "{" + Decimal(id) + "}"
  }

  function PyQuote(s: string): string {
    "'" + s + "'"
  }

  function PyEntries(shape: Shape, entries: seq<Entry>): string
    decreases entries
  {
    if entries == [] then ""
    else
      var first := (if shape.Curly? then PyQuote(entries[0].key) + ": " else "") + PyStr(entries[0].value);
      if |entries| == 1 then first else first + ", " + PyEntries(shape, entries[1..])
  }

  const EMOJI := '\U{1F600}'
  const LONG := seq(300, _ => EMOJI)

  /** `{"rows": ["..."], "at": {1}}`: one row of three hundred emoji, and a set, which `json.dumps` refuses. */
  const ROWS := Block(Square, [Entry("", Str(LONG))])
  const WITNESS := DictValue([Entry("rows", ROWS), Entry("at", Foreign(1))])

  lemma WitnessIsForeign()
    ensures WellFormed(WITNESS) && !Encodable(WITNESS) && ForeignField(WITNESS.entries)
    ensures OriginalBytes(WITNESS, PyStr) == |Print(Envelope(WITNESS, PyStr))|
  {
    var d := WITNESS.entries;
    assert |d[0].key| == 4 && |d[1].key| == 2;
    assert !Encodable(d[1].value);
    assert d[1].value.Foreign? && !IsMark(d[1].key) by {
      assert |"truncated"| == 9 && |"original_bytes"| == 14;
    }
  }

  lemma {:induction false} EmojiEscapeLong(n: nat)
    ensures |EscapeAll(seq(n, _ => EMOJI))| == 12 * n
  {
    if n > 0 {
      var s := seq(n, _ => EMOJI);
      assert |Escape(EMOJI)| == 12;
      hide Escape;
      assert s[1..] == seq(n - 1, _ => EMOJI);
      EmojiEscapeLong(n - 1);
    }
  }

  lemma {:induction false} EscapeAppends(a: string, b: string)
    ensures EscapeAll(a + b) == EscapeAll(a) + EscapeAll(b)
  {
    if a == "" {
      assert a + b == b;
    } else {
      assert (a + b)[1..] == a[1..] + b;
      EscapeAppends(a[1..], b);
    }
  }

  lemma {:induction false} EscapeIsBounded(s: string)
    ensures |EscapeAll(s)| <= 12 * |s|
  {
    if s != "" {
      EscapeIsBounded(s[1..]);
    }
  }

  lemma RowsText()
    ensures PyStr(ROWS) == "['" + LONG + "']"
    ensures PyStr(WITNESS) == "{" + PyEntries(Curly, WITNESS.entries) + "}"
  {
    assert ROWS.entries == [Entry("", Str(LONG))];
  }

  /** The text begins with the row, whatever comes after it. */
  lemma WitnessBegins() returns (more: string)
    ensures PyEntries(Curly, WITNESS.entries) == "'rows': " + PyStr(ROWS) + more
  {
    hide PyStr;
    more := ", " + PyEntries(Curly, WITNESS.entries[1..]);
  }

  lemma ClipLong(more: string)
    ensures Clip("{" + ("'rows': " + ("['" + LONG + "']") + more) + "}") == "{'rows': ['" + seq(289, _ => EMOJI)
  {
    var lead := "{'rows': ['";
    assert |lead| == 11 && LONG[..289] == seq(289, _ => EMOJI);
    var tail := "']" + more + "}";
    assert "{" + ("'rows': " + ("['" + LONG + "']") + more) + "}" == lead + LONG + tail;
    assert (lead + LONG + tail)[..300] == lead + LONG[..289];
  }

  /** What Python makes of the witness, as far as the envelope keeps it. */
  lemma WitnessText()
    ensures Clip(PyStr(WITNESS)) == "{'rows': ['" + seq(289, _ => EMOJI)
  {
    hide *;
    RowsText();
    var more := WitnessBegins();
    ClipLong(more);
  }

  lemma WitnessIsOversize()
    ensures OriginalBytes(WITNESS, PyStr) == 3512
  {
    hide *;
    WitnessIsForeign();
    EnvelopeLength(WITNESS, PyStr);
    WitnessText();
    var lead := "{'rows': ['";
    EscapeAppends(lead, seq(289, _ => EMOJI));
    EmojiEscapeLong(289);
    PlainWords();
    PrintableIsVerbatim(lead);
  }

  lemma {:induction false} PutFresh(d: Dict, key: string, value: Value)
    requires !HasKey(d, key)
    ensures Put(d, key, value) == d + [Entry(key, value)]
  {
    if d != [] {
      assert d[0].key != key;
      assert forall i :: 0 <= i < |d| - 1 ==> d[1..][i] == d[i + 1];
      PutFresh(d[1..], key, value);
    }
  }

  lemma RowsDescribed(less: Less)
    ensures Describe(ROWS, less) == DictValue([Entry("omitted", Str("list")), Entry("items", Number(1))])
  {
    assert ROWS.entries[1..] == [];
    assert forall field :: FieldValues(ROWS.entries, field) == [];
    assert DIGEST_FIELDS[..2] == ["days_until_due", "stale_score"] && DIGEST_FIELDS[..2][..1] == ["days_until_due"];
    assert Digest(ROWS.entries, ["days_until_due"], less) == [];
    assert Digest(ROWS.entries, ["days_until_due", "stale_score"], less) == [];
  }

  /** Pass 1 on the witness: a count for the row, the set as it is, and the two marks. */
  lemma WitnessReduced(n: nat, less: Less)
    ensures Pass1(WITNESS.entries, n, less) ==
      [Entry("rows", DictValue([Entry("omitted", Str("list")), Entry("items", Number(1))])), Entry("at", Foreign(1)),
       Entry("truncated", Bool(true)), Entry("original_bytes", Number(n))]
  {
    var d := WITNESS.entries;
    RowsDescribed(less);
    assert d[..1] == [d[0]] && d[..1][..0] == [];
    var one := [Entry("rows", Describe(ROWS, less))];
    assert ShrinkAll(d[..0], less) == [];
    assert ShrinkAll(d[..1], less) == one;
    var two := one + [Entry("at", Foreign(1))];
    var three := two + [Entry("truncated", Bool(true))];
    assert |"rows"| == 4 && |"at"| == 2 && |"truncated"| == 9 && |"original_bytes"| == 14;
    PutFresh(one, "at", Foreign(1));
    assert ShrinkAll(d, less) == two;
    PutFresh(two, "truncated", Bool(true));
    PutFresh(three, "original_bytes", Number(n));
  }

  lemma PyEntryLength(key: string, v: Value, rest: Dict)
    ensures |PyEntries(Curly, [Entry(key, v)] + rest)| ==
      |key| + 4 + |PyStr(v)| + if rest == [] then 0 else 2 + |PyEntries(Curly, rest)|
  {
    var d := [Entry(key, v)] + rest;
    assert d[1..] == rest;
  }

  lemma WitnessReducedIsShort(less: Less)
    ensures |PyStr(DictValue(Pass1(WITNESS.entries, 3512, less)))| <= 150
  {
    hide PyEntries, Pass1;
    WitnessReduced(3512, less);
    var counts := [Entry("omitted", Str("list")), Entry("items", Number(1))];
    PyEntryLength("items", Number(1), []);
    PyEntryLength("omitted", Str("list"), [counts[1]]);
    assert [counts[0]] + [counts[1]] == counts && [counts[1]] + [] == [counts[1]];
    assert |PyStr(DictValue(counts))| == 2 + |PyEntries(Curly, counts)|;
    var last := [Entry("original_bytes", Number(3512))];
    var marks := [Entry("truncated", Bool(true))] + last;
    var at := [Entry("at", Foreign(1))] + marks;
    PyEntryLength("original_bytes", Number(3512), []);
    PyEntryLength("truncated", Bool(true), last);
    PyEntryLength("at", Foreign(1), marks);
    PyEntryLength("rows", DictValue(counts), at);
    assert last + [] == last;
    assert Pass1(WITNESS.entries, 3512, less) == [Entry("rows", DictValue(counts))] + at;
  }

  /** So the documented promise does fail: under the cap the scheduler uses and with the texts Python gives,
      this result does not fit, and the row stored for it no longer says that anything was dropped. */
  lemma LosesItsMarks(less: Less)
    ensures OriginalBytes(WITNESS, PyStr) > RESULT_STORAGE_CAP_BYTES
    ensures var obj := Salvage(Some(Text(WITNESS, RESULT_STORAGE_CAP_BYTES, PyStr, less))).0;
      obj.Some? && obj.value.Block? && !SaysTruncated(obj.value.entries, OriginalBytes(WITNESS, PyStr))
  {
    WitnessIsForeign();
    WitnessIsOversize();
    var reduced := DictValue(Pass1(WITNESS.entries, 3512, less));
    WitnessReducedIsShort(less);
    Pass1Encodable(WITNESS.entries, 3512, less);
    EnvelopeLength(reduced, PyStr);
    EscapeIsBounded(PyStr(reduced));
    SaysWhatWasDropped(WITNESS, RESULT_STORAGE_CAP_BYTES, PyStr, less);
  }
}
