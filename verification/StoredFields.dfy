/** What a stored row still says of each field of a result that was too large, told by the field's own value:
    scalars unchanged, long strings cut, lists and dicts counted, numbers of records reduced to extremes. */
module StoredFields {
  import opened Json
  import opened BlobSalvage
  import opened ResultStorage
  import opened StorageLaws

  // ---------------------------------------------------------------- counts

  /** The number a text of digits reads as. */
  function ValueOf(s: string): int {
    if s == "" then 0 else ValueOf(s[..|s| - 1]) * 10 + (s[|s| - 1] as int - '0' as int)
  }

  /** `s` is how `n` is written: digits only, none leading in vain. */
  predicate IsNumeral(s: string, n: nat) {
    s != "" && (forall c | c in s :: IsDigit(c)) && (|s| > 1 ==> s[0] != '0') && ValueOf(s) == n
  }

  lemma {:induction false} DecimalIsNumeral(n: nat)
    ensures IsNumeral(Decimal(n), n)
  {
    DecimalLeads(n);
    var s := Decimal(n);
    if n >= 10 {
      DecimalIsNumeral(n / 10);
      assert s[..|s| - 1] == Decimal(n / 10);
    } else {
      assert s[..0] == "";
    }
  }

  predicate Counts(v: Option<Value>, n: nat) {
    v.Some? && v.value.Num? && IsNumeral(v.value.lexeme, n)
  }

  lemma NumberCounts(n: nat)
    ensures Counts(Some(Number(n)), n)
  {
    DecimalIsNumeral(n);
  }

  // ---------------------------------------------------------------- extremes

  /** `less` orders the numbers, different texts of one number not excluded. */
  ghost predicate Orders(less: Less) {
    && (forall x, y :: less(x, y) ==> !less(y, x))
    && (forall x, y, z :: !less(x, y) && !less(y, z) ==> !less(x, z))
  }

  /** The dict `v` has the number `x` under `field`. */
  predicate Has(v: Value, field: string, x: string) {
    v.Block? && v.shape.Curly? && Get(v.entries, field) == Some(Num(x))
  }

  ghost predicate IsValue(items: seq<Entry>, field: string, x: string) {
    exists i :: 0 <= i < |items| && Has(items[i].value, field, x)
  }

  /** The two digest entries of a field: absent without a value; otherwise one of the values with none below,
      and one with none above. */
  ghost predicate Extremes(d: Dict, items: seq<Entry>, field: string, less: Less) {
    var low, high := Get(d, field + "_min"), Get(d, field + "_max");
    if forall x :: !IsValue(items, field, x) then low.None? && high.None?
    else
      && low.Some? && low.value.Num? && IsValue(items, field, low.value.lexeme)
      && high.Some? && high.value.Num? && IsValue(items, field, high.value.lexeme)
      && (Orders(less) ==> forall x :: IsValue(items, field, x) ==> !less(x, low.value.lexeme) && !less(high.value.lexeme, x))
  }

  lemma {:induction false} FieldValuesAre(items: seq<Entry>, field: string, x: string)
    ensures x in FieldValues(items, field) <==> IsValue(items, field, x)
  {
    if items != [] {
      FieldValuesAre(items[1..], field, x);
      var rest := FieldValues(items[1..], field);
      assert x in FieldValues(items, field) <==> Has(items[0].value, field, x) || x in rest;
      if IsValue(items, field, x) && !Has(items[0].value, field, x) {
        var i :| 0 <= i < |items| && Has(items[i].value, field, x);
        assert items[1..][i - 1] == items[i];
      }
      if IsValue(items[1..], field, x) {
        var i :| 0 <= i < |items[1..]| && Has(items[1..][i].value, field, x);
        assert items[i + 1] == items[1..][i];
      }
    }
  }

  lemma {:induction false} LeastHasNoneBelow(less: Less, best: string, xs: seq<string>)
    ensures Least(less, best, xs) == best || Least(less, best, xs) in xs
    ensures Orders(less) ==> !less(best, Least(less, best, xs)) && forall x <- xs :: !less(x, Least(less, best, xs))
    decreases |xs|
  {
    if xs != [] {
      var next := if less(xs[0], best) then xs[0] else best;
      LeastHasNoneBelow(less, next, xs[1..]);
      if Orders(less) {
        var least := Least(less, best, xs);
        assert !less(next, least) && !less(best, next) && !less(xs[0], next);
        forall x | x in xs ensures !less(x, least) {
          assert x == xs[0] || x in xs[1..];
        }
      }
    }
  }

  lemma {:induction false} GreatestHasNoneAbove(less: Less, best: string, xs: seq<string>)
    ensures Greatest(less, best, xs) == best || Greatest(less, best, xs) in xs
    ensures Orders(less) ==> !less(Greatest(less, best, xs), best) && forall x <- xs :: !less(Greatest(less, best, xs), x)
    decreases |xs|
  {
    if xs != [] {
      var next := if less(best, xs[0]) then xs[0] else best;
      GreatestHasNoneAbove(less, next, xs[1..]);
      if Orders(less) {
        var greatest := Greatest(less, best, xs);
        assert !less(greatest, next) && !less(next, best) && !less(next, xs[0]);
        forall x | x in xs ensures !less(greatest, x) {
          assert x == xs[0] || x in xs[1..];
        }
      }
    }
  }

  // ---------------------------------------------------------------- the digest of a list

  /** No two fields share a digest key, and none is a key of the count. */
  lemma DigestKeysDiffer(f: string, g: string)
    ensures f + "_min" != g + "_max"
    ensures f + "_min" == g + "_min" || f + "_max" == g + "_max" ==> f == g
    ensures f + "_min" != "omitted" && f + "_min" != "items" && f + "_max" != "omitted" && f + "_max" != "items"
  {
    var a, b := f + "_min", g + "_max";
    assert a[|a| - 1] == 'n' && b[|b| - 1] == 'x';
    assert (f + "_max")[|f| + 3] == 'x';
    assert "omitted"[6] == 'd' && "items"[4] == 's';
    if f + "_min" == g + "_min" {
      assert f == (f + "_min")[..|f|] && g == (g + "_min")[..|g|];
    }
    if f + "_max" == g + "_max" {
      assert f == (f + "_max")[..|f|] && g == (g + "_max")[..|g|];
    }
  }

  lemma GetDigestField(d: Dict, items: seq<Entry>, f: string, less: Less, k: string)
    ensures var values := FieldValues(items, f);
      Get(DigestField(d, items, f, less), k) ==
        if values != [] && k == f + "_max" then Some(Num(Greatest(less, values[0], values[1..])))
        else if values != [] && k == f + "_min" then Some(Num(Least(less, values[0], values[1..])))
        else Get(d, k)
  {
    hide Get, Put, Least, Greatest, FieldValues;
    var values := FieldValues(items, f);
    if values != [] {
      var low, high := Num(Least(less, values[0], values[1..])), Num(Greatest(less, values[0], values[1..]));
      GetPut(d, f + "_min", low, k);
      GetPut(Put(d, f + "_min", low), f + "_max", high, k);
    }
  }

  /** Whether the key belongs to one of the fields. */
  predicate IsDigestKey(fields: seq<string>, k: string) {
    exists i :: 0 <= i < |fields| && (k == fields[i] + "_min" || k == fields[i] + "_max")
  }

  lemma {:induction false} DigestElsewhere(items: seq<Entry>, fields: seq<string>, less: Less, k: string)
    requires !IsDigestKey(fields, k)
    ensures Get(Digest(items, fields, less), k) == None
  {
    if fields != [] {
      hide DigestField;
      var n := |fields| - 1;
      assert k != fields[n] + "_min" && k != fields[n] + "_max";
      forall i | 0 <= i < n ensures k != fields[..n][i] + "_min" && k != fields[..n][i] + "_max" {
        assert fields[..n][i] == fields[i];
      }
      DigestElsewhere(items, fields[..n], less, k);
      GetDigestField(Digest(items, fields[..n], less), items, fields[n], less, k);
    }
  }

  ghost predicate Distinct(fields: seq<string>) {
    forall i, j :: 0 <= i < j < |fields| ==> fields[i] != fields[j]
  }

  lemma {:induction false} DigestExtremes(items: seq<Entry>, fields: seq<string>, less: Less, i: nat)
    requires i < |fields| && Distinct(fields)
    ensures Extremes(Digest(items, fields, less), items, fields[i], less)
  {
    var n := |fields| - 1;
    var before, f := Digest(items, fields[..n], less), fields[i];
    DigestKeysDiffer(f, fields[n]);
    DigestKeysDiffer(fields[n], f);
    GetDigestField(before, items, fields[n], less, f + "_min");
    GetDigestField(before, items, fields[n], less, f + "_max");
    assert Digest(items, fields, less) == DigestField(before, items, fields[n], less);
    hide Digest, DigestField, Get;
    if i < n {
      DigestExtremes(items, fields[..n], less, i);
    } else {
      NotYet(fields);
      DigestElsewhere(items, fields[..n], less, f + "_min");
      DigestElsewhere(items, fields[..n], less, f + "_max");
      ExtremesOfValues(Digest(items, fields, less), items, f, less);
    }
  }

  lemma NotYet(fields: seq<string>)
    requires fields != [] && Distinct(fields)
    ensures var n := |fields| - 1;
      !IsDigestKey(fields[..n], fields[n] + "_min") && !IsDigestKey(fields[..n], fields[n] + "_max")
  {
    var n := |fields| - 1;
    forall i | 0 <= i < n
      ensures fields[i] + "_min" != fields[n] + "_min" && fields[i] + "_max" != fields[n] + "_max"
      ensures fields[i] + "_min" != fields[n] + "_max" && fields[n] + "_min" != fields[i] + "_max"
    {
      DigestKeysDiffer(fields[i], fields[n]);
      DigestKeysDiffer(fields[n], fields[i]);
    }
  }

  lemma ExtremesOfValues(d: Dict, items: seq<Entry>, f: string, less: Less)
    requires var values := FieldValues(items, f);
      && Get(d, f + "_min") == (if values == [] then None else Some(Num(Least(less, values[0], values[1..]))))
      && Get(d, f + "_max") == (if values == [] then None else Some(Num(Greatest(less, values[0], values[1..]))))
    ensures Extremes(d, items, f, less)
  {
    hide Get, FieldValues, Least, Greatest, IsValue;
    var values := FieldValues(items, f);
    forall x ensures x in values <==> IsValue(items, f, x) {
      FieldValuesAre(items, f, x);
    }
    if values != [] {
      assert values[0] in values && forall x :: x in values <==> x == values[0] || x in values[1..];
      LeastHasNoneBelow(less, values[0], values[1..]);
      GreatestHasNoneAbove(less, values[0], values[1..]);
    }
  }

  lemma {:induction false} GetPutAll(d: Dict, updates: Dict, k: string)
    requires DistinctKeys(updates)
    ensures Get(PutAll(d, updates), k) == if Get(updates, k).Some? then Get(updates, k) else Get(d, k)
    decreases |updates|
  {
    if updates != [] {
      var first := updates[0];
      GetPutAll(Put(d, first.key, first.value), updates[1..], k);
      GetPut(d, first.key, first.value, k);
      if k == first.key && Get(updates[1..], k).Some? {
        var _ := GetFinds(updates[1..], k);
      }
    }
  }

  // ---------------------------------------------------------------- one field

  /** A list is described by its length and the extremes of the fields that its records carry. */
  ghost predicate DescribesList(d: Dict, items: seq<Entry>, less: Less) {
    && Get(d, "omitted") == Some(Str("list")) && Counts(Get(d, "items"), |items|)
    && Extremes(d, items, "days_until_due", less) && Extremes(d, items, "stale_score", less)
    && Extremes(d, items, "follow_up_priority", less)
    && (forall k :: Get(d, k).Some? ==>
          k == "omitted" || k == "items" || IsDigestKey(["days_until_due", "stale_score", "follow_up_priority"], k))
  }

  ghost predicate DescribesDict(d: Dict, entries: seq<Entry>) {
    && Get(d, "omitted") == Some(Str("dict")) && Counts(Get(d, "keys"), |entries|)
    && (forall k :: Get(d, k).Some? ==> k == "omitted" || k == "keys")
  }

  /** What is left of `v`: a scalar itself, a string of more than 300 characters its beginning, a list or a
      dict its description. */
  ghost predicate Remains(v: Value, w: Value, less: Less) {
    match v
    case Null => w == v
    case Bool(_) => w == v
    case Num(_) => w == v
    case Str(s) => if |s| <= 300 then w == v else w.Str? && |w.s| == 303 && w.s[..300] == s[..300] && w.s[300..] == "..."
    case Block(shape, entries) =>
      && w.Block? && w.shape.Curly?
      && (if shape.Square? then DescribesList(w.entries, entries, less) else DescribesDict(w.entries, entries))
    case Foreign(_) => w == v
  }

  lemma ListRemains(items: seq<Entry>, less: Less)
    requires forall i :: 0 <= i < |items| ==> WellFormed(items[i].value)
    ensures DescribesList(Describe(Block(Square, items), less).entries, items, less)
  {
    hide WellFormed, Get, Digest, PutAll, Counts, Extremes, IsDigestKey, Holds;
    var head := [Entry("omitted", Str("list")), Entry("items", Number(|items|))];
    var digest := Digest(items, DIGEST_FIELDS, less);
    var d := Describe(Block(Square, items), less).entries;
    DigestIsADict(items, less);
    NumberCounts(|items|);
    HeadOf(head);
    TheFieldsDiffer();
    forall k ensures Get(d, k) == if Get(digest, k).Some? then Get(digest, k) else Get(head, k) {
      GetPutAll(head, digest, k);
    }
    forall k | k == "omitted" || k == "items" ensures Get(digest, k) == None {
      NoDigestKey(k);
      DigestElsewhere(items, DIGEST_FIELDS, less, k);
    }
    forall i | 0 <= i < 3 ensures Extremes(d, items, DIGEST_FIELDS[i], less) {
      DigestExtremes(items, DIGEST_FIELDS, less, i);
      DigestKeysDiffer(DIGEST_FIELDS[i], DIGEST_FIELDS[i]);
      SameExtremes(digest, d, items, DIGEST_FIELDS[i], less);
    }
    assert DIGEST_FIELDS[0] == "days_until_due" && DIGEST_FIELDS[1] == "stale_score" && DIGEST_FIELDS[2] == "follow_up_priority";
    forall k | Get(d, k).Some? && k != "omitted" && k != "items" ensures IsDigestKey(DIGEST_FIELDS, k) {
      if !IsDigestKey(DIGEST_FIELDS, k) {
        DigestElsewhere(items, DIGEST_FIELDS, less, k);
      }
    }
  }

  lemma DigestIsADict(items: seq<Entry>, less: Less)
    requires forall i :: 0 <= i < |items| ==> WellFormed(items[i].value)
    ensures DistinctKeys(Digest(items, DIGEST_FIELDS, less))
  {
    DigestHolds(items, DIGEST_FIELDS, less);
    hide Digest, WellFormed;
  }

  lemma GetOfTwo(head: Dict, k: string)
    requires |head| == 2
    ensures Get(head, k) ==
      if k == head[0].key then Some(head[0].value) else if k == head[1].key then Some(head[1].value) else None
  {
    var rest := head[1..];
    assert Get(rest, k) == if rest[0].key == k then Some(rest[0].value) else Get(rest[1..], k);
  }

  lemma HeadOf(head: Dict)
    requires |head| == 2
    ensures forall k ::
      Get(head, k) == (if k == head[0].key then Some(head[0].value) else if k == head[1].key then Some(head[1].value) else None)
  {
    hide Get;
    forall k
      ensures Get(head, k) == (if k == head[0].key then Some(head[0].value) else if k == head[1].key then Some(head[1].value) else None)
    {
      GetOfTwo(head, k);
    }
  }

  lemma TheFieldsDiffer()
    ensures |DIGEST_FIELDS| == 3 && Distinct(DIGEST_FIELDS)
  {
    assert DIGEST_FIELDS[0][0] == 'd' && DIGEST_FIELDS[1][0] == 's' && DIGEST_FIELDS[2][0] == 'f';
  }

  lemma NoDigestKey(k: string)
    requires k == "omitted" || k == "items"
    ensures !IsDigestKey(DIGEST_FIELDS, k)
  {
    forall i | 0 <= i < |DIGEST_FIELDS| ensures k != DIGEST_FIELDS[i] + "_min" && k != DIGEST_FIELDS[i] + "_max" {
      DigestKeysDiffer(DIGEST_FIELDS[i], DIGEST_FIELDS[i]);
    }
  }

  lemma SameExtremes(a: Dict, b: Dict, items: seq<Entry>, f: string, less: Less)
    requires Extremes(a, items, f, less)
    requires Get(a, f + "_min") == Get(b, f + "_min") && Get(a, f + "_max") == Get(b, f + "_max")
    ensures Extremes(b, items, f, less)
  {
  }

  lemma DictRemains(entries: seq<Entry>, less: Less)
    ensures DescribesDict(Describe(Block(Curly, entries), less).entries, entries)
  {
    hide Get, Counts;
    NumberCounts(|entries|);
    HeadOf(Describe(Block(Curly, entries), less).entries);
  }

  lemma ShrinkRemains(v: Value, less: Less)
    requires WellFormed(v)
    ensures Remains(v, Shrink(v, less), less)
  {
    hide Describe, DescribesList, DescribesDict;
    if v.Block? {
      EntriesWellFormed(v);
      DescribeIsADict(v, less);
      if v.shape.Square? {
        ListRemains(v.entries, less);
      } else {
        DictRemains(v.entries, less);
      }
    } else if v.Str? && |v.s| > 300 {
      assert (v.s[..300] + "...")[300..] == "...";
    }
  }

  lemma DescribeIsADict(v: Value, less: Less)
    requires v.Block?
    ensures Describe(v, less).Block? && Describe(v, less).shape.Curly?
  {
  }

  // ---------------------------------------------------------------- the stored row

  /** The dict a result is stored as, before anything is dropped. */
  predicate IsFieldsOf(result: Value, d: Dict) {
    if result.Block? && result.shape.Curly? then d == result.entries
    else d == [Entry("status", Str("success")), Entry("result", result)]
  }

  /** What `salvage_json` reads back from the stored text, if it is a dict. */
  function ReadBack(result: Value, cap: int, repr: Repr, less: Less): Option<Dict> {
    var obj := Salvage(Some(Text(result, cap, repr, less))).0;
    if obj.Some? && obj.value.Block? && obj.value.shape.Curly? then Some(obj.value.entries) else None
  }

  ghost predicate FieldRemains(d: Dict, stored: Dict, k: string, less: Less) {
    if Get(d, k).Some? then Get(stored, k).Some? && Remains(Get(d, k).value, Get(stored, k).value, less)
    else Get(stored, k).None?
  }

  /** The marks, and every field of the dict with what remains of it; nothing else. */
  ghost predicate EveryFieldRemains(d: Dict, stored: Dict, originalBytes: nat, less: Less) {
    && Get(stored, "truncated") == Some(Bool(true)) && Counts(Get(stored, "original_bytes"), originalBytes)
    && (forall k :: k != "truncated" && k != "original_bytes" ==> FieldRemains(d, stored, k, less))
  }

  /** The marks, the summary, and of the fields only those that carry the verdict. */
  ghost predicate VerdictRemains(d: Dict, stored: Dict, originalBytes: nat, less: Less) {
    && Get(stored, "truncated") == Some(Bool(true)) && Counts(Get(stored, "original_bytes"), originalBytes)
    && Get(stored, "summary").Some? && Get(stored, "summary").value.Str?
    && Announces(Get(stored, "summary").value.s, |d|)
    && (forall k :: k == "status" || k == "message" || k == "error" || k == "error_code" ==> FieldRemains(d, stored, k, less))
    && (forall k :: Get(stored, k).Some? ==>
          k in ["status", "message", "error", "error_code", "truncated", "original_bytes", "summary"])
  }

  predicate Announces(summary: string, fields: nat) {
    exists i :: 0 <= i <= |summary| && IsNumeral(summary[..i], fields) && summary[i..] == " fields dropped; result too large to store"
  }

  lemma ScalarFields(d: Dict, n: nat, less: Less)
    requires Holds(d, WellFormed)
    ensures EveryFieldRemains(d, Pass1(d, n, less), n, less)
  {
    hide Get, Pass1, Shrink, WellFormed, Remains, Counts;
    NumberCounts(n);
    GetPass1(d, n, less, "truncated");
    GetPass1(d, n, less, "original_bytes");
    forall k | k != "truncated" && k != "original_bytes" ensures FieldRemains(d, Pass1(d, n, less), k, less) {
      GetPass1(d, n, less, k);
      if Get(d, k).Some? {
        GetHolds(d, k, WellFormed);
        ShrinkRemains(Get(d, k).value, less);
      }
    }
  }

  lemma SummaryAnnounces(fields: nat)
    ensures Announces(Decimal(fields) + " fields dropped; result too large to store", fields)
  {
    var s := Decimal(fields) + " fields dropped; result too large to store";
    DecimalIsNumeral(fields);
    assert s[..|Decimal(fields)|] == Decimal(fields);
  }

  lemma VerdictFields(d: Dict, n: nat, less: Less)
    requires Holds(d, WellFormed)
    ensures VerdictRemains(d, Pass2(Pass1(d, n, less), |d|, n), n, less)
  {
    hide Get, Pass1, Pass2, Remains, Counts, Announces, Holds, Decimal;
    var reduced := Pass1(d, n, less);
    var stored := Pass2(reduced, |d|, n);
    NumberCounts(n);
    SummaryAnnounces(|d|);
    ScalarFields(d, n, less);
    forall k
      ensures Get(stored, k) ==
        (if k == "summary" then Some(Str(Decimal(|d|) + " fields dropped; result too large to store"))
         else if k == "original_bytes" then Some(Number(n)) else if k == "truncated" then Some(Bool(true))
         else if k in KEPT_FIELDS then Get(reduced, k) else None)
    {
      GetPass2(reduced, |d|, n, k);
    }
    NotMarks();
    forall k | k == "status" || k == "message" || k == "error" || k == "error_code" ensures FieldRemains(d, stored, k, less) {
      assert FieldRemains(d, reduced, k, less);
      assert Get(stored, k) == Get(reduced, k);
    }
    assert KEPT_FIELDS == ["status", "message", "error", "error_code"];
  }

  lemma NotMarks()
    ensures forall k <- KEPT_FIELDS :: k != "truncated" && k != "original_bytes" && k != "summary"
    ensures "truncated" != "summary" && "original_bytes" != "summary" && "truncated" != "original_bytes"
    ensures "status" in KEPT_FIELDS && "message" in KEPT_FIELDS && "error" in KEPT_FIELDS && "error_code" in KEPT_FIELDS
  {
    assert KEPT_FIELDS[0] == "status" && KEPT_FIELDS[1] == "message" && KEPT_FIELDS[2] == "error" && KEPT_FIELDS[3] == "error_code";
    assert |"status"| == 6 && |"message"| == 7 && |"error"| == 5 && |"error_code"| == 10;
    assert |"truncated"| == 9 && |"original_bytes"| == 14 && "message"[0] == 'm' && "summary"[0] == 's';
  }

  lemma ReadsBack(result: Value, cap: int, repr: Repr, less: Less)
    requires WellFormed(result)
    ensures Encodable(DictValue(Chosen(result, cap, repr, less))) ==> ReadBack(result, cap, repr, less) == Some(Chosen(result, cap, repr, less))
  {
    hide Salvage, Text, Chosen, Encodable;
    AlwaysReadable(result, cap, repr, less);
  }

  /** A result that fits is read back whole. */
  lemma StoredWhole(result: Value, d: Dict, cap: int, repr: Repr, less: Less)
    requires WellFormed(result) && IsFieldsOf(result, d)
    ensures Encodable(DictValue(d)) && |Print(DictValue(d))| <= cap ==> ReadBack(result, cap, repr, less) == Some(d)
  {
    hide Encodable, Print, ReadBack, Pass1, Pass2;
    assert Wrap(result) == d;
    ReadsBack(result, cap, repr, less);
  }

  /** One that fits only because it holds an object that cannot be encoded is read back as its envelope. */
  lemma StoredEnvelope(result: Value, d: Dict, cap: int, repr: Repr, less: Less)
    requires WellFormed(result) && IsFieldsOf(result, d)
    ensures !Encodable(DictValue(d)) && |Dumps(DictValue(d), repr)| <= cap ==>
      var stored, text := ReadBack(result, cap, repr, less), repr(DictValue(d));
      && stored.Some? && |stored.value| == 2
      && stored.value[0] == Entry("status", Str("unknown"))
      && stored.value[1] == Entry("repr", Str(if |text| > 300 then text[..300] else text))
  {
    hide Salvage, Dumps, Encodable, Pass1, Pass2, WellFormed;
    assert Wrap(result) == d;
    AlwaysReadable(result, cap, repr, less);
  }

  /** When the whole does not fit and the reduced dict does, the stored text says of every field what remains
      of it, unless a field is an object that cannot be encoded. */
  lemma StoredFieldsRemain(result: Value, d: Dict, cap: int, repr: Repr, less: Less)
    requires WellFormed(result) && IsFieldsOf(result, d)
    ensures var n := |Dumps(DictValue(d), repr)|;
      n > cap && |Dumps(DictValue(Pass1(d, n, less)), repr)| <= cap
      && (forall k :: Get(d, k).Some? && k != "truncated" && k != "original_bytes" ==> !Get(d, k).value.Foreign?) ==>
        var stored := ReadBack(result, cap, repr, less);
        stored.Some? && EveryFieldRemains(d, stored.value, n, less)
  {
    hide Encodable, Dumps, ReadBack, Pass1, Pass2, EveryFieldRemains, Get, Holds, WellFormed;
    var n := |Dumps(DictValue(d), repr)|;
    assert Wrap(result) == d;
    WrapHolds(result);
    ReadsBack(result, cap, repr, less);
    ScalarFields(d, n, less);
    Pass1Encodable(d, n, less);
    NoForeignField(d);
  }

  lemma NoForeignField(d: Dict)
    requires Holds(d, WellFormed)
    ensures (forall k :: Get(d, k).Some? && k != "truncated" && k != "original_bytes" ==> !Get(d, k).value.Foreign?) ==> !ForeignField(d)
  {
    hide Get, WellFormed;
    if ForeignField(d) {
      var i :| 0 <= i < |d| && d[i].value.Foreign? && !IsMark(d[i].key);
      GetIndex(d, i);
    }
  }

  /** When the reduced dict does not fit either and the verdict does, the stored text has those fields. */
  lemma StoredVerdictRemains(result: Value, d: Dict, cap: int, repr: Repr, less: Less)
    requires WellFormed(result) && IsFieldsOf(result, d)
    ensures var n := |Dumps(DictValue(d), repr)|;
      var reduced := Pass1(d, n, less);
      n > cap && |Dumps(DictValue(reduced), repr)| > cap && |Dumps(DictValue(Pass2(reduced, |d|, n)), repr)| <= cap
      && (forall k <- KEPT_FIELDS :: Get(d, k).Some? ==> !Get(d, k).value.Foreign?) ==>
        var stored := ReadBack(result, cap, repr, less);
        stored.Some? && VerdictRemains(d, stored.value, n, less)
  {
    hide Encodable, Dumps, ReadBack, Pass1, Pass2, VerdictRemains, Get, Holds, WellFormed;
    var n := |Dumps(DictValue(d), repr)|;
    assert Wrap(result) == d;
    WrapHolds(result);
    ReadsBack(result, cap, repr, less);
    VerdictFields(d, n, less);
    Pass2Encodable(d, n, less);
  }

  /** When nothing else fits, the marks and a fixed summary are stored. */
  lemma StoredFloor(result: Value, d: Dict, cap: int, repr: Repr, less: Less)
    requires WellFormed(result) && IsFieldsOf(result, d)
    ensures var n := |Dumps(DictValue(d), repr)|;
      var reduced := Pass1(d, n, less);
      n > cap && |Dumps(DictValue(reduced), repr)| > cap && |Dumps(DictValue(Pass2(reduced, |d|, n)), repr)| > cap ==>
        var stored := ReadBack(result, cap, repr, less);
        && stored.Some? && |stored.value| == 3
        && stored.value[0] == Entry("truncated", Bool(true))
        && stored.value[1].key == "original_bytes" && Counts(Some(stored.value[1].value), n)
        && stored.value[2] == Entry("summary", Str("result too large to store"))
  {
    hide Encodable, Dumps, ReadBack, Pass1, Pass2, WellFormed, Counts;
    var n := |Dumps(DictValue(d), repr)|;
    assert Wrap(result) == d;
    ReadsBack(result, cap, repr, less);
    NumberCounts(n);
    FloorIsWritable(n);
    assert Writable(DictValue(Floor(n)));
  }
}
