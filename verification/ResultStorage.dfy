/** `reduce_result_for_storage`: the writer that caps a task result without ever severing its JSON.
    `repr` stands for Python's `str(obj)` and `less` for `<` on two numbers of a record; both are
    arbitrary. A result is any `Value`; a dict is a `Curly` block and a list is a `Square` one. */
module ResultStorage {
  import opened Json

  const SCALAR_STRING_CAP := 300
  const DIGEST_FIELDS := ["days_until_due", "stale_score", "follow_up_priority"]
  const KEPT_FIELDS := ["status", "message", "error", "error_code"]

  type Dict = seq<Entry>
  type Repr = Value -> string
  type Less = (string, string) -> bool

  // ---------------------------------------------------------------- dicts

  /** `d[key] = value`: replaces in place, or appends. */
  function Put(d: Dict, key: string, value: Value): Dict {
    if d == [] then [Entry(key, value)]
    else if d[0].key == key then [Entry(key, value)] + d[1..]
    else [d[0]] + Put(d[1..], key, value)
  }

  function Get(d: Dict, key: string): Option<Value> {
    if d == [] then None else if d[0].key == key then Some(d[0].value) else Get(d[1..], key)
  }

  function PutAll(d: Dict, updates: Dict): Dict
    decreases |updates|
  {
    if updates == [] then d else PutAll(Put(d, updates[0].key, updates[0].value), updates[1..])
  }

  function DictValue(d: Dict): Value {
    Block(Curly, d)
  }

  // ---------------------------------------------------------------- specification

  function Envelope(v: Value, repr: Repr): Value {
    var text := repr(v);
    DictValue([Entry("status", Str("unknown")),
               Entry("repr", Str(if |text| <= SCALAR_STRING_CAP then text else text[..SCALAR_STRING_CAP]))])
  }

  /** What `_dumps` really writes: the object, or the envelope when `json.dumps` raises. */
  function Stored(v: Value, repr: Repr): Value {
    if Encodable(v) then v else Envelope(v, repr)
  }

  function Dumps(v: Value, repr: Repr): string {
    Print(Stored(v, repr))
  }

  function Number(n: nat): Value {
    Num(Decimal(n))
  }

  /** The numbers a field takes in the dicts among `items`. */
  function FieldValues(items: seq<Entry>, field: string): seq<string> {
    if items == [] then []
    else
      var rest := FieldValues(items[1..], field);
      var it := items[0].value;
      if it.Block? && it.shape.Curly? && Get(it.entries, field).Some? && Get(it.entries, field).value.Num?
      then [Get(it.entries, field).value.lexeme] + rest else rest
  }

  /** Python's `min`: the first element that no later one is less than on the way. */
  function Least(less: Less, best: string, xs: seq<string>): string
    decreases |xs|
  {
    if xs == [] then best else Least(less, if less(xs[0], best) then xs[0] else best, xs[1..])
  }

  function Greatest(less: Less, best: string, xs: seq<string>): string
    decreases |xs|
  {
    if xs == [] then best else Greatest(less, if less(best, xs[0]) then xs[0] else best, xs[1..])
  }

  function DigestField(d: Dict, items: seq<Entry>, field: string, less: Less): Dict {
    var values := FieldValues(items, field);
    if values == [] then d
    else Put(Put(d, field + "_min", Num(Least(less, values[0], values[1..]))),
             field + "_max", Num(Greatest(less, values[0], values[1..])))
  }

  function Digest(items: seq<Entry>, fields: seq<string>, less: Less): Dict {
    if fields == [] then []
    else DigestField(Digest(items, fields[..|fields| - 1], less), items, fields[|fields| - 1], less)
  }

  function Describe(v: Value, less: Less): Value
    requires v.Block?
  {
    if v.shape.Square? then
      DictValue(PutAll([Entry("omitted", Str("list")), Entry("items", Number(|v.entries|))],
                       Digest(v.entries, DIGEST_FIELDS, less)))
    else DictValue([Entry("omitted", Str("dict")), Entry("keys", Number(|v.entries|))])
  }

  /** What pass 1 keeps of one field. */
  function Shrink(v: Value, less: Less): Value {
    if v.Block? then Describe(v, less)
    else if v.Str? && |v.s| > SCALAR_STRING_CAP then Str(v.s[..SCALAR_STRING_CAP] + "...")
    else v
  }

  function ShrinkAll(d: Dict, less: Less): Dict {
    if d == [] then []
    else Put(ShrinkAll(d[..|d| - 1], less), d[|d| - 1].key, Shrink(d[|d| - 1].value, less))
  }

  function Wrap(result: Value): Dict {
    if result.Block? && result.shape.Curly? then result.entries
    else [Entry("status", Str("success")), Entry("result", result)]
  }

  function Mark(d: Dict, originalBytes: nat): Dict {
    Put(Put(d, "truncated", Bool(true)), "original_bytes", Number(originalBytes))
  }

  function Pass1(d: Dict, originalBytes: nat, less: Less): Dict {
    Mark(ShrinkAll(d, less), originalBytes)
  }

  function Select(d: Dict, keys: seq<string>): Dict {
    if keys == [] then []
    else
      var before := Select(d, keys[..|keys| - 1]);
      var key := keys[|keys| - 1];
      if Get(d, key).Some? then Put(before, key, Get(d, key).value) else before
  }

  function Pass2(reduced: Dict, fields: nat, originalBytes: nat): Dict {
    Put(Mark(Select(reduced, KEPT_FIELDS), originalBytes), "summary",
        Str(Decimal(fields) + " fields dropped; result too large to store"))
  }

  function Floor(originalBytes: nat): Dict {
    [Entry("truncated", Bool(true)), Entry("original_bytes", Number(originalBytes)),
     Entry("summary", Str("result too large to store"))]
  }

  function OriginalBytes(result: Value, repr: Repr): nat {
    |Dumps(DictValue(Wrap(result)), repr)|
  }

  /** The Python dict whose dump is returned. */
  function Chosen(result: Value, cap: int, repr: Repr, less: Less): Dict {
    var d := Wrap(result);
    var n := OriginalBytes(result, repr);
    var reduced := Pass1(d, n, less);
    var keep := Pass2(reduced, |d|, n);
    if n <= cap then d
    else if |Dumps(DictValue(reduced), repr)| <= cap then reduced
    else if |Dumps(DictValue(keep), repr)| <= cap then keep
    else Floor(n)
  }

  // ---------------------------------------------------------------- the methods

  method DescribeContainer(v: Value, less: Less) returns (described: Value)
    requires v.Block?
    ensures described == Describe(v, less)
  {
    if v.shape.Square? {
      var d := [Entry("omitted", Str("list")), Entry("items", Number(|v.entries|))];
      var digest: Dict := [];
      for i := 0 to |DIGEST_FIELDS|
        invariant digest == Digest(v.entries, DIGEST_FIELDS[..i], less)
      {
        var field := DIGEST_FIELDS[i];
        var values := FieldValues(v.entries, field);
        if values != [] {
          digest := Put(digest, field + "_min", Num(Least(less, values[0], values[1..])));
          digest := Put(digest, field + "_max", Num(Greatest(less, values[0], values[1..])));
        }
        assert DIGEST_FIELDS[..i + 1][..i] == DIGEST_FIELDS[..i];
      }
      assert DIGEST_FIELDS[..|DIGEST_FIELDS|] == DIGEST_FIELDS;
      return DictValue(PutAll(d, digest));
    }
    return DictValue([Entry("omitted", Str("dict")), Entry("keys", Number(|v.entries|))]);
  }

  /** Pass 1: every scalar kept, every container replaced by its count. */
  method ReduceFields(d: Dict, originalBytes: nat, less: Less) returns (reduced: Dict)
    ensures reduced == Pass1(d, originalBytes, less)
  {
    reduced := [];
    for i := 0 to |d|
      invariant reduced == ShrinkAll(d[..i], less)
    {
      var value := d[i].value;
      if value.Block? {
        value := DescribeContainer(value, less);
      } else if value.Str? && |value.s| > SCALAR_STRING_CAP {
        value := Str(value.s[..SCALAR_STRING_CAP] + "...");
      }
      reduced := Put(reduced, d[i].key, value);
      assert d[..i + 1][..i] == d[..i];
    }
    assert d[..|d|] == d;
    reduced := Put(reduced, "truncated", Bool(true));
    reduced := Put(reduced, "original_bytes", Number(originalBytes));
  }

  /** Pass 2: only the fields that carry the verdict. */
  method KeepVerdict(reduced: Dict, fields: nat, originalBytes: nat) returns (keep: Dict)
    ensures keep == Pass2(reduced, fields, originalBytes)
  {
    keep := [];
    for i := 0 to |KEPT_FIELDS|
      invariant keep == Select(reduced, KEPT_FIELDS[..i])
    {
      if Get(reduced, KEPT_FIELDS[i]).Some? {
        keep := Put(keep, KEPT_FIELDS[i], Get(reduced, KEPT_FIELDS[i]).value);
      }
      assert KEPT_FIELDS[..i + 1][..i] == KEPT_FIELDS[..i];
    }
    assert KEPT_FIELDS[..|KEPT_FIELDS|] == KEPT_FIELDS;
    keep := Put(keep, "truncated", Bool(true));
    keep := Put(keep, "original_bytes", Number(originalBytes));
    keep := Put(keep, "summary", Str(Decimal(fields) + " fields dropped; result too large to store"));
  }

  method ReduceResultForStorage(result: Value, cap: int, repr: Repr, less: Less) returns (text: string)
    ensures text == Dumps(DictValue(Chosen(result, cap, repr, less)), repr)
  {
    var d := Wrap(result);
    text := Dumps(DictValue(d), repr);
    if |text| <= cap {
      return;
    }
    var originalBytes := |text|;
    var reduced := ReduceFields(d, originalBytes, less);
    text := Dumps(DictValue(reduced), repr);
    if |text| <= cap {
      return;
    }
    var keep := KeepVerdict(reduced, |d|, originalBytes);
    text := Dumps(DictValue(keep), repr);
    if |text| <= cap {
      return;
    }
    text := Dumps(DictValue(Floor(originalBytes)), repr);
  }

  // ---------------------------------------------------------------- dict laws

  lemma {:induction false} GetPut(d: Dict, key: string, value: Value, k: string)
    ensures Get(Put(d, key, value), k) == if k == key then Some(value) else Get(d, k)
  {
    if d != [] && d[0].key != key {
      GetPut(d[1..], key, value, k);
    }
  }

  /** All that a well-formed dict promises: distinct keys, values satisfying `p`. */
  ghost predicate Holds(d: Dict, p: Value -> bool) {
    DistinctKeys(d) && forall i :: 0 <= i < |d| ==> p(d[i].value)
  }

  lemma {:induction false} PutHolds(d: Dict, key: string, value: Value, p: Value -> bool)
    requires Holds(d, p) && p(value)
    ensures Holds(Put(d, key, value), p)
    ensures forall i :: 0 <= i < |Put(d, key, value)| ==>
      Put(d, key, value)[i].key == key || HasKey(d, Put(d, key, value)[i].key)
  {
    if d != [] && d[0].key != key {
      PutHolds(d[1..], key, value, p);
      var d' := Put(d, key, value);
      forall i | 0 <= i < |d'| ensures d'[i].key == key || HasKey(d, d'[i].key) {
        if i > 0 && d'[i].key != key {
          var j :| 0 <= j < |d[1..]| && d[1..][j].key == d'[i].key;
          assert d[j + 1].key == d'[i].key;
        }
      }
    }
  }

  lemma {:induction false} PutAllHolds(d: Dict, updates: Dict, p: Value -> bool)
    requires Holds(d, p) && forall i :: 0 <= i < |updates| ==> p(updates[i].value)
    ensures Holds(PutAll(d, updates), p)
    decreases |updates|
  {
    if updates != [] {
      PutHolds(d, updates[0].key, updates[0].value, p);
      PutAllHolds(Put(d, updates[0].key, updates[0].value), updates[1..], p);
    }
  }

  lemma {:induction false} GetHolds(d: Dict, key: string, p: Value -> bool)
    requires forall i :: 0 <= i < |d| ==> p(d[i].value)
    ensures Get(d, key).Some? ==> p(Get(d, key).value)
  {
    if d != [] && d[0].key != key {
      GetHolds(d[1..], key, p);
    }
  }
}
