/** Reading back what was written: `Loads(Print(v)) == v` for every value `json.dumps` can write. The proof
    goes from one escaped character to strings, numbers and words, and from there to values and the entries
    of blocks, each followed by whatever text comes after it: what was printed is read off the front, and the
    rest is left as it is. */
module JsonRoundTrip {
  import opened Json

  // ---------------------------------------------------------------- strings

  lemma HexRoundTrip(d: nat)
    requires d < 16
    ensures HexValue(HexChar(d)) == Some(d)
  {
  }

  lemma HexDigits(u: nat)
    requires u < 0x10000
    ensures u / 4096 < 16
    ensures u == u / 4096 * 4096 + u / 256 % 16 * 256 + u / 16 % 16 * 16 + u % 16
  {
    var a := u / 16;
    var b := a / 16;
    assert b == u / 256;
    assert b / 16 == u / 4096;
  }

  lemma UnitRoundTrip(u: nat, rest: string)
    requires u < 0x10000
    ensures ReadUnit(UnicodeEscape(u)[2..] + rest) == Some(u)
  {
    HexDigits(u);
    var a, b, c, d := u / 4096, u / 256 % 16, u / 16 % 16, u % 16;
    HexRoundTrip(a);
    HexRoundTrip(b);
    HexRoundTrip(c);
    HexRoundTrip(d);
    var s := UnicodeEscape(u)[2..] + rest;
    assert |s| >= 4 && s[0] == HexChar(a) && s[1] == HexChar(b) && s[2] == HexChar(c) && s[3] == HexChar(d);
  }

  lemma ReadOneUnit(u: nat, rest: string)
    requires u < 0x10000 && !IsHigh(u) && !IsLow(u)
    ensures ReadChar(UnicodeEscape(u) + rest) == Some((u as char, rest))
  {
    hide ReadUnit;
    var s := UnicodeEscape(u) + rest;
    UnitRoundTrip(u, rest);
    assert s[2..] == UnicodeEscape(u)[2..] + rest;
    assert s[6..] == rest;
  }

  lemma ReadPair(u: nat, w: nat, rest: string)
    requires u < 0x10000 && w < 0x10000 && IsHigh(u) && IsLow(w)
    ensures ReadChar(UnicodeEscape(u) + UnicodeEscape(w) + rest) ==
      Some(((0x10000 + (u - 0xD800) * 1024 + (w - 0xDC00)) as char, rest))
  {
    hide ReadUnit;
    var hi, lo := UnicodeEscape(u), UnicodeEscape(w);
    var s := hi + lo + rest;
    assert s[2..] == hi[2..] + (lo + rest);
    UnitRoundTrip(u, lo + rest);
    assert s[8..] == lo[2..] + rest;
    UnitRoundTrip(w, rest);
    assert s[6] == lo[0] && s[7] == lo[1];
    assert s[12..] == rest;
  }

  predicate IsShort(c: char) {
    ' ' <= c <= '~' || c in "\n\r\t\U{000C}\U{0008}"
  }

  lemma ReadShort(c: char, rest: string)
    requires IsShort(c)
    ensures Escape(c) != "" && Escape(c)[0] != QUOTE
    ensures ReadChar(Escape(c) + rest) == Some((c, rest))
  {
    hide ReadUnit, UnicodeEscape;
    assert (Escape(c) + rest)[|Escape(c)|..] == rest;
  }

  lemma LongEscape(c: char)
    requires !IsShort(c)
    ensures Escape(c) != "" && Escape(c)[0] != QUOTE
    ensures if c as int < 0x10000 then Escape(c) == UnicodeEscape(c as int)
            else var n := c as int - 0x10000;
                 Escape(c) == UnicodeEscape(0xD800 + n / 1024) + UnicodeEscape(0xDC00 + n % 1024)
  {
  }

  lemma CharRoundTrip(c: char, rest: string)
    ensures Escape(c) != "" && Escape(c)[0] != QUOTE
    ensures ReadChar(Escape(c) + rest) == Some((c, rest))
  {
    hide ReadChar, Escape, UnicodeEscape, IsShort;
    if IsShort(c) {
      ReadShort(c, rest);
    } else {
      LongEscape(c);
      if c as int < 0x10000 {
        ReadOneUnit(c as int, rest);
      } else {
        var n := c as int - 0x10000;
        ReadPair(0xD800 + n / 1024, 0xDC00 + n % 1024, rest);
      }
    }
  }

  lemma {:induction false} StringRoundTrip(s: string, rest: string)
    ensures ReadString(EscapeAll(s) + [QUOTE] + rest) == Some((s, rest))
  {
    hide ReadChar, Escape;
    if s == "" {
      assert EscapeAll(s) + [QUOTE] + rest == [QUOTE] + rest;
    } else {
      var after := EscapeAll(s[1..]) + [QUOTE] + rest;
      assert EscapeAll(s) + [QUOTE] + rest == Escape(s[0]) + after;
      CharRoundTrip(s[0], after);
      StringRoundTrip(s[1..], rest);
      assert [s[0]] + s[1..] == s;
    }
  }

  lemma QuoteRoundTrip(s: string, rest: string)
    ensures Quote(s) + rest != "" && (Quote(s) + rest)[0] == QUOTE
    ensures ReadString((Quote(s) + rest)[1..]) == Some((s, rest))
  {
    hide ReadString, EscapeAll;
    StringRoundTrip(s, rest);
    assert (Quote(s) + rest)[1..] == EscapeAll(s) + [QUOTE] + rest;
  }

  // ---------------------------------------------------------------- atoms

  /** What may follow a number so that the token ends there. */
  predicate Delimited(rest: string) {
    rest == "" || !IsNumeric(rest[0])
  }

  lemma {:induction false} NumberEnds(s: string, rest: string)
    requires forall c | c in s :: IsNumeric(c)
    requires Delimited(rest)
    ensures SkipNumeric(s + rest) == rest
  {
    if s == "" {
      assert s + rest == rest;
    } else {
      NumberEnds(s[1..], rest);
      assert (s + rest)[1..] == s[1..] + rest;
    }
  }

  lemma AtomRoundTrip(v: Value, rest: string)
    requires Writable(v) && !v.Str? && !v.Block?
    requires Delimited(rest)
    ensures Print(v) != "" && Print(v)[0] !in "\"[{]}" && !IsSpace(Print(v)[0])
    ensures ReadAtom(Print(v) + rest) == Some((v, rest))
  {
    if v.Num? && !IsNonFinite(Print(v)) {
      NumberRoundTrip(v, rest);
    } else {
      WordRoundTrip(v, rest);
    }
  }

  /** A digit, or a minus sign and a digit, begins none of the words. */
  lemma ReadNumber(text: string, rest: string)
    requires text != "" && (IsDigit(text[0]) || (text[0] == '-' && |text| > 1 && IsDigit(text[1])))
    requires IsNumber(text) && SkipNumeric(text + rest) == rest
    ensures ReadAtom(text + rest) == Some((Num(text), rest))
  {
    hide SkipNumeric, IsNumber;
    var s := text + rest;
    assert s[0] == text[0];
    if text[0] == '-' {
      assert s[1] == text[1];
    }
    assert s[..|s| - |rest|] == text;
  }

  lemma LexemeIsNumeric(v: Value)
    requires Writable(v) && v.Num? && !IsNonFinite(Print(v))
    ensures var s := v.lexeme;
      && Print(v) == s && IsNumber(s) && (forall c | c in s :: IsNumeric(c))
      && s != "" && (IsDigit(s[0]) || (s[0] == '-' && |s| > 1 && IsDigit(s[1])))
  {
  }

  lemma NumberRoundTrip(v: Value, rest: string)
    requires Writable(v) && v.Num? && !IsNonFinite(Print(v)) && Delimited(rest)
    ensures Print(v) != "" && Print(v)[0] !in "\"[{]}" && !IsSpace(Print(v)[0])
    ensures ReadAtom(Print(v) + rest) == Some((v, rest))
  {
    hide SkipNumeric, IsNumber, ReadAtom, Print, Writable, IsNonFinite;
    LexemeIsNumeric(v);
    NumberEnds(v.lexeme, rest);
    ReadNumber(v.lexeme, rest);
  }

  lemma WordRoundTrip(v: Value, rest: string)
    requires Writable(v) && (v.Null? || v.Bool? || (v.Num? && IsNonFinite(Print(v))))
    ensures Print(v) != "" && Print(v)[0] !in "\"[{]}" && !IsSpace(Print(v)[0])
    ensures ReadAtom(Print(v) + rest) == Some((v, rest))
  {
    hide SkipNumeric, Writable, IsNumber, PrintEntries, Quote;
    var text := Print(v);
    var s := text + rest;
    assert text <= s && s[|text|..] == rest && s[0] == text[0];
  }

  // ---------------------------------------------------------------- whole values

  lemma SkipNothing(s: string)
    requires s != "" && !IsSpace(s[0])
    ensures SkipSpace(s) == s
  {
  }

  lemma OneSpace(s: string)
    requires s != "" && !IsSpace(s[0])
    ensures SkipSpace(" " + s) == s
  {
    assert (" " + s)[1..] == s;
  }

  lemma FirstChar(v: Value)
    requires Writable(v)
    ensures Print(v) != "" && Print(v)[0] !in "]}," && !IsSpace(Print(v)[0])
  {
    if !v.Str? && !v.Block? {
      AtomRoundTrip(v, "");
    }
  }

  ghost predicate AllWritable(entries: seq<Entry>) {
    forall i :: 0 <= i < |entries| ==> Writable(entries[i].value)
  }

  predicate LabelsFit(shape: Shape, entries: seq<Entry>) {
    shape.Square? ==> forall i :: 0 <= i < |entries| ==> entries[i].key == ""
  }

  lemma LabelRoundTrip(shape: Shape, key: string, s: string)
    requires shape.Square? ==> key == ""
    requires s != "" && !IsSpace(s[0])
    ensures ReadLabel(shape, Label(shape, key) + s) == Some((key, s))
  {
    hide Quote, ReadString;
    if shape.Square? {
      assert "" + s == s;
    } else {
      QuoteRoundTrip(key, ": " + s);
      assert Label(shape, key) + s == Quote(key) + (": " + s);
      OneSpace(s);
      assert (": " + s)[1..] == " " + s;
    }
  }

  lemma EntriesFirstChar(shape: Shape, entries: seq<Entry>, rest: string)
    requires entries != [] && AllWritable(entries)
    ensures var s := PrintEntries(shape, entries) + rest; s != "" && s[0] !in "]}," && !IsSpace(s[0])
  {
    FirstChar(entries[0].value);
    var first := Label(shape, entries[0].key) + Print(entries[0].value);
    assert first[0] == if shape.Square? then Print(entries[0].value)[0] else QUOTE;
    assert (PrintEntries(shape, entries) + rest)[0] == first[0];
  }

  lemma ReadBlock(shape: Shape, inner: string)
    requires inner != "" && inner[0] !in "]}," && !IsSpace(inner[0])
    ensures ReadValue([Opener(shape)] + inner) ==
      var r := ReadEntries(shape, inner); if r.None? then None else Some((Block(shape, r.value.0), r.value.1))
  {
    assert ([Opener(shape)] + inner)[1..] == inner;
    SkipNothing(inner);
  }

  lemma ReadEmptyBlock(shape: Shape, rest: string)
    ensures ReadValue([Opener(shape), Closer(shape)] + rest) == Some((Block(shape, []), rest))
  {
    var s := [Opener(shape), Closer(shape)] + rest;
    assert s[1..] == [Closer(shape)] + rest;
    SkipNothing(s[1..]);
    assert s[1..][1..] == rest;
  }

  lemma Regroup(a: string, b: string, c: string, d: string)
    ensures a + b + c + d == a + (b + (c + d))
  {
  }

  /** The last entry: label, value text, closing bracket. */
  lemma ReadLast(shape: Shape, e: Entry, text: string, rest: string)
    requires shape.Square? ==> e.key == ""
    requires text != "" && !IsSpace(text[0])
    requires ReadValue(text + ([Closer(shape)] + rest)) == Some((e.value, [Closer(shape)] + rest))
    ensures ReadEntries(shape, Label(shape, e.key) + (text + ([Closer(shape)] + rest))) == Some(([e], rest))
  {
    var after := [Closer(shape)] + rest;
    LabelRoundTrip(shape, e.key, text + after);
    SkipNothing(after);
    assert after[1..] == rest;
  }

  lemma CommaThen(more: string)
    requires more != "" && !IsSpace(more[0])
    ensures var after := ", " + more; SkipSpace(after) == after && SkipSpace(after[1..]) == more
  {
    var after := ", " + more;
    SkipNothing(after);
    assert after[1..] == " " + more;
    OneSpace(more);
  }

  /** An entry followed by a comma, a space and more entries. */
  lemma ReadMore(shape: Shape, e: Entry, text: string, more: string)
    requires shape.Square? ==> e.key == ""
    requires text != "" && !IsSpace(text[0])
    requires more != "" && !IsSpace(more[0])
    requires ReadValue(text + (", " + more)) == Some((e.value, ", " + more))
    requires ReadEntries(shape, more).Some?
    ensures ReadEntries(shape, Label(shape, e.key) + (text + (", " + more))) ==
      Some(([e] + ReadEntries(shape, more).value.0, ReadEntries(shape, more).value.1))
  {
    hide ReadLabel, ReadValue, Label, SkipSpace;
    LabelRoundTrip(shape, e.key, text + (", " + more));
    CommaThen(more);
  }

  lemma {:induction false} ValueRoundTrip(v: Value, rest: string)
    requires Writable(v) && Delimited(rest)
    ensures ReadValue(Print(v) + rest) == Some((v, rest))
    decreases v, 0
  {
    if v.Str? {
      QuoteRoundTrip(v.s, rest);
    } else if v.Block? {
      if v.entries == [] {
        ReadEmptyBlock(v.shape, rest);
        assert Print(v) == [Opener(v.shape), Closer(v.shape)];
      } else {
        EntriesWritable(v);
        EntriesRoundTrip(v.shape, v.entries, rest);
        EntriesFirstChar(v.shape, v.entries, [Closer(v.shape)] + rest);
        ReadBlock(v.shape, PrintEntries(v.shape, v.entries) + ([Closer(v.shape)] + rest));
        Regroup([Opener(v.shape)], PrintEntries(v.shape, v.entries), [Closer(v.shape)], rest);
      }
    } else {
      AtomRoundTrip(v, rest);
      assert (Print(v) + rest)[0] == Print(v)[0];
    }
  }

  lemma {:induction false} EntriesRoundTrip(shape: Shape, entries: seq<Entry>, rest: string)
    requires entries != [] && AllWritable(entries) && LabelsFit(shape, entries)
    ensures ReadEntries(shape, PrintEntries(shape, entries) + ([Closer(shape)] + rest)) == Some((entries, rest))
    decreases entries, 1
  {
    hide *;
    var e := entries[0];
    var text := Print(e.value);
    var close := [Closer(shape)] + rest;
    Ends(shape, rest);
    Tail(shape, entries);
    FirstChar(e.value);
    if |entries| == 1 {
      ValueRoundTrip(e.value, close);
      ReadLast(shape, e, text, rest);
      LastEntry(shape, e, close);
      assert entries == [e];
    } else {
      var more := PrintEntries(shape, entries[1..]) + close;
      EntriesFirstChar(shape, entries[1..], close);
      ValueRoundTrip(e.value, ", " + more);
      EntriesRoundTrip(shape, entries[1..], rest);
      ReadMore(shape, e, text, more);
      assert [e] + entries[1..] == entries;
      SplitEntries(shape, entries, close);
    }
  }

  lemma Ends(shape: Shape, rest: string)
    ensures Delimited([Closer(shape)] + rest) && forall more: string :: Delimited(", " + more)
  {
  }

  lemma Tail(shape: Shape, entries: seq<Entry>)
    requires entries != [] && AllWritable(entries) && LabelsFit(shape, entries)
    ensures AllWritable(entries[1..]) && LabelsFit(shape, entries[1..])
    ensures Writable(entries[0].value) && (shape == Square ==> entries[0].key == "")
  {
  }

  lemma LastEntry(shape: Shape, e: Entry, close: string)
    ensures PrintEntries(shape, [e]) + close == Label(shape, e.key) + (Print(e.value) + close)
  {
  }

  lemma SplitEntries(shape: Shape, entries: seq<Entry>, close: string)
    requires |entries| >= 2
    ensures PrintEntries(shape, entries) + close ==
      Label(shape, entries[0].key) + (Print(entries[0].value) + (", " + (PrintEntries(shape, entries[1..]) + close)))
  {
    hide Label, Print;
  }

  /** `json.loads(json.dumps(v)) == v`. */
  lemma RoundTrip(v: Value)
    requires Writable(v)
    ensures Loads(Print(v)) == Some(v)
  {
    FirstChar(v);
    SkipNothing(Print(v));
    ValueRoundTrip(v, "");
    assert Print(v) + "" == Print(v);
  }
}
