/** The one-pass scanner inside `salvage_json`, as a state machine over characters, and what it knows
    about printed JSON: strings and complete values leave its state alone, and a text that
    `json.loads` accepts always brings it back to an empty stack outside any string. */
module Scanner {
  import opened Json
  import opened JsonRoundTrip

  /** The variables of the loop. `cutAt` is the index of the last comma seen outside a string with
      something open (-1 when there is none) and `cutStack` what was open there. */
  datatype Scan = Scan(stack: string, inString: bool, escaped: bool, cutAt: int, cutStack: string, pos: nat)

  const START := Scan("", false, false, -1, "", 0)

  /** One iteration of the loop. */
  function Step(st: Scan, ch: char): Scan {
    var next := st.(pos := st.pos + 1);
    if st.inString then
      if st.escaped then next.(escaped := false)
      else if ch == BACKSLASH then next.(escaped := true)
      else if ch == QUOTE then next.(inString := false)
      else next
    else if ch == QUOTE then next.(inString := true)
    else if ch == '[' || ch == '{' then next.(stack := st.stack + [ch])
    else if ch == ']' || ch == '}' then
      if st.stack != "" then next.(stack := st.stack[..|st.stack| - 1]) else next
    else if ch == ',' && st.stack != "" then next.(cutAt := st.pos, cutStack := st.stack)
    else next
  }

  function Feed(st: Scan, s: string): (st': Scan)
    ensures st'.pos == st.pos + |s|
    decreases |s|
  {
    if s == "" then st else Feed(Step(st, s[0]), s[1..])
  }

  lemma {:induction false} FeedAppend(st: Scan, a: string, b: string)
    ensures Feed(st, a + b) == Feed(Feed(st, a), b)
    decreases |a|
  {
    if a == "" {
      assert a + b == b;
    } else {
      FeedAppend(Step(st, a[0]), a[1..], b);
      assert (a + b)[1..] == a[1..] + b;
    }
  }

  lemma FeedOne(st: Scan, c: char)
    ensures Feed(st, [c]) == Step(st, c)
  {
    assert [c][1..] == "";
  }

  /** Outside a string, with no escape pending. */
  predicate Clean(st: Scan) {
    !st.inString && !st.escaped
  }

  predicate SameLevel(st: Scan, st': Scan) {
    Clean(st') && st'.stack == st.stack
  }

  /** Neither the open brackets nor the cut moved. */
  predicate Quiet(st: Scan, st': Scan) {
    st'.stack == st.stack && st'.cutAt == st.cutAt && st'.cutStack == st.cutStack
  }

  predicate IsPlain(c: char) {
    c != QUOTE && c !in "[{]},"
  }

  lemma {:induction false} FeedPlain(st: Scan, s: string)
    requires Clean(st) && forall c | c in s :: IsPlain(c)
    ensures Quiet(st, Feed(st, s)) && Clean(Feed(st, s))
    decreases |s|
  {
    if s != "" {
      assert s[0] in s;
      FeedPlain(Step(st, s[0]), s[1..]);
    }
  }

  // ---------------------------------------------------------------- strings

  /** Inside a string, characters other than quotes and backslashes change nothing. */
  lemma {:induction false} FeedInner(st: Scan, s: string)
    requires st.inString && !st.escaped
    requires forall c | c in s :: c != QUOTE && c != BACKSLASH
    ensures Feed(st, s) == st.(pos := st.pos + |s|)
    decreases |s|
  {
    if s != "" {
      assert s[0] in s && forall c | c in s[1..] :: c in s;
      FeedInner(Step(st, s[0]), s[1..]);
    }
  }

  predicate StillInString(st: Scan, st': Scan) {
    Quiet(st, st') && st'.inString
  }

  /** An escape is a backslash, one more character, and then ordinary ones. */
  lemma FeedEscapeSequence(st: Scan, s: string, k: nat)
    requires st.inString && !st.escaped
    requires |s| >= 2 && s[0] == BACKSLASH && forall i :: 2 <= i < |s| ==> s[i] != QUOTE && s[i] != BACKSLASH
    requires k <= |s|
    ensures StillInString(st, Feed(st, s[..k])) && (k == |s| ==> !Feed(st, s[..k]).escaped)
  {
    if k == 1 {
      FeedOne(st, s[0]);
      assert s[..1] == [s[0]];
    } else if k >= 2 {
      var st2 := Step(Step(st, s[0]), s[1]);
      assert s[..k][1..][1..] == s[2..k];
      assert Feed(st, s[..k]) == Feed(st2, s[2..k]);
      FeedInner(st2, s[2..k]);
    }
  }

  lemma HexIsOrdinary(d: nat)
    requires d < 16
    ensures HexChar(d) != QUOTE && HexChar(d) != BACKSLASH
  {
  }

  lemma FeedUnit(st: Scan, u: nat, k: nat)
    requires st.inString && !st.escaped && u < 0x10000 && k <= 6
    ensures StillInString(st, Feed(st, UnicodeEscape(u)[..k]))
    ensures k == 6 ==> !Feed(st, UnicodeEscape(u)[..k]).escaped
  {
    HexDigits(u);
    HexIsOrdinary(u / 4096);
    HexIsOrdinary(u / 256 % 16);
    HexIsOrdinary(u / 16 % 16);
    HexIsOrdinary(u % 16);
    FeedEscapeSequence(st, UnicodeEscape(u), k);
  }

  /** Feeding a prefix of `a + b` is feeding a prefix of `a`, or `a` and a prefix of `b`. */
  lemma FeedPrefix(st: Scan, a: string, b: string, k: nat)
    requires k <= |a + b|
    ensures Feed(st, (a + b)[..k]) ==
      if k <= |a| then Feed(st, a[..k]) else Feed(Feed(st, a), b[..k - |a|])
  {
    if k <= |a| {
      assert (a + b)[..k] == a[..k];
    } else {
      assert (a + b)[..k] == a + b[..k - |a|];
      FeedAppend(st, a, b[..k - |a|]);
    }
  }

  /** The four forms an escaped character takes. */
  lemma EscapeForms(c: char)
    ensures var s := Escape(c);
      || (|s| == 1 && s[0] != QUOTE && s[0] != BACKSLASH)
      || (|s| == 2 && s[0] == BACKSLASH)
      || (c as int < 0x10000 && s == UnicodeEscape(c as int))
      || (var n := c as int - 0x10000;
          0 <= n && s == UnicodeEscape(0xD800 + n / 1024) + UnicodeEscape(0xDC00 + n % 1024))
  {
  }

  lemma FeedPair(st: Scan, u: nat, w: nat, k: nat)
    requires st.inString && !st.escaped && u < 0x10000 && w < 0x10000 && k <= 12
    ensures StillInString(st, Feed(st, (UnicodeEscape(u) + UnicodeEscape(w))[..k]))
    ensures k == 12 ==> !Feed(st, (UnicodeEscape(u) + UnicodeEscape(w))[..k]).escaped
  {
    var hi, lo := UnicodeEscape(u), UnicodeEscape(w);
    FeedPrefix(st, hi, lo, k);
    FeedUnit(st, u, if k <= 6 then k else 6);
    if k > 6 {
      assert hi[..6] == hi;
      FeedUnit(Feed(st, hi), w, k - 6);
    }
  }

  lemma FeedEscape(st: Scan, c: char, k: nat)
    requires st.inString && !st.escaped && k <= |Escape(c)|
    ensures StillInString(st, Feed(st, Escape(c)[..k]))
    ensures k == |Escape(c)| ==> !Feed(st, Escape(c)[..k]).escaped
  {
    EscapeForms(c);
    hide Feed, Step;
    var s := Escape(c);
    if |s| == 1 {
      FeedInner(st, s[..k]);
    } else if |s| == 2 {
      FeedEscapeSequence(st, s, k);
    } else if c as int < 0x10000 {
      FeedUnit(st, c as int, k);
    } else {
      var n := c as int - 0x10000;
      FeedPair(st, 0xD800 + n / 1024, 0xDC00 + n % 1024, k);
    }
  }

  lemma {:induction false} FeedBody(st: Scan, s: string, k: nat)
    requires st.inString && !st.escaped && k <= |EscapeAll(s)|
    ensures StillInString(st, Feed(st, EscapeAll(s)[..k]))
    ensures k == |EscapeAll(s)| ==> !Feed(st, EscapeAll(s)[..k]).escaped
    decreases |s|
  {
    if s != "" {
      var first := Escape(s[0]);
      FeedPrefix(st, first, EscapeAll(s[1..]), k);
      FeedEscape(st, s[0], if k <= |first| then k else |first|);
      if k > |first| {
        assert first[..|first|] == first;
        FeedBody(Feed(st, first), s[1..], k - |first|);
      } else if k == |EscapeAll(s)| {
        assert EscapeAll(s)[..k] == first[..k];
      }
    }
  }

  /** What follows the opening quote, cut anywhere. */
  lemma FeedQuoteTail(st: Scan, s: string, k: nat)
    requires st.inString && !st.escaped && k <= |EscapeAll(s)| + 1
    ensures var st' := Feed(st, (EscapeAll(s) + [QUOTE])[..k]);
      Quiet(st, st') && if k == |EscapeAll(s)| + 1 then Clean(st') else st'.inString
  {
    hide Feed, EscapeAll;
    var body := EscapeAll(s);
    FeedPrefix(st, body, [QUOTE], k);
    FeedBody(st, s, if k <= |body| then k else |body|);
    if k > |body| {
      assert body[..|body|] == body && [QUOTE][..1] == [QUOTE];
      FeedOne(Feed(st, body), QUOTE);
    }
  }

  lemma QuoteParts(st: Scan, s: string)
    ensures Quote(s) == [QUOTE] + (EscapeAll(s) + [QUOTE])
    ensures Feed(st, "") == st && [QUOTE][..1] == [QUOTE]
  {
  }

  /** A whole quoted string is quiet; cut anywhere inside, the scanner is still in the string. */
  lemma FeedQuote(st: Scan, s: string, k: nat)
    requires Clean(st) && k <= |Quote(s)|
    ensures Quiet(st, Feed(st, Quote(s)[..k]))
    ensures if k == 0 || k == |Quote(s)| then Clean(Feed(st, Quote(s)[..k])) else Feed(st, Quote(s)[..k]).inString
  {
    hide Feed, Quote, EscapeAll;
    QuoteParts(st, s);
    FeedPrefix(st, [QUOTE], EscapeAll(s) + [QUOTE], k);
    FeedOne(st, QUOTE);
    if k > 1 {
      FeedQuoteTail(Step(st, QUOTE), s, k - 1);
    } else if k == 0 {
      assert [QUOTE][..0] == "";
    }
  }

  lemma FeedWholeQuote(st: Scan, s: string)
    requires Clean(st)
    ensures Quiet(st, Feed(st, Quote(s))) && Clean(Feed(st, Quote(s)))
  {
    FeedQuote(st, s, |Quote(s)|);
    assert Quote(s)[..|Quote(s)|] == Quote(s);
  }

  // ---------------------------------------------------------------- texts the reader accepts

  /** The scanner gets through the part of `s` before `rest` without a net change. */
  ghost predicate Passes(st: Scan, s: string, st': Scan, rest: string) {
    Feed(st, s) == Feed(st', rest) && SameLevel(st, st')
  }

  lemma Drop(st: Scan, s: string, n: nat)
    requires n <= |s|
    ensures Feed(st, s) == Feed(Feed(st, s[..n]), s[n..])
  {
    FeedAppend(st, s[..n], s[n..]);
    assert s[..n] + s[n..] == s;
  }

  lemma {:induction false} PassSpace(st: Scan, s: string) returns (st': Scan)
    requires Clean(st)
    ensures Passes(st, s, st', SkipSpace(s))
    decreases |s|
  {
    if s != "" && IsSpace(s[0]) {
      st' := PassSpace(Step(st, s[0]), s[1..]);
    } else {
      st' := st;
    }
  }

  lemma {:induction false} PassNumeric(st: Scan, s: string) returns (st': Scan)
    requires Clean(st)
    ensures Passes(st, s, st', SkipNumeric(s))
    decreases |s|
  {
    if s != "" && IsNumeric(s[0]) {
      st' := PassNumeric(Step(st, s[0]), s[1..]);
    } else {
      st' := st;
    }
  }

  lemma UnitIsOrdinary(s: string)
    requires ReadUnit(s).Some?
    ensures forall c | c in s[..4] :: c != QUOTE && c != BACKSLASH
  {
  }

  lemma PassUnit(st: Scan, s: string) returns (st': Scan)
    requires st.inString && !st.escaped
    requires |s| >= 6 && s[0] == BACKSLASH && s[1] == 'u' && ReadUnit(s[2..]).Some?
    ensures Feed(st, s) == Feed(st', s[6..])
    ensures st'.inString && !st'.escaped && st'.stack == st.stack
  {
    UnitIsOrdinary(s[2..]);
    assert s[..6][2..] == s[2..][..4];
    forall i | 2 <= i < 6 ensures s[..6][i] != QUOTE && s[..6][i] != BACKSLASH {
      assert s[..6][i] == s[2..][..4][i - 2];
    }
    FeedEscapeSequence(st, s[..6], 6);
    assert s[..6][..6] == s[..6];
    Drop(st, s, 6);
    st' := Feed(st, s[..6]);
  }

  lemma PassChar(st: Scan, s: string) returns (st': Scan)
    requires st.inString && !st.escaped && ReadChar(s).Some?
    ensures Feed(st, s) == Feed(st', ReadChar(s).value.1)
    ensures st'.inString && !st'.escaped && st'.stack == st.stack
  {
    if s[0] != BACKSLASH {
      st' := Step(st, s[0]);
    } else if s[1] != 'u' {
      st' := Step(Step(st, s[0]), s[1]);
      assert s[1..][1..] == s[2..];
    } else {
      st' := PassUnit(st, s);
      if IsHigh(ReadUnit(s[2..]).value) {
        assert s[6..][2..] == s[8..];
        assert s[6..][6..] == s[12..];
        st' := PassUnit(st', s[6..]);
      }
    }
  }

  lemma {:induction false} PassString(st: Scan, s: string) returns (st': Scan)
    requires st.inString && !st.escaped && ReadString(s).Some?
    ensures Passes(st, s, st', ReadString(s).value.1)
    decreases |s|
  {
    if s != "" && s[0] == QUOTE {
      st' := Step(st, QUOTE);
    } else {
      st' := PassChar(st, s);
      st' := PassString(st', ReadChar(s).value.1);
    }
  }

  lemma PassWord(st: Scan, s: string, word: string) returns (st': Scan)
    requires Clean(st) && word <= s && forall c | c in word :: IsPlain(c)
    ensures Passes(st, s, st', s[|word|..])
  {
    Drop(st, s, |word|);
    assert s[..|word|] == word;
    FeedPlain(st, word);
    st' := Feed(st, word);
  }

  predicate IsWord(w: string) {
    w == "null" || w == "true" || w == "false" || w == "NaN" || w == "Infinity" || w == "-Infinity"
  }

  lemma WordIsPlain(w: string)
    requires IsWord(w)
    ensures forall c | c in w :: IsPlain(c)
  {
  }

  lemma PassAtom(st: Scan, s: string) returns (st': Scan)
    requires Clean(st) && ReadAtom(s).Some?
    ensures Passes(st, s, st', ReadAtom(s).value.1)
  {
    var word := if "null" <= s then "null" else if "true" <= s then "true" else if "false" <= s then "false"
                else if "NaN" <= s then "NaN" else if "Infinity" <= s then "Infinity"
                else if "-Infinity" <= s then "-Infinity" else "";
    if word == "" {
      st' := PassNumeric(st, s);
    } else {
      WordIsPlain(word);
      st' := PassWord(st, s, word);
    }
  }

  lemma PassLabel(st: Scan, shape: Shape, s: string) returns (st': Scan)
    requires Clean(st) && ReadLabel(shape, s).Some?
    ensures Passes(st, s, st', ReadLabel(shape, s).value.1)
  {
    if shape.Square? {
      st' := st;
    } else {
      st' := PassString(Step(st, QUOTE), s[1..]);
      var colon := ReadString(s[1..]).value.1;
      st' := PassSpace(st', colon);
      colon := SkipSpace(colon);
      st' := PassSpace(Step(st', ':'), colon[1..]);
    }
  }

  lemma PassOpenClose(st: Scan, shape: Shape)
    requires Clean(st)
    ensures var st1 := Step(st, Opener(shape)); Clean(st1) && st1.stack == st.stack + [Opener(shape)]
    ensures forall st1: Scan | SameLevel(Step(st, Opener(shape)), st1) :: SameLevel(st, Step(st1, Closer(shape)))
  {
  }

  lemma {:induction false} PassValue(st: Scan, s: string) returns (st': Scan)
    requires Clean(st) && ReadValue(s).Some?
    ensures Passes(st, s, st', ReadValue(s).value.1)
    decreases |s|, 0
  {
    if s[0] == QUOTE {
      st' := PassString(Step(st, QUOTE), s[1..]);
    } else if s[0] == '[' || s[0] == '{' {
      var shape := if s[0] == '[' then Square else Curly;
      PassOpenClose(st, shape);
      st' := PassSpace(Step(st, s[0]), s[1..]);
      var inner := SkipSpace(s[1..]);
      if inner != "" && inner[0] == Closer(shape) {
        st' := Step(st', inner[0]);
      } else {
        st' := PassEntries(st', shape, inner, st.stack);
      }
    } else {
      st' := PassAtom(st, s);
    }
  }

  /** Entries and their closing bracket: the scanner ends one level up. */
  lemma {:induction false} PassEntries(st: Scan, shape: Shape, s: string, outer: string) returns (st': Scan)
    requires Clean(st) && st.stack == outer + [Opener(shape)] && ReadEntries(shape, s).Some?
    ensures Feed(st, s) == Feed(st', ReadEntries(shape, s).value.1) && Clean(st') && st'.stack == outer
    decreases |s|, 1
  {
    hide ReadValue, ReadLabel, SkipSpace;
    st' := PassLabel(st, shape, s);
    var body := ReadLabel(shape, s).value.1;
    st' := PassValue(st', body);
    var after := ReadValue(body).value.1;
    st' := PassSpace(st', after);
    var next := SkipSpace(after);
    if next[0] == Closer(shape) {
      st' := Step(st', next[0]);
    } else {
      st' := PassSpace(Step(st', ','), next[1..]);
      st' := PassEntries(st', shape, SkipSpace(next[1..]), outer);
    }
  }

  /** Whatever `json.loads` accepts leaves the scanner outside any string with nothing open. */
  lemma AcceptedIsBalanced(s: string)
    requires Loads(s).Some?
    ensures Clean(Feed(START, s)) && Feed(START, s).stack == ""
  {
    var st := PassSpace(START, s);
    st := PassValue(st, SkipSpace(s));
    st := PassSpace(st, ReadValue(SkipSpace(s)).value.1);
  }
}
