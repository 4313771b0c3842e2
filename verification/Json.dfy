/** JSON documents as the scheduler stores them: the values, the text `json.dumps` writes for them
    (default separators, ASCII only), and the reader `json.loads`. The reader accepts the grammar of
    RFC 8259 plus the three non-finite numbers Python adds, with white space between any two tokens. */
module Json {

  datatype Option<+T> = None | Some(value: T)

  datatype Shape = Square | Curly

  /** A list is a `Square` block whose keys are all empty; a dict is a `Curly` block with distinct keys.
      One constructor serves both because the writer, the reader and the scanner treat them alike.
      `Foreign` is a Python object that `json.dumps` refuses to encode. */
  datatype Value =
    | Null
    | Bool(b: bool)
    | Num(lexeme: string)
    | Str(s: string)
    | Block(shape: Shape, entries: seq<Entry>)
    | Foreign(id: nat)

  datatype Entry = Entry(key: string, value: Value)

  // ---------------------------------------------------------------- numbers

  predicate IsDigit(c: char) {
    '0' <= c <= '9'
  }

  /** Characters that can occur in a number token. */
  predicate IsNumeric(c: char) {
    IsDigit(c) || c in "+-.eE"
  }

  function SkipDigits(s: string): (rest: string)
    ensures |rest| <= |s|
  {
    if s != "" && IsDigit(s[0]) then SkipDigits(s[1..]) else s
  }

  function SkipNumeric(s: string): (rest: string)
    ensures |rest| <= |s|
  {
    if s != "" && IsNumeric(s[0]) then SkipNumeric(s[1..]) else s
  }

  /** `e` or `E`, an optional sign, at least one digit, and nothing more. */
  predicate IsExponent(s: string) {
    && |s| >= 2
    && s[0] in "eE"
    && var digits := if s[1] in "+-" then s[2..] else s[1..];
    && digits != ""
    && IsDigit(digits[0])
    && SkipDigits(digits) == ""
  }

  /** RFC 8259 section 6: no leading zeros, at least one digit after a point. */
  predicate IsNumber(s: string) {
    && s != ""
    && var u := if s[0] == '-' then s[1..] else s;
    && u != ""
    && IsDigit(u[0])
    && var afterInt := if u[0] == '0' then u[1..] else SkipDigits(u);
    && var afterFrac := if |afterInt| >= 2 && afterInt[0] == '.' && IsDigit(afterInt[1])
                        then SkipDigits(afterInt[1..]) else afterInt;
    && (afterFrac == "" || IsExponent(afterFrac))
  }

  predicate IsNonFinite(s: string) {
    s == "NaN" || s == "Infinity" || s == "-Infinity"
  }

  predicate IsLexeme(s: string) {
    IsNonFinite(s) || (IsNumber(s) && forall c | c in s :: IsNumeric(c))
  }

  function Decimal(n: nat): (s: string)
    ensures s != "" && forall c | c in s :: IsDigit(c)
  {
    if n < 10 then [DigitChar(n)] else Decimal(n / 10) + [DigitChar(n % 10)]
  }

  function DigitChar(d: nat): (c: char)
    requires d < 10
    ensures IsDigit(c)
  {
    (d + '0' as int) as char
  }

  // ---------------------------------------------------------------- writer

  const QUOTE := '\"'
  const BACKSLASH := '\\'

  function HexChar(d: nat): char
    requires d < 16
  {
    if d < 10 then (d + '0' as int) as char else (d - 10 + 'a' as int) as char
  }

  /** `\uXXXX` for one UTF-16 code unit. */
  function UnicodeEscape(u: nat): string
    requires u < 0x10000
  {
    [BACKSLASH, 'u', HexChar(u / 4096), HexChar(u / 256 % 16), HexChar(u / 16 % 16), HexChar(u % 16)]
  }

  /** One character of a string, escaped. Everything outside printable ASCII becomes one or two
      `\u` escapes. */
  function Escape(c: char): string {
    if c == QUOTE || c == BACKSLASH then [BACKSLASH, c]
    else if c == '\n' then [BACKSLASH, 'n']
    else if c == '\r' then [BACKSLASH, 'r']
    else if c == '\t' then [BACKSLASH, 't']
    else if c == '\U{000C}' then [BACKSLASH, 'f']
    else if c == '\U{0008}' then [BACKSLASH, 'b']
    else if ' ' <= c <= '~' then [c]
    else if c as int < 0x10000 then UnicodeEscape(c as int)
    else
      var n := c as int - 0x10000;
      UnicodeEscape(0xD800 + n / 1024) + UnicodeEscape(0xDC00 + n % 1024)
  }

  function EscapeAll(s: string): string {
    if s == "" then "" else Escape(s[0]) + EscapeAll(s[1..])
  }

  function Quote(s: string): string {
    [QUOTE] + EscapeAll(s) + [QUOTE]
  }

  function Opener(shape: Shape): char {
    if shape.Square? then '[' else '{'
  }

  function Closer(shape: Shape): char {
    if shape.Square? then ']' else '}'
  }

  function Print(v: Value): string {
    match v
    case Null => "null"
    case Bool(b) => if b then "true" else "false"
    case Num(lexeme) => lexeme
    case Str(s) => Quote(s)
    case Block(shape, entries) => [Opener(shape)] + PrintEntries(shape, entries) + [Closer(shape)]
    case Foreign(_) => ""  // never written: see Encodable
  }

  function Label(shape: Shape, key: string): string {
    if shape.Curly? then Quote(key) + ": " else ""
  }

  function PrintEntries(shape: Shape, entries: seq<Entry>): string
    decreases entries
  {
    if entries == [] then ""
    else
      var first := Label(shape, entries[0].key) + Print(entries[0].value);
      if |entries| == 1 then first else first + ", " + PrintEntries(shape, entries[1..])
  }

  // ---------------------------------------------------------------- well-formedness

  predicate HasKey(entries: seq<Entry>, key: string) {
    exists i :: 0 <= i < |entries| && entries[i].key == key
  }

  predicate DistinctKeys(entries: seq<Entry>) {
    forall i, j :: 0 <= i < j < |entries| ==> entries[i].key != entries[j].key
  }

  predicate KeysFit(shape: Shape, entries: seq<Entry>) {
    if shape.Curly? then DistinctKeys(entries) else forall i :: 0 <= i < |entries| ==> entries[i].key == ""
  }

  /** What Python guarantees of any object built from dicts, lists, strings, numbers and the rest. */
  predicate WellFormed(v: Value) {
    match v
    case Num(lexeme) => IsLexeme(lexeme)
    case Block(shape, entries) =>
      KeysFit(shape, entries) && forall i :: 0 <= i < |entries| ==> WellFormed(entries[i].value)
    case _ => true
  }

  /** `json.dumps` raises `TypeError` exactly when a foreign object occurs somewhere. */
  predicate Encodable(v: Value) {
    match v
    case Foreign(_) => false
    case Block(_, entries) => forall i :: 0 <= i < |entries| ==> Encodable(entries[i].value)
    case _ => true
  }

  predicate Writable(v: Value) {
    WellFormed(v) && Encodable(v)
  }

  lemma EntriesWritable(v: Value)
    requires Writable(v) && v.Block?
    ensures forall i :: 0 <= i < |v.entries| ==> Writable(v.entries[i].value)
  {
  }

  // ---------------------------------------------------------------- reader

  predicate IsSpace(c: char) {
    c in " \t\n\r"
  }

  function SkipSpace(s: string): (rest: string)
    ensures |rest| <= |s|
  {
    if s != "" && IsSpace(s[0]) then SkipSpace(s[1..]) else s
  }

  function HexValue(c: char): Option<nat> {
    if IsDigit(c) then Some(c as int - '0' as int)
    else if 'a' <= c <= 'f' then Some(c as int - 'a' as int + 10)
    else if 'A' <= c <= 'F' then Some(c as int - 'A' as int + 10)
    else None
  }

  /** The code unit written by the four hex digits that follow `\u`. */
  function ReadUnit(s: string): (r: Option<nat>)
    ensures r.Some? ==> |s| >= 4 && r.value < 0x10000
  {
    if |s| < 4 then None
    else
      var a, b, c, d := HexValue(s[0]), HexValue(s[1]), HexValue(s[2]), HexValue(s[3]);
      if a.None? || b.None? || c.None? || d.None? then None
      else Some(a.value * 4096 + b.value * 256 + c.value * 16 + d.value)
  }

  function SimpleEscape(c: char): Option<char> {
    if c == QUOTE || c == BACKSLASH || c == '/' then Some(c)
    else if c == 'n' then Some('\n')
    else if c == 'r' then Some('\r')
    else if c == 't' then Some('\t')
    else if c == 'f' then Some('\U{000C}')
    else if c == 'b' then Some('\U{0008}')
    else None
  }

  predicate IsHigh(u: nat) { 0xD800 <= u < 0xDC00 }
  predicate IsLow(u: nat) { 0xDC00 <= u < 0xE000 }

  /** One character of a string body, and what follows it. An unpaired surrogate is refused: a Dafny
      `char` cannot hold one. */
  function ReadChar(s: string): (r: Option<(char, string)>)
    ensures r.Some? ==> |r.value.1| < |s|
  {
    if s == "" || s[0] == QUOTE || s[0] < ' ' then None
    else if s[0] != BACKSLASH then Some((s[0], s[1..]))
    else if |s| < 2 then None
    else if s[1] != 'u' then
      var c := SimpleEscape(s[1]);
      if c.None? then None else Some((c.value, s[2..]))
    else
      var u := ReadUnit(s[2..]);
      if u.None? || IsLow(u.value) then None
      else if !IsHigh(u.value) then Some((u.value as char, s[6..]))
      else if |s| < 8 || s[6] != BACKSLASH || s[7] != 'u' then None
      else
        var w := ReadUnit(s[8..]);
        if w.None? || !IsLow(w.value) then None
        else Some(((0x10000 + (u.value - 0xD800) * 1024 + (w.value - 0xDC00)) as char, s[12..]))
  }

  /** A string body up to and including its closing quote. */
  function ReadString(s: string): (r: Option<(string, string)>)
    ensures r.Some? ==> |r.value.1| < |s|
  {
    if s != "" && s[0] == QUOTE then Some(("", s[1..]))
    else
      var c := ReadChar(s);
      if c.None? then None
      else
        var tail := ReadString(c.value.1);
        if tail.None? then None else Some(([c.value.0] + tail.value.0, tail.value.1))
  }

  function ReadAtom(s: string): (r: Option<(Value, string)>)
    ensures r.Some? ==> |r.value.1| < |s|
  {
    if "null" <= s then Some((Null, s[4..]))
    else if "true" <= s then Some((Bool(true), s[4..]))
    else if "false" <= s then Some((Bool(false), s[5..]))
    else if "NaN" <= s then Some((Num("NaN"), s[3..]))
    else if "Infinity" <= s then Some((Num("Infinity"), s[8..]))
    else if "-Infinity" <= s then Some((Num("-Infinity"), s[9..]))
    else
      var rest := SkipNumeric(s);
      var lexeme := s[..|s| - |rest|];
      if IsNumber(lexeme) then Some((Num(lexeme), rest)) else None
  }

  function ReadValue(s: string): (r: Option<(Value, string)>)
    ensures r.Some? ==> |r.value.1| < |s|
    decreases |s|, 0
  {
    if s == "" then None
    else if s[0] == QUOTE then
      var body := ReadString(s[1..]);
      if body.None? then None else Some((Str(body.value.0), body.value.1))
    else if s[0] == '[' || s[0] == '{' then
      var shape := if s[0] == '[' then Square else Curly;
      var inner := SkipSpace(s[1..]);
      if inner != "" && inner[0] == Closer(shape) then Some((Block(shape, []), inner[1..]))
      else
        var entries := ReadEntries(shape, inner);
        if entries.None? then None else Some((Block(shape, entries.value.0), entries.value.1))
    else ReadAtom(s)
  }

  /** A dict key with its colon; a list item has no label. */
  function ReadLabel(shape: Shape, s: string): (r: Option<(string, string)>)
    ensures r.Some? ==> |r.value.1| <= |s|
  {
    if shape.Square? then Some(("", s))
    else if s == "" || s[0] != QUOTE then None
    else
      var key := ReadString(s[1..]);
      if key.None? then None
      else
        var colon := SkipSpace(key.value.1);
        if colon == "" || colon[0] != ':' then None else Some((key.value.0, SkipSpace(colon[1..])))
  }

  /** One or more entries, through the closing bracket. */
  function ReadEntries(shape: Shape, s: string): (r: Option<(seq<Entry>, string)>)
    ensures r.Some? ==> |r.value.1| < |s|
    decreases |s|, 1
  {
    var lead := ReadLabel(shape, s);
    if lead.None? then None
    else
      var value := ReadValue(lead.value.1);
      if value.None? then None
      else
        var entry := Entry(lead.value.0, value.value.0);
        var next := SkipSpace(value.value.1);
        if next == "" then None
        else if next[0] == Closer(shape) then Some(([entry], next[1..]))
        else if next[0] != ',' then None
        else
          var tail := ReadEntries(shape, SkipSpace(next[1..]));
          if tail.None? then None else Some(([entry] + tail.value.0, tail.value.1))
  }

  /** `json.loads`: one value with nothing but white space around it; `None` where it raises. */
  function Loads(s: string): Option<Value> {
    var r := ReadValue(SkipSpace(s));
    if r.Some? && SkipSpace(r.value.1) == "" then Some(r.value.0) else None
  }
}
