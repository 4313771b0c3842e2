/** The number tokens that the JSON reader accepts are those of the grammar in section 6 of RFC 8259: an
    optional minus sign, an integer without leading zeros, and then, each of them optional, a fraction with
    at least one digit and an exponent with at least one digit. The reader finds the parts by skipping
    digits; here they are positions in the text. */
module NumberGrammar {
  import opened Json

  predicate AreDigits(s: string) {
    s != "" && forall i :: 0 <= i < |s| ==> IsDigit(s[i])
  }

  /** No zero leads in vain. */
  predicate IsInt(s: string) {
    AreDigits(s) && (|s| > 1 ==> s[0] != '0')
  }

  predicate IsFraction(s: string) {
    s == "" || (s[0] == '.' && AreDigits(s[1..]))
  }

  predicate IsPower(s: string) {
    s == "" || ((s[0] == 'e' || s[0] == 'E') &&
      (AreDigits(s[1..]) || (|s| > 1 && (s[1] == '+' || s[1] == '-') && AreDigits(s[2..]))))
  }

  /** An integer up to `i`, a fraction up to `j`, and an exponent. */
  predicate Parses(u: string, i: int, j: int) {
    0 <= i <= j <= |u| && IsInt(u[..i]) && IsFraction(u[i..j]) && IsPower(u[j..])
  }

  ghost predicate IsUnsigned(u: string) {
    exists i, j :: Parses(u, i, j)
  }

  lemma {:induction false} SkippedAreDigits(s: string)
    ensures var rest := SkipDigits(s); var k := |s| - |rest|;
      s[k..] == rest && (forall i :: 0 <= i < k ==> IsDigit(s[i])) && (rest != "" ==> !IsDigit(rest[0]))
  {
    if s != "" && IsDigit(s[0]) {
      SkippedAreDigits(s[1..]);
    }
  }

  lemma {:induction false} DigitsAreSkipped(s: string, k: nat)
    requires k <= |s| && (forall i :: 0 <= i < k ==> IsDigit(s[i])) && (k < |s| ==> !IsDigit(s[k]))
    ensures SkipDigits(s) == s[k..]
  {
    if k > 0 {
      DigitsAreSkipped(s[1..], k - 1);
    }
  }

  lemma ExponentIsPower(s: string)
    ensures s == "" || IsExponent(s) <==> IsPower(s)
  {
    if |s| >= 2 {
      var digits := if s[1] == '+' || s[1] == '-' then s[2..] else s[1..];
      SkippedAreDigits(digits);
      if AreDigits(digits) {
        DigitsAreSkipped(digits, |digits|);
      }
      assert s[1..][0] == s[1];
    }
  }

  /** What `IsNumber` asks of the text after the sign. */
  predicate AfterSign(u: string) {
    && u != "" && IsDigit(u[0])
    && var afterInt := if u[0] == '0' then u[1..] else SkipDigits(u);
    && var afterFrac := if |afterInt| >= 2 && afterInt[0] == '.' && IsDigit(afterInt[1])
                        then SkipDigits(afterInt[1..]) else afterInt;
    && (afterFrac == "" || IsExponent(afterFrac))
  }

  lemma SignFirst(s: string)
    ensures IsNumber(s) <==> s != "" && AfterSign(if s[0] == '-' then s[1..] else s)
  {
    hide SkipDigits, IsExponent;
  }

  /** Where the fraction ends. */
  lemma FractionEnds(rest: string) returns (k: nat)
    ensures k <= |rest| && IsFraction(rest[..k])
    ensures rest[k..] == if |rest| >= 2 && rest[0] == '.' && IsDigit(rest[1]) then SkipDigits(rest[1..]) else rest
  {
    if |rest| >= 2 && rest[0] == '.' && IsDigit(rest[1]) {
      SkippedAreDigits(rest[1..]);
      k := |rest| - |SkipDigits(rest[1..])|;
      var frac := rest[..k];
      assert forall i :: 0 <= i < k - 1 ==> frac[1..][i] == rest[1..][i];
    } else {
      k := 0;
    }
  }

  lemma IntEnds(u: string) returns (i: nat)
    requires u != "" && IsDigit(u[0])
    ensures i <= |u| && IsInt(u[..i])
    ensures u[i..] == if u[0] == '0' then u[1..] else SkipDigits(u)
  {
    if u[0] == '0' {
      i := 1;
    } else {
      SkippedAreDigits(u);
      i := |u| - |SkipDigits(u)|;
    }
  }

  lemma AcceptedParses(u: string) returns (i: int, j: int)
    requires AfterSign(u)
    ensures Parses(u, i, j)
  {
    hide SkipDigits, IsExponent, IsInt, IsFraction, IsPower;
    i := IntEnds(u);
    var k := FractionEnds(u[i..]);
    j := i + k;
    assert u[i..][..k] == u[i..j] && u[i..][k..] == u[j..];
    ExponentIsPower(u[j..]);
  }

  lemma IntIsSkipped(u: string, i: nat)
    requires i <= |u| && IsInt(u[..i]) && (i < |u| ==> !IsDigit(u[i]))
    ensures u != "" && IsDigit(u[0]) && u[i..] == if u[0] == '0' then u[1..] else SkipDigits(u)
  {
    hide SkipDigits;
    var whole := u[..i];
    assert u[0] == whole[0] && forall k :: 0 <= k < i ==> u[k] == whole[k];
    DigitsAreSkipped(u, i);
  }

  lemma FractionIsSkipped(rest: string, k: nat)
    requires k <= |rest| && IsFraction(rest[..k]) && IsPower(rest[k..])
    ensures rest[k..] == if |rest| >= 2 && rest[0] == '.' && IsDigit(rest[1]) then SkipDigits(rest[1..]) else rest
    ensures rest != "" ==> !IsDigit(rest[0])
  {
    hide SkipDigits, AreDigits;
    if rest[k..] != "" {
      PowerStarts(rest[k..]);
    }
    if k > 0 {
      var digits := rest[..k][1..];
      assert rest[0] == '.' && digits == rest[1..][..k - 1];
      PrefixIsSkipped(rest[1..], k - 1);
      assert rest[1] == rest[1..][0];
    }
  }

  lemma PrefixIsSkipped(s: string, k: nat)
    requires k <= |s| && AreDigits(s[..k]) && (k < |s| ==> !IsDigit(s[k]))
    ensures s != "" && SkipDigits(s) == s[k..] && IsDigit(s[0])
  {
    var digits := s[..k];
    assert forall i :: 0 <= i < k ==> s[i] == digits[i];
    DigitsAreSkipped(s, k);
  }

  lemma PowerStarts(s: string)
    requires IsPower(s) && s != ""
    ensures !IsDigit(s[0]) && s[0] != '.'
  {
  }

  lemma InThree(u: string, i: int, j: int)
    requires 0 <= i <= j <= |u|
    ensures u[i..][..j - i] == u[i..j] && u[i..][j - i..] == u[j..]
  {
  }

  lemma InOrder(u: string, rest: string, power: string)
    requires u != "" && IsDigit(u[0]) && rest == if u[0] == '0' then u[1..] else SkipDigits(u)
    requires power == if |rest| >= 2 && rest[0] == '.' && IsDigit(rest[1]) then SkipDigits(rest[1..]) else rest
    requires power == "" || IsExponent(power)
    ensures AfterSign(u)
  {
    hide SkipDigits, IsExponent;
  }

  lemma ParsedIsAccepted(u: string, i: int, j: int)
    requires Parses(u, i, j)
    ensures AfterSign(u)
  {
    hide SkipDigits, IsExponent, IsInt, IsFraction, IsPower, AfterSign;
    InThree(u, i, j);
    FractionIsSkipped(u[i..], j - i);
    assert i < |u| ==> u[i] == u[i..][0];
    IntIsSkipped(u, i);
    ExponentIsPower(u[j..]);
    InOrder(u, u[i..], u[j..]);
  }

  /** A text is taken for a number exactly when, after an optional minus sign, it is an integer without
      leading zeros, an optional fraction with at least one digit and an optional exponent with at least one. */
  lemma NumbersFollowTheGrammar(s: string)
    ensures IsNumber(s) <==> s != "" && IsUnsigned(if s[0] == '-' then s[1..] else s)
  {
    hide AfterSign, Parses, IsNumber;
    SignFirst(s);
    if s != "" {
      var u := if s[0] == '-' then s[1..] else s;
      if AfterSign(u) {
        var i, j := AcceptedParses(u);
      }
      if i, j :| Parses(u, i, j) {
        ParsedIsAccepted(u, i, j);
      }
    }
  }
}
