/**
 String helpers the matcher compares with: PHP's `strcasecmp` (ASCII case
 folding, no locale) and the phone normalisation `preg_replace('/\D/', '', s)`,
 which deletes every character that is not an ASCII digit.
 */
module Text {

  /** ASCII lower-casing of one character, as `strcasecmp` folds each byte. */
  function LowerChar(c: char): char {
    if 'A' <= c <= 'Z' then (c as int + 32) as char else c
  }

  /** The string with every ASCII upper-case letter folded to lower case. */
  function Lower(s: string): (r: string)
    ensures |r| == |s|
    ensures forall i :: 0 <= i < |s| ==> r[i] == LowerChar(s[i])
  {
    seq(|s|, i requires 0 <= i < |s| => LowerChar(s[i]))
  }

  /**
   `strcasecmp(a, b)`: walk both strings while they agree after folding; the
   first differing pair decides by the difference of the folded characters,
   and when one string runs out first the length difference decides.
   */
  function StrCaseCmp(a: string, b: string): (r: int)
    ensures a == b ==> r == 0
    ensures |a| != |b| ==> r != 0
    decreases |a|
  {
    if |a| == 0 || |b| == 0 then |a| - |b|
    else if LowerChar(a[0]) != LowerChar(b[0]) then LowerChar(a[0]) as int - LowerChar(b[0]) as int
    else StrCaseCmp(a[1..], b[1..])
  }

  /** `strcasecmp` reports equality exactly when the case-folded strings are equal. */
  lemma {:induction false} StrCaseCmpZeroIff(a: string, b: string)
    ensures StrCaseCmp(a, b) == 0 <==> Lower(a) == Lower(b)
    decreases |a|
  {
    if |a| == 0 || |b| == 0 {
      if |a| != |b| {
        assert |Lower(a)| != |Lower(b)|;
      } else {
        assert Lower(a) == Lower(b) == [];
      }
    } else if LowerChar(a[0]) != LowerChar(b[0]) {
      assert Lower(a)[0] != Lower(b)[0];
    } else {
      StrCaseCmpZeroIff(a[1..], b[1..]);
      assert Lower(a) == [LowerChar(a[0])] + Lower(a[1..]);
      assert Lower(b) == [LowerChar(b[0])] + Lower(b[1..]);
    }
  }

  /** Swapping the arguments of `strcasecmp` negates its result. */
  lemma {:induction false} StrCaseCmpAntisymmetric(a: string, b: string)
    ensures StrCaseCmp(b, a) == -StrCaseCmp(a, b)
    decreases |a|
  {
    if |a| != 0 && |b| != 0 && LowerChar(a[0]) == LowerChar(b[0]) {
      StrCaseCmpAntisymmetric(a[1..], b[1..]);
    }
  }

  /** Equality as the matcher tests it: `0 === strcasecmp(a, b)`. */
  predicate CaseEq(a: string, b: string) {
    StrCaseCmp(a, b) == 0
  }

  /**
   Case-insensitive equality holds exactly when the lengths agree and every
   position agrees after folding; so it is no substring or fuzzy match.
   */
  lemma CaseEqIff(a: string, b: string)
    ensures CaseEq(a, b) <==> |a| == |b| && forall i :: 0 <= i < |a| ==> LowerChar(a[i]) == LowerChar(b[i])
  {
    StrCaseCmpZeroIff(a, b);
    if |a| == |b| && forall i :: 0 <= i < |a| ==> LowerChar(a[i]) == LowerChar(b[i]) {
      assert Lower(a) == Lower(b);
    }
  }

  /** Case-insensitive equality is an equivalence relation. */
  lemma CaseEqEquivalence(a: string, b: string, c: string)
    ensures CaseEq(a, a)
    ensures CaseEq(a, b) ==> CaseEq(b, a)
    ensures CaseEq(a, b) && CaseEq(b, c) ==> CaseEq(a, c)
  {
    StrCaseCmpAntisymmetric(a, b);
    StrCaseCmpZeroIff(a, b);
    StrCaseCmpZeroIff(b, c);
    StrCaseCmpZeroIff(a, c);
  }

  /** An empty field equals only an empty field. */
  lemma CaseEqEmpty(a: string)
    ensures CaseEq(a, "") <==> a == ""
    ensures CaseEq("", a) <==> a == ""
  {
  }

  predicate IsDigit(c: char) {
    '0' <= c <= '9'
  }

  predicate AllDigits(s: string) {
    forall i :: 0 <= i < |s| ==> IsDigit(s[i])
  }

  /**
   `preg_replace('/\D/', '', s)`: the digits of `s`, in their original order.
   The result holds digits only and is never longer than `s`.
   */
  function Digits(s: string): (r: string)
    ensures AllDigits(r)
    ensures |r| <= |s|
  {
    if |s| == 0 then ""
    else (if IsDigit(s[0]) then [s[0]] else "") + Digits(s[1..])
  }

  /** A single character survives normalisation exactly when it is an ASCII digit. */
  lemma DigitsOfChar(c: char)
    ensures Digits([c]) == if IsDigit(c) then [c] else []
  {
    assert [c][1..] == [];
  }

  /** Normalising distributes over concatenation: it acts on each character independently. */
  lemma {:induction false} DigitsConcat(a: string, b: string)
    ensures Digits(a + b) == Digits(a) + Digits(b)
    decreases |a|
  {
    if |a| == 0 {
      assert a + b == b;
    } else {
      var head := if IsDigit(a[0]) then [a[0]] else "";
      assert (a + b)[0] == a[0];
      assert (a + b)[1..] == a[1..] + b;
      calc {
        Digits(a + b);
        head + Digits(a[1..] + b);
        { DigitsConcat(a[1..], b); }
        head + (Digits(a[1..]) + Digits(b));
        (head + Digits(a[1..])) + Digits(b);
      }
    }
  }

  /** A string of digits only is left as it is. */
  lemma {:induction false} DigitsOfDigits(s: string)
    requires AllDigits(s)
    ensures Digits(s) == s
    decreases |s|
  {
    if |s| != 0 {
      DigitsOfDigits(s[1..]);
    }
  }

  /** Normalising twice is normalising once. */
  lemma DigitsIdempotent(s: string)
    ensures Digits(Digits(s)) == Digits(s)
  {
    DigitsOfDigits(Digits(s));
  }
}
