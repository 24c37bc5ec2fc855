/**
 * String primitives the source takes from the .NET class library (ordinal
 * `IndexOf`, `EndsWith`, `ToString` of integers and booleans), written out.
 */
module Text {
  import opened Wrappers

  /** The first index of `c` in `s`, if any (ordinal `String.IndexOf(char)`). */
  function FindChar(s: string, c: char): (r: Option<nat>)
    ensures r.Some? ==> r.value < |s| && s[r.value] == c && c !in s[..r.value]
    ensures r.None? <==> c !in s
  {
    if s == [] then None
    else if s[0] == c then Some(0)
    else match FindChar(s[1..], c)
      case None => None
      case Some(k) =>
        assert s[1..][..k] == s[1..k + 1];
        assert s[..k + 1] == [s[0]] + s[1..k + 1];
        Some(k + 1)
  }

  /** Any index of `s` holding the first `c` is the one `FindChar` finds. */
  lemma FindCharIsFirst(s: string, c: char, k: nat)
    requires k < |s| && s[k] == c && c !in s[..k]
    ensures FindChar(s, c) == Some(k)
  {
  }

  /** `pat` occurs in `s` starting at index `j`. */
  predicate OccursAt(s: string, pat: string, j: nat)
  {
    j + |pat| <= |s| && s[j..j + |pat|] == pat
  }

  /** `pat` occurs somewhere in `s`. */
  predicate Contains(s: string, pat: string)
  {
    exists j: nat | j <= |s| :: OccursAt(s, pat, j)
  }

  /** The first index at or after `from` at which `pat` occurs in `s`, if any. */
  function FindFrom(s: string, pat: string, from: nat): (r: Option<nat>)
    requires from <= |s|
    ensures r.Some? ==> from <= r.value && r.value + |pat| <= |s|
    decreases |s| - from
  {
    if from + |pat| > |s| then None
    else if OccursAt(s, pat, from) then Some(from)
    else FindFrom(s, pat, from + 1)
  }

  /** `FindFrom` finds an occurrence with none between `from` and it, or there is none at all. */
  lemma {:induction false} FindFromFirst(s: string, pat: string, from: nat)
    requires from <= |s|
    ensures FindFrom(s, pat, from).Some? ==> OccursAt(s, pat, FindFrom(s, pat, from).value)
    ensures FindFrom(s, pat, from).Some? ==>
              forall j: nat :: from <= j < FindFrom(s, pat, from).value ==> !OccursAt(s, pat, j)
    ensures FindFrom(s, pat, from).None? ==> forall j: nat :: from <= j ==> !OccursAt(s, pat, j)
    decreases |s| - from
  {
    if from + |pat| <= |s| && !OccursAt(s, pat, from) {
      FindFromFirst(s, pat, from + 1);
    }
  }

  /** The first index at which `pat` occurs in `s`, if any (ordinal `String.IndexOf(string)`). */
  function Find(s: string, pat: string): (r: Option<nat>)
    ensures r.Some? ==> r.value + |pat| <= |s|
  {
    FindFrom(s, pat, 0)
  }

  /** `Find` finds the first occurrence, and finds none exactly when `pat` does not occur. */
  lemma FindFirst(s: string, pat: string)
    ensures Find(s, pat).Some? ==>
              OccursAt(s, pat, Find(s, pat).value) && forall j: nat :: j < Find(s, pat).value ==> !OccursAt(s, pat, j)
    ensures Find(s, pat).None? <==> !Contains(s, pat)
  {
    FindFromFirst(s, pat, 0);
  }

  /** An occurrence of `pat` with none before it is the one `Find` finds. */
  lemma FindIsFirst(s: string, pat: string, k: nat)
    requires OccursAt(s, pat, k) && forall j: nat :: j < k ==> !OccursAt(s, pat, j)
    ensures Find(s, pat) == Some(k)
  {
    FindFirst(s, pat);
    assert Contains(s, pat);
  }

  /**
   * `s.IndexOf(pat, from)` under ordinal comparison: the first occurrence of `pat`
   * at or after `from`, or -1. The library throws when `from` exceeds the length.
   */
  function IndexOf(s: string, pat: string, from: nat): (r: int)
    requires from <= |s|
    ensures r == -1 || (from <= r && r + |pat| <= |s|)
  {
    match Find(s[from..], pat)
    case None => -1
    case Some(k) => from + k
  }

  /** Searching the text after `from` is searching `s` at indices shifted by `from`. */
  lemma OccursShifted(s: string, pat: string, from: nat, k: nat)
    requires from <= |s|
    ensures OccursAt(s[from..], pat, k) <==> OccursAt(s, pat, from + k)
  {
    if from + k + |pat| <= |s| {
      assert s[from..][k..k + |pat|] == s[from + k..from + k + |pat|];
    }
  }

  /** `IndexOf` is the first occurrence at or after `from`, and -1 exactly when there is none. */
  lemma IndexOfFirst(s: string, pat: string, from: nat)
    requires from <= |s|
    ensures IndexOf(s, pat, from) != -1 ==> OccursAt(s, pat, IndexOf(s, pat, from))
    ensures forall j: nat :: from <= j && (IndexOf(s, pat, from) == -1 || j < IndexOf(s, pat, from))
              ==> !OccursAt(s, pat, j)
  {
    FindFirst(s[from..], pat);
    var r := IndexOf(s, pat, from);
    if r != -1 {
      OccursShifted(s, pat, from, r - from);
    }
    forall j: nat | from <= j && (r == -1 || j < r)
      ensures !OccursAt(s, pat, j)
    {
      OccursShifted(s, pat, from, j - from);
    }
  }

  predicate StartsWith(s: string, prefix: string)
  {
    |prefix| <= |s| && s[..|prefix|] == prefix
  }

  predicate EndsWith(s: string, suffix: string)
  {
    |suffix| <= |s| && s[|s| - |suffix|..] == suffix
  }

  function DigitChar(d: nat): (c: char)
    requires d < 10
    ensures '0' <= c <= '9'
  {
    ['0', '1', '2', '3', '4', '5', '6', '7', '8', '9'][d]
  }

  /** `ToString()` of a non-negative integer: its shortest decimal numeral. */
  function NatString(n: nat): (r: string)
    ensures |r| >= 1 && forall k :: 0 <= k < |r| ==> '0' <= r[k] <= '9'
    ensures (|r| == 1) <==> n < 10
  {
    if n < 10 then [DigitChar(n)] else NatString(n / 10) + [DigitChar(n % 10)]
  }

  lemma DigitCharInjective(a: nat, b: nat)
    requires a < 10 && b < 10 && DigitChar(a) == DigitChar(b)
    ensures a == b
  {
  }

  /** Distinct numbers have distinct numerals. */
  lemma {:induction false} NatStringInjective(a: nat, b: nat)
    requires NatString(a) == NatString(b)
    ensures a == b
  {
    if a >= 10 && b >= 10 {
      var ra, rb := NatString(a), NatString(b);
      assert ra[|ra| - 1] == DigitChar(a % 10) && rb[|rb| - 1] == DigitChar(b % 10);
      DigitCharInjective(a % 10, b % 10);
      assert ra[..|ra| - 1] == NatString(a / 10);
      assert rb[..|rb| - 1] == NatString(b / 10);
      NatStringInjective(a / 10, b / 10);
    } else if a < 10 && b < 10 {
      DigitCharInjective(a, b);
    }
  }

  /** `ToString()` of an integer: a '-' before the numeral of a negative number. */
  function IntString(n: int): (r: string)
    ensures |r| >= 1
    ensures (r[0] == '-') <==> n < 0
  {
    if n < 0 then "-" + NatString(-n) else NatString(n)
  }

  /** `ToString()` of a `bool`. */
  function BoolString(b: bool): string
  {
    if b then "True" else "False"
  }
}
