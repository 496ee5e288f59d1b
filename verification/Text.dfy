/** The string functions of the Go standard library that the models read text with. */
module Text {
  import opened Options

  const MAX_INT := 0x7fff_ffff_ffff_ffff

  lemma HeadIn<T>(s: seq<T>)
    ensures s != [] ==> s[0] in s
  {
  }

  // The place of the first sep in s, or its length.
  function Index(s: string, sep: char): (i: nat)
    ensures i <= |s| && sep !in s[..i] && (i < |s| ==> s[i] == sep)
  {
    if s == "" || s[0] == sep then 0
    else
      assert forall k :: 0 < k < |s| ==> s[k] == s[1..][k - 1];
      1 + Index(s[1..], sep)
  }

  // strings.Cut: what is before and after the first sep.
  function Cut(s: string, sep: char): (r: (string, Option<string>))
    ensures r.1.None? ==> r.0 == s && sep !in s
    ensures r.1.Some? ==> s == r.0 + [sep] + r.1.value && sep !in r.0
  {
    var i := Index(s, sep);
    if i < |s| then (s[..i], Some(s[i + 1..])) else (s, None)
  }

  // strings.Split by one character.
  function Split(s: string, sep: char): (parts: seq<string>)
    ensures |parts| > 0 && forall k :: 0 <= k < |parts| ==> sep !in parts[k]
    decreases |s|
  {
    var (before, after) := Cut(s, sep);
    if after.None? then [before] else [before] + Split(after.value, sep)
  }

  function Join(parts: seq<string>, sep: char): string
    requires |parts| > 0
  {
    if |parts| == 1 then parts[0] else parts[0] + [sep] + Join(parts[1..], sep)
  }

  /** Splitting loses nothing. */
  lemma {:induction false} JoinSplit(s: string, sep: char)
    ensures Join(Split(s, sep), sep) == s
    decreases |s|
  {
    var (before, after) := Cut(s, sep);
    if after.Some? {
      JoinSplit(after.value, sep);
      assert Split(s, sep)[1..] == Split(after.value, sep);
    }
  }

  lemma {:induction false} IndexOfFirst(before: string, after: string, sep: char)
    requires sep !in before
    ensures Index(before + [sep] + after, sep) == |before|
  {
    var s := before + [sep] + after;
    if before != "" {
      assert s[0] == before[0] && before[0] in before;
      assert s[1..] == before[1..] + [sep] + after;
      IndexOfFirst(before[1..], after, sep);
    }
  }

  /** Joining loses nothing either, of parts without the separator. */
  lemma {:induction false} SplitJoin(parts: seq<string>, sep: char)
    requires |parts| > 0 && forall k :: 0 <= k < |parts| ==> sep !in parts[k]
    ensures Split(Join(parts, sep), sep) == parts
  {
    var s := Join(parts, sep);
    if |parts| == 1 {
      assert sep !in s;
    } else {
      var rest := Join(parts[1..], sep);
      IndexOfFirst(parts[0], rest, sep);
      assert s[..|parts[0]|] == parts[0] && s[|parts[0]| + 1..] == rest;
      SplitJoin(parts[1..], sep);
    }
  }

  predicate IsDigit(c: char) {
    '0' <= c <= '9'
  }

  predicate AllDigits(s: string) {
    s != "" && forall k :: 0 <= k < |s| ==> IsDigit(s[k])
  }

  function Digit(c: char): nat
    requires IsDigit(c)
  {
    c as int - '0' as int
  }

  function DigitsValue(s: string): nat
    requires forall k :: 0 <= k < |s| ==> IsDigit(s[k])
  {
    if s == "" then 0 else 10 * DigitsValue(s[..|s| - 1]) + Digit(s[|s| - 1])
  }

  // strconv.Atoi and ParseInt to base 10: a sign, digits, and a value that fits 64 bits.
  function Atoi(s: string): Option<int> {
    var digits := if s != "" && (s[0] == '-' || s[0] == '+') then s[1..] else s;
    if !AllDigits(digits) then None
    else
      var value: int := DigitsValue(digits);
      var n := if s[0] == '-' then -value else value;
      if -MAX_INT - 1 <= n <= MAX_INT then Some(n) else None
  }

  // strings.Compare: -1, 0 or 1, character by character.
  function Compare(a: string, b: string): (c: int)
    ensures c == 0 <==> a == b
    ensures -1 <= c <= 1
    decreases |a|
  {
    if a == "" then (if b == "" then 0 else -1)
    else if b == "" then 1
    else if a[0] < b[0] then -1
    else if a[0] > b[0] then 1
    else
      assert a == [a[0]] + a[1..] && b == [b[0]] + b[1..];
      Compare(a[1..], b[1..])
  }

  lemma {:induction false} CompareFlips(a: string, b: string)
    ensures Compare(b, a) == -Compare(a, b)
    decreases |a|
  {
    if a != "" && b != "" && a[0] == b[0] {
      CompareFlips(a[1..], b[1..]);
    }
  }

  lemma {:induction false} CompareChains(a: string, b: string, c: string)
    requires Compare(a, b) <= 0 && Compare(b, c) <= 0
    ensures Compare(a, c) <= 0
    ensures Compare(a, b) < 0 || Compare(b, c) < 0 ==> Compare(a, c) < 0
    decreases |a|
  {
    if a != "" && b != "" && c != "" && a[0] == b[0] == c[0] {
      CompareChains(a[1..], b[1..], c[1..]);
    }
  }

  // unicode.IsSpace
  predicate IsSpace(c: char) {
    var n := c as int;
    9 <= n <= 13 || n == 0x20 || n == 0x85 || n == 0xa0 || n == 0x1680 || 0x2000 <= n <= 0x200a
    || n == 0x2028 || n == 0x2029 || n == 0x202f || n == 0x205f || n == 0x3000
  }

  // strings.TrimSpace
  function TrimSpace(s: string): string
    decreases |s|
  {
    if s == "" then ""
    else if IsSpace(s[0]) then TrimSpace(s[1..])
    else if IsSpace(s[|s| - 1]) then TrimSpace(s[..|s| - 1])
    else s
  }

  predicate Blank(s: string) {
    forall k :: 0 <= k < |s| ==> IsSpace(s[k])
  }

  /** Space goes from both ends, and nothing else does. */
  lemma {:induction false} Trims(before: string, s: string, after: string)
    requires Blank(before) && Blank(after)
    requires s != "" ==> !IsSpace(s[0]) && !IsSpace(s[|s| - 1])
    ensures TrimSpace(before + s + after) == s
    decreases |before| + |after|
  {
    var whole := before + s + after;
    if before != "" {
      assert whole[0] == before[0] && whole[1..] == before[1..] + s + after;
      Trims(before[1..], s, after);
    } else if after != "" {
      assert whole[|whole| - 1] == after[|after| - 1] && whole[..|whole| - 1] == before + s + after[..|after| - 1];
      if s == "" {
        assert whole == after && whole[1..] == before + s + after[1..];
        Trims(before, s, after[1..]);
      } else {
        assert whole[0] == s[0];
        Trims(before, s, after[..|after| - 1]);
      }
    } else {
      assert whole == s;
    }
  }

  /** Comparing is by the first character in which the strings differ, or by which of them ends first. */
  lemma {:induction false} ComparesFirstDifference(a: string, b: string, k: nat)
    requires k <= |a| && k <= |b| && a[..k] == b[..k] && (k < |a| && k < |b| ==> a[k] != b[k])
    ensures Compare(a, b) < 0 <==> k < |b| && (k == |a| || a[k] < b[k])
    ensures Compare(a, b) > 0 <==> k < |a| && (k == |b| || a[k] > b[k])
  {
    if k > 0 {
      assert a[0] == a[..k][0] && b[0] == b[..k][0] && a[1..][..k - 1] == a[..k][1..] && b[1..][..k - 1] == b[..k][1..];
      ComparesFirstDifference(a[1..], b[1..], k - 1);
    } else if |a| == 0 && |b| == 0 {
      assert a == b;
    }
  }

  function TrimPrefix(s: string, prefix: string): string {
    if prefix <= s then s[|prefix|..] else s
  }

  predicate HasSuffix(s: string, suffix: string) {
    |suffix| <= |s| && s[|s| - |suffix|..] == suffix
  }

  function TrimSuffix(s: string, suffix: string): string {
    if HasSuffix(s, suffix) then s[..|s| - |suffix|] else s
  }

  // strconv.Itoa, of what is not negative.
  function Itoa(n: nat): (s: string)
    ensures AllDigits(s) && DigitsValue(s) == n
  {
    if n < 10 then
      var c := ('0' as int + n) as char;
      assert DigitsValue([c]) == Digit(c);
      [c]
    else
      var front := Itoa(n / 10);
      var s := front + [('0' as int + n % 10) as char];
      assert s[..|s| - 1] == front;
      s
  }

  lemma AtoiItoa(n: nat)
    requires n <= MAX_INT
    ensures Atoi(Itoa(n)) == Some(n)
  {
    assert IsDigit(Itoa(n)[0]);
  }

  /** Numbers as they are written: digits from the highest on, with a sign or without. */
  lemma AtoiReads(n: int, d: char)
    requires IsDigit(d) && 0 < n && 10 * n + Digit(d) <= MAX_INT
    ensures Atoi([d]) == Some(d as int - '0' as int)
    ensures Atoi(Itoa(n) + [d]) == Some(10 * n + (d as int - '0' as int))
    ensures Atoi("-" + Itoa(n)) == Some(-n) && Atoi("+" + Itoa(n)) == Some(n)
  {
    OneMoreDigit(Itoa(n), d);
    AtoiOfDigits(Itoa(n) + [d]);
    SignedNumber(n);
    assert [d][..0] == "" && DigitsValue("") == 0 && DigitsValue([d]) == Digit(d);
    AtoiOfDigits([d]);
  }

  lemma AtoiOfDigits(s: string)
    requires AllDigits(s) && DigitsValue(s) <= MAX_INT
    ensures Atoi(s) == Some(DigitsValue(s))
  {
    assert IsDigit(s[0]);
  }

  lemma SignedNumber(n: int)
    requires 0 < n <= MAX_INT
    ensures Atoi("-" + Itoa(n)) == Some(-n) && Atoi("+" + Itoa(n)) == Some(n)
  {
    Signed("-", Itoa(n));
    Signed("+", Itoa(n));
  }

  lemma OneMoreDigit(s: string, d: char)
    requires AllDigits(s) && IsDigit(d)
    ensures AllDigits(s + [d]) && DigitsValue(s + [d]) == 10 * DigitsValue(s) + Digit(d)
    ensures IsDigit((s + [d])[0])
  {
    assert (s + [d])[..|s|] == s;
  }

  lemma Signed(sign: string, s: string)
    requires (sign == "-" || sign == "+") && AllDigits(s)
    ensures (sign + s)[1..] == s && (sign + s)[0] == sign[0]
  {
  }

  lemma LastOf(s: string, suffix: string)
    requires suffix != "" && HasSuffix(s, suffix)
    ensures s[|s| - 1] == suffix[|suffix| - 1]
  {
    assert s[|s| - |suffix|..][|suffix| - 1] == suffix[|suffix| - 1];
  }

  lemma SuffixOff(s: string, suffix: string)
    ensures TrimSuffix(s + suffix, suffix) == s
  {
    assert (s + suffix)[|s|..] == suffix;
  }

  lemma ItoaHasNo(n: nat, c: char)
    requires !IsDigit(c)
    ensures c !in Itoa(n)
  {
    assert forall k :: 0 <= k < |Itoa(n)| ==> IsDigit(Itoa(n)[k]);
  }
}
