/**
 * The string operations of Python's `str` that the crawler relies on:
 * `strip`, `lower`, `startswith`, `in` (substring), `find`/`rfind`,
 * `split` on one character and `join`. Characters are Unicode scalar
 * values; case mapping and whitespace are those of the ASCII range.
 */
module Text {
  import opened Wrappers

  /** `str.isspace` on the ASCII range: space, `\t \n \v \f \r` and the separators 0x1C-0x1F. */
  predicate IsSpace(c: char) {
    c == ' ' || (9 <= c as int <= 13) || (0x1C <= c as int <= 0x1F)
  }

  /** Neither the first nor the last character is whitespace. */
  predicate NoEdgeSpace(s: string) {
    |s| == 0 || (!IsSpace(s[0]) && !IsSpace(s[|s| - 1]))
  }

  /** How many whitespace characters open `s`, that is, where `Strip(s)` starts. */
  function StripStart(s: string): (n: nat)
    ensures n <= |s|
    ensures forall i :: 0 <= i < n ==> IsSpace(s[i])
    ensures n < |s| ==> !IsSpace(s[n])
    decreases |s|
  {
    if |s| > 0 && IsSpace(s[0]) then
      var n := StripStart(s[1..]);
      assert forall i :: 1 <= i <= n ==> s[i] == s[1..][i - 1];
      assert n + 1 < |s| ==> s[n + 1] == s[1..][n];
      n + 1
    else 0
  }

  /** Where the whitespace closing `s` begins, looking no further left than `lo`. */
  function StripEnd(s: string, lo: nat): (j: nat)
    requires lo <= |s|
    ensures lo <= j <= |s|
    ensures forall i :: j <= i < |s| ==> IsSpace(s[i])
    ensures j > lo ==> !IsSpace(s[j - 1])
    decreases |s|
  {
    if |s| > lo && IsSpace(s[|s| - 1]) then
      var t := s[..|s| - 1];
      var j := StripEnd(t, lo);
      assert forall i :: j <= i < |s| - 1 ==> s[i] == t[i];
      assert j > lo ==> s[j - 1] == t[j - 1];
      j
    else |s|
  }

  /** `str.strip()`: the longest slice of `s` without whitespace at either end. */
  function Strip(s: string): (r: string)
    ensures NoEdgeSpace(r)
    ensures StripStart(s) + |r| <= |s| && r == s[StripStart(s)..StripStart(s) + |r|]
  {
    var i := StripStart(s);
    var j := StripEnd(s, i);
    assert j > i ==> s[i..j][0] == s[i] && s[i..j][j - i - 1] == s[j - 1];
    s[i..j]
  }

  /** Everything `Strip` cuts off is whitespace. */
  lemma StripOutside(s: string)
    ensures forall m :: 0 <= m < StripStart(s) ==> IsSpace(s[m])
    ensures forall m :: StripStart(s) + |Strip(s)| <= m < |s| ==> IsSpace(s[m])
  {
  }

  /** Stripping a string that has no whitespace at its ends gives it back. */
  lemma StripNoEdgeSpace(s: string)
    requires NoEdgeSpace(s)
    ensures Strip(s) == s
  {
    assert StripStart(s) == 0;
    assert s[0..|s|] == s;
  }

  /** `strip` is idempotent. */
  lemma StripIdempotent(s: string)
    ensures Strip(Strip(s)) == Strip(s)
  {
    StripNoEdgeSpace(Strip(s));
  }

  /** Stripping keeps every non-whitespace character and adds none. */
  lemma StripKeeps(s: string, c: char)
    requires !IsSpace(c)
    ensures c in Strip(s) <==> c in s
  {
    var i, r := StripStart(s), Strip(s);
    if c in s {
      StripOutside(s);
      var k :| 0 <= k < |s| && s[k] == c;
      assert r[k - i] == c;
    }
  }

  /** The ASCII upper-case letters. */
  predicate IsUpper(c: char) {
    'A' <= c <= 'Z'
  }

  predicate NoUpper(s: string) {
    forall i :: 0 <= i < |s| ==> !IsUpper(s[i])
  }

  function LowerChar(c: char): (d: char)
    ensures !IsUpper(d)
    ensures IsUpper(c) ==> d as int == c as int + 32
    ensures !IsUpper(c) ==> d == c
  {
    if IsUpper(c) then (c as int + 32) as char else c
  }

  /** `str.lower()` on the ASCII letters. */
  function Lower(s: string): (r: string)
    ensures |r| == |s| && NoUpper(r)
    ensures forall i :: 0 <= i < |s| ==> r[i] == LowerChar(s[i])
  {
    seq(|s|, i requires 0 <= i < |s| => LowerChar(s[i]))
  }

  /** Lower-casing a string with no upper-case letter gives it back. */
  lemma LowerNoUpper(s: string)
    requires NoUpper(s)
    ensures Lower(s) == s
  {
  }

  /** Every slice of a string without upper-case letters is without them too. */
  lemma NoUpperSlice(s: string, i: int, j: int)
    requires NoUpper(s) && 0 <= i <= j <= |s|
    ensures NoUpper(s[i..j])
  {
    assert forall k :: 0 <= k < j - i ==> s[i..j][k] == s[i + k];
  }

  predicate StartsWith<T(==)>(s: seq<T>, prefix: seq<T>) {
    |prefix| <= |s| && s[..|prefix|] == prefix
  }

  /** Python's `s.startswith(prefixes)` with a tuple of prefixes. */
  predicate StartsWithAny(s: string, prefixes: seq<string>)
    decreases |prefixes|
  {
    |prefixes| > 0 && (StartsWith(s, prefixes[0]) || StartsWithAny(s, prefixes[1..]))
  }

  /** The tuple form holds exactly when one of the prefixes starts `s`. */
  lemma {:induction false} StartsWithAnyIff(s: string, prefixes: seq<string>)
    ensures StartsWithAny(s, prefixes) <==> exists p :: p in prefixes && StartsWith(s, p)
    decreases |prefixes|
  {
    if |prefixes| > 0 {
      StartsWithAnyIff(s, prefixes[1..]);
      if p :| p in prefixes && StartsWith(s, p) {
        if p != prefixes[0] {
          assert p in prefixes[1..];
        }
      }
    }
  }

  /** Python's `sub in s` for strings. */
  predicate Contains(s: string, sub: string)
    decreases |s|
  {
    StartsWith(s, sub) || (|s| > 0 && Contains(s[1..], sub))
  }

  /** `sub` occurs in `s` at offset `k`. */
  predicate OccursAt(s: string, sub: string, k: int) {
    0 <= k <= |s| - |sub| && s[k..k + |sub|] == sub
  }

  /** `sub in s` holds exactly when `sub` occurs at some offset of `s`. */
  lemma {:induction false} ContainsAt(s: string, sub: string)
    ensures Contains(s, sub) <==> exists k :: OccursAt(s, sub, k)
    decreases |s|
  {
    if StartsWith(s, sub) {
      assert OccursAt(s, sub, 0);
    } else if |s| > 0 {
      ContainsAt(s[1..], sub);
      if Contains(s[1..], sub) {
        var k :| OccursAt(s[1..], sub, k);
        assert s[k + 1..k + 1 + |sub|] == s[1..][k..k + |sub|];
        assert OccursAt(s, sub, k + 1);
      }
      if k :| OccursAt(s, sub, k) {
        assert k != 0;
        assert s[1..][k - 1..k - 1 + |sub|] == s[k..k + |sub|];
        assert OccursAt(s[1..], sub, k - 1);
      }
    }
  }

  /** A string that contains `outer + sub + tail` contains `sub`. */
  lemma ContainsInner(s: string, outer: string, sub: string, tail: string)
    requires Contains(s, outer + sub + tail)
    ensures Contains(s, sub)
  {
    var w := outer + sub + tail;
    ContainsAt(s, w);
    var k :| OccursAt(s, w, k);
    var k' := k + |outer|;
    forall i | 0 <= i < |sub| ensures s[k' + i] == sub[i] {
      assert s[k + (|outer| + i)] == s[k..k + |w|][|outer| + i] == w[|outer| + i];
    }
    assert s[k'..k' + |sub|] == sub;
    assert OccursAt(s, sub, k');
    ContainsAt(s, sub);
  }

  /** A string lacking one of the characters of `sub` does not contain `sub`. */
  lemma MissingCharNotContained(s: string, sub: string, ch: char)
    requires ch in sub && ch !in s
    ensures !Contains(s, sub)
  {
    ContainsAt(s, sub);
    var m :| 0 <= m < |sub| && sub[m] == ch;
    forall k | 0 <= k <= |s| - |sub| ensures !OccursAt(s, sub, k) {
      assert s[k..k + |sub|][m] == s[k + m] != ch;
    }
  }

  /** A list of terms none of which occurs, each shown by one of its characters that `s` lacks. */
  lemma {:induction false} MissingCharsNotContained(s: string, terms: seq<string>, marks: string)
    requires |marks| == |terms|
    requires forall k :: 0 <= k < |terms| ==> marks[k] in terms[k] && marks[k] !in s
    ensures !ContainsAny(s, terms)
    decreases |terms|
  {
    if |terms| > 0 {
      MissingCharNotContained(s, terms[0], marks[0]);
      MissingCharsNotContained(s, terms[1..], marks[1..]);
    }
  }

  /** Python's `any(t in s for t in terms)`. */
  predicate ContainsAny(s: string, terms: seq<string>)
    decreases |terms|
  {
    |terms| > 0 && (Contains(s, terms[0]) || ContainsAny(s, terms[1..]))
  }

  /** `any(...)` over a list holds exactly when one of its terms occurs in `s`. */
  lemma {:induction false} ContainsAnyIff(s: string, terms: seq<string>)
    ensures ContainsAny(s, terms) <==> exists t :: t in terms && Contains(s, t)
    decreases |terms|
  {
    if |terms| > 0 {
      ContainsAnyIff(s, terms[1..]);
      if t :| t in terms && Contains(s, t) {
        if t != terms[0] {
          assert t in terms[1..];
        }
      }
    }
  }

  /** `s.find(c)`: the first position of `c`. */
  function IndexOf(s: string, c: char): (r: Option<nat>)
    ensures r.None? <==> c !in s
    ensures r.Some? ==> r.value < |s| && s[r.value] == c && c !in s[..r.value]
  {
    if |s| == 0 then None
    else if s[0] == c then Some(0)
    else
      match IndexOf(s[1..], c)
      case None => None
      case Some(i) =>
        assert s[..i + 1] == [s[0]] + s[1..][..i];
        Some(i + 1)
  }

  /** `s.rfind(c)`: the last position of `c`. */
  function LastIndexOf(s: string, c: char): (r: Option<nat>)
    ensures r.None? <==> c !in s
    ensures r.Some? ==> r.value < |s| && s[r.value] == c && c !in s[r.value + 1..]
  {
    if |s| == 0 then None
    else if s[|s| - 1] == c then Some(|s| - 1)
    else
      var r := LastIndexOf(s[..|s| - 1], c);
      if r.Some? then
        assert s[r.value + 1..] == s[..|s| - 1][r.value + 1..] + [s[|s| - 1]];
        r
      else
        assert s == s[..|s| - 1] + [s[|s| - 1]];
        r
  }

  /** A position holding `c` with no `c` before it is what `find` returns. */
  lemma IndexOfIs(s: string, c: char, i: nat)
    requires i < |s| && s[i] == c && c !in s[..i]
    ensures IndexOf(s, c) == Some(i)
  {
    var r := IndexOf(s, c).value;
    assert forall j :: 0 <= j < i ==> s[j] != c by {
      forall j | 0 <= j < i ensures s[j] != c { assert s[..i][j] == s[j]; }
    }
    assert forall j :: 0 <= j < r ==> s[j] != c by {
      forall j | 0 <= j < r ensures s[j] != c { assert s[..r][j] == s[j]; }
    }
  }

  /** A position holding `c` with no `c` after it is what `rfind` returns. */
  lemma LastIndexOfIs(s: string, c: char, i: nat)
    requires i < |s| && s[i] == c && c !in s[i + 1..]
    ensures LastIndexOf(s, c) == Some(i)
  {
    var r := LastIndexOf(s, c).value;
    assert forall j :: i < j < |s| ==> s[j] != c by {
      forall j | i < j < |s| ensures s[j] != c { assert s[i + 1..][j - i - 1] == s[j]; }
    }
    assert forall j :: r < j < |s| ==> s[j] != c by {
      forall j | r < j < |s| ensures s[j] != c { assert s[r + 1..][j - r - 1] == s[j]; }
    }
  }

  /** `s.split(c)` for a one-character separator. */
  function Split(s: string, c: char): (r: seq<string>)
    ensures |r| >= 1
    ensures forall k :: 0 <= k < |r| ==> c !in r[k]
    ensures c in s <==> |r| >= 2
    ensures IndexOf(s, c).Some? ==> r[0] == s[..IndexOf(s, c).value]
    ensures IndexOf(s, c).None? ==> r == [s]
    decreases |s|
  {
    match IndexOf(s, c)
    case None => [s]
    case Some(i) => [s[..i]] + Split(s[i + 1..], c)
  }

  /** The first field of a split is the text before the first separator. */
  lemma SplitHead(s: string, c: char, i: nat)
    requires IndexOf(s, c) == Some(i)
    ensures Split(s, c)[0] == s[..i]
  {
  }

  /** `c.join(parts)` for a one-character separator. */
  function Join(parts: seq<string>, c: char): string
    decreases |parts|
  {
    if |parts| == 0 then ""
    else if |parts| == 1 then parts[0]
    else parts[0] + [c] + Join(parts[1..], c)
  }

  /** The first separator of `head + [c] + rest` is the one after `head`. */
  lemma IndexOfAfter(head: string, c: char, rest: string)
    requires c !in head
    ensures IndexOf(head + [c] + rest, c) == Some(|head|)
  {
    var s := head + [c] + rest;
    assert s[|head|] == c;
    assert s[..|head|] == head;
  }

  /** Splitting a join gives the parts back when no part holds the separator. */
  lemma {:induction false} SplitJoin(parts: seq<string>, c: char)
    requires |parts| >= 1
    requires forall k :: 0 <= k < |parts| ==> c !in parts[k]
    ensures Split(Join(parts, c), c) == parts
    decreases |parts|
  {
    if |parts| > 1 {
      var rest := Join(parts[1..], c);
      var s := parts[0] + [c] + rest;
      assert Join(parts, c) == s;
      IndexOfAfter(parts[0], c, rest);
      assert s[..|parts[0]|] == parts[0];
      assert s[|parts[0]| + 1..] == rest;
      SplitJoin(parts[1..], c);
      assert Split(s, c) == [parts[0]] + Split(rest, c);
      assert parts == [parts[0]] + parts[1..];
    }
  }

  /** Joining a split gives the string back. */
  lemma {:induction false} JoinSplit(s: string, c: char)
    ensures Join(Split(s, c), c) == s
    decreases |s|
  {
    match IndexOf(s, c)
    case None =>
    case Some(i) =>
      JoinSplit(s[i + 1..], c);
      assert s == s[..i] + [c] + s[i + 1..];
  }

  /** The ASCII digits. */
  predicate IsDigit(c: char) {
    '0' <= c <= '9'
  }

  /** `str.isdigit()`: a non-empty string of digits. */
  predicate IsDigits(s: string) {
    |s| > 0 && forall i :: 0 <= i < |s| ==> IsDigit(s[i])
  }

  function DigitChar(d: nat): (c: char)
    requires d < 10
    ensures IsDigit(c)
  {
    ('0' as int + d) as char
  }

  function DigitValue(c: char): nat
    requires IsDigit(c)
  {
    c as int - '0' as int
  }

  /** The decimal digits of `n`, most significant first, with no leading zero. */
  function Digits(n: nat): (s: string)
    ensures IsDigits(s)
    ensures |s| > 1 ==> s[0] != '0'
    decreases n
  {
    if n < 10 then [DigitChar(n)] else Digits(n / 10) + [DigitChar(n % 10)]
  }

  /** The number a string of decimal digits denotes. */
  function DigitsValue(s: string): nat
    requires forall i :: 0 <= i < |s| ==> IsDigit(s[i])
    decreases |s|
  {
    if s == [] then 0 else 10 * DigitsValue(s[..|s| - 1]) + DigitValue(s[|s| - 1])
  }

  /** Reading back the digits gives the number. */
  lemma {:induction false} DigitsRoundTrip(n: nat)
    ensures DigitsValue(Digits(n)) == n
    decreases n
  {
    var s := Digits(n);
    if n >= 10 {
      DigitsRoundTrip(n / 10);
      assert s[..|s| - 1] == Digits(n / 10);
    }
  }

  /** `str(n)` for an integer. */
  function IntToString(n: int): (s: string)
    ensures n >= 0 ==> IsDigits(s) && DigitsValue(s) == n
    ensures n < 0 ==> |s| >= 2 && s[0] == '-' && IsDigits(s[1..]) && DigitsValue(s[1..]) == -n
  {
    if n < 0 then DigitsRoundTrip(-n); "-" + Digits(-n) else DigitsRoundTrip(n); Digits(n)
  }
}
