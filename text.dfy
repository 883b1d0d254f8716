/** The Python `str` operations the scripts rely on, stated over `seq<char>`.
    Only ASCII behaviour is modelled (digits, case, whitespace). */
module Text {
  import opened Wrappers

  /** `s.startswith(p)` */
  predicate StartsWith(s: string, p: string) {
    |p| <= |s| && s[..|p|] == p
  }

  /** `s.endswith(p)` */
  predicate EndsWith(s: string, p: string) {
    |p| <= |s| && s[|s| - |p|..] == p
  }

  /** `p` occurs in `s` starting at index `i`. */
  predicate OccursAt(s: string, i: int, p: string) {
    0 <= i && i + |p| <= |s| && s[i..i + |p|] == p
  }

  /** `p in s` */
  predicate Contains(s: string, p: string) {
    exists i | 0 <= i <= |s| :: OccursAt(s, i, p)
  }

  lemma OccursAtTail(s: string, j: int, p: string)
    requires |s| > 0 && 0 <= j
    ensures OccursAt(s, j + 1, p) <==> OccursAt(s[1..], j, p)
  {
    if j + 1 + |p| <= |s| {
      assert s[j + 1..j + 1 + |p|] == s[1..][j..j + |p|];
    }
  }

  /** `s.find(p)`, with `None` standing for -1: the first index at which `p` occurs. */
  function Find(s: string, p: string): (r: Option<nat>)
    ensures r.Some? ==> OccursAt(s, r.value, p)
    ensures r.Some? ==> forall j :: 0 <= j < r.value ==> !OccursAt(s, j, p)
    ensures r.None? ==> !Contains(s, p)
    decreases |s|
  {
    if |s| < |p| then None
    else if s[..|p|] == p then (assert OccursAt(s, 0, p); Some(0))
    else
      var rest := Find(s[1..], p);
      FindTail(s, p, rest);
      match rest
      case None => None
      case Some(k) => Some(k + 1)
  }

  /** The step from `Find(s[1..], p)` to `Find(s, p)` when `p` does not start at 0. */
  lemma FindTail(s: string, p: string, rest: Option<nat>)
    requires |s| >= |p| && |s| > 0 && s[..|p|] != p
    requires rest.Some? ==> OccursAt(s[1..], rest.value, p)
    requires rest.Some? ==> forall j :: 0 <= j < rest.value ==> !OccursAt(s[1..], j, p)
    requires rest.None? <==> !Contains(s[1..], p)
    ensures rest.Some? ==> OccursAt(s, rest.value + 1, p)
    ensures rest.Some? ==> forall j :: 0 <= j < rest.value + 1 ==> !OccursAt(s, j, p)
    ensures rest.None? <==> !Contains(s, p)
  {
    assert !OccursAt(s, 0, p);
    forall j | 0 <= j
      ensures OccursAt(s, j + 1, p) <==> OccursAt(s[1..], j, p)
    {
      OccursAtTail(s, j, p);
    }
    if rest.Some? {
      forall j | 0 <= j < rest.value + 1 ensures !OccursAt(s, j, p) {
        if j > 0 { OccursAtTail(s, j - 1, p); }
      }
    }
    if Contains(s, p) {
      var i :| 0 <= i <= |s| && OccursAt(s, i, p);
      assert i > 0;
      OccursAtTail(s, i - 1, p);
      assert OccursAt(s[1..], i - 1, p);
    }
    if Contains(s[1..], p) {
      var i :| 0 <= i <= |s[1..]| && OccursAt(s[1..], i, p);
      OccursAtTail(s, i, p);
      assert OccursAt(s, i + 1, p);
    }
  }

  /** A one-character pattern occurs exactly where that character stands. */
  lemma OccursAtChar(s: string, c: char)
    ensures forall j :: OccursAt(s, j, [c]) <==> 0 <= j < |s| && s[j] == c
  {
    forall j | 0 <= j < |s| ensures s[j..j + 1] == [s[j]] {}
  }

  /** Finding a one-character pattern gives the first index holding that character. */
  lemma FindChar(s: string, c: char, i: nat)
    requires i < |s| && s[i] == c
    requires forall j :: 0 <= j < i ==> s[j] != c
    ensures Find(s, [c]) == Some(i)
  {
    OccursAtChar(s, c);
    assert OccursAt(s, i, [c]);
    var r := Find(s, [c]);
    assert r.Some?;
    assert !(r.value < i);
    assert !(i < r.value);
  }

  lemma FindCharAbsent(s: string, c: char)
    requires forall j :: 0 <= j < |s| ==> s[j] != c
    ensures Find(s, [c]) == None
  {
    OccursAtChar(s, c);
    assert !Contains(s, [c]);
  }

  /** The leftmost occurrence is what `find` returns. */
  lemma FindFirst(s: string, p: string, i: nat)
    requires OccursAt(s, i, p)
    requires forall j :: 0 <= j < i ==> !OccursAt(s, j, p)
    ensures Find(s, p) == Some(i)
  {
    var r := Find(s, p);
    assert r.Some?;
    assert !(r.value < i);
    assert !(i < r.value);
  }

  /** A text lacking one character of `p` does not contain `p`. */
  lemma MissingChar(s: string, p: string, c: char)
    requires c in p && forall k :: 0 <= k < |s| ==> s[k] != c
    ensures !Contains(s, p)
  {
    var n :| 0 <= n < |p| && p[n] == c;
    forall i | 0 <= i <= |s| ensures !OccursAt(s, i, p) {
      if i + |p| <= |s| {
        assert s[i..i + |p|][n] != p[n];
      }
    }
  }

  /** `s.split(sep)` for a non-empty separator. */
  function Split(s: string, sep: string): (parts: seq<string>)
    requires |sep| > 0
    ensures |parts| >= 1
    ensures |parts| >= 2 <==> Contains(s, sep)
    decreases |s|
  {
    match Find(s, sep)
    case None => [s]
    case Some(i) => [s[..i]] + Split(s[i + |sep|..], sep)
  }

  /** `s.split(sep)[1]` is the text between the first `sep` and the next one, or the end. */
  lemma SplitSecond(s: string, sep: string)
    requires |sep| > 0 && Contains(s, sep)
    ensures
      var i := Find(s, sep).value;
      var rest := s[i + |sep|..];
      Split(s, sep)[1] == (match Find(rest, sep) case None => rest case Some(j) => rest[..j])
  {
    var i := Find(s, sep).value;
    var rest := s[i + |sep|..];
    SplitHead(s, sep);
    SplitHead(rest, sep);
    assert Split(s, sep)[1] == Split(rest, sep)[0];
  }

  /** One step of a split: the text up to the first separator, then the split of the rest. */
  lemma SplitHead(s: string, sep: string)
    requires |sep| > 0
    ensures match Find(s, sep)
      case None => Split(s, sep) == [s]
      case Some(i) => i + |sep| <= |s| && Split(s, sep) == [s[..i]] + Split(s[i + |sep|..], sep)
  {
    SplitUnfold(s, sep);
  }

  /** Split's definition, one step. */
  lemma SplitUnfold(s: string, sep: string)
    requires |sep| > 0
    ensures Find(s, sep).None? ==> Split(s, sep) == [s]
    ensures Find(s, sep).Some? ==>
      Split(s, sep) == [s[..Find(s, sep).value]] + Split(s[Find(s, sep).value + |sep|..], sep)
  {
  }

  /** A text cut before the first occurrence of `p` does not contain `p`. */
  lemma NoOccurrenceBefore(s: string, p: string, i: nat)
    requires |p| > 0 && i <= |s|
    requires forall j :: 0 <= j < i ==> !OccursAt(s, j, p)
    ensures !Contains(s[..i], p)
  {
    forall j | 0 <= j <= i
      ensures !OccursAt(s[..i], j, p)
    {
      if j + |p| <= i {
        assert j < i && !OccursAt(s, j, p);
        assert s[..i][j..j + |p|] == s[j..j + |p|];
      }
    }
  }

  /** `sep.join(s.split(sep)) == s`, and no part holds the separator. */
  lemma {:induction false} SplitJoin(s: string, sep: string)
    requires |sep| > 0
    ensures Join(Split(s, sep), sep) == s
    decreases |s|
  {
    SplitUnfold(s, sep);
    if Find(s, sep).Some? {
      var i := Find(s, sep).value;
      var head, rest := s[..i], s[i + |sep|..];
      SplitJoin(rest, sep);
      JoinCons(head, Split(rest, sep), sep);
      AroundOccurrence(s, i, sep);
    }
  }

  /** No part of a split contains the separator. */
  lemma {:induction false} SplitPartsClean(s: string, sep: string)
    requires |sep| > 0
    ensures forall k :: 0 <= k < |Split(s, sep)| ==> !Contains(Split(s, sep)[k], sep)
    decreases |s|
  {
    SplitUnfold(s, sep);
    if Find(s, sep).Some? {
      var i := Find(s, sep).value;
      var rest := s[i + |sep|..];
      var ps := Split(rest, sep);
      var parts := Split(s, sep);
      SplitAt(s, sep, i);
      SplitPartsClean(rest, sep);
      NoOccurrenceBefore(s, sep, i);
      forall k | 0 <= k < |parts|
        ensures !Contains(parts[k], sep)
      {
        if k > 0 {
          assert parts[k] == ps[k - 1];
        }
      }
    }
  }

  /** Split at a known first occurrence. */
  lemma SplitAt(s: string, sep: string, i: nat)
    requires |sep| > 0 && Find(s, sep) == Some(i)
    ensures Split(s, sep) == [s[..i]] + Split(s[i + |sep|..], sep)
  {
  }

  /** A text is what stands before an occurrence, the occurrence, and what follows. */
  lemma AroundOccurrence(s: string, i: int, p: string)
    requires OccursAt(s, i, p)
    ensures s == s[..i] + p + s[i + |p|..]
  {
  }

  /** Joining a part in front of a non-empty list puts one separator between them. */
  lemma JoinCons(head: string, ps: seq<string>, sep: string)
    requires |ps| > 0
    ensures Join([head] + ps, sep) == head + sep + Join(ps, sep)
  {
    assert ([head] + ps)[1..] == ps;
  }

  /** `s or ""` for an optional string. */
  function OrEmpty(s: Option<string>): string {
    if s.Some? then s.value else ""
  }

  /** `sep.join(parts)` */
  function Join(parts: seq<string>, sep: string): string
    decreases |parts|
  {
    if |parts| == 0 then ""
    else if |parts| == 1 then parts[0]
    else parts[0] + sep + Join(parts[1..], sep)
  }

  /** `s.replace(pat, rep)` for a non-empty pattern: every non-overlapping occurrence,
      scanned left to right, and the inserted text is not scanned again. */
  function Replace(s: string, pat: string, rep: string): string
    requires |pat| > 0
    decreases |s|
  {
    if |s| < |pat| then s
    else if s[..|pat|] == pat then rep + Replace(s[|pat|..], pat, rep)
    else [s[0]] + Replace(s[1..], pat, rep)
  }

  /** Text that does not hold the pattern's first character is copied unchanged, whatever follows it. */
  lemma {:induction false} ReplaceSkipsPrefix(a: string, b: string, pat: string, rep: string)
    requires |pat| > 0 && pat[0] !in a
    ensures Replace(a + b, pat, rep) == a + Replace(b, pat, rep)
    decreases |a|
  {
    if |a| > 0 {
      var s := a + b;
      assert s[0] == a[0];
      if |s| >= |pat| {
        assert s[..|pat|][0] == a[0] != pat[0];
      }
      assert s[1..] == a[1..] + b;
      if |s| < |pat| {
        ReplaceSkipsPrefix(a[1..], b, pat, rep);
      } else {
        ReplaceSkipsPrefix(a[1..], b, pat, rep);
      }
    } else {
      assert a + b == b;
    }
  }

  /** A text that does not contain the pattern comes back from `replace` unchanged. */
  lemma {:induction false} ReplaceAbsent(s: string, pat: string, rep: string)
    requires |pat| > 0 && !Contains(s, pat)
    ensures Replace(s, pat, rep) == s
    decreases |s|
  {
    if |s| >= |pat| {
      assert !OccursAt(s, 0, pat);
      assert s[..|pat|] != pat;
      forall j | 0 <= j <= |s[1..]|
        ensures !OccursAt(s[1..], j, pat)
      {
        OccursAtTail(s, j, pat);
        assert !OccursAt(s, j + 1, pat);
      }
      ReplaceAbsent(s[1..], pat, rep);
      assert [s[0]] + s[1..] == s;
    }
  }

  /** An occurrence of the pattern at the front is replaced and scanning resumes after it. */
  lemma ReplaceHead(b: string, pat: string, rep: string)
    requires |pat| > 0
    ensures Replace(pat + b, pat, rep) == rep + Replace(b, pat, rep)
  {
    assert (pat + b)[..|pat|] == pat;
    assert (pat + b)[|pat|..] == b;
  }

  /** When `b` starts with a character the pattern does not hold, no occurrence straddles
      the boundary, so the two halves are replaced independently. */
  lemma {:induction false} ReplaceSplits(a: string, b: string, pat: string, rep: string)
    requires |pat| > 0 && |b| > 0 && b[0] !in pat
    ensures Replace(a + b, pat, rep) == Replace(a, pat, rep) + Replace(b, pat, rep)
    decreases |a|
  {
    var s := a + b;
    if |a| == 0 {
      assert s == b;
    } else if |s| < |pat| {
      ReplaceShort(a, pat, rep);
      ReplaceShort(b, pat, rep);
    } else if |a| >= |pat| && a[..|pat|] == pat {
      assert s[..|pat|] == a[..|pat|];
      ReplaceSplitsAtMatch(a, b, pat, rep);
    } else {
      assert s[..|pat|] != pat by {
        if |a| < |pat| {
          assert s[..|pat|][|a|] == b[0];
        } else {
          assert s[..|pat|] == a[..|pat|];
        }
      }
      ReplaceSplitsAtMiss(a, b, pat, rep);
    }
  }

  lemma ReplaceShort(s: string, pat: string, rep: string)
    requires 0 < |pat| && |s| < |pat|
    ensures Replace(s, pat, rep) == s
  {
  }

  lemma ReplaceSplitsAtMatch(a: string, b: string, pat: string, rep: string)
    requires |pat| > 0 && |b| > 0 && b[0] !in pat && |a| >= |pat|
    requires a[..|pat|] == pat
    ensures Replace(a + b, pat, rep) == Replace(a, pat, rep) + Replace(b, pat, rep)
    decreases |a|, 0
  {
    var s := a + b;
    assert s[..|pat|] == pat;
    assert s[|pat|..] == a[|pat|..] + b;
    ReplaceSplits(a[|pat|..], b, pat, rep);
  }

  lemma ReplaceSplitsAtMiss(a: string, b: string, pat: string, rep: string)
    requires |pat| > 0 && |b| > 0 && b[0] !in pat && |a| > 0
    requires |a + b| >= |pat| && (a + b)[..|pat|] != pat
    ensures Replace(a + b, pat, rep) == Replace(a, pat, rep) + Replace(b, pat, rep)
    decreases |a|, 0
  {
    var s := a + b;
    assert s[1..] == a[1..] + b && s[0] == a[0];
    var ra, rb := Replace(a[1..], pat, rep), Replace(b, pat, rep);
    ReplaceSplits(a[1..], b, pat, rep);
    ReplaceMiss(s, pat, rep);
    assert Replace(s, pat, rep) == [a[0]] + (ra + rb);
    if |a| >= |pat| {
      assert a[..|pat|] == s[..|pat|];
      ReplaceMiss(a, pat, rep);
    } else {
      ReplaceShort(a, pat, rep);
      ReplaceShort(a[1..], pat, rep);
      assert a == [a[0]] + a[1..];
    }
    assert Replace(a, pat, rep) == [a[0]] + ra;
    assert [a[0]] + (ra + rb) == ([a[0]] + ra) + rb;
  }

  lemma ReplaceMiss(s: string, pat: string, rep: string)
    requires |pat| > 0 && |s| >= |pat| && s[..|pat|] != pat
    ensures Replace(s, pat, rep) == [s[0]] + Replace(s[1..], pat, rep)
  {
  }

  /** Python's `str.lower()` restricted to ASCII letters. */
  function LowerChar(c: char): char {
    if 'A' <= c <= 'Z' then (c as int + 32) as char else c
  }

  function Lower(s: string): string {
    seq(|s|, i requires 0 <= i < |s| => LowerChar(s[i]))
  }

  /** ASCII characters for which Python's `str.isspace()` holds. */
  predicate IsSpace(c: char) {
    c == ' ' || c == '\t' || c == '\n' || c == '\r' || '\U{0B}' <= c <= '\U{0D}' || '\U{1C}' <= c <= '\U{1F}'
  }

  function StripStart(s: string): string
    decreases |s|
  {
    if |s| > 0 && IsSpace(s[0]) then StripStart(s[1..]) else s
  }

  function StripEnd(s: string): string
    decreases |s|
  {
    if |s| > 0 && IsSpace(s[|s| - 1]) then StripEnd(s[..|s| - 1]) else s
  }

  /** `s.strip()` */
  function Strip(s: string): string {
    StripEnd(StripStart(s))
  }

  predicate IsDigit(c: char) {
    '0' <= c <= '9'
  }

  predicate AllDigits(s: string) {
    forall k :: 0 <= k < |s| ==> IsDigit(s[k])
  }

  function DigitChar(d: nat): char
    requires d < 10
  {
    ('0' as int + d) as char
  }

  /** Decimal digits of `n`, most significant first, without leading zeros. */
  function NatToString(n: nat): string
    decreases n
  {
    if n < 10 then [DigitChar(n)] else NatToString(n / 10) + [DigitChar(n % 10)]
  }

  /** `str(i)` */
  function IntToString(i: int): string {
    if i < 0 then "-" + NatToString(-i) else NatToString(i)
  }

  function DigitsValue(s: string): nat
    requires AllDigits(s)
    decreases |s|
  {
    if |s| == 0 then 0
    else 10 * DigitsValue(s[..|s| - 1]) + (s[|s| - 1] as int - '0' as int)
  }

  /** `int(s)` for an optionally signed run of ASCII digits; `None` where Python raises `ValueError`. */
  function ParseInt(s: string): Option<int> {
    if |s| > 0 && (s[0] == '-' || s[0] == '+') then
      if |s| > 1 && AllDigits(s[1..]) then
        var v: int := DigitsValue(s[1..]);
        Some(if s[0] == '-' then -v else v)
      else None
    else if |s| > 0 && AllDigits(s) then Some(DigitsValue(s))
    else None
  }

  lemma {:induction false} NatToStringDigits(n: nat)
    ensures |NatToString(n)| > 0 && AllDigits(NatToString(n))
    ensures DigitsValue(NatToString(n)) == n
    decreases n
  {
    if n >= 10 {
      NatToStringDigits(n / 10);
      var s := NatToString(n);
      assert s[..|s| - 1] == NatToString(n / 10);
      assert n == 10 * (n / 10) + n % 10;
    }
  }

  /** `str` and `int` are inverse on integers. */
  lemma IntToStringRoundTrip(i: int)
    ensures ParseInt(IntToString(i)) == Some(i)
  {
    if i < 0 {
      NatToStringDigits(-i);
      ParseNegative(NatToString(-i));
    } else {
      NatToStringDigits(i);
      ParseUnsigned(NatToString(i));
    }
  }

  lemma ParseNegative(t: string)
    requires |t| > 0 && AllDigits(t)
    ensures ParseInt("-" + t) == Some(-(DigitsValue(t) as int))
  {
    assert ("-" + t)[0] == '-' && ("-" + t)[1..] == t;
  }

  lemma ParseUnsigned(t: string)
    requires |t| > 0 && AllDigits(t)
    ensures ParseInt(t) == Some(DigitsValue(t))
  {
    assert IsDigit(t[0]);
  }

  /** The text of an integer consists of digits and possibly a leading minus sign. */
  lemma IntToStringChars(i: int)
    ensures forall k :: 0 <= k < |IntToString(i)| ==> IsDigit(IntToString(i)[k]) || IntToString(i)[k] == '-'
  {
    if i < 0 { NatToStringDigits(-i); } else { NatToStringDigits(i); }
  }

  /** Python's `<` on strings: lexicographic by code point, a proper prefix first. */
  predicate LexLess(a: string, b: string)
    decreases |a|
  {
    if |a| == 0 then |b| > 0
    else if |b| == 0 then false
    else if a[0] != b[0] then a[0] < b[0]
    else LexLess(a[1..], b[1..])
  }

  lemma {:induction false} LexLessIrreflexive(a: string)
    ensures !LexLess(a, a)
    decreases |a|
  {
    if |a| > 0 { LexLessIrreflexive(a[1..]); }
  }

  lemma {:induction false} LexLessTransitive(a: string, b: string, c: string)
    requires LexLess(a, b) && LexLess(b, c)
    ensures LexLess(a, c)
    decreases |a|
  {
    if |a| > 0 && a[0] == b[0] && b[0] == c[0] {
      LexLessTransitive(a[1..], b[1..], c[1..]);
    }
  }

  lemma {:induction false} LexLessTotal(a: string, b: string)
    ensures a == b || LexLess(a, b) || LexLess(b, a)
    decreases |a|
  {
    if |a| > 0 && |b| > 0 && a[0] == b[0] {
      LexLessTotal(a[1..], b[1..]);
      if a[1..] == b[1..] {
        assert a == [a[0]] + a[1..] && b == [b[0]] + b[1..];
      }
    }
  }

  lemma LexLessAsymmetric(a: string, b: string)
    ensures !(LexLess(a, b) && LexLess(b, a))
  {
    if LexLess(a, b) && LexLess(b, a) {
      LexLessTransitive(a, b, a);
      LexLessIrreflexive(a);
    }
  }

  /** Every finite non-empty set of strings has a least element. */
  lemma {:induction false} LeastExists(s: set<string>)
    requires s != {}
    ensures exists m :: m in s && forall x :: x in s ==> x == m || LexLess(m, x)
    decreases |s|
  {
    var y :| y in s;
    if s - {y} == {} {
      assert s == {y};
    } else {
      LeastExists(s - {y});
      var m :| m in s - {y} && forall x :: x in s - {y} ==> x == m || LexLess(m, x);
      LexLessTotal(m, y);
      if LexLess(y, m) {
        forall x | x in s ensures x == y || LexLess(y, x) {
          if x != y && x != m { LexLessTransitive(y, m, x); }
        }
      } else {
        assert m in s && forall x :: x in s ==> x == m || LexLess(m, x);
      }
    }
  }

  /** A least element is unique. */
  lemma LeastUnique(s: set<string>, m: string, n: string)
    requires m in s && forall x :: x in s ==> x == m || LexLess(m, x)
    requires n in s && forall x :: x in s ==> x == n || LexLess(n, x)
    ensures m == n
  {
    LexLessAsymmetric(m, n);
  }

  /** `sorted(s)`: the elements of `s` in increasing order. */
  ghost function SortedStrings(s: set<string>): (r: seq<string>)
    ensures |r| == |s|
    decreases |s|
  {
    if s == {} then []
    else
      LeastExists(s);
      var m :| m in s && forall x :: x in s ==> x == m || LexLess(m, x);
      [m] + SortedStrings(s - {m})
  }

  /** `sorted` returns every string of the set once, in strictly increasing order. */
  lemma {:induction false} SortedStringsSpec(s: set<string>)
    ensures forall x :: x in s <==> x in SortedStrings(s)
    ensures forall i, j :: 0 <= i < j < |SortedStrings(s)| ==> LexLess(SortedStrings(s)[i], SortedStrings(s)[j])
    decreases |s|
  {
    if s != {} {
      var r := SortedStrings(s);
      var m := r[0];
      var tail := SortedStrings(s - {m});
      assert m in s && forall x :: x in s ==> x == m || LexLess(m, x);
      SortedStringsSpec(s - {m});
      assert r == [m] + tail;
      forall i, j | 0 <= i < j < |r| ensures LexLess(r[i], r[j]) {
        if i == 0 {
          assert r[j] == tail[j - 1];
          assert r[j] in tail;
        } else {
          assert r[i] == tail[i - 1] && r[j] == tail[j - 1];
        }
      }
    }
  }

  /** Unfolding `sorted` at a least element chosen by anyone. */
  lemma SortedStringsLeast(s: set<string>, m: string)
    requires m in s && forall x :: x in s ==> x == m || LexLess(m, x)
    ensures SortedStrings(s) == [m] + SortedStrings(s - {m})
  {
    var r := SortedStrings(s);
    SortedStringsSpec(s);
    var n := r[0];
    assert n in s && forall x :: x in s ==> x == n || LexLess(n, x);
    LeastUnique(s, m, n);
  }
}
