/** The string operations the profile normaliser and the rationale join rely on:
    Python's `str.strip()`, `str.split(sep)` and `sep.join(parts)` for a
    one-character separator. */
module Text {

  /** The code points Python's `str.isspace` accepts, as inclusive ranges. */
  const SpaceRanges: seq<(int, int)> := [
    (0x09, 0x0D), (0x1C, 0x20), (0x85, 0x85), (0xA0, 0xA0), (0x1680, 0x1680),
    (0x2000, 0x200A), (0x2028, 0x2029), (0x202F, 0x202F), (0x205F, 0x205F), (0x3000, 0x3000)]

  predicate InRanges(n: int, ranges: seq<(int, int)>) {
    ranges != [] && (ranges[0].0 <= n <= ranges[0].1 || InRanges(n, ranges[1..]))
  }

  /** Python's `str.isspace` for one character. */
  predicate IsSpace(c: char) {
    InRanges(c as int, SpaceRanges)
  }

  predicate AllSpace(s: string) {
    forall i :: 0 <= i < |s| ==> IsSpace(s[i])
  }

  /** Neither end of `s` is whitespace. */
  predicate Trimmed(s: string) {
    s == [] || (!IsSpace(s[0]) && !IsSpace(s[|s| - 1]))
  }

  /** `s.lstrip()`: `s` without its leading whitespace. */
  function TrimStart(s: string): (r: string)
    ensures |r| <= |s|
    ensures r == [] || !IsSpace(r[0])
  {
    if s != [] && IsSpace(s[0]) then TrimStart(s[1..]) else s
  }

  /** `s.rstrip()`: `s` without its trailing whitespace. */
  function TrimEnd(s: string): (r: string)
    ensures |r| <= |s|
    ensures r == [] || !IsSpace(r[|r| - 1])
  {
    if s != [] && IsSpace(s[|s| - 1]) then TrimEnd(s[..|s| - 1]) else s
  }

  /** `lstrip` keeps a suffix and removes only whitespace. */
  lemma {:induction false} TrimStartSuffix(s: string)
    ensures TrimStart(s) == s[|s| - |TrimStart(s)|..]
    ensures AllSpace(s[..|s| - |TrimStart(s)|])
  {
    if s != [] && IsSpace(s[0]) {
      TrimStartSuffix(s[1..]);
      var n := |s| - |TrimStart(s)|;
      assert s[1..][..n - 1] == s[..n][1..];
      assert s[1..][n - 1..] == s[n..];
    }
  }

  /** `rstrip` keeps a prefix and removes only whitespace. */
  lemma {:induction false} TrimEndPrefix(s: string)
    ensures TrimEnd(s) == s[..|TrimEnd(s)|]
    ensures AllSpace(s[|TrimEnd(s)|..])
  {
    if s != [] && IsSpace(s[|s| - 1]) {
      var t := s[..|s| - 1];
      TrimEndPrefix(t);
      var n := |TrimEnd(s)|;
      assert t[n..] == s[n..][..|s| - 1 - n];
      assert t[..n] == s[..n];
    }
  }

  /** `s.strip()`: `s` without its leading and trailing whitespace. */
  function Strip(s: string): (r: string)
    ensures Trimmed(r)
  {
    var t := TrimStart(s);
    TrimEndPrefix(t);
    TrimEnd(t)
  }

  /** The number of whitespace characters `s.lstrip()` removes. */
  function Lead(s: string): nat {
    |s| - |TrimStart(s)|
  }

  /** A prefix of a suffix is a slice. */
  lemma SliceOfSlice(s: string, t: string, r: string, n: nat)
    requires n <= |s| && t == s[n..] && |r| <= |t| && r == t[..|r|]
    requires AllSpace(t[|r|..])
    ensures n + |r| <= |s| && r == s[n..n + |r|] && AllSpace(s[n + |r|..])
  {
    assert s[n..n + |r|] == t[..|r|];
    assert s[n + |r|..] == t[|r|..];
  }

  /** What `Strip` removes is whitespace at either end, and what it keeps is
      one contiguous slice of `s`. */
  lemma StripSlice(s: string)
    ensures Lead(s) + |Strip(s)| <= |s| && Strip(s) == s[Lead(s)..Lead(s) + |Strip(s)|]
    ensures AllSpace(s[..Lead(s)]) && AllSpace(s[Lead(s) + |Strip(s)|..])
  {
    var t := TrimStart(s);
    var r := TrimEnd(t);
    assert Strip(s) == r && Lead(s) == |s| - |t|;
    TrimStartSuffix(s);
    TrimEndPrefix(t);
    SliceOfSlice(s, t, r, |s| - |t|);
  }

  /** `s.split(sep)`: the pieces of `s` between occurrences of `sep`; never empty. */
  function Split(s: string, sep: char): (r: seq<string>)
    ensures |r| >= 1
    ensures forall k :: 0 <= k < |r| ==> sep !in r[k]
  {
    SplitFrom(s, [], sep)
  }

  /** The pieces of `cur + s`, where `cur` is a piece already begun. */
  function SplitFrom(s: string, cur: string, sep: char): (r: seq<string>)
    requires sep !in cur
    ensures |r| >= 1
    ensures forall k :: 0 <= k < |r| ==> sep !in r[k]
  {
    if s == [] then [cur]
    else if s[0] == sep then [cur] + SplitFrom(s[1..], [], sep)
    else SplitFrom(s[1..], cur + [s[0]], sep)
  }

  /** `sep.join(parts)`. */
  function Join(parts: seq<string>, sep: char): string {
    if |parts| == 0 then []
    else if |parts| == 1 then parts[0]
    else parts[0] + [sep] + Join(parts[1..], sep)
  }

  lemma {:induction false} TrimStartAt(s: string, i: nat)
    requires i <= |s| && AllSpace(s[..i])
    requires i == |s| || !IsSpace(s[i])
    ensures TrimStart(s) == s[i..]
  {
    if i > 0 {
      assert IsSpace(s[..i][0]);
      assert s[1..][..i - 1] == s[..i][1..];
      TrimStartAt(s[1..], i - 1);
      assert s[1..][i - 1..] == s[i..];
    }
  }

  lemma {:induction false} TrimEndAt(s: string, j: nat)
    requires j <= |s| && AllSpace(s[j..])
    requires j == 0 || !IsSpace(s[j - 1])
    ensures TrimEnd(s) == s[..j]
  {
    if j < |s| {
      assert IsSpace(s[j..][|s| - 1 - j]);
      var t := s[..|s| - 1];
      assert t[j..] == s[j..][..|s| - 1 - j];
      TrimEndAt(t, j);
      assert t[..j] == s[..j];
    }
  }

  lemma AllSpaceJoin(s: string, i: nat)
    requires i <= |s| && AllSpace(s[..i]) && AllSpace(s[i..])
    ensures AllSpace(s)
  {
    forall k | 0 <= k < |s| ensures IsSpace(s[k]) {
      if k < i { assert s[..i][k] == s[k]; } else { assert s[i..][k - i] == s[k]; }
    }
  }

  /** Strip has a unique answer: any split of `s` into whitespace, a trimmed
      middle and whitespace has that middle as `Strip(s)`. */
  lemma StripUnique(s: string, i: nat, j: nat)
    requires i <= j <= |s|
    requires AllSpace(s[..i]) && AllSpace(s[j..]) && Trimmed(s[i..j])
    ensures Strip(s) == s[i..j]
  {
    if i < j {
      StripUniqueNonEmpty(s, i, j);
    } else {
      AllSpaceJoin(s, i);
      assert s[..|s|] == s;
      TrimStartAt(s, |s|);
    }
  }

  lemma StripUniqueNonEmpty(s: string, i: nat, j: nat)
    requires i < j <= |s|
    requires AllSpace(s[..i]) && AllSpace(s[j..])
    requires !IsSpace(s[i]) && !IsSpace(s[j - 1])
    ensures Strip(s) == s[i..j]
  {
    TrimStartAt(s, i);
    var t := s[i..];
    assert t[j - i..] == s[j..];
    TrimEndAt(t, j - i);
    assert t[..j - i] == s[i..j];
  }

  lemma StripIdempotent(s: string)
    ensures Strip(Strip(s)) == Strip(s)
  {
    var t := Strip(s);
    assert t[..0] == [] && t[|t|..] == [] && t[0..|t|] == t;
    StripUnique(t, 0, |t|);
  }

  /** A string that is already trimmed is its own strip. */
  lemma StripTrimmed(s: string)
    requires Trimmed(s)
    ensures Strip(s) == s
  {
    assert s[..0] == [] && s[|s|..] == [] && s[0..|s|] == s;
    StripUnique(s, 0, |s|);
  }

  lemma {:induction false} JoinSplitFrom(s: string, cur: string, sep: char)
    requires sep !in cur
    ensures Join(SplitFrom(s, cur, sep), sep) == cur + s
  {
    if s != [] {
      if s[0] == sep {
        JoinSplitFrom(s[1..], [], sep);
        var rest := SplitFrom(s[1..], [], sep);
        assert ([cur] + rest)[1..] == rest;
      } else {
        JoinSplitFrom(s[1..], cur + [s[0]], sep);
      }
      assert cur + s == cur + [s[0]] + s[1..];
    }
  }

  /** Splitting then joining with the same separator gives back the string. */
  lemma JoinSplit(s: string, sep: char)
    ensures Join(Split(s, sep), sep) == s
  {
    JoinSplitFrom(s, [], sep);
  }

  lemma {:induction false} SplitFromConcat(a: string, b: string, cur: string, sep: char)
    requires sep !in cur
    ensures SplitFrom(a + [sep] + b, cur, sep) == SplitFrom(a, cur, sep) + Split(b, sep)
  {
    if a == [] {
      assert (a + [sep] + b)[1..] == b;
    } else {
      assert (a + [sep] + b)[1..] == a[1..] + [sep] + b;
      if a[0] == sep {
        SplitFromConcat(a[1..], b, [], sep);
      } else {
        SplitFromConcat(a[1..], b, cur + [a[0]], sep);
      }
    }
  }

  /** Splitting distributes over a separator placed between two strings. */
  lemma SplitConcat(a: string, b: string, sep: char)
    ensures Split(a + [sep] + b, sep) == Split(a, sep) + Split(b, sep)
  {
    SplitFromConcat(a, b, [], sep);
  }

  lemma {:induction false} SplitFromNoSeparator(s: string, cur: string, sep: char)
    requires sep !in cur && sep !in s
    ensures SplitFrom(s, cur, sep) == [cur + s]
  {
    if s == [] {
      assert cur + s == cur;
    } else {
      SplitFromNoSeparator(s[1..], cur + [s[0]], sep);
      assert cur + s == cur + [s[0]] + s[1..];
    }
  }

  lemma SplitNoSeparator(s: string, sep: char)
    requires sep !in s
    ensures Split(s, sep) == [s]
  {
    SplitFromNoSeparator(s, [], sep);
    assert [] + s == s;
  }

  /** Joining then splitting gives back the parts when none holds the separator. */
  lemma {:induction false} SplitJoin(parts: seq<string>, sep: char)
    requires |parts| >= 1
    requires forall k :: 0 <= k < |parts| ==> sep !in parts[k]
    ensures Split(Join(parts, sep), sep) == parts
  {
    if |parts| == 1 {
      SplitNoSeparator(parts[0], sep);
    } else {
      SplitJoin(parts[1..], sep);
      SplitConcat(parts[0], Join(parts[1..], sep), sep);
      SplitNoSeparator(parts[0], sep);
      assert parts == [parts[0]] + parts[1..];
    }
  }
}
