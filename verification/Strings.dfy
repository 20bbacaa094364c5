/** String primitives of the Rust and Go standard libraries that the handlers are written with. */
module Strings {
  import opened Common

  /** Rust's `char::is_whitespace` and Go's `unicode.IsSpace`: the Unicode White_Space property. */
  predicate IsSpace(c: char) {
    || '\U{9}' <= c <= '\U{D}'
    || c == ' '
    || c == '\U{85}'
    || c == '\U{A0}'
    || c == '\U{1680}'
    || '\U{2000}' <= c <= '\U{200A}'
    || c == '\U{2028}' || c == '\U{2029}' || c == '\U{202F}' || c == '\U{205F}' || c == '\U{3000}'
  }

  const WHITE_SPACE: seq<char> := [
    '\U{9}', '\U{A}', '\U{B}', '\U{C}', '\U{D}', '\U{20}', '\U{85}', '\U{A0}', '\U{1680}',
    '\U{2000}', '\U{2001}', '\U{2002}', '\U{2003}', '\U{2004}', '\U{2005}', '\U{2006}', '\U{2007}', '\U{2008}',
    '\U{2009}', '\U{200A}', '\U{2028}', '\U{2029}', '\U{202F}', '\U{205F}', '\U{3000}'
  ]

  /** The twenty-five characters of that property. */
  lemma SpaceListed(c: char)
    ensures IsSpace(c) <==> c in WHITE_SPACE
  {
    if '\U{9}' <= c <= '\U{D}' {
      assert WHITE_SPACE[c as int - 9] == c;
    } else if '\U{2000}' <= c <= '\U{200A}' {
      assert WHITE_SPACE[c as int - 0x2000 + 9] == c;
    }
  }

  // ---------------------------------------------------------------- trimming

  function TrimStartBy(s: string, p: char -> bool): (r: string)
  {
    if s != [] && p(s[0]) then TrimStartBy(s[1..], p) else s
  }

  function TrimEndBy(s: string, p: char -> bool): (r: string)
  {
    if s != [] && p(s[|s| - 1]) then TrimEndBy(s[..|s| - 1], p) else s
  }

  function TrimBy(s: string, p: char -> bool): string {
    TrimEndBy(TrimStartBy(s, p), p)
  }

  function Trim(s: string): string {
    TrimBy(s, IsSpace)
  }

  ghost predicate AllOf(s: string, p: char -> bool) {
    forall c | c in s :: p(c)
  }

  /** Neither end of `s` satisfies `p`, so trimming by `p` leaves `s` alone. */
  predicate Bare(s: string, p: char -> bool) {
    s == "" || (!p(s[0]) && !p(s[|s| - 1]))
  }

  lemma {:induction false} TrimStartShape(s: string, p: char -> bool) returns (a: string)
    ensures s == a + TrimStartBy(s, p) && AllOf(a, p)
    ensures TrimStartBy(s, p) == "" || !p(TrimStartBy(s, p)[0])
  {
    if s != [] && p(s[0]) {
      var b := TrimStartShape(s[1..], p);
      a := [s[0]] + b;
      assert s == [s[0]] + s[1..];
    } else {
      a := "";
    }
  }

  lemma {:induction false} TrimEndShape(s: string, p: char -> bool) returns (b: string)
    ensures s == TrimEndBy(s, p) + b && AllOf(b, p)
    ensures var r := TrimEndBy(s, p); r == "" || !p(r[|r| - 1])
  {
    if s != [] && p(s[|s| - 1]) {
      var t := TrimEndShape(s[..|s| - 1], p);
      b := t + [s[|s| - 1]];
      assert s == s[..|s| - 1] + [s[|s| - 1]];
    } else {
      b := "";
    }
  }

  /** Trimming removes a `p`-prefix and a `p`-suffix and leaves a bare core. */
  lemma TrimShape(s: string, p: char -> bool) returns (a: string, b: string)
    ensures s == a + TrimBy(s, p) + b && AllOf(a, p) && AllOf(b, p)
    ensures Bare(TrimBy(s, p), p)
  {
    a := TrimStartShape(s, p);
    b := TrimEndShape(TrimStartBy(s, p), p);
    var r := TrimBy(s, p);
    assert s == a + (r + b) == a + r + b;
    if r != "" {
      assert TrimStartBy(s, p)[0] == r[0];
    }
  }

  lemma {:induction false} TrimStartPadded(a: string, s: string, p: char -> bool)
    requires AllOf(a, p) && (s == "" || !p(s[0]))
    ensures TrimStartBy(a + s, p) == s
  {
    if a == "" {
      assert a + s == s;
    } else {
      assert (a + s)[1..] == a[1..] + s;
      TrimStartPadded(a[1..], s, p);
    }
  }

  lemma {:induction false} TrimEndPadded(s: string, b: string, p: char -> bool)
    requires AllOf(b, p) && (s == "" || !p(s[|s| - 1]))
    ensures TrimEndBy(s + b, p) == s
  {
    if b == "" {
      assert s + b == s;
    } else {
      assert (s + b)[..|s + b| - 1] == s + b[..|b| - 1];
      TrimEndPadded(s, b[..|b| - 1], p);
    }
  }

  lemma {:induction false} TrimAllGone(a: string, p: char -> bool)
    requires AllOf(a, p)
    ensures TrimStartBy(a, p) == ""
  {
    if a != "" {
      TrimAllGone(a[1..], p);
    }
  }

  /** Padding a bare string on both sides is undone by trimming. */
  lemma TrimPadded(a: string, s: string, b: string, p: char -> bool)
    requires AllOf(a, p) && AllOf(b, p) && Bare(s, p)
    ensures TrimBy(a + s + b, p) == s
  {
    assert a + s + b == a + (s + b);
    if s == "" {
      assert AllOf(a + (s + b), p);
      TrimAllGone(a + (s + b), p);
    } else {
      TrimStartPadded(a, s + b, p);
      TrimEndPadded(s, b, p);
    }
  }

  lemma TrimBare(s: string, p: char -> bool)
    requires Bare(s, p)
    ensures TrimBy(s, p) == s
  {
    assert "" + s + "" == s;
    TrimPadded("", s, "", p);
  }

  // ---------------------------------------------------------- prefix and suffix

  predicate StartsWith(s: string, prefix: string) {
    prefix <= s
  }

  predicate EndsWith(s: string, suffix: string) {
    |suffix| <= |s| && s[|s| - |suffix|..] == suffix
  }

  function StripPrefix(s: string, prefix: string): Option<string> {
    if prefix <= s then Some(s[|prefix|..]) else None
  }

  /** `trim_start_matches` with a string pattern: every leading copy of `pat` is removed. */
  function TrimStartMatches(s: string, pat: string): string
    requires pat != ""
  {
    if pat <= s then TrimStartMatches(s[|pat|..], pat) else s
  }

  // ---------------------------------------------------------------- splitting

  /** The pieces of `s` between separators; n separators give n + 1 pieces. */
  function Split(s: string, sep: char): (parts: seq<string>)
    ensures |parts| >= 1
  {
    if s == "" then [""]
    else if s[0] == sep then [""] + Split(s[1..], sep)
    else
      var rest := Split(s[1..], sep);
      [[s[0]] + rest[0]] + rest[1..]
  }

  function Join(parts: seq<string>, sep: string): string {
    if |parts| == 0 then ""
    else if |parts| == 1 then parts[0]
    else parts[0] + sep + Join(parts[1..], sep)
  }

  lemma {:induction false} SplitWhole(s: string, sep: char)
    requires sep !in s
    ensures Split(s, sep) == [s]
  {
    if s != "" {
      SplitWhole(s[1..], sep);
      assert [s[0]] + s[1..] == s;
    }
  }

  lemma {:induction false} SplitConcat(a: string, sep: char, b: string)
    ensures Split(a + [sep] + b, sep) == Split(a, sep) + Split(b, sep)
  {
    var s := a + [sep] + b;
    if a == "" {
      assert s == [sep] + b && s[1..] == b;
    } else {
      assert s[1..] == a[1..] + [sep] + b;
      SplitConcat(a[1..], sep, b);
    }
  }

  lemma {:induction false} SplitPieces(s: string, sep: char)
    ensures forall part | part in Split(s, sep) :: sep !in part
    ensures forall c | c in s && c != sep :: exists part :: part in Split(s, sep) && c in part
    ensures forall part, c | part in Split(s, sep) && c in part :: c in s
  {
    if s != "" {
      SplitPieces(s[1..], sep);
      var rest := Split(s[1..], sep);
      assert s == [s[0]] + s[1..];
      assert forall part | part in rest :: part == rest[0] || part in rest[1..];
      if s[0] == sep {
        assert forall part | part in rest :: part in Split(s, sep);
      } else {
        var parts := Split(s, sep);
        assert parts[0] == [s[0]] + rest[0] && parts[1..] == rest[1..];
        forall c | c in s && c != sep ensures exists part :: part in parts && c in part {
          if c == s[0] {
            assert parts[0] in parts;
          } else {
            var part :| part in rest && c in part;
            if part == rest[0] {
              assert parts[0] in parts && c in parts[0];
            } else {
              assert part in parts[1..] && part in parts;
            }
          }
        }
      }
    }
  }

  lemma {:induction false} SplitJoin(s: string, sep: char)
    ensures Join(Split(s, sep), [sep]) == s
  {
    if s != "" {
      SplitJoin(s[1..], sep);
      var rest := Split(s[1..], sep);
      if s[0] == sep {
        assert Split(s, sep)[1..] == rest;
      } else {
        var parts := Split(s, sep);
        assert parts[1..] == rest[1..];
        assert s == [s[0]] + s[1..];
      }
    }
  }

  /** Split loses nothing: equal pieces mean equal strings. */
  lemma SplitInjective(a: string, b: string, sep: char)
    requires Split(a, sep) == Split(b, sep)
    ensures a == b
  {
    SplitJoin(a, sep);
    SplitJoin(b, sep);
  }

  lemma {:induction false} SplitOfJoin(parts: seq<string>, sep: char)
    requires parts != [] && forall part | part in parts :: sep !in part
    ensures Split(Join(parts, [sep]), sep) == parts
  {
    SplitWhole(parts[0], sep);
    if |parts| > 1 {
      SplitOfJoin(parts[1..], sep);
      SplitConcat(parts[0], sep, Join(parts[1..], [sep]));
      assert parts == [parts[0]] + parts[1..];
    }
  }

  // --------------------------------------------------------------- substrings

  predicate OccursAt(s: string, pat: string, j: nat) {
    j <= |s| && pat <= s[j..]
  }

  lemma OccursChars(s: string, pat: string, j: nat)
    ensures OccursAt(s, pat, j) <==> j + |pat| <= |s| && forall k | 0 <= k < |pat| :: s[j + k] == pat[k]
  {
    if OccursAt(s, pat, j) {
      forall k | 0 <= k < |pat| ensures s[j + k] == pat[k] {
        assert s[j + k] == s[j..][k];
      }
    }
    if j + |pat| <= |s| && forall k | 0 <= k < |pat| :: s[j + k] == pat[k] {
      assert s[j..][..|pat|] == pat;
    }
  }

  /** `find`: where `pat` first occurs. */
  function FindSub(s: string, pat: string): (r: Option<nat>)
    ensures r.Some? ==> OccursAt(s, pat, r.value) && forall j: nat | j < r.value :: !OccursAt(s, pat, j)
    ensures r.None? ==> forall j: nat :: !OccursAt(s, pat, j)
  {
    if pat <= s then Some(0)
    else if s == "" then None
    else
      var rest := FindSub(s[1..], pat);
      assert forall j: nat | 0 < j <= |s| :: s[j..] == s[1..][j - 1..];
      assert forall j: nat | 0 < j :: OccursAt(s, pat, j) <==> OccursAt(s[1..], pat, j - 1);
      if rest.None? then None else Some(rest.value + 1)
  }

  /** The text around the first occurrence of `pat`. */
  function Cut(s: string, pat: string): (r: Option<(string, string)>)
    ensures r.Some? ==> s == r.value.0 + pat + r.value.1
  {
    match FindSub(s, pat)
    case None => None
    case Some(i) =>
      assert s[i..] == pat + s[i + |pat|..] && s == s[..i] + s[i..];
      Some((s[..i], s[i + |pat|..]))
  }

  lemma CutAt(a: string, pat: string, b: string)
    requires forall j: nat | j < |a| :: !OccursAt(a + pat + b, pat, j)
    ensures Cut(a + pat + b, pat) == Some((a, b))
  {
    var s := a + pat + b;
    assert s[|a|..] == pat + b;
    assert OccursAt(s, pat, |a|);
    assert s[..|a|] == a && s[|a| + |pat|..] == b;
  }

  /** The pieces of `s` between separators, found from the left. */
  function SplitSub(s: string, pat: string): (parts: seq<string>)
    requires pat != ""
    ensures |parts| >= 1
    decreases |s|
  {
    match Cut(s, pat)
    case None => [s]
    case Some((a, b)) => [a] + SplitSub(b, pat)
  }

  /** Index of the first `c` in `s`, or |s|. */
  function IndexOf(s: string, c: char): (i: nat)
    ensures i <= |s| && c !in s[..i] && (i < |s| ==> s[i] == c) && (i == |s| <==> c !in s)
  {
    if s == "" then 0
    else if s[0] == c then 0
    else
      var i := IndexOf(s[1..], c) + 1;
      assert s == [s[0]] + s[1..] && s[..i] == [s[0]] + s[1..][..i - 1];
      i
  }

  /** `split_once`: around the first separator. */
  function SplitOnce(s: string, c: char): (r: Option<(string, string)>)
    ensures r.None? <==> c !in s
    ensures r.Some? ==> s == r.value.0 + [c] + r.value.1 && c !in r.value.0
  {
    var i := IndexOf(s, c);
    if i == |s| then None else Some((s[..i], s[i + 1..]))
  }

  lemma {:induction false} IndexOfAt(a: string, c: char, b: string)
    requires c !in a
    ensures IndexOf(a + [c] + b, c) == |a|
  {
    if a == "" {
      assert a + [c] + b == [c] + b;
    } else {
      assert (a + [c] + b)[1..] == a[1..] + [c] + b;
      IndexOfAt(a[1..], c, b);
    }
  }

  lemma SplitOnceAt(a: string, c: char, b: string)
    requires c !in a
    ensures SplitOnce(a + [c] + b, c) == Some((a, b))
  {
    var s := a + [c] + b;
    IndexOfAt(a, c, b);
    assert s[..|a|] == a && s[|a| + 1..] == b;
  }

  /** `rsplit_once`: around the last separator. */
  function RSplitOnce(s: string, c: char): (r: Option<(string, string)>)
    ensures r.None? <==> c !in s
    ensures r.Some? ==> s == r.value.0 + [c] + r.value.1 && c !in r.value.1
  {
    if s == "" then None
    else
      var n := |s| - 1;
      assert s == s[..n] + [s[n]];
      if s[n] == c then Some((s[..n], ""))
      else
        match RSplitOnce(s[..n], c)
        case None => None
        case Some((a, b)) => Some((a, b + [s[n]]))
  }

  lemma {:induction false} RSplitOnceAt(a: string, c: char, b: string)
    requires c !in b
    ensures RSplitOnce(a + [c] + b, c) == Some((a, b))
  {
    var s := a + [c] + b;
    if b == "" {
      assert s == a + [c] && s[..|s| - 1] == a;
    } else {
      var n := |b| - 1;
      assert b == b[..n] + [b[n]];
      assert s[..|s| - 1] == a + [c] + b[..n] && s[|s| - 1] == b[n];
      RSplitOnceAt(a, c, b[..n]);
    }
  }

  // ------------------------------------------------------------------- case

  function LowerChar(c: char): char {
    if 'A' <= c <= 'Z' then (c as int + 32) as char else c
  }

  /** `to_ascii_lowercase`. */
  function AsciiLower(s: string): (r: string)
    ensures |r| == |s| && forall i | 0 <= i < |s| :: r[i] == LowerChar(s[i])
  {
    seq(|s|, i requires 0 <= i < |s| => LowerChar(s[i]))
  }

  ghost predicate NoUpper(s: string) {
    forall c | c in s :: LowerChar(c) == c
  }

  lemma LowerFixed(s: string)
    ensures AsciiLower(s) == s <==> NoUpper(s)
    ensures NoUpper(AsciiLower(s))
  {
    if AsciiLower(s) == s {
      forall i | 0 <= i < |s| ensures LowerChar(s[i]) == s[i] {
        assert AsciiLower(s)[i] == s[i];
      }
    }
  }

  predicate IsAscii(s: string) {
    forall c | c in s :: c as int < 128
  }
}
