/**
 * The Python string operations the bot relies on, written out exactly:
 * `str.split(sep)` for a one-character separator, `str.strip()` without
 * arguments and `str.startswith(prefix)`.
 */
module PyStr {

  /**
   * Python's `str.isspace()` on one character: the characters that
   * `str.strip()` removes when it is called without arguments.
   */
  predicate IsSpace(c: char) {
    || ('\U{0009}' <= c <= '\U{000D}')
    || ('\U{001C}' <= c <= '\U{001F}')
    || c == ' '
    || c == '\U{0085}'
    || c == '\U{00A0}'
    || c == '\U{1680}'
    || ('\U{2000}' <= c <= '\U{200A}')
    || c == '\U{2028}'
    || c == '\U{2029}'
    || c == '\U{202F}'
    || c == '\U{205F}'
    || c == '\U{3000}'
  }

  predicate AllSpace(s: string) {
    forall k :: 0 <= k < |s| ==> IsSpace(s[k])
  }

  predicate NoSpace(s: string) {
    forall k :: 0 <= k < |s| ==> !IsSpace(s[k])
  }

  /** Python's `s.startswith(prefix)`. */
  predicate StartsWith(s: string, prefix: string) {
    |prefix| <= |s| && s[..|prefix|] == prefix
  }

  /** A string does not start with a prefix whose first character differs from its own. */
  lemma FirstCharMismatch(s: string, prefix: string)
    requires s != [] && prefix != [] && s[0] != prefix[0]
    ensures !StartsWith(s, prefix)
  {
    if |prefix| <= |s| {
      assert s[..|prefix|][0] == s[0];
    }
  }

  /** The index of the first occurrence of `c` in `s`. */
  function Find(s: string, c: char): (i: nat)
    requires c in s
    ensures i < |s| && s[i] == c
    ensures forall k :: 0 <= k < i ==> s[k] != c
  {
    if s[0] == c then 0 else Find(s[1..], c) + 1
  }

  /** An index holding `c` with no `c` before it is the one `Find` returns. */
  lemma FindFirst(s: string, c: char, j: nat)
    requires j < |s| && s[j] == c
    requires forall k :: 0 <= k < j ==> s[k] != c
    ensures Find(s, c) == j
  {
  }

  /** The inverse of `Split`: the parts glued together with the separator between them. */
  function Join(parts: seq<string>, sep: char): string
    requires |parts| >= 1
  {
    if |parts| == 1 then parts[0] else parts[0] + [sep] + Join(parts[1..], sep)
  }

  /** `Join` on a list of two or more parts: the first part, the separator, then the others joined. */
  lemma JoinCons(first: string, rest: seq<string>, sep: char)
    requires |rest| >= 1
    ensures Join([first] + rest, sep) == first + [sep] + Join(rest, sep)
  {
    assert ([first] + rest)[1..] == rest;
  }

  /**
   * Python's `s.split(sep)` for a one-character separator: the maximal
   * separator-free pieces between separators, empty pieces included, and
   * always at least one piece.
   */
  function Split(s: string, sep: char): (parts: seq<string>)
    ensures |parts| >= 1
    ensures forall k :: 0 <= k < |parts| ==> sep !in parts[k]
    ensures Join(parts, sep) == s
    decreases |s|
  {
    if sep !in s then [s]
    else
      var i := Find(s, sep);
      var rest := Split(s[i + 1..], sep);
      assert ([s[..i]] + rest)[1..] == rest;
      assert s == s[..i] + [sep] + s[i + 1..];
      [s[..i]] + rest
  }

  /** Splitting at a separator that does not occur in the first piece peels that piece off. */
  lemma {:induction false} SplitAt(a: string, b: string, sep: char)
    requires sep !in a
    ensures Split(a + [sep] + b, sep) == [a] + Split(b, sep)
  {
    var s := a + [sep] + b;
    assert s[|a|] == sep;
    assert s[..|a|] == a;
    FindFirst(s, sep, |a|);
    assert s[|a| + 1..] == b;
  }

  /** `Split` undoes `Join` whenever no part contains the separator. */
  lemma {:induction false} SplitJoin(parts: seq<string>, sep: char)
    requires |parts| >= 1
    requires forall k :: 0 <= k < |parts| ==> sep !in parts[k]
    ensures Split(Join(parts, sep), sep) == parts
  {
    if |parts| > 1 {
      assert sep !in parts[0];
      SplitAt(parts[0], Join(parts[1..], sep), sep);
      SplitJoin(parts[1..], sep);
      assert [parts[0]] + parts[1..] == parts;
    }
  }

  /** The number of whitespace characters at the start of `s`. */
  function LeadingSpace(s: string): (n: nat)
    ensures n <= |s|
    ensures AllSpace(s[..n])
    ensures n < |s| ==> !IsSpace(s[n])
  {
    if |s| > 0 && IsSpace(s[0]) then
      var m := LeadingSpace(s[1..]);
      assert s[..m + 1] == [s[0]] + s[1..][..m];
      m + 1
    else 0
  }

  /** The number of whitespace characters at the end of `s`. */
  function TrailingSpace(s: string): (n: nat)
    ensures n <= |s|
    ensures AllSpace(s[|s| - n..])
    ensures n < |s| ==> !IsSpace(s[|s| - 1 - n])
  {
    if |s| > 0 && IsSpace(s[|s| - 1]) then
      var t := s[..|s| - 1];
      var m := TrailingSpace(t);
      assert s[|s| - (m + 1)..] == t[|t| - m..] + [s[|s| - 1]];
      m + 1
    else 0
  }

  /**
   * Python's `s.strip()`: `s` without its leading and trailing whitespace.
   * The result is the slice of `s` that starts after the leading whitespace,
   * everything outside it is whitespace, and it neither starts nor ends with
   * whitespace.
   */
  function Strip(s: string): (r: string)
    ensures LeadingSpace(s) + |r| <= |s|
    ensures r == s[LeadingSpace(s)..LeadingSpace(s) + |r|]
    ensures AllSpace(s[..LeadingSpace(s)]) && AllSpace(s[LeadingSpace(s) + |r|..])
    ensures r == [] || (!IsSpace(r[0]) && !IsSpace(r[|r| - 1]))
  {
    var i := LeadingSpace(s);
    var t := s[i..];
    var n := TrailingSpace(t);
    var r := t[..|t| - n];
    assert r == s[i..i + |r|];
    assert s[i + |r|..] == t[|t| - n..];
    assert r != [] ==> r[0] == s[i] && r[|r| - 1] == t[|t| - 1 - n];
    r
  }

  /**
   * `Strip` is determined by its contract: the slice that leaves only
   * whitespace on both sides and neither starts nor ends with whitespace.
   */
  lemma StripUnique(s: string, i: nat, j: nat)
    requires i <= j <= |s|
    requires AllSpace(s[..i]) && AllSpace(s[j..])
    requires i < j ==> !IsSpace(s[i]) && !IsSpace(s[j - 1])
    ensures Strip(s) == s[i..j]
  {
    var lead := LeadingSpace(s);
    var r := Strip(s);
    var e := lead + |r|;
    if i < j {
      SpacePrefixUnique(s, i, lead);
      forall k | e <= k < |s| ensures IsSpace(s[k]) { assert s[e..][k - e] == s[k]; }
      assert r[|r| - 1] == s[e - 1];
      SpaceSuffixUnique(s, j, e);
    } else {
      forall k | 0 <= k < |s| ensures IsSpace(s[k]) {
        if k < i {
          assert s[..i][k] == s[k];
        } else {
          assert s[i..][k - i] == s[k];
        }
      }
    }
  }

  /** Two whitespace prefixes that each stop at a non-whitespace character (or the end) are the same. */
  lemma SpacePrefixUnique(s: string, a: nat, b: nat)
    requires a <= |s| && b <= |s|
    requires AllSpace(s[..a]) && AllSpace(s[..b])
    requires a < |s| ==> !IsSpace(s[a])
    requires b < |s| ==> !IsSpace(s[b])
    ensures a == b
  {
    forall k | 0 <= k < a ensures IsSpace(s[k]) { assert s[..a][k] == s[k]; }
    forall k | 0 <= k < b ensures IsSpace(s[k]) { assert s[..b][k] == s[k]; }
  }

  /** Two whitespace suffixes that each follow a non-whitespace character are the same. */
  lemma SpaceSuffixUnique(s: string, a: nat, b: nat)
    requires 0 < a <= |s| && 0 < b <= |s|
    requires AllSpace(s[a..]) && AllSpace(s[b..])
    requires !IsSpace(s[a - 1]) && !IsSpace(s[b - 1])
    ensures a == b
  {
    forall k | a <= k < |s| ensures IsSpace(s[k]) { assert s[a..][k - a] == s[k]; }
    forall k | b <= k < |s| ensures IsSpace(s[k]) { assert s[b..][k - b] == s[k]; }
  }

  /** Stripping whitespace padding off a whitespace-free string gives that string back. */
  lemma StripPadded(pre: string, t: string, post: string)
    requires AllSpace(pre) && NoSpace(t) && AllSpace(post)
    ensures Strip(pre + t + post) == t
  {
    var s := pre + t + post;
    assert s[..|pre|] == pre && s[|pre| + |t|..] == post && s[|pre|..|pre| + |t|] == t;
    if t != [] {
      assert s[|pre|] == t[0] && s[|pre| + |t| - 1] == t[|t| - 1];
    }
    StripUnique(s, |pre|, |pre| + |t|);
  }
}
