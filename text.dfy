/**
 * The JavaScript string built-ins the core relies on: the `\s` whitespace
 * class and `trim()`, `slice`, `lastIndexOf` and `join`.
 * Strings are sequences of characters; a character stands for one UTF-16
 * code unit of the original.
 */
module Text {
  import opened Wrappers

  /** A string value that JavaScript treats as true: present and not empty. */
  predicate Filled(s: Option<string>) {
    s.Some? && s.value != ""
  }

  function Min(a: int, b: int): int { if a <= b then a else b }
  function Max(a: int, b: int): int { if a >= b then a else b }

  /**
   * The characters matched by the regular-expression class `\s` and removed by
   * `String.prototype.trim`: the Unicode space separators, tab, vertical tab,
   * form feed, the line terminators and the byte-order mark.
   */
  predicate IsSpace(ch: char) {
    ch == ' ' || ('\t' <= ch <= '\r') || ('\U{A0}' <= ch && IsWideSpace(ch))
  }

  /** The whitespace characters of `IsSpace` above U+009F. */
  predicate IsWideSpace(ch: char) {
    || ch == '\U{A0}' || ch == '\U{1680}' || ('\U{2000}' <= ch <= '\U{200A}')
    || ch == '\U{2028}' || ch == '\U{2029}' || ch == '\U{202F}' || ch == '\U{205F}'
    || ch == '\U{3000}' || ch == '\U{FEFF}'
  }

  /** `s.slice(0, n)`: the first `n` characters, or all of them when there are fewer. */
  function Prefix(s: string, n: nat): (r: string)
    ensures |r| == Min(n, |s|)
    ensures r <= s
  {
    if n <= |s| then s[..n] else s
  }

  /** The number of whitespace characters at the start of `s`. */
  function LeadingSpaces(s: string): (n: nat)
    ensures n <= |s|
    ensures n < |s| ==> !IsSpace(s[n])
  {
    if s != [] && IsSpace(s[0]) then 1 + LeadingSpaces(s[1..]) else 0
  }

  /** Every character `LeadingSpaces` counts is whitespace. */
  lemma {:induction false} LeadingSpacesAreSpaces(s: string)
    ensures forall i :: 0 <= i < LeadingSpaces(s) ==> IsSpace(s[i])
  {
    if s != [] && IsSpace(s[0]) {
      LeadingSpacesAreSpaces(s[1..]);
      forall i | 0 < i < LeadingSpaces(s) ensures IsSpace(s[i]) {
        assert s[i] == s[1..][i - 1];
      }
    }
  }

  /** The number of whitespace characters at the end of `s` that lie at index `lo` or later. */
  function TrailingSpaces(s: string, lo: nat): (n: nat)
    requires lo <= |s|
    ensures lo + n <= |s|
    ensures lo + n < |s| ==> !IsSpace(s[|s| - n - 1])
    decreases |s|
  {
    if |s| > lo && IsSpace(s[|s| - 1]) then 1 + TrailingSpaces(s[..|s| - 1], lo) else 0
  }

  /** Every character `TrailingSpaces` counts is whitespace. */
  lemma {:induction false} TrailingSpacesAreSpaces(s: string, lo: nat)
    requires lo <= |s|
    ensures forall i :: |s| - TrailingSpaces(s, lo) <= i < |s| ==> IsSpace(s[i])
    decreases |s|
  {
    if |s| > lo && IsSpace(s[|s| - 1]) {
      var t := s[..|s| - 1];
      TrailingSpacesAreSpaces(t, lo);
      forall i | |s| - TrailingSpaces(s, lo) <= i < |s| - 1 ensures IsSpace(s[i]) {
        assert s[i] == t[i];
      }
    }
  }

  /** Where the text that `Trim` keeps begins. */
  function TrimLo(s: string): nat { LeadingSpaces(s) }

  /** Where the text that `Trim` keeps ends. */
  function TrimHi(s: string): (b: nat)
    ensures TrimLo(s) <= b <= |s|
  {
    |s| - TrailingSpaces(s, LeadingSpaces(s))
  }

  /** `s.trim()`: `s` without its leading and trailing whitespace. */
  function Trim(s: string): string {
    s[TrimLo(s)..TrimHi(s)]
  }

  /** `Trim` removes only whitespace, and what it keeps neither starts nor ends with whitespace. */
  lemma TrimBounds(s: string)
    ensures forall i :: 0 <= i < TrimLo(s) ==> IsSpace(s[i])
    ensures forall i :: TrimHi(s) <= i < |s| ==> IsSpace(s[i])
    ensures TrimLo(s) < TrimHi(s) ==> !IsSpace(s[TrimLo(s)]) && !IsSpace(s[TrimHi(s) - 1])
  {
    LeadingSpacesAreSpaces(s);
    TrailingSpacesAreSpaces(s, LeadingSpaces(s));
  }

  /** Whitespace appended after text that is not all whitespace leaves the leading count alone. */
  lemma {:induction false} LeadingSpacesAppend(s: string, t: string)
    ensures LeadingSpaces(s) < |s| ==> LeadingSpaces(s + t) == LeadingSpaces(s)
    ensures LeadingSpaces(s) == |s| ==> LeadingSpaces(s + t) == |s| + LeadingSpaces(t)
  {
    if s != [] {
      assert (s + t)[0] == s[0];
      if IsSpace(s[0]) {
        assert (s + t)[1..] == s[1..] + t;
        LeadingSpacesAppend(s[1..], t);
      }
    } else {
      assert s + t == t;
    }
  }

  /** Trimming ignores one more whitespace character at the end. */
  lemma TrimTrailingSpace(s: string, ch: char)
    requires IsSpace(ch)
    ensures Trim(s + [ch]) == Trim(s)
  {
    var u := s + [ch];
    LeadingSpacesAppend(s, [ch]);
    assert u[..|u| - 1] == s;
    if LeadingSpaces(s) < |s| {
      assert TrailingSpaces(u, LeadingSpaces(s)) == 1 + TrailingSpaces(s, LeadingSpaces(s));
      assert Trim(u) == u[TrimLo(s)..TrimHi(s)];
    } else {
      assert LeadingSpaces([ch]) == 1;
    }
  }

  /** `s.lastIndexOf(pat)` for the two-character pattern `pat == [a, b]`, or -1. */
  function LastIndexOfPair(s: string, a: char, b: char): (r: int)
    ensures r == -1 || 0 <= r < |s| - 1
    ensures r >= 0 ==> s[r] == a && s[r + 1] == b
  {
    if |s| < 2 then -1
    else if s[|s| - 2] == a && s[|s| - 1] == b then |s| - 2
    else LastIndexOfPair(s[..|s| - 1], a, b)
  }

  /**
   * `lastIndexOf` finds the last occurrence: no occurrence starts after the
   * index it returns, and it returns -1 exactly when there is none.
   */
  lemma {:induction false} LastIndexOfPairIsLast(s: string, a: char, b: char)
    ensures forall j :: LastIndexOfPair(s, a, b) < j < |s| - 1 ==> !(s[j] == a && s[j + 1] == b)
    ensures LastIndexOfPair(s, a, b) == -1 <==> forall j :: 0 <= j < |s| - 1 ==> !(s[j] == a && s[j + 1] == b)
  {
    if |s| >= 2 && !(s[|s| - 2] == a && s[|s| - 1] == b) {
      var t := s[..|s| - 1];
      LastIndexOfPairIsLast(t, a, b);
      forall j | LastIndexOfPair(s, a, b) < j < |s| - 1
        ensures !(s[j] == a && s[j + 1] == b)
      {
        if j < |s| - 2 {
          assert s[j] == t[j] && s[j + 1] == t[j + 1];
        }
      }
    }
  }

  /** `s.lastIndexOf(ch)` for a one-character pattern. */
  function LastIndexOfChar(s: string, ch: char): (r: int)
    ensures r == -1 || 0 <= r < |s|
    ensures r >= 0 ==> s[r] == ch
    ensures r == -1 ==> ch !in s
    ensures forall j :: r < j < |s| ==> s[j] != ch
  {
    if s == [] then -1
    else if s[|s| - 1] == ch then |s| - 1
    else LastIndexOfChar(s[..|s| - 1], ch)
  }

  /** `parts.join(sep)`. */
  function Join(parts: seq<string>, sep: string): string {
    if parts == [] then ""
    else if |parts| == 1 then parts[0]
    else Join(parts[..|parts| - 1], sep) + sep + parts[|parts| - 1]
  }

  /** Joining one element more appends the separator and that element. */
  lemma {:induction false} JoinAppend(parts: seq<string>, x: string, sep: string)
    requires parts != []
    ensures Join(parts + [x], sep) == Join(parts, sep) + sep + x
  {
    assert (parts + [x])[..|parts|] == parts;
  }

  /**
   * Joining with a one-character separator that occurs in no part puts
   * exactly one copy of it between each two parts, so the parts can be read
   * back by splitting at it.
   */
  lemma {:induction false} JoinSeparatorCount(parts: seq<string>, c: char)
    requires forall i :: 0 <= i < |parts| ==> c !in parts[i]
    ensures multiset(Join(parts, [c]))[c] == if parts == [] then 0 else |parts| - 1
  {
    if |parts| == 1 {
      assert multiset(parts[0])[c] == 0;
    } else if |parts| > 1 {
      var init, last := parts[..|parts| - 1], parts[|parts| - 1];
      JoinSeparatorCount(init, c);
      assert multiset(last)[c] == 0;
      assert Join(parts, [c]) == Join(init, [c]) + [c] + last;
      assert multiset(Join(init, [c]) + [c] + last) == multiset(Join(init, [c])) + multiset([c]) + multiset(last);
    }
  }

  /** A join is as long as its parts plus one separator between each two of them. */
  lemma {:induction false} JoinLength(parts: seq<string>, sep: string)
    ensures |Join(parts, sep)| == TotalLength(parts) + (if parts == [] then 0 else (|parts| - 1) * |sep|)
  {
    if |parts| > 1 {
      JoinLength(parts[..|parts| - 1], sep);
      TotalLengthSnoc(parts[..|parts| - 1], parts[|parts| - 1]);
      assert parts[..|parts| - 1] + [parts[|parts| - 1]] == parts;
    } else if |parts| == 1 {
      assert TotalLength(parts) == |parts[0]| + TotalLength(parts[1..]);
    }
  }

  function TotalLength(parts: seq<string>): nat {
    if parts == [] then 0 else |parts[0]| + TotalLength(parts[1..])
  }

  lemma {:induction false} TotalLengthSnoc(parts: seq<string>, x: string)
    ensures TotalLength(parts + [x]) == TotalLength(parts) + |x|
  {
    if parts != [] {
      assert (parts + [x])[1..] == parts[1..] + [x];
      TotalLengthSnoc(parts[1..], x);
    }
  }

  /** Parts add up to nothing exactly when every part is empty. */
  lemma {:induction false} TotalLengthZero(parts: seq<string>)
    ensures TotalLength(parts) == 0 <==> forall i :: 0 <= i < |parts| ==> parts[i] == ""
  {
    if parts != [] {
      TotalLengthZero(parts[1..]);
      assert forall i :: 1 <= i < |parts| ==> parts[i] == parts[1..][i - 1];
    }
  }

  /** With an empty separator, joining is concatenation, so it distributes over `+`. */
  lemma {:induction false} JoinConcat(a: seq<string>, b: seq<string>)
    ensures Join(a + b, "") == Join(a, "") + Join(b, "")
    decreases |b|
  {
    if b == [] {
      assert a + b == a;
    } else {
      var init := b[..|b| - 1];
      var x := b[|b| - 1];
      assert b == init + [x];
      assert a + b == (a + init) + [x];
      JoinConcat(a, init);
      if a + init == [] {
        assert a == [] && init == [];
      } else {
        JoinAppend(a + init, x, "");
        if init == [] {
          assert a + init == a;
        } else {
          JoinAppend(init, x, "");
        }
      }
    }
  }
}
