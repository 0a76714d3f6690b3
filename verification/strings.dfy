/** The string helpers of Go's `strings` package and JavaScript's `String.prototype.split`
    that the core relies on, over `string` = `seq<char>` (one char per rune). */
module Strings {

  /** Go's `unicode.IsSpace`: the white-space runes `strings.TrimSpace` removes. */
  predicate IsSpace(c: char) {
    c == ' ' || c == '\t' || c == '\n' || c == '\U{0B}' || c == '\U{0C}' || c == '\r'
    || c == '\U{85}' || c == '\U{A0}' || c == '\U{1680}'
    || ('\U{2000}' <= c <= '\U{200A}')
    || c == '\U{2028}' || c == '\U{2029}' || c == '\U{202F}' || c == '\U{205F}' || c == '\U{3000}'
  }

  /** An ASCII decimal digit. */
  predicate IsDigit(c: char) {
    '0' <= c <= '9'
  }

  predicate AllDigits(s: string) {
    forall i :: 0 <= i < |s| ==> IsDigit(s[i])
  }

  /** The longest suffix of `s` that does not start with white space. */
  function TrimLeft(s: string): (r: string)
    ensures |r| <= |s| && r == s[|s| - |r|..]
    ensures forall i :: 0 <= i < |s| - |r| ==> IsSpace(s[i])
    ensures r == [] || !IsSpace(r[0])
  {
    if s != [] && IsSpace(s[0]) then TrimLeft(s[1..]) else s
  }

  /** The longest prefix of `s` that does not end with white space. */
  function TrimRight(s: string): (r: string)
    ensures |r| <= |s| && r == s[..|r|]
    ensures forall i :: |r| <= i < |s| ==> IsSpace(s[i])
    ensures r == [] || !IsSpace(r[|r| - 1])
  {
    if s != [] && IsSpace(s[|s| - 1]) then TrimRight(s[..|s| - 1]) else s
  }

  /** Go's `strings.TrimSpace`: `s` without its leading and trailing white space. */
  function TrimSpace(s: string): (r: string)
    ensures exists i, j :: 0 <= i <= j <= |s| && r == s[i..j]
    ensures r == [] || (!IsSpace(r[0]) && !IsSpace(r[|r| - 1]))
  {
    var l := TrimLeft(s);
    var r := TrimRight(l);
    assert r == s[|s| - |l|..|s| - |l| + |r|];
    r
  }

  /** A string that neither starts nor ends with white space is left as it is. */
  lemma TrimSpaceOfTrimmed(s: string)
    requires s == [] || (!IsSpace(s[0]) && !IsSpace(s[|s| - 1]))
    ensures TrimSpace(s) == s
  {
  }

  /** Trimming twice is trimming once. */
  lemma TrimSpaceIdempotent(s: string)
    ensures TrimSpace(TrimSpace(s)) == TrimSpace(s)
  {
    TrimSpaceOfTrimmed(TrimSpace(s));
  }

  /** White space added at either end of a string is removed again. */
  lemma {:induction false} TrimSpacePadded(pre: string, s: string, post: string)
    requires forall i :: 0 <= i < |pre| ==> IsSpace(pre[i])
    requires forall i :: 0 <= i < |post| ==> IsSpace(post[i])
    ensures TrimSpace(pre + s + post) == TrimSpace(s)
  {
    TrimLeftPadded(pre, s + post);
    assert pre + s + post == pre + (s + post);
    var l := TrimLeft(s);
    TrimLeftAppend(s, post);
    assert TrimLeft(s + post) == (if l == [] then TrimLeft(post) else l + post);
    if l == [] {
      TrimLeftAllSpace(post);
    } else {
      TrimRightPadded(l, post);
    }
  }

  lemma {:induction false} TrimLeftPadded(pre: string, s: string)
    requires forall i :: 0 <= i < |pre| ==> IsSpace(pre[i])
    ensures TrimLeft(pre + s) == TrimLeft(s)
  {
    if pre == [] {
      assert pre + s == s;
    } else {
      assert (pre + s)[0] == pre[0];
      assert (pre + s)[1..] == pre[1..] + s;
      TrimLeftPadded(pre[1..], s);
    }
  }

  lemma {:induction false} TrimRightPadded(s: string, post: string)
    requires forall i :: 0 <= i < |post| ==> IsSpace(post[i])
    ensures TrimRight(s + post) == TrimRight(s)
  {
    if post != [] {
      var p := post[..|post| - 1];
      assert (s + post)[..|s + post| - 1] == s + p;
      TrimRightPadded(s, p);
    } else {
      assert s + post == s;
    }
  }

  lemma {:induction false} TrimLeftAllSpace(s: string)
    requires forall i :: 0 <= i < |s| ==> IsSpace(s[i])
    ensures TrimLeft(s) == [] && TrimRight([]) == []
  {
  }

  lemma {:induction false} TrimLeftAppend(s: string, t: string)
    ensures TrimLeft(s + t) == (if TrimLeft(s) == [] then TrimLeft(t) else TrimLeft(s) + t)
  {
    if s == [] {
      assert s + t == t;
    } else if IsSpace(s[0]) {
      assert (s + t)[1..] == s[1..] + t;
      TrimLeftAppend(s[1..], t);
    }
  }

  /** Go's `strings.ToLower` restricted to what can matter for ASCII keywords:
      `A`-`Z`, and the two non-ASCII runes whose simple lower case is an ASCII
      letter (U+0130 to `i`, the Kelvin sign U+212A to `k`). */
  function LowerRune(c: char): (r: char)
    ensures !('A' <= r <= 'Z')
  {
    if 'A' <= c <= 'Z' then (c as int + 32) as char
    else if c == '\U{130}' then 'i'
    else if c == '\U{212A}' then 'k'
    else c
  }

  /** Go's `strings.ToLower`, rune by rune (see `LowerRune`). */
  function ToLower(s: string): (r: string)
    ensures |r| == |s|
    ensures forall i :: 0 <= i < |s| ==> r[i] == LowerRune(s[i])
  {
    if s == [] then [] else [LowerRune(s[0])] + ToLower(s[1..])
  }

  /** Lower-casing is idempotent, so a label compares the same whatever its case. */
  lemma ToLowerIdempotent(s: string)
    ensures ToLower(ToLower(s)) == ToLower(s)
  {
  }

  /** Pieces joined back with the separator between each two (JavaScript's `Array.prototype.join`). */
  function Join(parts: seq<string>, sep: char): string
  {
    if parts == [] then []
    else if |parts| == 1 then parts[0]
    else parts[0] + [sep] + Join(parts[1..], sep)
  }

  /** JavaScript's `s.split(sep)` and Go's `strings.Split(s, sep)` for a one-character
      separator: the maximal separator-free pieces, in order; `""` gives `[""]`. */
  function Split(s: string, sep: char): (r: seq<string>)
    ensures |r| >= 1
    ensures forall i :: 0 <= i < |r| ==> sep !in r[i]
    ensures Join(r, sep) == s
  {
    if s == [] then [[]]
    else
      var rest := Split(s[1..], sep);
      if s[0] == sep then [[]] + rest
      else [[s[0]] + rest[0]] + rest[1..]
  }

  /** Split undoes Join: a non-empty list of separator-free pieces is recovered exactly. */
  lemma {:induction false} SplitJoin(parts: seq<string>, sep: char)
    requires |parts| >= 1
    requires forall i :: 0 <= i < |parts| ==> sep !in parts[i]
    ensures Split(Join(parts, sep), sep) == parts
  {
    if |parts| == 1 {
      SplitNoSep(parts[0], sep);
    } else {
      SplitJoin(parts[1..], sep);
      SplitPrefix(parts[0], Join(parts[1..], sep), sep);
      assert Join(parts, sep) == parts[0] + [sep] + Join(parts[1..], sep);
      assert [parts[0]] + parts[1..] == parts;
    }
  }

  lemma {:induction false} SplitNoSep(s: string, sep: char)
    requires sep !in s
    ensures Split(s, sep) == [s]
  {
    if s != [] {
      SplitNoSep(s[1..], sep);
      assert [s[0]] + s[1..] == s;
    }
  }

  lemma {:induction false} SplitPrefix(p: string, t: string, sep: char)
    requires sep !in p
    ensures Split(p + [sep] + t, sep) == [p] + Split(t, sep)
  {
    if p == [] {
      assert p + [sep] + t == [sep] + t;
      assert ([sep] + t)[1..] == t;
    } else {
      assert (p + [sep] + t)[1..] == p[1..] + [sep] + t;
      SplitPrefix(p[1..], t, sep);
      assert [p[0]] + p[1..] == p;
    }
  }

  /** `p` occurs in `s` starting at index `i`. */
  predicate OccursAt(s: string, p: string, i: nat) {
    i + |p| <= |s| && s[i..i + |p|] == p
  }

  /** Go's `strings.ReplaceAll(s, p, q)`: every non-overlapping occurrence of `p`, found
      left to right, replaced by `q`; an empty `p` matches before every rune and at the end. */
  function ReplaceAll(s: string, p: string, q: string): string
    decreases |s|
  {
    if p == [] then
      (if s == [] then q else q + [s[0]] + ReplaceAll(s[1..], p, q))
    else if |s| < |p| then s
    else if s[..|p|] == p then q + ReplaceAll(s[|p|..], p, q)
    else [s[0]] + ReplaceAll(s[1..], p, q)
  }

  /** An occurrence at the front is replaced, and the search goes on after it. */
  lemma ReplaceAllAtMatch(p: string, b: string, q: string)
    requires p != []
    ensures ReplaceAll(p + b, p, q) == q + ReplaceAll(b, p, q)
  {
    assert (p + b)[..|p|] == p;
    assert (p + b)[|p|..] == b;
  }

  /** A prefix in which no occurrence starts is copied unchanged. */
  lemma {:induction false} ReplaceAllSkip(a: string, b: string, p: string, q: string)
    requires p != []
    requires forall i: nat :: i < |a| ==> !OccursAt(a + b, p, i)
    ensures ReplaceAll(a + b, p, q) == a + ReplaceAll(b, p, q)
    decreases |a|
  {
    if a == [] {
      assert a + b == b;
    } else {
      var s := a + b;
      assert s[1..] == a[1..] + b;
      if |s| >= |p| {
        assert !OccursAt(s, p, 0);
        forall i: nat | i < |a| - 1
          ensures !OccursAt(a[1..] + b, p, i)
        {
          assert !OccursAt(s, p, i + 1);
          if i + |p| <= |s| - 1 {
            assert (a[1..] + b)[i..i + |p|] == s[i + 1..i + 1 + |p|];
          }
        }
        ReplaceAllSkip(a[1..], b, p, q);
        assert [a[0]] + a[1..] == a;
      }
    }
  }

  /** When the rune at index `j` of the pattern does not appear in the string from index
      `j` on, the pattern cannot occur, so nothing is replaced. */
  lemma ReplaceAllMissingRune(s: string, p: string, q: string, j: nat)
    requires j < |p|
    requires forall i :: j <= i < |s| ==> s[i] != p[j]
    ensures ReplaceAll(s, p, q) == s
  {
    forall i: nat
      ensures !OccursAt(s, p, i)
    {
      if i + |p| <= |s| {
        assert s[i..i + |p|][j] == s[i + j] != p[j];
      }
    }
    ReplaceAllAbsent(s, p, q);
  }

  /** As `ReplaceAllMissingRune`, for a string `x + y` with the rune missing from `y` and
      `x` shorter than its index in the pattern. */
  lemma ReplaceAllWithout(x: string, y: string, p: string, q: string, j: nat)
    requires |x| <= j < |p|
    requires p[j] !in y
    ensures ReplaceAll(x + y, p, q) == x + y
  {
    forall i | j <= i < |x + y|
      ensures (x + y)[i] != p[j]
    {
      assert (x + y)[i] == y[i - |x|];
    }
    ReplaceAllMissingRune(x + y, p, q, j);
  }

  /** An occurrence at the front is replaced, and a rest that lacks some rune of the
      pattern is copied unchanged. */
  lemma ReplaceAllFront(p: string, t: string, q: string, j: nat)
    requires j < |p|
    requires p[j] !in t
    ensures ReplaceAll(p + t, p, q) == q + t
  {
    ReplaceAllAtMatch(p, t, q);
    assert [] + t == t;
    ReplaceAllWithout([], t, p, q, j);
  }

  /** A first rune that does not start the pattern is copied unchanged. */
  lemma ReplaceAllSkipRune(c: char, b: string, p: string, q: string)
    requires p != [] && p[0] != c
    ensures ReplaceAll([c] + b, p, q) == [c] + ReplaceAll(b, p, q)
  {
    forall i: nat | i < 1
      ensures !OccursAt([c] + b, p, i)
    {
      if i + |p| <= |[c] + b| {
        assert ([c] + b)[i..i + |p|][0] == c != p[0];
      }
    }
    ReplaceAllSkip([c], b, p, q);
  }

  /** A non-empty pattern that does not occur leaves the string unchanged. */
  lemma {:induction false} ReplaceAllAbsent(s: string, p: string, q: string)
    requires p != []
    requires forall i: nat :: !OccursAt(s, p, i)
    ensures ReplaceAll(s, p, q) == s
  {
    if |s| >= |p| {
      assert !OccursAt(s, p, 0);
      forall i: nat ensures !OccursAt(s[1..], p, i) {
        if i + |p| <= |s| - 1 {
          assert s[1..][i..i + |p|] == s[i + 1..i + 1 + |p|];
          assert !OccursAt(s, p, i + 1);
        }
      }
      ReplaceAllAbsent(s[1..], p, q);
    }
  }

  /** Replacing a pattern by itself changes nothing. */
  lemma {:induction false} ReplaceAllSelf(s: string, p: string)
    ensures ReplaceAll(s, p, p) == s
    decreases |s|
  {
    if p == [] {
      if s != [] {
        ReplaceAllSelf(s[1..], p);
      }
    } else if |s| >= |p| {
      if s[..|p|] == p {
        ReplaceAllSelf(s[|p|..], p);
        assert s[..|p|] + s[|p|..] == s;
      } else {
        ReplaceAllSelf(s[1..], p);
      }
    }
  }

  /** Deleting a pattern never lengthens the string. */
  lemma {:induction false} ReplaceAllDeleteShrinks(s: string, p: string)
    requires p != []
    ensures |ReplaceAll(s, p, "")| <= |s|
    decreases |s|
  {
    if |s| >= |p| {
      if s[..|p|] == p {
        ReplaceAllDeleteShrinks(s[|p|..], p);
      } else {
        ReplaceAllDeleteShrinks(s[1..], p);
      }
    }
  }
}
