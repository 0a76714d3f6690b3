/** The `isFullVersion` validator: a product version written as three dot-separated,
    non-empty groups of ASCII digits, after surrounding white space is trimmed. The
    definition follows the behaviour table of version_test.go, row by row. */
module Version {
  import opened Strings

  /** One version group: at least one digit and nothing else. */
  predicate IsNumber(g: string) {
    |g| >= 1 && AllDigits(g)
  }

  /** The dot-separated groups of the trimmed input. */
  function Groups(s: string): (r: seq<string>)
    ensures |r| >= 1
    ensures forall i :: 0 <= i < |r| ==> '.' !in r[i]
    ensures Join(r, '.') == TrimSpace(s)
  {
    Split(TrimSpace(s), '.')
  }

  predicate IsFullVersion(s: string) {
    var g := Groups(s);
    |g| == 3 && IsNumber(g[0]) && IsNumber(g[1]) && IsNumber(g[2])
  }

  /** Three groups written with a dot between each two. */
  function Dotted(a: string, b: string, c: string): string {
    a + ['.'] + b + ['.'] + c
  }

  lemma JoinThree(a: string, b: string, c: string)
    ensures Join([a, b, c], '.') == Dotted(a, b, c)
  {
    assert [a, b, c][1..] == [b, c];
    assert [b, c][1..] == [c];
    assert Join([b, c], '.') == b + ['.'] + c;
    assert a + ['.'] + (b + ['.'] + c) == Dotted(a, b, c);
  }

  /** The groups of a string already free of surrounding white space, given any
      dot-free pieces that join back to it. */
  lemma GroupsOf(s: string, parts: seq<string>)
    requires s == [] || (!IsSpace(s[0]) && !IsSpace(s[|s| - 1]))
    requires |parts| >= 1
    requires forall i :: 0 <= i < |parts| ==> '.' !in parts[i]
    requires Join(parts, '.') == s
    ensures Groups(s) == parts
  {
    TrimSpaceOfTrimmed(s);
    SplitJoin(parts, '.');
  }

  /** Every three digit groups, dotted, are accepted. */
  lemma AcceptsDotted(a: string, b: string, c: string)
    requires IsNumber(a) && IsNumber(b) && IsNumber(c)
    ensures IsFullVersion(Dotted(a, b, c))
  {
    var s := Dotted(a, b, c);
    assert s[0] == a[0] && s[|s| - 1] == c[|c| - 1];
    assert forall i :: 0 <= i < |a| ==> a[i] != '.';
    assert forall i :: 0 <= i < |b| ==> b[i] != '.';
    assert forall i :: 0 <= i < |c| ==> c[i] != '.';
    JoinThree(a, b, c);
    GroupsOf(s, [a, b, c]);
  }

  /** An accepted version is, once trimmed, exactly three digit groups with a dot
      between each two. */
  lemma AcceptedIsDotted(s: string)
    requires IsFullVersion(s)
    ensures var g := Groups(s);
      IsNumber(g[0]) && IsNumber(g[1]) && IsNumber(g[2]) && TrimSpace(s) == Dotted(g[0], g[1], g[2])
  {
    var g := Groups(s);
    assert g == [g[0], g[1], g[2]];
    JoinThree(g[0], g[1], g[2]);
  }

  /** Both directions together: accepted if and only if the trimmed input is three
      dotted digit groups. */
  lemma FullVersionShape(s: string)
    ensures IsFullVersion(s) <==>
      exists a, b, c :: IsNumber(a) && IsNumber(b) && IsNumber(c) && TrimSpace(s) == Dotted(a, b, c)
  {
    if IsFullVersion(s) {
      AcceptedIsDotted(s);
      var g := Groups(s);
      assert IsNumber(g[0]) && IsNumber(g[1]) && IsNumber(g[2]) && TrimSpace(s) == Dotted(g[0], g[1], g[2]);
    }
    if exists a, b, c :: IsNumber(a) && IsNumber(b) && IsNumber(c) && TrimSpace(s) == Dotted(a, b, c) {
      var a, b, c :| IsNumber(a) && IsNumber(b) && IsNumber(c) && TrimSpace(s) == Dotted(a, b, c);
      AcceptsDotted(a, b, c);
      TrimSpaceOfTrimmed(TrimSpace(s));
    }
  }

  /** Surrounding white space never changes the verdict. */
  lemma PaddingIgnored(pre: string, s: string, post: string)
    requires forall i :: 0 <= i < |pre| ==> IsSpace(pre[i])
    requires forall i :: 0 <= i < |post| ==> IsSpace(post[i])
    ensures IsFullVersion(pre + s + post) == IsFullVersion(s)
  {
    TrimSpacePadded(pre, s, post);
  }

  /** Checking the trimmed input gives the same verdict. */
  lemma TrimmedSameVerdict(s: string)
    ensures IsFullVersion(TrimSpace(s)) == IsFullVersion(s)
  {
    TrimSpaceIdempotent(s);
    assert Groups(TrimSpace(s)) == Groups(s);
  }

  /** An accepted version holds only digits and exactly two dots after trimming. */
  lemma AcceptedCharacters(s: string)
    requires IsFullVersion(s)
    ensures forall i :: 0 <= i < |TrimSpace(s)| ==> IsDigit(TrimSpace(s)[i]) || TrimSpace(s)[i] == '.'
  {
    AcceptedIsDotted(s);
    var g := Groups(s);
    var t := TrimSpace(s);
    forall i | 0 <= i < |t|
      ensures IsDigit(t[i]) || t[i] == '.'
    {
      if i < |g[0]| {
        assert t[i] == g[0][i];
      } else if i == |g[0]| {
      } else if i < |g[0]| + 1 + |g[1]| {
        assert t[i] == g[1][i - |g[0]| - 1];
      } else if i == |g[0]| + 1 + |g[1]| {
      } else {
        assert t[i] == g[2][i - |g[0]| - |g[1]| - 2];
      }
    }
  }

  // The rows of the behaviour table. The accepted rows and the suffix row are spelt with
  // `Dotted`, which builds the same string: `Dotted("6", "4", "2")` is "6.4.2".

  lemma AcceptsSingleDigitGroups()
    ensures IsFullVersion(Dotted("6", "4", "2"))
  {
    AcceptsDotted("6", "4", "2");
  }

  lemma AcceptsTwoDigitGroup()
    ensures IsFullVersion(Dotted("7", "0", "14"))
  {
    AcceptsDotted("7", "0", "14");
  }

  lemma AcceptsZeroGroups()
    ensures IsFullVersion(Dotted("0", "0", "1"))
  {
    AcceptsDotted("0", "0", "1");
  }

  lemma AcceptsLeadingTwoDigitGroups()
    ensures IsFullVersion(Dotted("10", "12", "0"))
  {
    AcceptsDotted("10", "12", "0");
  }

  /** The row " 7.0.14 ": one space on each side. */
  lemma AcceptsPaddedVersion()
    ensures IsFullVersion(" " + Dotted("7", "0", "14") + " ")
  {
    PaddingIgnored(" ", Dotted("7", "0", "14"), " ");
    AcceptsTwoDigitGroup();
  }

  lemma RejectsEmpty()
    ensures !IsFullVersion("")
  {
    GroupsOf("", [""]);
  }

  lemma RejectsOneGroup()
    ensures !IsFullVersion("7")
  {
    GroupsOf("7", ["7"]);
  }

  lemma JoinTwo(a: string, b: string)
    ensures Join([a, b], '.') == a + ['.'] + b
  {
    assert [a, b][1..] == [b];
  }

  lemma RejectsTwoGroups()
    ensures !IsFullVersion("7.0")
  {
    JoinTwo("7", "0");
    assert "7" + ['.'] + "0" == "7.0";
    GroupsOf("7.0", ["7", "0"]);
  }

  lemma RejectsTrailingEmptyGroup()
    ensures !IsFullVersion("7.0.")
  {
    JoinThree("7", "0", "");
    assert Dotted("7", "0", "") == "7.0.";
    GroupsOf("7.0.", ["7", "0", ""]);
  }

  lemma RejectsInnerEmptyGroup()
    ensures !IsFullVersion("7..0")
  {
    JoinThree("7", "", "0");
    assert Dotted("7", "", "0") == "7..0";
    GroupsOf("7..0", ["7", "", "0"]);
  }

  lemma RejectsLetters()
    ensures !IsFullVersion("a.b.c")
  {
    JoinThree("a", "b", "c");
    assert Dotted("a", "b", "c") == "a.b.c";
    GroupsOf("a.b.c", ["a", "b", "c"]);
  }

  lemma RejectsSuffix()
    ensures !IsFullVersion(Dotted("7", "0", "14-beta"))
  {
    var s := Dotted("7", "0", "14-beta");
    assert s[0] == '7' && s[|s| - 1] == 'a';
    JoinThree("7", "0", "14-beta");
    GroupsOf(s, ["7", "0", "14-beta"]);
    assert !IsDigit("14-beta"[2]);
  }

  lemma RejectsFourGroups()
    ensures !IsFullVersion("7.0.14.1")
  {
    var parts := ["7", "0", "14", "1"];
    assert parts[1..] == ["0", "14", "1"];
    JoinThree("0", "14", "1");
    assert Join(parts, '.') == "7" + ['.'] + Dotted("0", "14", "1");
    assert "7" + ['.'] + Dotted("0", "14", "1") == "7.0.14.1";
    GroupsOf("7.0.14.1", parts);
  }
}
