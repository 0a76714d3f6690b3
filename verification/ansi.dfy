/** The web front end's terminal-to-HTML converter: ANSI SGR sequences (ECMA-48 section
    8.3.117, with the aixterm bright colours 90-97) become nested `<span>` elements, and the
    text between them is HTML-escaped. */
module Ansi {
  import opened Wrappers
  import opened Strings

  const ESC: char := '\U{1B}'

  // ---------------------------------------------------------------------------------------
  // HTML escaping

  /** The characters the escaper rewrites. */
  predicate Special(c: char)
  {
    c == '&' || c == '<' || c == '>' || c == '"' || c == '\''
  }

  /** The replacement of one character. */
  function EscChar(c: char): (r: string)
    ensures Special(c) ==> |r| >= 4 && r[0] == '&' && r[|r| - 1] == ';'
    ensures !Special(c) ==> r == [c]
  {
    match c
    case '&' => "&amp;"
    case '<' => "&lt;"
    case '>' => "&gt;"
    case '"' => "&quot;"
    case '\'' => "&#39;"
    case _ => [c]
  }

  /** `esc`: every special character replaced by its entity, everything else kept. */
  function Esc(s: string): (r: string)
    ensures |r| >= |s|
    ensures |r| == |s| <==> forall i :: 0 <= i < |s| ==> !Special(s[i])
  {
    if s == [] then []
    else
      assert forall i :: 1 <= i < |s| ==> s[i] == s[1..][i - 1];
      EscChar(s[0]) + Esc(s[1..])
  }

  /** Escaping works character by character, so it distributes over concatenation. */
  lemma {:induction false} EscAppend(a: string, b: string)
    ensures Esc(a + b) == Esc(a) + Esc(b)
  {
    if a == [] {
      assert a + b == b;
    } else {
      assert (a + b)[0] == a[0];
      assert (a + b)[1..] == a[1..] + b;
      EscAppend(a[1..], b);
    }
  }

  /** Text without special characters is left as it is. */
  lemma {:induction false} EscPlain(s: string)
    requires forall i :: 0 <= i < |s| ==> !Special(s[i])
    ensures Esc(s) == s
  {
    if s != [] {
      EscPlain(s[1..]);
    }
  }

  /** Escaped text holds no raw markup character: no `<`, `>`, `"` or `'`. */
  lemma {:induction false} EscHasNoMarkup(s: string)
    ensures forall i :: 0 <= i < |Esc(s)| ==> Esc(s)[i] != '<' && Esc(s)[i] != '>' && Esc(s)[i] != '"' && Esc(s)[i] != '\''
  {
    if s != [] {
      EscHasNoMarkup(s[1..]);
      var h, t := EscChar(s[0]), Esc(s[1..]);
      assert Esc(s) == h + t;
      assert forall i :: 0 <= i < |h| ==> h[i] != '<' && h[i] != '>' && h[i] != '"' && h[i] != '\'';
      forall i | 0 <= i < |h + t|
        ensures (h + t)[i] != '<' && (h + t)[i] != '>' && (h + t)[i] != '"' && (h + t)[i] != '\''
      {
        if i >= |h| {
          assert (h + t)[i] == t[i - |h|];
        }
      }
    }
  }

  /** The reading an HTML consumer gives escaped text: each of the five entities stands for
      its character, every other character for itself. */
  function Unescape(s: string): (r: string)
    ensures |r| <= |s|
  {
    if s == [] then []
    else if s[0] != '&' then [s[0]] + Unescape(s[1..])
    else if "amp;" <= s[1..] then "&" + Unescape(s[5..])
    else if "lt;" <= s[1..] then "<" + Unescape(s[4..])
    else if "gt;" <= s[1..] then ">" + Unescape(s[4..])
    else if "quot;" <= s[1..] then "\"" + Unescape(s[6..])
    else if "#39;" <= s[1..] then "'" + Unescape(s[5..])
    else "&" + Unescape(s[1..])
  }

  /** Reading `'&' + name + rest` where `name` is the entity name `n` and none of the
      names tried before it. */
  lemma EntityShape(name: string, rest: string)
    requires |name| >= 3
    ensures ("&" + name + rest)[0] == '&'
    ensures ("&" + name + rest)[1..] == name + rest
    ensures ("&" + name + rest)[1 + |name|..] == rest
  {
    assert ("&" + name + rest)[1..] == name + rest;
  }

  lemma PrefixOfAppend(p: string, rest: string)
    ensures p <= p + rest
  {
    assert (p + rest)[..|p|] == p;
  }

  lemma NotPrefix(p: string, t: string)
    requires |p| > 0 && |t| > 0 && p[0] != t[0]
    ensures !(p <= t)
  {
  }

  lemma UnescapeAmp(rest: string)
    ensures Unescape("&amp;" + rest) == "&" + Unescape(rest)
  {
    assert "&amp;" + rest == "&" + "amp;" + rest;
    EntityShape("amp;", rest);
    PrefixOfAppend("amp;", rest);
  }

  lemma UnescapeLt(rest: string)
    ensures Unescape("&lt;" + rest) == "<" + Unescape(rest)
  {
    assert "&lt;" + rest == "&" + "lt;" + rest;
    EntityShape("lt;", rest);
    NotPrefix("amp;", "lt;" + rest);
    PrefixOfAppend("lt;", rest);
  }

  lemma UnescapeGt(rest: string)
    ensures Unescape("&gt;" + rest) == ">" + Unescape(rest)
  {
    assert "&gt;" + rest == "&" + "gt;" + rest;
    EntityShape("gt;", rest);
    NotPrefix("amp;", "gt;" + rest);
    NotPrefix("lt;", "gt;" + rest);
    PrefixOfAppend("gt;", rest);
  }

  lemma UnescapeQuot(rest: string)
    ensures Unescape("&quot;" + rest) == "\"" + Unescape(rest)
  {
    assert "&quot;" + rest == "&" + "quot;" + rest;
    EntityShape("quot;", rest);
    NotPrefix("amp;", "quot;" + rest);
    NotPrefix("lt;", "quot;" + rest);
    NotPrefix("gt;", "quot;" + rest);
    PrefixOfAppend("quot;", rest);
  }

  lemma UnescapeApos(rest: string)
    ensures Unescape("&#39;" + rest) == "'" + Unescape(rest)
  {
    assert "&#39;" + rest == "&" + "#39;" + rest;
    EntityShape("#39;", rest);
    NotPrefix("amp;", "#39;" + rest);
    NotPrefix("lt;", "#39;" + rest);
    NotPrefix("gt;", "#39;" + rest);
    NotPrefix("quot;", "#39;" + rest);
    PrefixOfAppend("#39;", rest);
  }

  lemma UnescapeOther(c: char, rest: string)
    requires c != '&'
    ensures Unescape([c] + rest) == [c] + Unescape(rest)
  {
    assert ([c] + rest)[1..] == rest;
  }

  /** One escaped character followed by any text is read back as that character. */
  lemma UnescapeChar(c: char, rest: string)
    ensures Unescape(EscChar(c) + rest) == [c] + Unescape(rest)
  {
    if c == '&' {
      UnescapeAmp(rest);
    } else if c == '<' {
      UnescapeLt(rest);
    } else if c == '>' {
      UnescapeGt(rest);
    } else if c == '"' {
      UnescapeQuot(rest);
    } else if c == '\'' {
      UnescapeApos(rest);
    } else {
      UnescapeOther(c, rest);
    }
  }

  /** Escaping loses nothing: the escaped text reads back as the original. */
  lemma {:induction false} UnescapeEsc(s: string)
    ensures Unescape(Esc(s)) == s
  {
    if s != [] {
      UnescapeChar(s[0], Esc(s[1..]));
      UnescapeEsc(s[1..]);
      assert s == [s[0]] + s[1..];
    }
  }

  // ---------------------------------------------------------------------------------------
  // Finding the sequences: the expression ESC '[' [0-9;]+ 'm', searched left to right

  predicate ParamChar(c: char)
  {
    ('0' <= c <= '9') || c == ';'
  }

  /** The end of the longest run of parameter characters starting at `k`. */
  function ParamEnd(text: string, k: nat): (r: nat)
    requires k <= |text|
    ensures k <= r <= |text|
    ensures forall i :: k <= i < r ==> ParamChar(text[i])
    ensures r == |text| || !ParamChar(text[r])
    decreases |text| - k
  {
    if k < |text| && ParamChar(text[k]) then ParamEnd(text, k + 1) else k
  }

  /** A sequence starts at `p`: ESC, '[', at least one parameter character, then 'm'.
      (Backtracking cannot find a shorter run ending in 'm', since 'm' is no parameter
      character, so the greedy run is the only candidate.) */
  predicate SgrAt(text: string, p: nat)
  {
    p + 1 < |text| && text[p] == ESC && text[p + 1] == '['
    && p + 2 < ParamEnd(text, p + 2) < |text| && text[ParamEnd(text, p + 2)] == 'm'
  }

  /** The position just after the sequence starting at `p`. */
  function SgrEnd(text: string, p: nat): (e: nat)
    requires SgrAt(text, p)
    ensures p + 4 <= e <= |text|
    ensures text[e - 1] == 'm'
  {
    ParamEnd(text, p + 2) + 1
  }

  /** The parameter text of the sequence starting at `p`: its `[0-9;]+` group. */
  function SgrParams(text: string, p: nat): (r: string)
    requires SgrAt(text, p)
    ensures |r| >= 1 && forall i :: 0 <= i < |r| ==> ParamChar(r[i])
    ensures text[p..SgrEnd(text, p)] == [ESC, '['] + r + ['m']
  {
    var e := SgrEnd(text, p);
    var r := text[p + 2..e - 1];
    assert text[p..e] == [ESC, '['] + r + ['m'];
    r
  }

  /** `re.exec` from `from`: the leftmost sequence starting at or after `from`. */
  function NextSgr(text: string, from: nat): (r: Option<nat>)
    requires from <= |text|
    ensures r.Some? ==> from <= r.value < |text| && SgrAt(text, r.value)
    ensures r.Some? ==> forall q :: from <= q < r.value ==> !SgrAt(text, q)
    ensures r.None? ==> forall q :: from <= q < |text| ==> !SgrAt(text, q)
    decreases |text| - from
  {
    if from == |text| then None
    else if SgrAt(text, from) then Some(from)
    else NextSgr(text, from + 1)
  }

  /** The text seen as plain chunks and sequences. */
  datatype Seg = Plain(s: string) | Sgr(params: string)

  /** The segments of `text[from..]`: the chunk before each leftmost sequence, the
      sequence, and finally the chunk after the last one (possibly empty). */
  function Lex(text: string, from: nat): (segs: seq<Seg>)
    requires from <= |text|
    ensures |segs| >= 1 && segs[|segs| - 1].Plain?
    decreases |text| - from
  {
    match NextSgr(text, from)
    case None => [Plain(text[from..])]
    case Some(p) => [Plain(text[from..p]), Sgr(SgrParams(text, p))] + Lex(text, SgrEnd(text, p))
  }

  /** The text a segment was read from. */
  function SegText(g: Seg): string
  {
    match g
    case Plain(s) => s
    case Sgr(params) => [ESC, '['] + params + ['m']
  }

  function Unlex(segs: seq<Seg>): string
  {
    if segs == [] then [] else SegText(segs[0]) + Unlex(segs[1..])
  }

  lemma SliceSplit(text: string, i: nat, j: nat)
    requires i <= j <= |text|
    ensures text[i..] == text[i..j] + text[j..]
  {
  }

  lemma UnlexStep(text: string, from: nat, p: nat)
    requires from <= |text| && NextSgr(text, from) == Some(p)
    ensures Unlex(Lex(text, from)) == text[from..p] + (text[p..SgrEnd(text, p)] + Unlex(Lex(text, SgrEnd(text, p))))
  {
    var segs := Lex(text, from);
    var rest := Lex(text, SgrEnd(text, p));
    assert segs[1..] == [Sgr(SgrParams(text, p))] + rest;
    assert segs[1..][1..] == rest;
  }

  /** Lexing loses nothing: the segments spell out the text they came from. */
  lemma {:induction false} UnlexLex(text: string, from: nat)
    requires from <= |text|
    ensures Unlex(Lex(text, from)) == text[from..]
    decreases |text| - from
  {
    match NextSgr(text, from)
    case None =>
      assert Lex(text, from) == [Plain(text[from..])];
      assert Lex(text, from)[1..] == [];
    case Some(p) =>
      var e := SgrEnd(text, p);
      UnlexStep(text, from, p);
      UnlexLex(text, e);
      SliceSplit(text, p, e);
      SliceSplit(text, from, p);
  }

  /** Every sequence segment carries a non-empty run of digits and semicolons. */
  lemma {:induction false} LexParams(text: string, from: nat)
    requires from <= |text|
    ensures forall i :: 0 <= i < |Lex(text, from)| && Lex(text, from)[i].Sgr? ==>
              |Lex(text, from)[i].params| >= 1 &&
              forall k :: 0 <= k < |Lex(text, from)[i].params| ==> ParamChar(Lex(text, from)[i].params[k])
    decreases |text| - from
  {
    match NextSgr(text, from)
    case None =>
    case Some(p) =>
      LexParams(text, SgrEnd(text, p));
  }

  // ---------------------------------------------------------------------------------------
  // What the codes do

  /** The colour names, in the order of the codes 30-37 (and 90-97). */
  const ColorNames: seq<string> := ["black", "red", "green", "yellow", "blue", "magenta", "cyan", "white"]

  /** The colour codes: 30-37 and the bright variants 90-97. */
  predicate IsColorCode(code: string)
  {
    |code| == 2 && (code[0] == '3' || code[0] == '9') && '0' <= code[1] <= '7'
  }

  /** The colour table: each colour code maps to the CSS variable of its colour. */
  function ColorOf(code: string): (r: Option<string>)
    ensures r.Some? <==> IsColorCode(code)
  {
    if IsColorCode(code) then
      var name := ColorNames[code[1] as int - '0' as int];
      if code[0] == '9' then Some("var(--ansi-bright-" + name + ")") else Some("var(--ansi-" + name + ")")
    else None
  }

  /** The table written out for the standard colours 30-37. */
  lemma StandardColors()
    ensures ColorOf("30") == Some("var(--ansi-black)")
    ensures ColorOf("31") == Some("var(--ansi-red)")
    ensures ColorOf("32") == Some("var(--ansi-green)")
    ensures ColorOf("33") == Some("var(--ansi-yellow)")
    ensures ColorOf("34") == Some("var(--ansi-blue)")
    ensures ColorOf("35") == Some("var(--ansi-magenta)")
    ensures ColorOf("36") == Some("var(--ansi-cyan)")
    ensures ColorOf("37") == Some("var(--ansi-white)")
  {
    assert "var(--ansi-" + "black" + ")" == "var(--ansi-black)";
    assert "var(--ansi-" + "red" + ")" == "var(--ansi-red)";
    assert "var(--ansi-" + "green" + ")" == "var(--ansi-green)";
    assert "var(--ansi-" + "yellow" + ")" == "var(--ansi-yellow)";
    assert "var(--ansi-" + "blue" + ")" == "var(--ansi-blue)";
    assert "var(--ansi-" + "magenta" + ")" == "var(--ansi-magenta)";
    assert "var(--ansi-" + "cyan" + ")" == "var(--ansi-cyan)";
    assert "var(--ansi-" + "white" + ")" == "var(--ansi-white)";
  }

  /** The table written out for the bright colours 90-97. */
  lemma BrightColors()
    ensures ColorOf("90") == Some("var(--ansi-bright-black)")
    ensures ColorOf("91") == Some("var(--ansi-bright-red)")
    ensures ColorOf("92") == Some("var(--ansi-bright-green)")
    ensures ColorOf("93") == Some("var(--ansi-bright-yellow)")
    ensures ColorOf("94") == Some("var(--ansi-bright-blue)")
    ensures ColorOf("95") == Some("var(--ansi-bright-magenta)")
    ensures ColorOf("96") == Some("var(--ansi-bright-cyan)")
    ensures ColorOf("97") == Some("var(--ansi-bright-white)")
  {
    assert "var(--ansi-bright-" + "black" + ")" == "var(--ansi-bright-black)";
    assert "var(--ansi-bright-" + "red" + ")" == "var(--ansi-bright-red)";
    assert "var(--ansi-bright-" + "green" + ")" == "var(--ansi-bright-green)";
    assert "var(--ansi-bright-" + "yellow" + ")" == "var(--ansi-bright-yellow)";
    assert "var(--ansi-bright-" + "blue" + ")" == "var(--ansi-bright-blue)";
    assert "var(--ansi-bright-" + "magenta" + ")" == "var(--ansi-bright-magenta)";
    assert "var(--ansi-bright-" + "cyan" + ")" == "var(--ansi-bright-cyan)";
    assert "var(--ansi-bright-" + "white" + ")" == "var(--ansi-bright-white)";
  }

  /** No other code is in the table: not "0" or "1", not "3" or "38", not "030". */
  lemma ColorTableKeys(code: string)
    ensures ColorOf(code).Some? <==>
            code in ["30", "31", "32", "33", "34", "35", "36", "37", "90", "91", "92", "93", "94", "95", "96", "97"]
  {
    if IsColorCode(code) {
      assert code == [code[0], code[1]];
    }
  }

  const BoldStyle := "font-weight:bold"
  const CloseTag := "</span>"

  /** The opening tag of a span with the given style. */
  function OpenHtml(style: string): string
  {
    "<span style=\"" + style + "\">"
  }

  /** `s` written `n` times. */
  function Repeat(s: string, n: nat): (r: string)
    ensures |r| == n * |s|
  {
    if n == 0 then "" else s + Repeat(s, n - 1)
  }

  /** The stream the converter consumes: text chunks and single codes, in order. */
  datatype Item = Chunk(s: string) | Code(c: string)

  function CodeItems(codes: seq<string>): (r: seq<Item>)
    ensures |r| == |codes| && forall i :: 0 <= i < |codes| ==> r[i] == Code(codes[i])
  {
    if codes == [] then [] else [Code(codes[0])] + CodeItems(codes[1..])
  }

  /** A chunk is one item; a sequence is its `;`-separated codes, left to right. */
  function SegItems(g: Seg): seq<Item>
  {
    match g
    case Plain(s) => [Chunk(s)]
    case Sgr(params) => CodeItems(Split(params, ';'))
  }

  function Items(segs: seq<Seg>): seq<Item>
  {
    if segs == [] then [] else SegItems(segs[0]) + Items(segs[1..])
  }

  /** Code 1 and the colour codes open a span. */
  predicate Opens(c: string)
  {
    c == "1" || IsColorCode(c)
  }

  /** The style of the span a code opens. */
  function StyleOf(c: string): string
    requires Opens(c)
  {
    if c == "1" then BoldStyle else "color:" + ColorOf(c).value
  }

  /** The number of spans open after a code, when `d` were open before: code 0 closes them
      all, an opening code adds one, any other code changes nothing. */
  function CodeDepth(c: string, d: nat): nat
  {
    if c == "0" then 0 else if Opens(c) then d + 1 else d
  }

  /** What one code writes when `d` spans are open. */
  function CodeHtml(c: string, d: nat): string
  {
    if c == "0" then Repeat(CloseTag, d)
    else if Opens(c) then OpenHtml(StyleOf(c))
    else ""
  }

  /** The codes of one sequence, applied left to right. */
  function CodesHtml(codes: seq<string>, d: nat): string
  {
    if codes == [] then "" else CodeHtml(codes[0], d) + CodesHtml(codes[1..], CodeDepth(codes[0], d))
  }

  function CodesDepth(codes: seq<string>, d: nat): nat
  {
    if codes == [] then d else CodesDepth(codes[1..], CodeDepth(codes[0], d))
  }

  /** What the converter writes for `items` when `d` spans are open: each chunk escaped,
      each code's tags, and at the end a closing tag for every span still open. */
  function EmitHtml(items: seq<Item>, d: nat): string
    decreases |items|
  {
    if items == [] then Repeat(CloseTag, d)
    else match items[0]
      case Chunk(s) => Esc(s) + EmitHtml(items[1..], d)
      case Code(c) => CodeHtml(c, d) + EmitHtml(items[1..], CodeDepth(c, d))
  }

  /** The converted form of a whole text. */
  function ToHtml(text: string): string
  {
    EmitHtml(Items(Lex(text, 0)), 0)
  }

  // ---------------------------------------------------------------------------------------
  // The converter

  lemma ItemsLexStep(text: string, from: nat, p: nat)
    requires from <= |text| && NextSgr(text, from) == Some(p)
    ensures Items(Lex(text, from)) ==
            [Chunk(text[from..p])] + (CodeItems(Split(SgrParams(text, p), ';')) + Items(Lex(text, SgrEnd(text, p))))
  {
    var segs := Lex(text, from);
    var rest := Lex(text, SgrEnd(text, p));
    assert segs[1..] == [Sgr(SgrParams(text, p))] + rest;
    assert segs[1..][1..] == rest;
  }

  lemma ItemsLexLast(text: string, from: nat)
    requires from <= |text| && NextSgr(text, from).None?
    ensures Items(Lex(text, from)) == [Chunk(text[from..])]
  {
    assert Lex(text, from)[1..] == [];
  }

  /** A sequence's codes, followed by more items, write their tags and then continue from
      the depth they leave. */
  lemma {:induction false} EmitCodes(codes: seq<string>, rest: seq<Item>, d: nat)
    ensures EmitHtml(CodeItems(codes) + rest, d) == CodesHtml(codes, d) + EmitHtml(rest, CodesDepth(codes, d))
    decreases |codes|
  {
    if codes == [] {
      assert CodeItems(codes) + rest == rest;
    } else {
      var items := CodeItems(codes) + rest;
      assert items[0] == Code(codes[0]);
      assert items[1..] == CodeItems(codes[1..]) + rest;
      EmitCodes(codes[1..], rest, CodeDepth(codes[0], d));
    }
  }

  /** The output for `text[from..]` starts with the escaped chunk before the next sequence,
      then that sequence's codes, then the rest. */
  lemma EmitLexStep(text: string, from: nat, p: nat, d: nat)
    requires from <= |text| && NextSgr(text, from) == Some(p)
    ensures var codes := Split(SgrParams(text, p), ';');
            EmitHtml(Items(Lex(text, from)), d) ==
            Esc(text[from..p]) + (CodesHtml(codes, d) + EmitHtml(Items(Lex(text, SgrEnd(text, p))), CodesDepth(codes, d)))
  {
    var codes := Split(SgrParams(text, p), ';');
    var tail := Items(Lex(text, SgrEnd(text, p)));
    ItemsLexStep(text, from, p);
    var items := [Chunk(text[from..p])] + (CodeItems(codes) + tail);
    assert items[1..] == CodeItems(codes) + tail;
    EmitCodes(codes, tail, d);
  }

  /** The output for the text after the last sequence: its escaped chunk and the closing
      tags of the spans still open. */
  lemma EmitLexLast(text: string, from: nat, d: nat)
    requires from <= |text| && NextSgr(text, from).None?
    ensures EmitHtml(Items(Lex(text, from)), d) == Esc(text[from..]) + Repeat(CloseTag, d)
  {
    ItemsLexLast(text, from);
    assert [Chunk(text[from..])][1..] == [];
  }

  /** Concatenation is associative (stated once so the method proofs need not rediscover
      it element by element). */
  lemma Assoc(a: string, b: string, c: string)
    ensures (a + b) + c == a + (b + c)
  {
  }

  lemma CodesStep(codes: seq<string>, j: nat, d: nat)
    requires j < |codes|
    ensures CodesHtml(codes[j..], d) == CodeHtml(codes[j], d) + CodesHtml(codes[j + 1..], CodeDepth(codes[j], d))
    ensures CodesDepth(codes[j..], d) == CodesDepth(codes[j + 1..], CodeDepth(codes[j], d))
  {
    assert codes[j..][1..] == codes[j + 1..];
  }

  /** A stack of closing tags, one per open span. */
  predicate Closing(stack: seq<string>)
  {
    forall k :: 0 <= k < |stack| ==> stack[k] == CloseTag
  }

  /** Pops every span still open, appending its closing tag. */
  method PopAll(res0: string, stack0: seq<string>) returns (res: string, stack: seq<string>)
    requires Closing(stack0)
    ensures res == res0 + Repeat(CloseTag, |stack0|) && stack == []
  {
    res, stack := res0, stack0;
    while |stack| > 0
      invariant Closing(stack)
      invariant res + Repeat(CloseTag, |stack|) == res0 + Repeat(CloseTag, |stack0|)
    {
      Assoc(res, CloseTag, Repeat(CloseTag, |stack| - 1));
      res := res + stack[|stack| - 1];
      stack := stack[..|stack| - 1];
    }
  }

  /** The callback applied to each code: close everything on "0", open a bold or coloured
      span on "1" or a colour code, ignore anything else. */
  method ApplyCode(code: string, res0: string, stack0: seq<string>) returns (res: string, stack: seq<string>)
    requires Closing(stack0)
    ensures Closing(stack)
    ensures res == res0 + CodeHtml(code, |stack0|)
    ensures |stack| == CodeDepth(code, |stack0|)
  {
    var color := ColorOf(code);
    if code == "0" {
      res, stack := PopAll(res0, stack0);
    } else if code == "1" {
      res := res0 + ("<span style=\"" + BoldStyle + "\">");
      stack := stack0 + [CloseTag];
    } else if color.Some? {
      res := res0 + ("<span style=\"" + ("color:" + color.value) + "\">");
      stack := stack0 + [CloseTag];
    } else {
      res, stack := res0, stack0;
    }
  }

  /** The `forEach` over one sequence's codes, with the stack of closing tags. */
  method ApplyCodes(codes: seq<string>, res0: string, stack0: seq<string>) returns (res: string, stack: seq<string>)
    requires Closing(stack0)
    ensures Closing(stack)
    ensures res == res0 + CodesHtml(codes, |stack0|)
    ensures |stack| == CodesDepth(codes, |stack0|)
  {
    res, stack := res0, stack0;
    for j := 0 to |codes|
      invariant Closing(stack)
      invariant res + CodesHtml(codes[j..], |stack|) == res0 + CodesHtml(codes, |stack0|)
      invariant CodesDepth(codes[j..], |stack|) == CodesDepth(codes, |stack0|)
    {
      CodesStep(codes, j, |stack|);
      ghost var before, here, after := res, CodeHtml(codes[j], |stack|), CodesHtml(codes[j + 1..], CodeDepth(codes[j], |stack|));
      res, stack := ApplyCode(codes[j], res, stack);
      Assoc(before, here, after);
    }
    assert codes[|codes|..] == [];
  }

  /** `ansiToHtml`: the loop over the sequences, each one's codes, and the final flush. */
  method AnsiToHtml(text: string) returns (res: string)
    ensures res == ToHtml(text)
  {
    res := "";
    var stack: seq<string> := [];
    var last := 0;
    var m := NextSgr(text, last);
    while m.Some?
      invariant last <= |text| && m == NextSgr(text, last)
      invariant Closing(stack)
      invariant res + EmitHtml(Items(Lex(text, last)), |stack|) == ToHtml(text)
      decreases |text| - last
    {
      var p := m.value;
      var codes := Split(SgrParams(text, p), ';');
      ghost var before, chunk, tags := res, Esc(text[last..p]), CodesHtml(codes, |stack|);
      ghost var after := EmitHtml(Items(Lex(text, SgrEnd(text, p))), CodesDepth(codes, |stack|));
      EmitLexStep(text, last, p, |stack|);
      res := res + Esc(text[last..p]);
      res, stack := ApplyCodes(codes, res, stack);
      Assoc(before, chunk, tags + after);
      Assoc(before + chunk, tags, after);
      last := SgrEnd(text, p);
      m := NextSgr(text, last);
    }
    EmitLexLast(text, last, |stack|);
    Assoc(res, Esc(text[last..]), Repeat(CloseTag, |stack|));
    res := res + Esc(text[last..]);
    res, stack := PopAll(res, stack);
  }

  // ---------------------------------------------------------------------------------------
  // The output as a sequence of tags: balance, and what the text parts carry

  /** The pieces of the output. */
  datatype Tag = Text(s: string) | Open(style: string) | Close

  function TagHtml(t: Tag): string
  {
    match t
    case Text(s) => Esc(s)
    case Open(style) => OpenHtml(style)
    case Close => CloseTag
  }

  function Render(tags: seq<Tag>): string
  {
    if tags == [] then [] else TagHtml(tags[0]) + Render(tags[1..])
  }

  /** `d` closing tags. */
  function Closes(d: nat): (r: seq<Tag>)
    ensures |r| == d
  {
    if d == 0 then [] else [Close] + Closes(d - 1)
  }

  function CodeTags(c: string, d: nat): seq<Tag>
  {
    if c == "0" then Closes(d) else if Opens(c) then [Open(StyleOf(c))] else []
  }

  /** The tags written for `items` when `d` spans are open, piece by piece as `EmitHtml`
      writes them. */
  function Emit(items: seq<Item>, d: nat): seq<Tag>
    decreases |items|
  {
    if items == [] then Closes(d)
    else match items[0]
      case Chunk(s) => [Text(s)] + Emit(items[1..], d)
      case Code(c) => CodeTags(c, d) + Emit(items[1..], CodeDepth(c, d))
  }

  /** The converted form of a whole text, as tags. */
  function Translation(text: string): seq<Tag>
  {
    Emit(Items(Lex(text, 0)), 0)
  }

  lemma {:induction false} RenderAppend(a: seq<Tag>, b: seq<Tag>)
    ensures Render(a + b) == Render(a) + Render(b)
  {
    if a == [] {
      assert a + b == b;
    } else {
      assert (a + b)[0] == a[0];
      assert (a + b)[1..] == a[1..] + b;
      RenderAppend(a[1..], b);
      Assoc(TagHtml(a[0]), Render(a[1..]), Render(b));
    }
  }

  lemma {:induction false} ClosesRender(d: nat)
    ensures Render(Closes(d)) == Repeat(CloseTag, d)
  {
    if d > 0 {
      assert Closes(d)[1..] == Closes(d - 1);
      ClosesRender(d - 1);
    }
  }

  lemma CodeTagsRender(c: string, d: nat)
    ensures Render(CodeTags(c, d)) == CodeHtml(c, d)
  {
    if c == "0" {
      ClosesRender(d);
    } else if Opens(c) {
      assert [Open(StyleOf(c))][1..] == [];
    }
  }

  /** The tags render to exactly what the converter writes. */
  lemma {:induction false} RenderEmit(items: seq<Item>, d: nat)
    ensures Render(Emit(items, d)) == EmitHtml(items, d)
    decreases |items|
  {
    if items == [] {
      ClosesRender(d);
    } else {
      match items[0]
      case Chunk(s) =>
        RenderAppend([Text(s)], Emit(items[1..], d));
        assert [Text(s)][1..] == [];
        RenderEmit(items[1..], d);
      case Code(c) =>
        RenderAppend(CodeTags(c, d), Emit(items[1..], CodeDepth(c, d)));
        CodeTagsRender(c, d);
        RenderEmit(items[1..], CodeDepth(c, d));
    }
  }

  /** The converter's output is the rendering of the translation. */
  lemma ToHtmlRendersTranslation(text: string)
    ensures ToHtml(text) == Render(Translation(text))
  {
    RenderEmit(Items(Lex(text, 0)), 0);
  }

  /** Reading tags left to right from depth `d`: the depth after them, or `None` if some
      closing tag has no open span to close. */
  function Track(tags: seq<Tag>, d: nat): Option<nat>
  {
    if tags == [] then Some(d)
    else match tags[0]
      case Text(_) => Track(tags[1..], d)
      case Open(_) => Track(tags[1..], d + 1)
      case Close => if d == 0 then None else Track(tags[1..], d - 1)
  }

  lemma {:induction false} TrackAppend(a: seq<Tag>, b: seq<Tag>, d: nat)
    ensures Track(a + b, d) == if Track(a, d).None? then None else Track(b, Track(a, d).value)
  {
    if a == [] {
      assert a + b == b;
    } else {
      assert (a + b)[0] == a[0];
      assert (a + b)[1..] == a[1..] + b;
      match a[0]
      case Text(_) => TrackAppend(a[1..], b, d);
      case Open(_) => TrackAppend(a[1..], b, d + 1);
      case Close => if d > 0 { TrackAppend(a[1..], b, d - 1); }
    }
  }

  lemma {:induction false} TrackCloses(k: nat, d: nat)
    requires k <= d
    ensures Track(Closes(k), d) == Some(d - k)
  {
    if k > 0 {
      assert Closes(k)[1..] == Closes(k - 1);
      TrackCloses(k - 1, d - 1);
    }
  }

  /** Starting with `d` spans open, the tags close exactly those and every span they open,
      and never close one that is not open. */
  lemma {:induction false} EmitBalanced(items: seq<Item>, d: nat)
    ensures Track(Emit(items, d), d) == Some(0)
    decreases |items|
  {
    if items == [] {
      TrackCloses(d, d);
    } else {
      match items[0]
      case Chunk(s) =>
        TrackAppend([Text(s)], Emit(items[1..], d), d);
        assert [Text(s)][1..] == [];
        EmitBalanced(items[1..], d);
      case Code(c) =>
        TrackAppend(CodeTags(c, d), Emit(items[1..], CodeDepth(c, d)), d);
        if c == "0" {
          TrackCloses(d, d);
        } else if Opens(c) {
          assert [Open(StyleOf(c))][1..] == [];
        }
        EmitBalanced(items[1..], CodeDepth(c, d));
    }
  }

  function OpenCount(tags: seq<Tag>): nat
  {
    if tags == [] then 0 else (if tags[0].Open? then 1 else 0) + OpenCount(tags[1..])
  }

  function CloseCount(tags: seq<Tag>): nat
  {
    if tags == [] then 0 else (if tags[0].Close? then 1 else 0) + CloseCount(tags[1..])
  }

  /** What a successful `Track` means in counts: in every prefix the closing tags number at
      most the open spans, and the final depth is what the counts leave. */
  lemma {:induction false} TrackCounts(tags: seq<Tag>, d: nat)
    requires Track(tags, d).Some?
    ensures forall k :: 0 <= k <= |tags| ==> CloseCount(tags[..k]) <= d + OpenCount(tags[..k])
    ensures Track(tags, d).value + CloseCount(tags) == d + OpenCount(tags)
  {
    if tags != [] {
      var d' := match tags[0] case Text(_) => d case Open(_) => d + 1 case Close => d - 1;
      TrackCounts(tags[1..], d');
      forall k | 0 <= k <= |tags|
        ensures CloseCount(tags[..k]) <= d + OpenCount(tags[..k])
      {
        if k > 0 {
          assert tags[..k][0] == tags[0];
          assert tags[..k][1..] == tags[1..][..k - 1];
        }
      }
    }
  }

  /** Every span the converter opens is closed by the end of the output, and no prefix of
      the output closes more spans than it has opened. */
  lemma SpansBalanced(text: string)
    ensures OpenCount(Translation(text)) == CloseCount(Translation(text))
    ensures forall k :: 0 <= k <= |Translation(text)| ==>
              CloseCount(Translation(text)[..k]) <= OpenCount(Translation(text)[..k])
  {
    EmitBalanced(Items(Lex(text, 0)), 0);
    TrackCounts(Translation(text), 0);
  }

  /** The text the tags carry, in order. */
  function TextOf(tags: seq<Tag>): string
  {
    if tags == [] then "" else (if tags[0].Text? then tags[0].s else "") + TextOf(tags[1..])
  }

  /** The plain chunks of a lexed text, in order: the text with its sequences removed. */
  function PlainOf(segs: seq<Seg>): string
  {
    if segs == [] then "" else (if segs[0].Plain? then segs[0].s else "") + PlainOf(segs[1..])
  }

  lemma {:induction false} TextOfAppend(a: seq<Tag>, b: seq<Tag>)
    ensures TextOf(a + b) == TextOf(a) + TextOf(b)
  {
    if a == [] {
      assert a + b == b;
    } else {
      assert (a + b)[0] == a[0];
      assert (a + b)[1..] == a[1..] + b;
      TextOfAppend(a[1..], b);
      Assoc(if a[0].Text? then a[0].s else "", TextOf(a[1..]), TextOf(b));
    }
  }

  lemma {:induction false} TextOfCloses(d: nat)
    ensures TextOf(Closes(d)) == ""
  {
    if d > 0 {
      assert Closes(d)[1..] == Closes(d - 1);
      TextOfCloses(d - 1);
    }
  }

  /** Codes carry no text: after a sequence's codes the text is that of what follows. */
  lemma {:induction false} TextOfCodes(codes: seq<string>, rest: seq<Item>, d: nat)
    ensures TextOf(Emit(CodeItems(codes) + rest, d)) == TextOf(Emit(rest, CodesDepth(codes, d)))
    decreases |codes|
  {
    if codes == [] {
      assert CodeItems(codes) + rest == rest;
    } else {
      var items := CodeItems(codes) + rest;
      var c := codes[0];
      assert items[0] == Code(c);
      assert items[1..] == CodeItems(codes[1..]) + rest;
      TextOfAppend(CodeTags(c, d), Emit(items[1..], CodeDepth(c, d)));
      if c == "0" {
        TextOfCloses(d);
      } else if Opens(c) {
        assert [Open(StyleOf(c))][1..] == [];
      }
      TextOfCodes(codes[1..], rest, CodeDepth(c, d));
    }
  }

  /** The text parts of the output are the plain chunks of the input, in order, whatever
      spans are open. */
  lemma {:induction false} TextsCopied(segs: seq<Seg>, d: nat)
    ensures TextOf(Emit(Items(segs), d)) == PlainOf(segs)
    decreases |segs|
  {
    if segs == [] {
      TextOfCloses(d);
    } else {
      match segs[0]
      case Plain(s) =>
        var items := [Chunk(s)] + Items(segs[1..]);
        assert items[1..] == Items(segs[1..]);
        TextOfAppend([Text(s)], Emit(items[1..], d));
        assert [Text(s)][1..] == [];
        TextsCopied(segs[1..], d);
      case Sgr(params) =>
        var codes := Split(params, ';');
        TextOfCodes(codes, Items(segs[1..]), d);
        TextsCopied(segs[1..], CodesDepth(codes, d));
    }
  }

  /** The output's text parts, read in order, are the input with exactly its recognised
      sequences cut out: the input is recovered by putting the sequences back between them. */
  lemma TextOutsideSequences(text: string)
    ensures TextOf(Translation(text)) == PlainOf(Lex(text, 0))
    ensures Unlex(Lex(text, 0)) == text
  {
    TextsCopied(Lex(text, 0), 0);
    UnlexLex(text, 0);
  }

  /** A text holding no sequence is only escaped. */
  lemma NoSequenceOnlyEscaped(text: string)
    requires NextSgr(text, 0).None?
    ensures ToHtml(text) == Esc(text)
  {
    EmitLexLast(text, 0, 0);
    assert text[0..] == text;
  }
}
