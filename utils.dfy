/**
 * The text helpers of js/utils.js: HTML escaping, linebreak detection,
 * removal of common indentation, stripping of leading and trailing
 * linebreaks and right-trimming of every line.
 */
module Utils {
  import opened JsString

  // ---------------------------------------------------------------------------
  // escapeHTML
  // ---------------------------------------------------------------------------

  /** What escaping puts in place of one character. */
  function EscapeChar(c: char): string
  {
    if c == '&' then "&amp;" else if c == '<' then "&lt;" else if c == '>' then "&gt;" else [c]
  }

  /** `escapeHTML`, one character at a time. */
  function EscapeHtml(html: string): (r: string)
    ensures '<' !in r && '>' !in r
    ensures '&' !in html && '<' !in html && '>' !in html ==> r == html
    ensures |r| >= |html|
  {
    if html == [] then ""
    else
      EscapeCharSafe(html[0]);
      EscapeChar(html[0]) + EscapeHtml(html[1..])
  }

  lemma EscapeCharSafe(c: char)
    ensures '<' !in EscapeChar(c) && '>' !in EscapeChar(c) && |EscapeChar(c)| >= 1
    ensures c != '&' && c != '<' && c != '>' ==> EscapeChar(c) == [c]
  {
    if c == '&' {
      assert "&amp;" == ['&', 'a', 'm', 'p', ';'];
    } else if c == '<' {
      assert "&lt;" == ['&', 'l', 't', ';'];
    } else if c == '>' {
      assert "&gt;" == ['&', 'g', 't', ';'];
    }
  }

  /** A global regular-expression replace of one character by a text without `$`. */
  function ReplaceEvery(s: string, c: char, rep: string): string
  {
    if s == [] then "" else (if s[0] == c then rep else [s[0]]) + ReplaceEvery(s[1..], c, rep)
  }

  lemma {:induction false} ReplaceEveryAppend(a: string, b: string, c: char, rep: string)
    ensures ReplaceEvery(a + b, c, rep) == ReplaceEvery(a, c, rep) + ReplaceEvery(b, c, rep)
    decreases |a|
  {
    if a != [] {
      assert (a + b)[1..] == a[1..] + b;
      ReplaceEveryAppend(a[1..], b, c, rep);
    } else {
      assert a + b == b;
    }
  }

  /** The three passes of `escapeHTML` as written: `&` first, then `<`, then `>`. */
  function ThreePasses(s: string): string
  {
    ReplaceEvery(ReplaceEvery(ReplaceEvery(s, '&', "&amp;"), '<', "&lt;"), '>', "&gt;")
  }

  lemma ThreePassesAppend(a: string, b: string)
    ensures ThreePasses(a + b) == ThreePasses(a) + ThreePasses(b)
  {
    ReplaceEveryAppend(a, b, '&', "&amp;");
    var p1a, p1b := ReplaceEvery(a, '&', "&amp;"), ReplaceEvery(b, '&', "&amp;");
    ReplaceEveryAppend(p1a, p1b, '<', "&lt;");
    var p2a, p2b := ReplaceEvery(p1a, '<', "&lt;"), ReplaceEvery(p1b, '<', "&lt;");
    ReplaceEveryAppend(p2a, p2b, '>', "&gt;");
  }

  lemma ThreePassesChar(h: char)
    ensures ThreePasses([h]) == EscapeChar(h)
  {
    if h == '&' {
      ReplaceEverySingle(h, '&', "&amp;");
      ReplaceEveryAbsent("&amp;", '<', "&lt;");
      ReplaceEveryAbsent("&amp;", '>', "&gt;");
    } else if h == '<' {
      ReplaceEverySingle(h, '&', "&amp;");
      ReplaceEverySingle(h, '<', "&lt;");
      ReplaceEveryAbsent("&lt;", '>', "&gt;");
    } else {
      ReplaceEverySingle(h, '&', "&amp;");
      ReplaceEverySingle(h, '<', "&lt;");
      ReplaceEverySingle(h, '>', "&gt;");
    }
  }

  lemma ReplaceEverySingle(h: char, c: char, rep: string)
    ensures ReplaceEvery([h], c, rep) == if h == c then rep else [h]
  {
    assert [h][1..] == [];
  }

  lemma {:induction false} ReplaceEveryAbsent(s: string, c: char, rep: string)
    requires c !in s
    ensures ReplaceEvery(s, c, rep) == s
    decreases |s|
  {
    if s != [] {
      ReplaceEveryAbsent(s[1..], c, rep);
      assert s == [s[0]] + s[1..];
    }
  }

  /**
   * The three passes of `escapeHTML` as written amount to escaping each character
   * on its own: the `&` that the later passes introduce is never escaped again.
   */
  lemma {:induction false} EscapeHtmlIsThreePasses(html: string)
    ensures EscapeHtml(html) == ThreePasses(html)
    decreases |html|
  {
    if html != [] {
      assert html == [html[0]] + html[1..];
      EscapeHtmlIsThreePasses(html[1..]);
      ThreePassesAppend([html[0]], html[1..]);
      ThreePassesChar(html[0]);
    }
  }

  /** Escaping keeps every character other than `&`, `<` and `>`, in order. */
  lemma {:induction false} EscapeHtmlAppend(a: string, b: string)
    ensures EscapeHtml(a + b) == EscapeHtml(a) + EscapeHtml(b)
    decreases |a|
  {
    if a != [] {
      assert (a + b)[1..] == a[1..] + b;
      EscapeHtmlAppend(a[1..], b);
    } else {
      assert a + b == b;
    }
  }

  // ---------------------------------------------------------------------------
  // determineLinebreaks
  // ---------------------------------------------------------------------------

  /** `determineLinebreaks`: the linebreak sequence a text uses, Windows style first. */
  function DetermineLinebreaks(text: string): (r: string)
    ensures r == "\r\n" <==> Contains(text, "\r\n")
    ensures r == "\n" <==> !Contains(text, "\r\n") && '\n' in text
    ensures r == "\r" <==> '\r' in text && '\n' !in text
    ensures r == "" <==> '\n' !in text && '\r' !in text
    ensures r != "" ==> Contains(text, r)
  {
    ContainsChar(text, '\n');
    ContainsChar(text, '\r');
    if Contains(text, "\r\n") then
      assert '\r' in text && '\n' in text by { CrLfHasCr(text); }
      "\r\n"
    else if Contains(text, "\n") then "\n"
    else if Contains(text, "\r") then "\r"
    else ""
  }

  lemma CrLfHasCr(text: string)
    requires Contains(text, "\r\n")
    ensures '\r' in text && '\n' in text
  {
    var i := IndexOf(text, "\r\n").value;
    assert text[i..i + 2] == "\r\n";
    assert text[i] == '\r' && text[i + 1] == '\n';
  }

  // ---------------------------------------------------------------------------
  // shiftLinesLeft
  // ---------------------------------------------------------------------------

  /**
   * The `commonPrefix` that the first loop of `shiftLinesLeft` holds after the
   * given lines: every non-empty line's leading whitespace replaces it when that
   * whitespace is a prefix of it (or when there is none yet).
   */
  function CommonPrefix(lines: seq<string>): Option<string>
  {
    if |lines| == 0 then None
    else
      var cp := CommonPrefix(lines[..|lines| - 1]);
      var line := lines[|lines| - 1];
      if |line| == 0 then cp
      else
        var ws := LeadingSpace(line);
        if cp.None? || StartsWith(cp.value, ws) then Some(ws) else cp
  }

  /** One line after the second loop: a non-empty line loses `shift` characters. */
  function ShiftLine(line: string, shift: nat): string
  {
    if |line| > 0 then SliceFrom(line, shift) else line
  }

  function Shifted(lines: seq<string>, shift: nat): (r: seq<string>)
    ensures |r| == |lines|
  {
    seq(|lines|, k requires 0 <= k < |lines| => ShiftLine(lines[k], shift))
  }

  /**
   * What `shiftLinesLeft` returns, or the TypeError it throws when every line is
   * empty (then `commonPrefix` is still null when its length is read).
   */
  function LeftShifted(text: string): (r: Result<string>)
    ensures DetermineLinebreaks(text) == "" ==> r == Ok(text)
    ensures DetermineLinebreaks(text) != "" ==>
      (r.Thrown? <==> forall k :: 0 <= k < |Split(text, DetermineLinebreaks(text))| ==> Split(text, DetermineLinebreaks(text))[k] == "")
  {
    var lb := DetermineLinebreaks(text);
    if lb == "" then Ok(text)
    else
      var lines := Split(text, lb);
      var cp := CommonPrefix(lines);
      CommonPrefixNone(lines);
      if cp.None? then Thrown("TypeError")
      else
        var k :| 0 <= k < |lines| && lines[k] != "";
        assert Split(text, DetermineLinebreaks(text))[k] != "";
        Ok(Terminated(Shifted(lines, |cp.value|), lb))
  }

  /** There is a common prefix exactly when some line is non-empty. */
  lemma {:induction false} CommonPrefixNone(lines: seq<string>)
    ensures CommonPrefix(lines).None? <==> forall k :: 0 <= k < |lines| ==> lines[k] == ""
    decreases |lines|
  {
    if |lines| > 0 {
      var init := lines[..|lines| - 1];
      CommonPrefixNone(init);
      assert forall k :: 0 <= k < |init| ==> init[k] == lines[k];
    }
  }

  /**
   * The common prefix is always the leading whitespace of one of the non-empty
   * lines, so it consists of whitespace only.
   */
  lemma {:induction false} CommonPrefixIsLeadingSpace(lines: seq<string>)
    requires CommonPrefix(lines).Some?
    ensures exists k :: 0 <= k < |lines| && |lines[k]| > 0 && CommonPrefix(lines).value == LeadingSpace(lines[k])
    ensures forall i :: 0 <= i < |CommonPrefix(lines).value| ==> IsJsSpace(CommonPrefix(lines).value[i])
    decreases |lines|
  {
    var init := lines[..|lines| - 1];
    var line := lines[|lines| - 1];
    if CommonPrefix(lines) == CommonPrefix(init) && CommonPrefix(init).Some? {
      CommonPrefixIsLeadingSpace(init);
      var k :| 0 <= k < |init| && |init[k]| > 0 && CommonPrefix(init).value == LeadingSpace(init[k]);
      assert lines[k] == init[k];
    } else {
      assert CommonPrefix(lines).value == LeadingSpace(lines[|lines| - 1]);
    }
  }

  /**
   * Once the first loop has a prefix, later lines only ever replace it by a
   * prefix of itself: what it ends with is a prefix of what it held after any
   * earlier line, so its length never grows.
   */
  lemma {:induction false} CommonPrefixNeverGrows(lines: seq<string>, i: nat)
    requires i <= |lines|
    requires CommonPrefix(lines[..i]).Some?
    ensures CommonPrefix(lines).Some?
    ensures StartsWith(CommonPrefix(lines[..i]).value, CommonPrefix(lines).value)
    decreases |lines|
  {
    if i == |lines| {
      assert lines[..i] == lines;
    } else {
      var init := lines[..|lines| - 1];
      assert init[..i] == lines[..i];
      CommonPrefixNeverGrows(init, i);
      var a, b := CommonPrefix(lines[..i]).value, CommonPrefix(init).value;
      var c := CommonPrefix(lines).value;
      // a starts with b, and c is b or a prefix of b
      assert StartsWith(b, c);
      assert a[..|c|] == b[..|b|][..|c|];
    }
  }

  /**
   * Every non-empty line loses the same number of leading characters (all of it
   * when it is shorter), an empty line stays empty, and every line, the last
   * one included, is followed by the linebreak.
   */
  lemma LeftShiftedLines(text: string, k: nat)
    requires DetermineLinebreaks(text) != ""
    requires LeftShifted(text).Ok?
    requires k < |Split(text, DetermineLinebreaks(text))|
    ensures var lb := DetermineLinebreaks(text);
      var lines := Split(text, lb);
      var out := Shifted(lines, |CommonPrefix(lines).value|);
      && Join(lines, lb) == text
      && LeftShifted(text).value == Join(out, lb) + lb
      && (|lines[k]| == 0 ==> out[k] == "")
      && (|CommonPrefix(lines).value| < |lines[k]| ==> out[k] == lines[k][|CommonPrefix(lines).value|..])
      && (0 < |lines[k]| <= |CommonPrefix(lines).value| ==> out[k] == "")
  {
    var lb := DetermineLinebreaks(text);
    var lines := Split(text, lb);
    JoinSplit(text, lb);
    var shift := |CommonPrefix(lines).value|;
    TerminatedIsJoinPlusSep(Shifted(lines, shift), lb);
  }

  /** `shiftLinesLeft` */
  method ShiftLinesLeft(text: string) returns (r: Result<string>)
    ensures r == LeftShifted(text)
  {
    var lb := DetermineLinebreaks(text);
    if lb == "" {
      return Ok(text);
    }
    var parts := Split(text, lb);
    var lines := new string[|parts|](k requires 0 <= k < |parts| => parts[k]);
    assert lines[..] == parts;
    var commonPrefix := FindCommonPrefix(lines);
    if commonPrefix.None? {
      return Thrown("TypeError");
    }
    var shifted := ShiftAndTerminate(lines, |commonPrefix.value|, lb);
    return Ok(shifted);
  }

  /** The first loop of `shiftLinesLeft`. */
  method FindCommonPrefix(lines: array<string>) returns (commonPrefix: Option<string>)
    ensures commonPrefix == CommonPrefix(lines[..])
  {
    commonPrefix := None;
    for i := 0 to lines.Length
      invariant commonPrefix == CommonPrefix(lines[..i])
    {
      assert lines[..i + 1][..i] == lines[..i];
      if |lines[i]| == 0 {
        continue;
      }
      var whitespace := LeadingSpace(lines[i]);
      if commonPrefix.None? || StartsWith(commonPrefix.value, whitespace) {
        commonPrefix := Some(whitespace);
      }
    }
    assert lines[..lines.Length] == lines[..];
  }

  /** The second loop of `shiftLinesLeft`, which shortens the lines in place. */
  method ShiftAndTerminate(lines: array<string>, shift: nat, lb: string) returns (text: string)
    modifies lines
    ensures lines[..] == Shifted(old(lines[..]), shift)
    ensures text == Terminated(lines[..], lb)
  {
    ghost var parts := lines[..];
    text := "";
    for i := 0 to lines.Length
      invariant forall k :: 0 <= k < i ==> lines[k] == ShiftLine(parts[k], shift)
      invariant forall k :: i <= k < lines.Length ==> lines[k] == parts[k]
      invariant text == Terminated(lines[..i], lb)
    {
      if |lines[i]| > 0 {
        lines[i] := SliceFrom(lines[i], shift);
      }
      assert lines[..i + 1][..i] == lines[..i];
      text := text + lines[i] + lb;
    }
    assert lines[..lines.Length] == lines[..];
  }

  /**
   * As written, mixed indentation makes `shiftLinesLeft` cut text: for "  a\n\tx"
   * the first line sets the prefix to two spaces, the tab of the second line is
   * not a prefix of it, so the second line loses two characters, its `x` included.
   */
  lemma ShiftLinesLeftDropsText(text: string)
    requires text == "  a\n\tx"
    ensures LeftShifted(text) == Ok("a\n\n")
  {
    MixedIndentLines(text);
    var lb := DetermineLinebreaks(text);
    var lines := Split(text, lb);
    MixedIndentCommonPrefix(lines);
    MixedIndentShifted(lines);
  }

  /** The second line loses its tab and its `x`; both lines are then terminated. */
  lemma MixedIndentShifted(lines: seq<string>)
    requires lines == ["  a", "\tx"]
    ensures Terminated(Shifted(lines, 2), "\n") == "a\n\n"
  {
    assert Shifted(lines, 2) == ["a", ""] by {
      assert lines[0][2..] == "a";
    }
    assert Terminated(["a", ""], "\n") == "a\n\n" by {
      assert ["a", ""][..1] == ["a"];
      assert ["a"][..0] == [];
    }
  }

  lemma MixedIndentCommonPrefix(lines: seq<string>)
    requires lines == ["  a", "\tx"]
    ensures CommonPrefix(lines) == Some("  ")
  {
    assert LeadingSpace(lines[0]) == "  " by {
      assert lines[0][1..] == " a" && lines[0][1..][1..] == "a";
      assert LeadingSpace("a") == "";
    }
    assert LeadingSpace(lines[1]) == "\t" by {
      assert lines[1][1..] == "x";
    }
    assert lines[..1] == [lines[0]];
    assert CommonPrefix(lines[..1]) == Some("  ") by {
      assert lines[..1][..0] == [];
    }
    assert !StartsWith("  ", "\t");
  }

  /** How `shiftLinesLeft` sees "  a\n\tx": Unix linebreaks and two lines. */
  lemma MixedIndentLines(text: string)
    requires text == "  a\n\tx"
    ensures DetermineLinebreaks(text) == "\n"
    ensures Split(text, "\n") == ["  a", "\tx"]
  {
    assert '\r' !in text;
    assert '\n' in text by {
      assert text[3] == '\n';
    }
    assert DetermineLinebreaks(text) == "\n" by {
      if Contains(text, "\r\n") {
        CrLfHasCr(text);
      }
    }
    assert IndexOf(text, "\n") == Some(3) by {
      NotOccursChar(text, '\n', 0);
      NotOccursChar(text, '\n', 1);
      NotOccursChar(text, '\n', 2);
      assert text[3..4] == "\n";
    }
    var rest := text[4..];
    assert rest == "\tx";
    assert IndexOf(rest, "\n") == None by {
      NotOccursChar(rest, '\n', 0);
      NotOccursChar(rest, '\n', 1);
    }
    assert text[..3] == "  a";
  }

  lemma NotOccursChar(s: string, c: char, i: nat)
    requires i < |s| && s[i] != c
    ensures !OccursAt(s, [c], i)
  {
    assert s[i..i + 1][0] == s[i];
  }

  /** As written, a text made of linebreaks only makes `shiftLinesLeft` throw a TypeError. */
  lemma ShiftLinesLeftThrowsOnBlankText(text: string)
    requires text == "\n"
    ensures LeftShifted(text) == Thrown("TypeError")
  {
    assert OccursAt(text, "\n", 0);
    assert '\r' !in text;
    assert DetermineLinebreaks(text) == "\n" by {
      if Contains(text, "\r\n") {
        CrLfHasCr(text);
      }
    }
    assert Split(text, "\n") == ["", ""] by {
      assert text[1..] == "";
      assert text[..0] == "";
    }
  }

  /**
   * The indentation the documentation of `shiftLinesLeft` asks for: the smallest
   * amount of leading whitespace over the non-empty lines, 0 when there are none.
   */
  function MinIndent(lines: seq<string>): nat
  {
    if |lines| == 0 then 0
    else
      var m := MinIndent(lines[..|lines| - 1]);
      var line := lines[|lines| - 1];
      if |line| == 0 then m
      else if HasText(lines[..|lines| - 1]) && m <= |LeadingSpace(line)| then m
      else |LeadingSpace(line)|
  }

  predicate HasText(lines: seq<string>)
  {
    exists k :: 0 <= k < |lines| && |lines[k]| > 0
  }

  /**
   * The smallest indentation is at most that of every non-empty line and, when
   * there is a non-empty line, equal to that of one of them.
   */
  lemma MinIndentSpec(lines: seq<string>)
    ensures forall k :: 0 <= k < |lines| && |lines[k]| > 0 ==> MinIndent(lines) <= |LeadingSpace(lines[k])|
    ensures HasText(lines) ==>
      exists k :: 0 <= k < |lines| && |lines[k]| > 0 && MinIndent(lines) == |LeadingSpace(lines[k])|
    ensures !HasText(lines) ==> MinIndent(lines) == 0
  {
    MinIndentLower(lines);
    MinIndentAttained(lines);
  }

  lemma {:induction false} MinIndentLower(lines: seq<string>)
    ensures forall k :: 0 <= k < |lines| && |lines[k]| > 0 ==> MinIndent(lines) <= |LeadingSpace(lines[k])|
    decreases |lines|
  {
    if |lines| > 0 {
      var init := lines[..|lines| - 1];
      MinIndentLower(init);
      forall k | 0 <= k < |init| && |lines[k]| > 0 ensures MinIndent(lines) <= |LeadingSpace(lines[k])| {
        assert init[k] == lines[k];
      }
    }
  }

  lemma {:induction false} MinIndentAttained(lines: seq<string>)
    ensures HasText(lines) ==>
      exists k :: 0 <= k < |lines| && |lines[k]| > 0 && MinIndent(lines) == |LeadingSpace(lines[k])|
    ensures !HasText(lines) ==> MinIndent(lines) == 0
    decreases |lines|
  {
    if |lines| > 0 {
      var init := lines[..|lines| - 1];
      var last := |lines| - 1;
      MinIndentAttained(init);
      if |lines[last]| > 0 {
        assert HasText(lines);
        if HasText(init) && MinIndent(init) <= |LeadingSpace(lines[last])| {
          var j :| 0 <= j < |init| && |init[j]| > 0 && MinIndent(init) == |LeadingSpace(init[j])|;
          assert lines[j] == init[j];
        }
      } else if HasText(init) {
        var j :| 0 <= j < |init| && |init[j]| > 0 && MinIndent(init) == |LeadingSpace(init[j])|;
        assert lines[j] == init[j];
      } else {
        assert !HasText(lines) by {
          forall j | 0 <= j < |init| ensures init[j] == lines[j] {}
        }
      }
    }
  }

  /** `shiftLinesLeft` as documented: every non-empty line loses the smallest indentation. */
  function LeftShiftedIntended(text: string): (r: string)
  {
    var lb := DetermineLinebreaks(text);
    if lb == "" then text
    else
      var lines := Split(text, lb);
      Terminated(Shifted(lines, MinIndent(lines)), lb)
  }

  /**
   * The intended `shiftLinesLeft` never throws and cuts the same amount from every
   * non-empty line, and what it cuts is whitespace only.
   */
  lemma LeftShiftedIntendedCutsOnlyIndent(text: string, k: nat)
    requires DetermineLinebreaks(text) != ""
    requires k < |Split(text, DetermineLinebreaks(text))|
    ensures var lb := DetermineLinebreaks(text);
      var lines := Split(text, lb);
      var n := MinIndent(lines);
      var out := Shifted(lines, n);
      && LeftShiftedIntended(text) == Join(out, lb) + lb
      && Join(lines, lb) == text
      && (|lines[k]| == 0 ==> out[k] == "")
      && (|lines[k]| > 0 ==> n <= |lines[k]| && lines[k] == lines[k][..n] + out[k])
      && (|lines[k]| > 0 ==> forall i :: 0 <= i < n ==> IsJsSpace(lines[k][i]))
  {
    var lb := DetermineLinebreaks(text);
    var lines := Split(text, lb);
    var n := MinIndent(lines);
    var out := Shifted(lines, n);
    JoinSplit(text, lb);
    TerminatedIsJoinPlusSep(out, lb);
    if |lines[k]| > 0 {
      MinIndentSpec(lines);
      CutIndent(lines[k], n);
    }
  }

  /** Cutting at most the leading whitespace of a non-empty line cuts whitespace only. */
  lemma CutIndent(line: string, n: nat)
    requires |line| > 0 && n <= |LeadingSpace(line)|
    ensures n <= |line| && line == line[..n] + ShiftLine(line, n)
    ensures forall i :: 0 <= i < n ==> IsJsSpace(line[i])
  {
    var ws := LeadingSpace(line);
    assert ws == line[..|ws|];
    forall i | 0 <= i < n ensures IsJsSpace(line[i]) {
      assert line[i] == ws[i];
    }
    if n == |line| {
      assert ShiftLine(line, n) == "";
    }
  }

  /**
   * The intended `shiftLinesLeft` removes all the indentation of at least one
   * non-empty line, so no larger shift would cut whitespace only.
   */
  lemma LeftShiftedIntendedIsMaximal(text: string)
    requires DetermineLinebreaks(text) != ""
    requires exists k :: 0 <= k < |Split(text, DetermineLinebreaks(text))| && |Split(text, DetermineLinebreaks(text))[k]| > 0
    ensures var lines := Split(text, DetermineLinebreaks(text));
      exists k :: 0 <= k < |lines| && |lines[k]| > 0 && LeadingSpace(Shifted(lines, MinIndent(lines))[k]) == ""
  {
    var lines := Split(text, DetermineLinebreaks(text));
    MinIndentSpec(lines);
    assert HasText(lines);
    var k :| 0 <= k < |lines| && |lines[k]| > 0 && MinIndent(lines) == |LeadingSpace(lines[k])|;
    LeadingSpaceRest(lines[k]);
  }

  /** What follows the leading whitespace of a line has no leading whitespace. */
  lemma LeadingSpaceRest(s: string)
    ensures LeadingSpace(SliceFrom(s, |LeadingSpace(s)|)) == ""
  {
  }

  // ---------------------------------------------------------------------------
  // removeLeadingLinebreaks / removeTrailingLinebreaks
  // ---------------------------------------------------------------------------

  /** `p` is made of zero or more copies of `lb` and nothing else. */
  predicate IsRepeat(p: string, lb: string)
    requires |lb| > 0
    decreases |p|
  {
    p == "" || (StartsWith(p, lb) && IsRepeat(p[|lb|..], lb))
  }

  lemma {:induction false} IsRepeatAppend(p: string, lb: string)
    requires |lb| > 0
    requires IsRepeat(p, lb)
    ensures IsRepeat(p + lb, lb)
    decreases |p|
  {
    if p == "" {
      assert (p + lb)[|lb|..] == "";
    } else {
      IsRepeatAppend(p[|lb|..], lb);
      assert (p + lb)[|lb|..] == p[|lb|..] + lb;
    }
  }

  lemma {:induction false} IsRepeatPrepend(p: string, lb: string)
    requires |lb| > 0
    requires IsRepeat(p, lb)
    ensures IsRepeat(lb + p, lb)
  {
    assert (lb + p)[|lb|..] == p;
  }

  /**
   * `removeLeadingLinebreaks`: drops the detected linebreak from the start for as
   * long as the text starts with it; what remains is a suffix of the text that
   * does not start with it, and what was dropped is whole linebreaks only.
   */
  method RemoveLeadingLinebreaks(text: string) returns (r: string)
    ensures EndsWith(text, r)
    ensures DetermineLinebreaks(text) == "" ==> r == text
    ensures var lb := DetermineLinebreaks(text);
      lb != "" ==> !StartsWith(r, lb) && IsRepeat(text[..|text| - |r|], lb)
  {
    var lb := DetermineLinebreaks(text);
    if lb == "" {
      return text;
    }
    r := text;
    while StartsWith(r, lb)
      invariant EndsWith(text, r)
      invariant IsRepeat(text[..|text| - |r|], lb)
      decreases |r|
    {
      ghost var dropped := text[..|text| - |r|];
      IsRepeatAppend(dropped, lb);
      r := r[|lb|..];
      assert text[..|text| - |r|] == dropped + lb;
    }
  }

  /**
   * `removeTrailingLinebreaks`: drops the detected linebreak from the end for as
   * long as the text ends with it; what remains is a prefix of the text that
   * does not end with it, and what was dropped is whole linebreaks only.
   */
  method RemoveTrailingLinebreaks(text: string) returns (r: string)
    ensures StartsWith(text, r)
    ensures DetermineLinebreaks(text) == "" ==> r == text
    ensures var lb := DetermineLinebreaks(text);
      lb != "" ==> !EndsWith(r, lb) && IsRepeat(text[|r|..], lb)
  {
    var lb := DetermineLinebreaks(text);
    if lb == "" {
      return text;
    }
    r := text;
    while EndsWith(r, lb)
      invariant StartsWith(text, r)
      invariant IsRepeat(text[|r|..], lb)
      decreases |r|
    {
      ghost var dropped := text[|r|..];
      IsRepeatPrepend(dropped, lb);
      r := r[..|r| - |lb|];
      assert text[|r|..] == lb + dropped;
    }
  }

  // ---------------------------------------------------------------------------
  // trimLines
  // ---------------------------------------------------------------------------

  predicate IsSpaceOrTab(c: char)
  {
    c == ' ' || c == '\t'
  }

  /** A line without its trailing spaces and tabs. */
  function TrimSpaceTab(line: string): (r: string)
    ensures StartsWith(line, r)
    ensures |r| > 0 ==> !IsSpaceOrTab(r[|r| - 1])
    ensures forall i :: |r| <= i < |line| ==> IsSpaceOrTab(line[i])
  {
    if |line| > 0 && IsSpaceOrTab(line[|line| - 1]) then TrimSpaceTab(line[..|line| - 1]) else line
  }

  function TrimmedLines(lines: seq<string>): (r: seq<string>)
    ensures |r| == |lines|
  {
    seq(|lines|, k requires 0 <= k < |lines| => TrimSpaceTab(lines[k]))
  }

  /**
   * `trimLines`: every line loses its trailing spaces and tabs and is followed by
   * the linebreak, the last one included.
   */
  method TrimLines(text: string) returns (r: string)
    ensures DetermineLinebreaks(text) == "" ==> r == text
    ensures var lb := DetermineLinebreaks(text);
      lb != "" ==> r == Terminated(TrimmedLines(Split(text, lb)), lb)
  {
    var lb := DetermineLinebreaks(text);
    if lb == "" {
      return text;
    }
    var lines := Split(text, lb);
    var trimmed := TrimmedLines(lines);
    r := "";
    for i := 0 to |lines|
      invariant r == Terminated(trimmed[..i], lb)
    {
      var line := lines[i];
      while |line| > 0 && IsSpaceOrTab(line[|line| - 1])
        invariant TrimSpaceTab(line) == trimmed[i]
        decreases |line|
      {
        line := line[..|line| - 1];
      }
      assert trimmed[..i + 1][..i] == trimmed[..i];
      r := r + line + lb;
    }
    assert trimmed[..|lines|] == trimmed;
  }

  /**
   * What `trimLines` returns, line by line: each output line is a prefix of the
   * input line with only spaces and tabs cut off, and none ends in one.
   */
  lemma TrimmedLinesShape(text: string)
    requires DetermineLinebreaks(text) != ""
    ensures var lb := DetermineLinebreaks(text);
      var lines := Split(text, lb);
      var out := TrimmedLines(lines);
      && Join(lines, lb) == text
      && Terminated(out, lb) == Join(out, lb) + lb
      && forall k :: 0 <= k < |lines| ==>
           StartsWith(lines[k], out[k]) && (|out[k]| > 0 ==> !IsSpaceOrTab(out[k][|out[k]| - 1]))
  {
    var lb := DetermineLinebreaks(text);
    JoinSplit(text, lb);
    TerminatedIsJoinPlusSep(TrimmedLines(Split(text, lb)), lb);
  }
}
