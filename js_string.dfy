/**
 * The handful of JavaScript string primitives that the modelled code relies on:
 * the `\s` character class (also what `trim()` removes), `startsWith`,
 * `endsWith`, `includes`, `indexOf`, `slice`, `split` with a string
 * separator, and `replace`/`replaceAll` with a string pattern, including the
 * `$`-patterns that ECMAScript's GetSubstitution gives the replacement
 * string. Strings are sequences of Unicode scalar values.
 */
module JsString {

  datatype Option<+T> = None | Some(value: T)

  /** The outcome of a call that may throw: the returned value or the thrown error's name. */
  datatype Result<+T> = Ok(value: T) | Thrown(error: string)

  /** Membership in `\s` (WhiteSpace and LineTerminator of ECMAScript). */
  predicate IsJsSpace(c: char)
  {
    || c == '\t' || c == '\n' || c == '\U{B}' || c == '\U{C}' || c == '\r' || c == ' '
    || c == '\U{A0}' || c == '\U{1680}' || ('\U{2000}' <= c <= '\U{200A}')
    || c == '\U{2028}' || c == '\U{2029}' || c == '\U{202F}' || c == '\U{205F}'
    || c == '\U{3000}' || c == '\U{FEFF}'
  }

  /** What `.` in a JavaScript regular expression (without the `s` flag) does not match. */
  predicate IsLineTerminator(c: char)
  {
    c == '\n' || c == '\r' || c == '\U{2028}' || c == '\U{2029}'
  }

  predicate StartsWith(s: string, prefix: string)
  {
    |prefix| <= |s| && s[..|prefix|] == prefix
  }

  predicate EndsWith(s: string, suffix: string)
  {
    |suffix| <= |s| && s[|s| - |suffix|..] == suffix
  }

  /** `t` occurs in `s` at index `i`. */
  predicate OccursAt(s: string, t: string, i: nat)
  {
    i + |t| <= |s| && s[i..i + |t|] == t
  }

  /** `s.indexOf(t, from)`, with "not found" (-1) as None. */
  function IndexOfFrom(s: string, t: string, from: nat): (r: Option<nat>)
    ensures r.Some? ==> from <= r.value && OccursAt(s, t, r.value)
    ensures r.Some? ==> forall j :: from <= j < r.value ==> !OccursAt(s, t, j)
    ensures r.None? ==> forall j :: from <= j ==> !OccursAt(s, t, j)
    decreases |s| - from
  {
    if from + |t| > |s| then None
    else if OccursAt(s, t, from) then Some(from)
    else IndexOfFrom(s, t, from + 1)
  }

  function IndexOf(s: string, t: string): Option<nat>
  {
    IndexOfFrom(s, t, 0)
  }

  /** `s.includes(t)` */
  predicate Contains(s: string, t: string)
  {
    IndexOf(s, t).Some?
  }

  lemma ContainsIff(s: string, t: string)
    ensures Contains(s, t) <==> exists i: nat :: OccursAt(s, t, i)
  {
  }

  /** For a one-character string, `includes` is plain membership. */
  lemma ContainsChar(s: string, c: char)
    ensures Contains(s, [c]) <==> c in s
  {
    if Contains(s, [c]) {
      var i := IndexOf(s, [c]).value;
      assert s[i..i + 1] == [c];
      assert s[i] == c;
    }
    if c in s {
      var i :| 0 <= i < |s| && s[i] == c;
      assert OccursAt(s, [c], i);
    }
  }

  /** An occurrence of `t` at `i` in a piece `s[a..b]` is one in `s` at `a + i`. */
  lemma OccursInSlice(s: string, t: string, a: nat, b: nat, i: nat)
    requires a <= b <= |s|
    ensures OccursAt(s[a..b], t, i) ==> OccursAt(s, t, a + i)
  {
    if OccursAt(s[a..b], t, i) {
      var u := s[a..b];
      assert u[i..i + |t|] == s[a + i..a + i + |t|] by {
        forall k | i <= k < i + |t| ensures u[k] == s[a + k] {
        }
      }
    }
  }

  /** `s.slice(start)` for a non-negative start. */
  function SliceFrom(s: string, start: nat): (r: string)
    ensures |s| <= start ==> r == ""
    ensures start < |s| ==> |r| == |s| - start && s == s[..start] + r
  {
    if start >= |s| then "" else s[start..]
  }

  /** The whitespace run at the start of `s` (the match of `^\s*`). */
  function LeadingSpace(s: string): (r: string)
    ensures StartsWith(s, r)
    ensures forall i :: 0 <= i < |r| ==> IsJsSpace(r[i])
    ensures |r| < |s| ==> !IsJsSpace(s[|r|])
  {
    if |s| > 0 && IsJsSpace(s[0]) then [s[0]] + LeadingSpace(s[1..]) else ""
  }

  /** `s.trimStart()` */
  function TrimStart(s: string): (r: string)
    ensures |r| <= |s|
  {
    if |s| > 0 && IsJsSpace(s[0]) then TrimStart(s[1..]) else s
  }

  /** `s.trimEnd()` */
  function TrimEnd(s: string): (r: string)
    ensures |r| <= |s|
  {
    if |s| > 0 && IsJsSpace(s[|s| - 1]) then TrimEnd(s[..|s| - 1]) else s
  }

  /** `trimStart()` drops the leading whitespace and nothing else. */
  lemma {:induction false} TrimStartSpec(s: string)
    ensures EndsWith(s, TrimStart(s))
    ensures |TrimStart(s)| > 0 ==> !IsJsSpace(TrimStart(s)[0])
    ensures forall i :: 0 <= i < |s| - |TrimStart(s)| ==> IsJsSpace(s[i])
    decreases |s|
  {
    if |s| > 0 && IsJsSpace(s[0]) {
      TrimStartSpec(s[1..]);
      forall i | 1 <= i < |s| - |TrimStart(s)|
        ensures IsJsSpace(s[i])
      {
        assert s[i] == s[1..][i - 1];
      }
    }
  }

  /** `trimEnd()` drops the trailing whitespace and nothing else. */
  lemma {:induction false} TrimEndSpec(s: string)
    ensures StartsWith(s, TrimEnd(s))
    ensures |TrimEnd(s)| > 0 ==> !IsJsSpace(TrimEnd(s)[|TrimEnd(s)| - 1])
    ensures forall i :: |TrimEnd(s)| <= i < |s| ==> IsJsSpace(s[i])
    decreases |s|
  {
    if |s| > 0 && IsJsSpace(s[|s| - 1]) {
      TrimEndSpec(s[..|s| - 1]);
      assert s[..|s| - 1][..|TrimEnd(s)|] == s[..|TrimEnd(s)|];
      forall i | |TrimEnd(s)| <= i < |s| - 1
        ensures IsJsSpace(s[i])
      {
        assert s[i] == s[..|s| - 1][i];
      }
    }
  }

  /** `s.trim()` */
  function Trim(s: string): (r: string)
  {
    TrimEnd(TrimStart(s))
  }

  /** `trim()` keeps a middle piece of `s` and drops only whitespace around it. */
  lemma TrimIsInfix(s: string)
    ensures var a := |s| - |TrimStart(s)|; a + |Trim(s)| <= |s| && s[a..a + |Trim(s)|] == Trim(s)
    ensures |Trim(s)| > 0 ==> !IsJsSpace(Trim(s)[0]) && !IsJsSpace(Trim(s)[|Trim(s)| - 1])
  {
    var t := TrimStart(s);
    TrimStartSpec(s);
    TrimEndSpec(t);
    var a := |s| - |t|;
    assert s[a..] == t;
    assert s[a..a + |Trim(s)|] == t[..|Trim(s)|];
    if |Trim(s)| > 0 {
      assert Trim(s)[0] == t[0];
    }
  }

  /** `s.split(sep)` for a non-empty string separator. */
  function Split(s: string, sep: string): (r: seq<string>)
    requires |sep| > 0
    ensures |r| >= 1
    ensures forall k :: 0 <= k < |r| ==> !Contains(r[k], sep)
    decreases |s|
  {
    match IndexOf(s, sep)
    case None => [s]
    case Some(i) =>
      assert !Contains(s[..i], sep) by {
        forall j: nat | j + |sep| <= i ensures !OccursAt(s[..i], sep, j) {
          OccursInSlice(s, sep, 0, i, j);
        }
      }
      [s[..i]] + Split(s[i + |sep|..], sep)
  }

  /** `parts.join(sep)` */
  function Join(parts: seq<string>, sep: string): string
  {
    if |parts| == 0 then ""
    else if |parts| == 1 then parts[0]
    else parts[0] + sep + Join(parts[1..], sep)
  }

  /** Splitting and joining again with the same separator gives back the text. */
  lemma {:induction false} JoinSplit(s: string, sep: string)
    requires |sep| > 0
    ensures Join(Split(s, sep), sep) == s
    decreases |s|
  {
    match IndexOf(s, sep)
    case None =>
    case Some(i) =>
      var rest := s[i + |sep|..];
      var tail := Split(rest, sep);
      JoinSplit(rest, sep);
      assert Split(s, sep) == [s[..i]] + tail;
      assert ([s[..i]] + tail)[1..] == tail;
      assert s[i..i + |sep|] == sep;
      assert s == s[..i] + sep + rest;
  }

  /** Every line followed by `lb`, including the last (the result of `text += line + lb`). */
  function Terminated(lines: seq<string>, lb: string): string
  {
    if |lines| == 0 then "" else Terminated(lines[..|lines| - 1], lb) + lines[|lines| - 1] + lb
  }

  /** Terminating every piece equals joining them and adding one final separator. */
  lemma {:induction false} TerminatedIsJoinPlusSep(lines: seq<string>, lb: string)
    requires |lines| > 0
    ensures Terminated(lines, lb) == Join(lines, lb) + lb
    decreases |lines|
  {
    if |lines| > 1 {
      var init := lines[..|lines| - 1];
      TerminatedIsJoinPlusSep(init, lb);
      JoinSnoc(init, lines[|lines| - 1], lb);
      assert lines == init + [lines[|lines| - 1]];
    }
  }

  lemma {:induction false} JoinSnoc(init: seq<string>, last: string, lb: string)
    requires |init| > 0
    ensures Join(init + [last], lb) == Join(init, lb) + lb + last
    decreases |init|
  {
    if |init| > 1 {
      JoinSnoc(init[1..], last, lb);
      assert (init + [last])[1..] == init[1..] + [last];
    }
  }

  /**
   * The text that a replacement string stands for (GetSubstitution, section 22.1.3.19.1
   * of ECMAScript 2022, for a string pattern, which has no capture groups): `$$` is one
   * `$`, `$&` the matched text, `` $` `` the text before the match, `$'` the text after
   * it; every other character, `$1` and `$<` included, stands for itself.
   */
  function Substitution(rep: string, matched: string, before: string, after: string): (r: string)
    ensures '$' !in rep ==> r == rep
    decreases |rep|
  {
    if |rep| >= 2 && rep[0] == '$' && rep[1] == '$' then "$" + Substitution(rep[2..], matched, before, after)
    else if |rep| >= 2 && rep[0] == '$' && rep[1] == '&' then matched + Substitution(rep[2..], matched, before, after)
    else if |rep| >= 2 && rep[0] == '$' && rep[1] == '`' then before + Substitution(rep[2..], matched, before, after)
    else if |rep| >= 2 && rep[0] == '$' && rep[1] == '\'' then after + Substitution(rep[2..], matched, before, after)
    else if |rep| == 0 then ""
    else [rep[0]] + Substitution(rep[1..], matched, before, after)
  }

  /** `s.replace(pat, rep)` with a string pattern: only the first occurrence is replaced. */
  function ReplaceFirst(s: string, pat: string, rep: string): string
  {
    ReplaceFirstFrom(s, pat, rep, 0)
  }

  /** The search of `replace`, scanning for the pattern from index `from` on. */
  function ReplaceFirstFrom(s: string, pat: string, rep: string, from: nat): string
    decreases |s| - from
  {
    if from + |pat| > |s| then s
    else if OccursAt(s, pat, from) then ReplacedAt(s, pat, rep, from)
    else ReplaceFirstFrom(s, pat, rep, from + 1)
  }

  /** The text with the occurrence of `pat` at `i` replaced. */
  function ReplacedAt(s: string, pat: string, rep: string, i: nat): string
    requires i + |pat| <= |s|
  {
    s[..i] + Substitution(rep, pat, s[..i], s[i + |pat|..]) + s[i + |pat|..]
  }

  /** The scan replaces at the occurrence that `indexOf` finds, or nowhere. */
  lemma {:induction false} ReplaceFirstFromIndex(s: string, pat: string, rep: string, from: nat)
    ensures IndexOfFrom(s, pat, from).None? ==> ReplaceFirstFrom(s, pat, rep, from) == s
    ensures IndexOfFrom(s, pat, from).Some? ==>
      ReplaceFirstFrom(s, pat, rep, from) == ReplacedAt(s, pat, rep, IndexOfFrom(s, pat, from).value)
    decreases |s| - from
  {
    if from + |pat| > |s| {
      assert IndexOfFrom(s, pat, from) == None;
    } else if OccursAt(s, pat, from) {
      assert IndexOfFrom(s, pat, from) == Some(from);
    } else {
      assert IndexOfFrom(s, pat, from) == IndexOfFrom(s, pat, from + 1);
      ReplaceFirstFromIndex(s, pat, rep, from + 1);
    }
  }

  /**
   * Without an occurrence `replace` returns the text unchanged; with one and no `$`
   * in the replacement, exactly the first occurrence gives way to the replacement.
   */
  lemma ReplaceFirstSpec(s: string, pat: string, rep: string)
    ensures !Contains(s, pat) ==> ReplaceFirst(s, pat, rep) == s
    ensures Contains(s, pat) && '$' !in rep ==>
      var i := IndexOf(s, pat).value; ReplaceFirst(s, pat, rep) == s[..i] + rep + s[i + |pat|..]
  {
    ReplaceFirstFromIndex(s, pat, rep, 0);
  }

  /** `s.replaceAll(pat, rep)`, replacing the occurrences at or after `from`. */
  function ReplaceAllFrom(s: string, pat: string, rep: string, from: nat): string
    requires |pat| > 0
    requires from <= |s|
    decreases |s| - from
  {
    match IndexOfFrom(s, pat, from)
    case None => s[from..]
    case Some(i) =>
      s[from..i] + Substitution(rep, pat, s[..i], s[i + |pat|..]) + ReplaceAllFrom(s, pat, rep, i + |pat|)
  }

  /** `s.replaceAll(pat, rep)` with a non-empty string pattern. */
  function ReplaceAll(s: string, pat: string, rep: string): string
    requires |pat| > 0
  {
    ReplaceAllFrom(s, pat, rep, 0)
  }

  /** A text in which the pattern does not occur comes back from `replaceAll` unchanged. */
  lemma ReplaceAllAbsent(s: string, pat: string, rep: string)
    requires |pat| > 0
    requires !Contains(s, pat)
    ensures ReplaceAll(s, pat, rep) == s
  {
  }

  /** Without `$` in it, the replacement is inserted literally at every occurrence. */
  lemma {:induction false} ReplaceAllLiteral(s: string, pat: string, rep: string, from: nat)
    requires |pat| > 0 && from <= |s|
    requires '$' !in rep
    requires IndexOfFrom(s, pat, from).Some?
    ensures var i := IndexOfFrom(s, pat, from).value;
      ReplaceAllFrom(s, pat, rep, from) == s[from..i] + rep + ReplaceAllFrom(s, pat, rep, i + |pat|)
  {
  }
}
