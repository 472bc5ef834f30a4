/**
 * The static-site builder of scripts/build-static.mjs. Files and directories
 * whose path has a component starting with `_` are skipped; directories are
 * created, files with one of the configured extensions are run line by line
 * through a small macro processor, the others are copied. The macro
 * processor knows three states: copying text, collecting the lines of a
 * `{define NAME}` … `{enddefine}` block, and collecting the `name = value`
 * parameters of an `{insert NAME}` … `{endinsert}` block, whose end emits
 * the macro's lines with every `{name}` replaced by its value. `encodeURI`
 * is a parameter; reading and writing files is left to the caller.
 */
module BuildStatic {
  import opened JsString

  // ---------------------------------------------------------------------------
  // Which files are built, and how
  // ---------------------------------------------------------------------------

  /** A path is skipped when it starts with `_` or contains `/_`. */
  predicate Skipped(file: string)
  {
    StartsWith(file, "_") || Contains(file, "/_")
  }

  /** The extensions of the configuration value: the `;`-separated pieces, trimmed. */
  function ReplaceExtensions(config: string): seq<string>
  {
    var parts := Split(config, ";");
    seq(|parts|, k requires 0 <= k < |parts| => Trim(parts[k]))
  }

  /**
   * One extension per `;`-separated piece of the configuration: none holds a
   * `;`, and none starts or ends with whitespace.
   */
  lemma ReplaceExtensionsSpec(config: string)
    ensures |ReplaceExtensions(config)| == |Split(config, ";")|
    ensures forall k :: 0 <= k < |ReplaceExtensions(config)| ==> ';' !in ReplaceExtensions(config)[k]
    ensures forall k :: 0 <= k < |ReplaceExtensions(config)| && |ReplaceExtensions(config)[k]| > 0 ==>
      var e := ReplaceExtensions(config)[k];
      !IsJsSpace(e[0]) && !IsJsSpace(e[|e| - 1])
  {
    var parts := Split(config, ";");
    forall k | 0 <= k < |parts|
      ensures ';' !in Trim(parts[k])
      ensures |Trim(parts[k])| > 0 ==> !IsJsSpace(Trim(parts[k])[0]) && !IsJsSpace(Trim(parts[k])[|Trim(parts[k])| - 1])
    {
      ContainsChar(parts[k], ';');
      TrimKeepsOut(parts[k], ';');
      TrimIsInfix(parts[k]);
    }
  }

  /** A file whose name ends with one of the extensions goes through the macro processor. */
  predicate Processed(file: string, extensions: seq<string>)
  {
    exists k :: 0 <= k < |extensions| && EndsWith(file, extensions[k])
  }

  /** An entry of the recursive listing of the source directory. */
  datatype Entry = Entry(file: string, isDirectory: bool)

  /** What the builder does with an entry. */
  datatype Action = MakeDirectory(file: string) | CopyFile(file: string) | ExpandMacros(file: string)

  /** The action for one entry, None when it is skipped. */
  function ActionFor(entry: Entry, extensions: seq<string>): (r: Option<Action>)
    ensures r.None? <==> Skipped(entry.file)
    ensures r.Some? ==> r.value.file == entry.file
    ensures r.Some? ==> (r.value.MakeDirectory? <==> entry.isDirectory)
    ensures r.Some? && !entry.isDirectory ==> (r.value.ExpandMacros? <==> Processed(entry.file, extensions))
  {
    if Skipped(entry.file) then None
    else if entry.isDirectory then Some(MakeDirectory(entry.file))
    else if !Processed(entry.file, extensions) then Some(CopyFile(entry.file))
    else Some(ExpandMacros(entry.file))
  }

  /** The actions for a listing, in listing order. */
  function Planned(entries: seq<Entry>, extensions: seq<string>): seq<Action>
  {
    if |entries| == 0 then []
    else
      var rest := Planned(entries[..|entries| - 1], extensions);
      match ActionFor(entries[|entries| - 1], extensions)
      case None => rest
      case Some(action) => rest + [action]
  }

  /** Every action is for an entry that is not skipped, and every such entry has its action. */
  lemma {:induction false} PlannedMembers(entries: seq<Entry>, extensions: seq<string>, action: Action)
    ensures action in Planned(entries, extensions) <==>
      exists k :: 0 <= k < |entries| && ActionFor(entries[k], extensions) == Some(action)
    decreases |entries|
  {
    if |entries| > 0 {
      var init := entries[..|entries| - 1];
      PlannedMembers(init, extensions, action);
      if exists k :: 0 <= k < |init| && ActionFor(init[k], extensions) == Some(action) {
        var k :| 0 <= k < |init| && ActionFor(init[k], extensions) == Some(action);
        assert entries[k] == init[k];
      }
      if exists k :: 0 <= k < |entries| && ActionFor(entries[k], extensions) == Some(action) {
        var k :| 0 <= k < |entries| && ActionFor(entries[k], extensions) == Some(action);
        if k < |init| {
          assert init[k] == entries[k];
        }
      }
    }
  }

  /** The loop over `shell.ls("-R", sourceDir)`: the action taken for each entry, in order. */
  method Build(entries: seq<Entry>, extensions: seq<string>) returns (actions: seq<Action>)
    ensures actions == Planned(entries, extensions)
  {
    actions := [];
    for i := 0 to |entries|
      invariant actions == Planned(entries[..i], extensions)
    {
      var file := entries[i].file;
      assert entries[..i + 1][..i] == entries[..i];
      if StartsWith(file, "_") || Contains(file, "/_") {
        continue;
      }
      if entries[i].isDirectory {
        actions := actions + [MakeDirectory(file)];
      } else if !(exists k :: 0 <= k < |extensions| && EndsWith(file, extensions[k])) {
        actions := actions + [CopyFile(file)];
      } else {
        actions := actions + [ExpandMacros(file)];
      }
    }
    assert entries[..|entries|] == entries;
  }

  /** One of the path components starts with `_`. */
  predicate SomeComponentHidden(parts: seq<string>)
  {
    exists k :: 0 <= k < |parts| && StartsWith(parts[k], "_")
  }

  lemma ComponentsCons(first: string, rest: seq<string>)
    ensures SomeComponentHidden([first] + rest) <==> StartsWith(first, "_") || SomeComponentHidden(rest)
  {
    var parts := [first] + rest;
    assert parts[0] == first;
    if SomeComponentHidden(rest) {
      var k :| 0 <= k < |rest| && StartsWith(rest[k], "_");
      assert parts[k + 1] == rest[k];
    }
    if SomeComponentHidden(parts) {
      var k :| 0 <= k < |parts| && StartsWith(parts[k], "_");
      if k > 0 {
        assert rest[k - 1] == parts[k];
      }
    }
  }

  /**
   * Skipping by path component: a path is skipped exactly when one of its
   * `/`-separated components starts with `_`.
   */
  lemma {:induction false} SkippedIffComponent(file: string)
    ensures Skipped(file) <==> SomeComponentHidden(Split(file, "/"))
    decreases |file|
  {
    match IndexOf(file, "/")
    case None =>
      assert Split(file, "/") == [file] + [];
      ComponentsCons(file, []);
      SlashUnderscoreHasSlash(file);
    case Some(i) =>
      var rest := file[i + 1..];
      SkippedIffComponent(rest);
      assert Split(file, "/") == [file[..i]] + Split(rest, "/");
      ComponentsCons(file[..i], Split(rest, "/"));
      SlashUnderscoreAt(file, i);
      UnderscoreBeforeSlash(file, i);
  }

  lemma SlashUnderscoreHasSlash(file: string)
    ensures Contains(file, "/_") ==> Contains(file, "/")
  {
    if Contains(file, "/_") {
      var j := IndexOf(file, "/_").value;
      assert file[j..j + 2] == "/_";
      assert file[j] == file[j..j + 2][0] == '/';
      assert file[j..j + 1] == [file[j]];
      OccursContains(file, "/", j);
    }
  }

  /** With the first `/` at `i`, the path starts with `_` exactly when its first component does. */
  lemma UnderscoreBeforeSlash(file: string, i: nat)
    requires IndexOf(file, "/") == Some(i)
    ensures StartsWith(file, "_") <==> StartsWith(file[..i], "_")
  {
    assert file[i..i + 1] == "/";
    if i == 0 {
      assert file[0] == '/';
    } else {
      assert file[..i][..1] == file[..1];
    }
  }

  /**
   * With the first `/` of `file` at `i`, `/_` occurs in `file` exactly when the
   * text after that slash starts with `_` or contains `/_` itself.
   */
  lemma SlashUnderscoreAt(file: string, i: nat)
    requires IndexOf(file, "/") == Some(i)
    ensures Contains(file, "/_") <==> StartsWith(file[i + 1..], "_") || Contains(file[i + 1..], "/_")
  {
    if Contains(file, "/_") {
      SlashUnderscoreAfterFirst(file, i, IndexOf(file, "/_").value);
    }
    if StartsWith(file[i + 1..], "_") {
      assert file[i..i + 2] == file[i..i + 1] + file[i + 1..][..1];
      OccursContains(file, "/_", i);
    }
    if Contains(file[i + 1..], "/_") {
      var j := IndexOf(file[i + 1..], "/_").value;
      assert file[i + 1 + j..i + 1 + j + 2] == file[i + 1..][j..j + 2];
      OccursContains(file, "/_", i + 1 + j);
    }
  }

  /** An occurrence of `/_` in `file` is at or after its first `/`. */
  lemma SlashUnderscoreAfterFirst(file: string, i: nat, j: nat)
    requires IndexOf(file, "/") == Some(i)
    requires OccursAt(file, "/_", j)
    ensures StartsWith(file[i + 1..], "_") || Contains(file[i + 1..], "/_")
  {
    assert file[j..j + 1] == file[j..j + 2][..1];
    assert OccursAt(file, "/", j);
    if j == i {
      assert file[i + 1..][..1] == file[i + 1..i + 2];
    } else {
      assert file[i + 1..][j - i - 1..j - i + 1] == file[j..j + 2];
      OccursContains(file[i + 1..], "/_", j - i - 1);
    }
  }

  lemma OccursContains(s: string, t: string, i: nat)
    requires OccursAt(s, t, i)
    ensures Contains(s, t)
  {
  }

  // ---------------------------------------------------------------------------
  // The directive patterns /\{define (.*)\}/ and /\{insert (.*)\}/
  // ---------------------------------------------------------------------------

  /** The end of the run of characters that `.` matches, starting at `from`. */
  function RunEnd(s: string, from: nat): (r: nat)
    requires from <= |s|
    ensures from <= r <= |s|
    ensures forall k :: from <= k < r ==> !IsLineTerminator(s[k])
    ensures r < |s| ==> IsLineTerminator(s[r])
    decreases |s| - from
  {
    if from == |s| || IsLineTerminator(s[from]) then from else RunEnd(s, from + 1)
  }

  /** The last `}` in `s[from..to]`, where the greedy `(.*)\}` stops. */
  function LastClose(s: string, from: nat, upto: nat): (r: Option<nat>)
    requires from <= upto <= |s|
    ensures r.Some? ==> from <= r.value < upto && s[r.value] == '}'
    ensures r.Some? ==> forall k :: r.value < k < upto ==> s[k] != '}'
    ensures r.None? ==> forall k :: from <= k < upto ==> s[k] != '}'
    decreases upto
  {
    if upto == from then None
    else if s[upto - 1] == '}' then Some(upto - 1)
    else LastClose(s, from, upto - 1)
  }

  /** The capture of a match starting at `i`, if the pattern matches there. */
  function MatchAt(s: string, opening: string, i: nat): Option<string>
    requires i <= |s|
  {
    if !OccursAt(s, opening, i) then None
    else
      var from := i + |opening|;
      match LastClose(s, from, RunEnd(s, from))
      case None => None
      case Some(j) => Some(s[from..j])
  }

  /** The leftmost match at or after `i`. */
  function MatchFrom(s: string, opening: string, i: nat): Option<string>
    requires i <= |s|
    decreases |s| - i
  {
    match MatchAt(s, opening, i)
    case Some(c) => Some(c)
    case None => if i == |s| then None else MatchFrom(s, opening, i + 1)
  }

  /**
   * `s.match(/\{<keyword> (.*)\}/)`, given `opening` = `{<keyword> `: the first
   * capture group, or None when the pattern does not match.
   */
  function MatchDirective(s: string, opening: string): Option<string>
  {
    MatchFrom(s, opening, 0)
  }

  /**
   * What a match is: the opening, the capture and a `}` occur in the text, and
   * the capture holds no line terminator.
   */
  lemma {:induction false} MatchFromSpec(s: string, opening: string, i: nat)
    requires i <= |s|
    ensures var r := MatchFrom(s, opening, i);
      r.Some? ==> exists k: nat :: i <= k <= |s| && OccursAt(s, opening + r.value + "}", k)
    ensures var r := MatchFrom(s, opening, i);
      r.Some? ==> forall k :: 0 <= k < |r.value| ==> !IsLineTerminator(r.value[k])
    decreases |s| - i
  {
    match MatchAt(s, opening, i)
    case Some(c) =>
      var from := i + |opening|;
      var j := LastClose(s, from, RunEnd(s, from)).value;
      assert s[i..j + 1] == s[i..from] + s[from..j] + s[j..j + 1];
      assert OccursAt(s, opening + c + "}", i);
    case None =>
      if i < |s| {
        MatchFromSpec(s, opening, i + 1);
      }
  }

  lemma MatchDirectiveSpec(s: string, opening: string)
    ensures var r := MatchDirective(s, opening);
      r.Some? ==> Contains(s, opening + r.value + "}")
    ensures var r := MatchDirective(s, opening);
      r.Some? ==> forall k :: 0 <= k < |r.value| ==> !IsLineTerminator(r.value[k])
  {
    MatchFromSpec(s, opening, 0);
    if MatchDirective(s, opening).Some? {
      ContainsIff(s, opening + MatchDirective(s, opening).value + "}");
    }
  }

  const DefineOpening: string := "{define "
  const InsertOpening: string := "{insert "

  /** A line that is just a directive yields the name written in it. */
  lemma WholeLineDirective(s: string, opening: string, name: string)
    requires s == opening + name + "}"
    requires forall k :: 0 <= k < |name| ==> name[k] != '}' && !IsLineTerminator(name[k])
    ensures MatchDirective(s, opening) == Some(name)
  {
    var from := |opening|;
    assert OccursAt(s, opening, 0) by {
      assert s[..|opening|] == opening;
    }
    assert forall k :: from <= k < |s| - 1 ==> s[k] == name[k - from];
    RunEndAtLeast(s, from, |s|);
    assert RunEnd(s, from) == |s|;
    assert LastClose(s, from, |s|) == Some(|s| - 1);
    assert s[from..|s| - 1] == name;
  }

  lemma {:induction false} RunEndAtLeast(s: string, from: nat, upto: nat)
    requires from <= upto <= |s|
    requires forall k :: from <= k < upto ==> !IsLineTerminator(s[k])
    ensures upto <= RunEnd(s, from)
    decreases upto - from
  {
    if from < upto {
      RunEndAtLeast(s, from + 1, upto);
    }
  }

  /** Every character of the opening occurs in a text that a directive matches. */
  lemma {:induction false} MatchFromOpening(s: string, opening: string, i: nat)
    requires i <= |s|
    ensures MatchFrom(s, opening, i).Some? ==> forall m :: 0 <= m < |opening| ==> opening[m] in s
    decreases |s| - i
  {
    match MatchAt(s, opening, i)
    case Some(c) =>
      forall m | 0 <= m < |opening|
        ensures opening[m] in s
      {
        assert s[i + m] == s[i..i + |opening|][m];
      }
    case None =>
      if i < |s| {
        MatchFromOpening(s, opening, i + 1);
      }
  }

  /** A text without `{` matches no directive. */
  lemma NoBraceNoDirective(s: string, opening: string)
    requires |opening| > 0 && opening[0] == '{'
    requires '{' !in s
    ensures MatchDirective(s, opening) == None
  {
    MatchFromOpening(s, opening, 0);
  }

  /**
   * The patterns are not anchored: wherever the opening, a name without line
   * terminators and `}` occur together in the line, the pattern matches (the
   * capture may reach to a later `}` of the same line, as `.*` is greedy).
   */
  lemma MatchDirectiveComplete(s: string, opening: string, name: string, k: nat)
    requires OccursAt(s, opening + name + "}", k)
    requires forall m :: 0 <= m < |name| ==> !IsLineTerminator(name[m])
    ensures MatchDirective(s, opening).Some?
  {
    MatchFromComplete(s, opening, name, k, 0);
  }

  lemma {:induction false} MatchFromComplete(s: string, opening: string, name: string, k: nat, i: nat)
    requires i <= k
    requires OccursAt(s, opening + name + "}", k)
    requires forall m :: 0 <= m < |name| ==> !IsLineTerminator(name[m])
    ensures MatchFrom(s, opening, i).Some?
    decreases k - i
  {
    if i < k {
      if MatchAt(s, opening, i).None? {
        MatchFromComplete(s, opening, name, k, i + 1);
      }
    } else {
      MatchAtOccurrence(s, opening, name, k);
    }
  }

  /** At an occurrence of the whole directive, the pattern matches. */
  lemma MatchAtOccurrence(s: string, opening: string, name: string, k: nat)
    requires OccursAt(s, opening + name + "}", k)
    requires forall m :: 0 <= m < |name| ==> !IsLineTerminator(name[m])
    ensures MatchAt(s, opening, k).Some?
  {
    var w := opening + name + "}";
    var from := k + |opening|;
    var close := from + |name|;
    assert s[k..k + |opening|] == w[..|opening|];
    assert OccursAt(s, opening, k);
    forall j | from <= j < close + 1
      ensures !IsLineTerminator(s[j])
    {
      assert s[j] == w[j - k];
    }
    assert s[close] == w[|opening| + |name|] == '}';
    RunEndAtLeast(s, from, close + 1);
  }

  /**
   * Outside any block, a line whose trimmed text holds a `{define NAME}` opens
   * a definition.
   */
  lemma DefineDirectiveOpens(st: State, line: string, name: string, k: nat, encode: string -> string)
    requires st.mode == Copying
    requires OccursAt(Trim(line), DefineOpening + name + "}", k)
    requires forall m :: 0 <= m < |name| ==> !IsLineTerminator(name[m])
    ensures MatchDirective(Trim(line), DefineOpening).Some?
    ensures Step(st, line, encode) == st.(mode := Defining(MatchDirective(Trim(line), DefineOpening).value))
  {
    MatchDirectiveComplete(Trim(line), DefineOpening, name, k);
    StepCopying(st, line, encode);
  }

  /**
   * Outside any block, a line that is no definition and whose trimmed text
   * holds an `{insert NAME}` opens an insert block; nothing is written.
   */
  lemma InsertDirectiveOpens(st: State, line: string, name: string, k: nat, encode: string -> string)
    requires st.mode == Copying
    requires MatchDirective(Trim(line), DefineOpening).None?
    requires OccursAt(Trim(line), InsertOpening + name + "}", k)
    requires forall m :: 0 <= m < |name| ==> !IsLineTerminator(name[m])
    ensures MatchDirective(Trim(line), InsertOpening).Some?
    ensures Step(st, line, encode) == st.(mode := Inserting(MatchDirective(Trim(line), InsertOpening).value))
  {
    MatchDirectiveComplete(Trim(line), InsertOpening, name, k);
    StepCopying(st, line, encode);
  }

  // ---------------------------------------------------------------------------
  // Parameters and macro expansion
  // ---------------------------------------------------------------------------

  /** A property of `macroParams`, in the order its name was first set. */
  datatype Param = Param(name: string, value: string)

  /** `macroParams[name]`: the value of the first property with that name. */
  function Lookup(params: seq<Param>, name: string): (r: Option<string>)
    ensures r.None? <==> forall k :: 0 <= k < |params| ==> params[k].name != name
  {
    if |params| == 0 then None
    else if params[0].name == name then Some(params[0].value)
    else Lookup(params[1..], name)
  }

  /**
   * `macroParams[name] = value`: a property already present keeps its place
   * and takes the new value; a new one is added at the end.
   */
  function SetParam(params: seq<Param>, name: string, value: string): (r: seq<Param>)
    ensures Lookup(params, name).Some? ==> |r| == |params|
    ensures Lookup(params, name).Some? ==>
      forall k :: 0 <= k < |r| ==> r[k].name == params[k].name && (params[k].name != name ==> r[k] == params[k])
    ensures Lookup(params, name).None? ==> r == params + [Param(name, value)]
  {
    if |params| == 0 then [Param(name, value)]
    else if params[0].name == name then [Param(name, value)] + params[1..]
    else [params[0]] + SetParam(params[1..], name, value)
  }

  /** Setting a parameter changes what that name reads and nothing else. */
  lemma {:induction false} SetParamLookup(params: seq<Param>, name: string, value: string, other: string)
    ensures Lookup(SetParam(params, name, value), other) == if other == name then Some(value) else Lookup(params, other)
    decreases |params|
  {
    if |params| > 0 && params[0].name != name {
      SetParamLookup(params[1..], name, value, other);
      assert SetParam(params, name, value)[1..] == SetParam(params[1..], name, value);
    }
  }

  /** The value a parameter stands for: URI-encoded when its name starts with `url-` or ends with `-url`. */
  function ParamValue(param: Param, encode: string -> string): string
  {
    if StartsWith(param.name, "url-") || EndsWith(param.name, "-url") then encode(param.value) else param.value
  }

  /** The placeholder `{name}`. */
  function Placeholder(name: string): (r: string)
    ensures |r| == |name| + 2 && r[0] == '{'
  {
    "{" + name + "}"
  }

  /** Every line with `replaceAll(placeholder, value)` applied. */
  function Substitute(lines: seq<string>, name: string, value: string): (r: seq<string>)
    ensures |r| == |lines|
  {
    seq(|lines|, k requires 0 <= k < |lines| => ReplaceAll(lines[k], Placeholder(name), value))
  }

  /** The macro's lines after the parameters have been substituted, in parameter order. */
  function Expanded(lines: seq<string>, params: seq<Param>, encode: string -> string): (r: seq<string>)
    ensures |r| == |lines|
  {
    if |params| == 0 then lines
    else
      var last := params[|params| - 1];
      Substitute(Expanded(lines, params[..|params| - 1], encode), last.name, ParamValue(last, encode))
  }

  /** Lines without `{` hold no placeholder and come out of the expansion unchanged. */
  lemma {:induction false} ExpandedWithoutBraces(lines: seq<string>, params: seq<Param>, encode: string -> string)
    requires forall k :: 0 <= k < |lines| ==> '{' !in lines[k]
    ensures Expanded(lines, params, encode) == lines
    decreases |params|
  {
    if |params| > 0 {
      var last := params[|params| - 1];
      ExpandedWithoutBraces(lines, params[..|params| - 1], encode);
      forall k | 0 <= k < |lines|
        ensures ReplaceAll(lines[k], Placeholder(last.name), ParamValue(last, encode)) == lines[k]
      {
        ReplaceAllAbsent(lines[k], Placeholder(last.name), ParamValue(last, encode));
      }
    }
  }

  /** The text an `{endinsert}` of a known macro appends: each expanded line and a newline. */
  method InsertMacro(macroLines: seq<string>, params: seq<Param>, encode: string -> string) returns (text: string)
    ensures text == Terminated(Expanded(macroLines, params, encode), "\n")
  {
    var insertLines := new string[|macroLines|](k requires 0 <= k < |macroLines| => macroLines[k]);
    for p := 0 to |params|
      invariant insertLines[..] == Expanded(macroLines, params[..p], encode)
    {
      assert params[..p + 1][..p] == params[..p];
      var parameterName := params[p].name;
      var parameterValue := params[p].value;
      if StartsWith(parameterName, "url-") || EndsWith(parameterName, "-url") {
        parameterValue := encode(parameterValue);
      }
      SubstituteInPlace(insertLines, parameterName, parameterValue);
    }
    assert params[..|params|] == params;
    text := "";
    for i := 0 to insertLines.Length
      invariant text == Terminated(insertLines[..i], "\n")
    {
      assert insertLines[..i + 1][..i] == insertLines[..i];
      text := text + insertLines[i] + "\n";
    }
    assert insertLines[..insertLines.Length] == insertLines[..];
  }

  /** The inner `for` loop: `replaceAll` on every line of the array, in place. */
  method SubstituteInPlace(insertLines: array<string>, name: string, value: string)
    modifies insertLines
    ensures insertLines[..] == Substitute(old(insertLines[..]), name, value)
  {
    for i := 0 to insertLines.Length
      invariant forall k :: 0 <= k < i ==> insertLines[k] == ReplaceAll(old(insertLines[k]), Placeholder(name), value)
      invariant forall k :: i <= k < insertLines.Length ==> insertLines[k] == old(insertLines[k])
    {
      insertLines[i] := ReplaceAll(insertLines[i], "{" + name + "}", value);
    }
  }

  // ---------------------------------------------------------------------------
  // The line-by-line state machine
  // ---------------------------------------------------------------------------

  /** Which block the processor is in (`defineMacro`, `insertMacro`). */
  datatype Mode = Copying | Defining(name: string) | Inserting(name: string)

  /** The processor's variables, with the warnings printed so far. */
  datatype State = State(mode: Mode, macros: map<string, seq<string>>, params: seq<Param>, output: string, warnings: seq<string>)

  const Initial: State := State(Copying, map[], [], "", [])

  function UnknownMacroWarning(name: string): string
  {
    "WARNING: Unknown macro '" + name + "' ignored"
  }

  /** A line inside `{define name}`: `{enddefine}` closes the block, any other line is kept as it is. */
  function DefiningStep(st: State, name: string, line: string): State
  {
    if Trim(line) == "{enddefine}" then st.(mode := Copying)
    else
      var known := if name in st.macros then st.macros[name] else [];
      st.(macros := st.macros[name := known + [line]])
  }

  /**
   * A line inside `{insert name}`: `{endinsert}` writes the expanded macro, or
   * warns (and stays in the block) when the macro is unknown; any other line
   * may set a parameter.
   */
  function InsertingStep(st: State, name: string, line: string, encode: string -> string): State
  {
    var lineTrimmed := Trim(line);
    if lineTrimmed == "{endinsert}" then
      if name !in st.macros then st.(warnings := st.warnings + [UnknownMacroWarning(name)])
      else st.(output := st.output + Terminated(Expanded(st.macros[name], st.params, encode), "\n"), mode := Copying, params := [])
    else ParamStep(st, lineTrimmed)
  }

  /** `name = value`: both sides trimmed; a line without `=` or with an empty name is ignored. */
  function ParamStep(st: State, lineTrimmed: string): State
  {
    match IndexOf(lineTrimmed, "=")
    case None => st
    case Some(k) =>
      var name := Trim(lineTrimmed[..k]);
      var value := Trim(lineTrimmed[k + 1..]);
      if name == "" then st else st.(params := SetParam(st.params, name, value))
  }

  /** A line outside any block: a `{define}` or `{insert}` directive opens a block, any other line is copied. */
  function CopyingStep(st: State, line: string): State
  {
    var lineTrimmed := Trim(line);
    match MatchDirective(lineTrimmed, DefineOpening)
    case Some(name) => st.(mode := Defining(name))
    case None =>
      match MatchDirective(lineTrimmed, InsertOpening)
      case Some(name) => st.(mode := Inserting(name))
      case None => st.(output := st.output + line + "\n")
  }

  /** One turn of the `for await` loop, as the code is written. */
  function Step(st: State, line: string, encode: string -> string): State
  {
    match st.mode
    case Defining(name) => DefiningStep(st, name, line)
    case Inserting(name) => InsertingStep(st, name, line, encode)
    case Copying => CopyingStep(st, line)
  }

  /** The state after the given lines, one step per line. */
  function Run(st: State, lines: seq<string>, encode: string -> string): State
  {
    if |lines| == 0 then st else Step(Run(st, lines[..|lines| - 1], encode), lines[|lines| - 1], encode)
  }

  function ModeOf(defineMacro: Option<string>, insertMacro: Option<string>): Mode
  {
    if defineMacro.Some? then Defining(defineMacro.value)
    else if insertMacro.Some? then Inserting(insertMacro.value)
    else Copying
  }

  /**
   * The macro processing of one file: the text written to the build file and
   * the warnings printed, given the file's lines.
   */
  method ProcessFile(sourceLines: seq<string>, encode: string -> string) returns (buildLines: string, warnings: seq<string>)
    ensures buildLines == Run(Initial, sourceLines, encode).output
    ensures warnings == Run(Initial, sourceLines, encode).warnings
  {
    buildLines := "";
    warnings := [];
    var macros: map<string, seq<string>> := map[];
    var defineMacro: Option<string> := None;
    var insertMacro: Option<string> := None;
    var macroParams: seq<Param> := [];
    for i := 0 to |sourceLines|
      invariant !(defineMacro.Some? && insertMacro.Some?)
      invariant Run(Initial, sourceLines[..i], encode) == State(ModeOf(defineMacro, insertMacro), macros, macroParams, buildLines, warnings)
    {
      var line := sourceLines[i];
      ghost var before := State(ModeOf(defineMacro, insertMacro), macros, macroParams, buildLines, warnings);
      assert Run(Initial, sourceLines[..i + 1], encode) == Step(before, line, encode) by {
        assert sourceLines[..i + 1][..i] == sourceLines[..i];
        RunLast(Initial, sourceLines[..i + 1], encode);
      }
      if defineMacro.Some? {
        StepDefining(before, defineMacro.value, line, encode);
        defineMacro, macros := DefiningLine(defineMacro.value, line, macros, macroParams, buildLines, warnings);
      } else if insertMacro.Some? {
        StepInserting(before, insertMacro.value, line, encode);
        insertMacro, macroParams, buildLines, warnings := InsertingLine(insertMacro.value, line, macros, macroParams, buildLines, warnings, encode);
      } else {
        StepCopying(before, line, encode);
        defineMacro, insertMacro, buildLines := CopyingLine(line, macros, macroParams, buildLines, warnings);
      }
    }
    assert sourceLines[..|sourceLines|] == sourceLines;
  }

  /** The loop body inside `{define name}`: the new `defineMacro` and `macros`. */
  method DefiningLine(name: string, line: string, macros: map<string, seq<string>>,
                      ghost macroParams: seq<Param>, ghost buildLines: string, ghost warnings: seq<string>)
    returns (defineMacro: Option<string>, macrosAfter: map<string, seq<string>>)
    ensures DefiningStep(State(Defining(name), macros, macroParams, buildLines, warnings), name, line)
      == State(ModeOf(defineMacro, None), macrosAfter, macroParams, buildLines, warnings)
  {
    defineMacro := Some(name);
    macrosAfter := macros;
    var lineTrimmed := Trim(line);
    if lineTrimmed == "{enddefine}" {
      defineMacro := None;
      return;
    }
    if name !in macrosAfter {
      macrosAfter := macrosAfter[name := []];
    }
    macrosAfter := macrosAfter[name := macrosAfter[name] + [line]];
    assert macrosAfter == macros[name := (if name in macros then macros[name] else []) + [line]];
  }

  /**
   * The loop body inside `{insert name}`: the new `insertMacro`, parameters,
   * output and warnings.
   */
  method InsertingLine(name: string, line: string, macros: map<string, seq<string>>,
                       macroParams: seq<Param>, buildLines: string, warnings: seq<string>, encode: string -> string)
    returns (insertMacro: Option<string>, paramsAfter: seq<Param>, buildAfter: string, warningsAfter: seq<string>)
    ensures InsertingStep(State(Inserting(name), macros, macroParams, buildLines, warnings), name, line, encode)
      == State(ModeOf(None, insertMacro), macros, paramsAfter, buildAfter, warningsAfter)
  {
    insertMacro, paramsAfter, buildAfter, warningsAfter := Some(name), macroParams, buildLines, warnings;
    var lineTrimmed := Trim(line);
    if lineTrimmed == "{endinsert}" {
      if name !in macros {
        warningsAfter := warnings + [UnknownMacroWarning(name)];
        return;
      }
      var inserted := InsertMacro(macros[name], macroParams, encode);
      buildAfter := buildLines + inserted;
      insertMacro := None;
      paramsAfter := [];
      return;
    }
    var splitIndex := IndexOf(lineTrimmed, "=");
    if splitIndex.None? {
      return;
    }
    var paramName := Trim(lineTrimmed[..splitIndex.value]);
    var value := Trim(lineTrimmed[splitIndex.value + 1..]);
    if paramName == "" {
      return;
    }
    paramsAfter := SetParam(macroParams, paramName, value);
  }

  /** The loop body outside any block: the new `defineMacro`, `insertMacro` and output. */
  method CopyingLine(line: string, ghost macros: map<string, seq<string>>, ghost macroParams: seq<Param>,
                     buildLines: string, ghost warnings: seq<string>)
    returns (defineMacro: Option<string>, insertMacro: Option<string>, buildAfter: string)
    ensures !(defineMacro.Some? && insertMacro.Some?)
    ensures CopyingStep(State(Copying, macros, macroParams, buildLines, warnings), line)
      == State(ModeOf(defineMacro, insertMacro), macros, macroParams, buildAfter, warnings)
  {
    buildAfter := buildLines;
    insertMacro := None;
    var lineTrimmed := Trim(line);
    defineMacro := MatchDirective(lineTrimmed, DefineOpening);
    if defineMacro.Some? {
      return;
    }
    insertMacro := MatchDirective(lineTrimmed, InsertOpening);
    if insertMacro.Some? {
      return;
    }
    buildAfter := buildLines + line + "\n";
  }

  // ---------------------------------------------------------------------------
  // Properties of the processor
  // ---------------------------------------------------------------------------

  lemma TrimKeepsOut(s: string, c: char)
    requires c !in s
    ensures c !in Trim(s)
  {
    TrimIsInfix(s);
  }

  /** Outside any block, lines without `{` are copied, each followed by a newline. */
  lemma {:induction false} PlainTextCopied(st: State, lines: seq<string>, encode: string -> string)
    requires st.mode == Copying
    requires forall k :: 0 <= k < |lines| ==> '{' !in lines[k]
    ensures Run(st, lines, encode) == st.(output := st.output + Terminated(lines, "\n"))
    decreases |lines|
  {
    if |lines| > 0 {
      var init := lines[..|lines| - 1];
      var line := lines[|lines| - 1];
      PlainTextCopied(st, init, encode);
      PlainLineCopied(Run(st, init, encode), line, encode);
    }
  }

  /**
   * Inside a definition every line up to `{enddefine}` is appended, untrimmed,
   * to the macro's lines (a second definition of a name extends the first);
   * nothing is written.
   */
  lemma {:induction false} DefinitionCollects(st: State, name: string, body: seq<string>, encode: string -> string)
    requires st.mode == Defining(name)
    requires forall k :: 0 <= k < |body| ==> Trim(body[k]) != "{enddefine}"
    requires |body| > 0
    ensures var known := if name in st.macros then st.macros[name] else [];
      Run(st, body, encode) == st.(macros := st.macros[name := known + body])
    decreases |body|
  {
    var known := if name in st.macros then st.macros[name] else [];
    var init := body[..|body| - 1];
    var last := body[|body| - 1];
    assert Trim(last) != "{enddefine}";
    if |init| > 0 {
      assert forall k :: 0 <= k < |init| ==> init[k] == body[k];
      DefinitionCollects(st, name, init, encode);
      var mid := Run(st, init, encode);
      DefiningLineAppends(mid, name, last, encode);
      SnocLast(known, body);
    } else {
      DefiningLineAppends(st, name, last, encode);
      assert body == [last];
    }
  }

  lemma SnocLast(known: seq<string>, body: seq<string>)
    requires |body| > 0
    ensures known + body[..|body| - 1] + [body[|body| - 1]] == known + body
  {
    assert body == body[..|body| - 1] + [body[|body| - 1]];
  }

  /** Inside a definition, a line other than `{enddefine}` is appended to the macro's lines. */
  lemma DefiningLineAppends(st: State, name: string, line: string, encode: string -> string)
    requires st.mode == Defining(name) && Trim(line) != "{enddefine}"
    ensures var known := if name in st.macros then st.macros[name] else [];
      Step(st, line, encode) == st.(macros := st.macros[name := known + [line]])
  {
  }

  /** The last line is the last step. */
  lemma RunLast(st: State, lines: seq<string>, encode: string -> string)
    requires |lines| > 0
    ensures Run(st, lines, encode) == Step(Run(st, lines[..|lines| - 1], encode), lines[|lines| - 1], encode)
  {
  }

  lemma StepInserting(st: State, name: string, line: string, encode: string -> string)
    requires st.mode == Inserting(name)
    ensures Step(st, line, encode) == InsertingStep(st, name, line, encode)
  {
  }

  lemma StepCopying(st: State, line: string, encode: string -> string)
    requires st.mode == Copying
    ensures Step(st, line, encode) == CopyingStep(st, line)
  {
  }

  lemma StepDefining(st: State, name: string, line: string, encode: string -> string)
    requires st.mode == Defining(name)
    ensures Step(st, line, encode) == DefiningStep(st, name, line)
  {
  }

  /** Every macro that exists has at least one line. */
  predicate MacrosNonEmpty(st: State)
  {
    forall name :: name in st.macros ==> |st.macros[name]| > 0
  }

  /** No step creates an empty macro. */
  lemma {:induction false} RunKeepsMacrosNonEmpty(st: State, lines: seq<string>, encode: string -> string)
    requires MacrosNonEmpty(st)
    ensures MacrosNonEmpty(Run(st, lines, encode))
    decreases |lines|
  {
    if |lines| > 0 {
      RunKeepsMacrosNonEmpty(st, lines[..|lines| - 1], encode);
      StepKeepsMacrosNonEmpty(Run(st, lines[..|lines| - 1], encode), lines[|lines| - 1], encode);
    }
  }

  lemma StepKeepsMacrosNonEmpty(st: State, line: string, encode: string -> string)
    requires MacrosNonEmpty(st)
    ensures MacrosNonEmpty(Step(st, line, encode))
  {
  }

  /**
   * `{endinsert}` of a known macro writes its lines with the parameters
   * substituted, joined and ended by newlines, returns to copying and forgets
   * the parameters.
   */
  lemma InsertKnown(st: State, name: string, line: string, encode: string -> string)
    requires st.mode == Inserting(name) && Trim(line) == "{endinsert}" && name in st.macros
    requires MacrosNonEmpty(st)
    ensures var next := Step(st, line, encode);
      && next.mode == Copying && next.params == [] && next.macros == st.macros
      && next.output == st.output + Join(Expanded(st.macros[name], st.params, encode), "\n") + "\n"
  {
    TerminatedIsJoinPlusSep(Expanded(st.macros[name], st.params, encode), "\n");
  }

  // ---------------------------------------------------------------------------
  // An unknown macro in `{insert}`
  // ---------------------------------------------------------------------------

  /**
   * As written, `{endinsert}` of an unknown macro warns but stays in the
   * insert block, while the intended step closes it.
   */
  lemma UnknownInsertStaysOpen(st: State, name: string, line: string, encode: string -> string)
    requires st.mode == Inserting(name) && name !in st.macros && Trim(line) == "{endinsert}"
    ensures Step(st, line, encode) == st.(warnings := st.warnings + [UnknownMacroWarning(name)])
    ensures StepIntended(st, line, encode) == st.(warnings := st.warnings + [UnknownMacroWarning(name)], mode := Copying, params := [])
  {
  }

  /**
   * As written, every line after an `{insert}` of an unknown macro is read as
   * a parameter line, so the rest of the file is lost.
   */
  lemma UnknownInsertSwallowsRest(lines: seq<string>, encode: string -> string)
    requires lines == ["{insert nope}", "{endinsert}", "hello"]
    ensures Run(Initial, lines, encode).output == ""
    ensures Run(Initial, lines, encode).mode == Inserting("nope")
  {
    var s2 := Initial.(mode := Inserting("nope"), warnings := [UnknownMacroWarning("nope")]);
    AsWrittenFirstTwo(lines[..2], encode);
    RunLast(Initial, lines, encode);
    assert lines[..2] == lines[..|lines| - 1];
    StepInserting(s2, "nope", lines[2], encode);
    HelloLine(lines[2]);
  }

  /**
   * As written, once inside the block of an unknown macro the processor never
   * leaves it: whatever lines follow, nothing more is written and no macro is
   * defined.
   */
  lemma {:induction false} UnknownInsertSwallowsAll(st: State, name: string, lines: seq<string>, encode: string -> string)
    requires st.mode == Inserting(name) && name !in st.macros
    ensures Run(st, lines, encode).output == st.output
    ensures Run(st, lines, encode).mode == Inserting(name)
    ensures Run(st, lines, encode).macros == st.macros
    decreases |lines|
  {
    if |lines| > 0 {
      var init := lines[..|lines| - 1];
      UnknownInsertSwallowsAll(st, name, init, encode);
      UnknownInsertLine(Run(st, init, encode), name, lines[|lines| - 1], encode);
    }
  }

  /** One line inside the block of an unknown macro writes nothing and stays in the block. */
  lemma UnknownInsertLine(st: State, name: string, line: string, encode: string -> string)
    requires st.mode == Inserting(name) && name !in st.macros
    ensures Step(st, line, encode).output == st.output
    ensures Step(st, line, encode).mode == Inserting(name)
    ensures Step(st, line, encode).macros == st.macros
  {
    StepInserting(st, name, line, encode);
  }

  /** As written, the `{endinsert}` of the unknown macro warns and leaves the block open. */
  lemma AsWrittenFirstTwo(lines: seq<string>, encode: string -> string)
    requires lines == ["{insert nope}", "{endinsert}"]
    ensures Run(Initial, lines, encode) == Initial.(mode := Inserting("nope"), warnings := [UnknownMacroWarning("nope")])
  {
    var s1 := Initial.(mode := Inserting("nope"));
    assert Run(Initial, lines[..1], encode) == s1 by {
      RunLast(Initial, lines[..1], encode);
      assert lines[..1][..0] == [];
      StepCopying(Initial, lines[0], encode);
      OpeningLine(lines[0]);
    }
    RunLast(Initial, lines, encode);
    StepInserting(s1, "nope", lines[1], encode);
    EndInsertLine(lines[1]);
  }

  lemma OpeningLine(line: string)
    requires line == "{insert nope}"
    ensures Trim(line) == line
    ensures MatchDirective(line, DefineOpening) == None
    ensures MatchDirective(line, InsertOpening) == Some("nope")
  {
    TrimUnpadded(line);
    OpensInsert(line);
    NotADefinition(line);
  }

  /** A text that neither starts nor ends with whitespace is its own trim. */
  lemma TrimUnpadded(s: string)
    requires |s| > 0 && !IsJsSpace(s[0]) && !IsJsSpace(s[|s| - 1])
    ensures Trim(s) == s
  {
  }

  lemma OpensInsert(line: string)
    requires line == "{insert nope}"
    ensures MatchDirective(line, InsertOpening) == Some("nope")
  {
    assert line == InsertOpening + "nope" + "}";
    WholeLineDirective(line, InsertOpening, "nope");
  }

  lemma NotADefinition(line: string)
    requires line == "{insert nope}"
    ensures MatchDirective(line, DefineOpening) == None
  {
    MatchFromOpening(line, DefineOpening, 0);
    assert DefineOpening[1] == 'd';
    assert 'd' !in line;
  }

  lemma EndInsertLine(line: string)
    requires line == "{endinsert}"
    ensures Trim(line) == "{endinsert}"
  {
    TrimUnpadded(line);
  }

  lemma HelloLine(line: string)
    requires line == "hello"
    ensures Trim(line) == "hello" && IndexOf(Trim(line), "=") == None
    ensures MatchDirective(line, DefineOpening) == None && MatchDirective(line, InsertOpening) == None
  {
    TrimUnpadded(line);
    assert '=' !in line;
    ContainsChar(line, '=');
    NoBraceNoDirective(line, DefineOpening);
    NoBraceNoDirective(line, InsertOpening);
  }

  /** One step as evidently intended: an unknown macro is reported and its block is closed. */
  function StepIntended(st: State, line: string, encode: string -> string): State
  {
    if st.mode.Inserting? && Trim(line) == "{endinsert}" && st.mode.name !in st.macros then
      st.(warnings := st.warnings + [UnknownMacroWarning(st.mode.name)], mode := Copying, params := [])
    else Step(st, line, encode)
  }

  function RunIntended(st: State, lines: seq<string>, encode: string -> string): State
  {
    if |lines| == 0 then st else StepIntended(RunIntended(st, lines[..|lines| - 1], encode), lines[|lines| - 1], encode)
  }

  /** With the block closed, the text after an `{insert}` of an unknown macro is copied. */
  lemma UnknownInsertKeepsRest(lines: seq<string>, encode: string -> string)
    requires lines == ["{insert nope}", "{endinsert}", "hello"]
    ensures RunIntended(Initial, lines, encode).output == "hello\n"
    ensures RunIntended(Initial, lines, encode).mode == Copying
    ensures RunIntended(Initial, lines, encode).warnings == [UnknownMacroWarning("nope")]
  {
    var s2 := Initial.(warnings := [UnknownMacroWarning("nope")]);
    IntendedFirstTwo(lines[..2], encode);
    RunIntendedLast(Initial, lines, encode);
    assert lines[..2] == lines[..|lines| - 1];
    PlainLineCopied(s2, lines[2], encode);
  }

  /** The intended run closes the block of the unknown macro and warns once. */
  lemma IntendedFirstTwo(lines: seq<string>, encode: string -> string)
    requires lines == ["{insert nope}", "{endinsert}"]
    ensures RunIntended(Initial, lines, encode) == Initial.(warnings := [UnknownMacroWarning("nope")])
  {
    var s1 := Initial.(mode := Inserting("nope"));
    assert RunIntended(Initial, lines[..1], encode) == s1 by {
      RunIntendedLast(Initial, lines[..1], encode);
      assert lines[..1][..0] == [];
      StepCopying(Initial, lines[0], encode);
      OpeningLine(lines[0]);
    }
    RunIntendedLast(Initial, lines, encode);
    EndInsertLine(lines[1]);
  }

  lemma RunIntendedLast(st: State, lines: seq<string>, encode: string -> string)
    requires |lines| > 0
    ensures RunIntended(st, lines, encode) == StepIntended(RunIntended(st, lines[..|lines| - 1], encode), lines[|lines| - 1], encode)
  {
  }

  /**
   * With the intended step, once the processor is copying again (after a
   * closed block, whether its macro was known or not), lines without `{` are
   * copied as they are.
   */
  lemma {:induction false} PlainTextCopiedIntended(st: State, lines: seq<string>, encode: string -> string)
    requires st.mode == Copying
    requires forall k :: 0 <= k < |lines| ==> '{' !in lines[k]
    ensures RunIntended(st, lines, encode) == st.(output := st.output + Terminated(lines, "\n"))
    decreases |lines|
  {
    if |lines| > 0 {
      var init := lines[..|lines| - 1];
      var line := lines[|lines| - 1];
      PlainTextCopiedIntended(st, init, encode);
      PlainLineCopiedIntended(RunIntended(st, init, encode), line, encode);
    }
  }

  /** The intended step copies a line without `{` outside any block, as `Step` does. */
  lemma PlainLineCopiedIntended(st: State, line: string, encode: string -> string)
    requires st.mode == Copying && '{' !in line
    ensures StepIntended(st, line, encode) == st.(output := st.output + line + "\n")
  {
    PlainLineCopied(st, line, encode);
  }

  /** Outside any block, a line without `{` is copied and followed by a newline. */
  lemma PlainLineCopied(st: State, line: string, encode: string -> string)
    requires st.mode == Copying && '{' !in line
    ensures Step(st, line, encode) == st.(output := st.output + line + "\n")
  {
    TrimKeepsOut(line, '{');
    NoBraceNoDirective(Trim(line), DefineOpening);
    NoBraceNoDirective(Trim(line), InsertOpening);
  }
}
