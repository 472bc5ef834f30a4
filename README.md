# wpvs-2019 core, modelled in Dafny

This project models the logic of the wpvs-2019 lecture examples:

- the text helpers of `js/utils.js`;
- the screen-size oracle `<wpvs-detect-screen-size>`;
- the validator and observer list of `ObservableValue`;
- the hash router `<wpvs-router>`;
- the upward DOM search of `js/dom_utils.js`;
- the macro expansion of `<wpvs-macro-insert>`;
- the file selection and line-by-line macro processor of `scripts/build-static.mjs`.

Each Dafny module follows one source file:

| module | source |
|---|---|
| `JsString` | the JavaScript string operations the code calls: `trim`, `indexOf`, `split`, `replace`, `replaceAll` |
| `Utils` | `js/utils.js` |
| `ScreenSize` | `js/wpvs-detect-screen-size/wpvs-detect-screen-size.js` |
| `Observable` | `js/observable_value.js` |
| `Router` | `js/wpvs-router/wpvs-router.js` |
| `DomUtils` | `js/dom_utils.js` |
| `Macro` | `js/wpvs-macro/wpvs-macro.js` |
| `BuildStatic` | `scripts/build-static.mjs` |

Where the source keeps state, the model uses classes and methods:

- a custom element or `ObservableValue` is a `class` whose methods change its fields;
- the loops of `shiftLinesLeft`, `trimLines`, the router's `_render`, `bubble`, `upwardsSearch`, the macro `while` loop and the build script's `for await` loop are methods with loop invariants;
- each such method is proved equal to a specification function, and the promised properties are lemmas about that function.

Things outside the program are parameters:

- the browser's CSS decisions, given as the displayed probes;
- the DOM, given as parent, host and children maps;
- the answers of validators;
- `encodeURI`.

Console output, events and bound-function calls are recorded as sequences in the object's state.

## Model

| member | source | states |
|---|---|---|
| JsString.IndexOfFrom | js/utils.js:35 | `indexOf` finds the first occurrence at or after the start, and None exactly when there is none |
| JsString.ContainsIff | js/utils.js:35-37 | `includes` holds exactly when the pattern occurs at some index |
| JsString.ContainsChar | js/utils.js:36-37 | for a one-character pattern, `includes` is membership |
| JsString.SliceFrom | js/wpvs-router/wpvs-router.js:88 | `slice(n)` is empty when n reaches the end, else the suffix after the first n characters |
| JsString.LeadingSpace | js/utils.js:64-66 | the match of `^\s*` is a prefix made only of `\s` characters, followed by a non-space |
| JsString.TrimStartSpec | scripts/build-static.mjs:48 | `trimStart` returns a suffix that is empty or starts with a non-space, and everything it drops is whitespace |
| JsString.TrimEndSpec | scripts/build-static.mjs:48 | `trimEnd` returns a prefix that is empty or ends with a non-space, and everything it drops is whitespace |
| JsString.TrimIsInfix | scripts/build-static.mjs:48 | `trim` keeps a contiguous middle piece of the text, with no whitespace at either end |
| JsString.Split | js/utils.js:56 | `split` yields at least one piece, and no piece contains the separator |
| JsString.JoinSplit | js/utils.js:56 | joining the pieces of `split` with the separator gives back the text |
| JsString.TerminatedIsJoinPlusSep | js/utils.js:75-81 | appending each line plus a linebreak equals joining with the linebreak and adding one more |
| JsString.Substitution | js/wpvs-macro/wpvs-macro.js:114 | a replacement string without `$` is inserted literally |
| JsString.ReplaceFirstSpec | js/wpvs-macro/wpvs-macro.js:114 | `replace` with a string pattern leaves a text without the pattern alone, and otherwise replaces exactly its first occurrence |
| JsString.ReplaceFirstFromIndex | js/wpvs-macro/wpvs-macro.js:114 | the replacement happens at the index `indexOf` reports, or nowhere |
| JsString.ReplaceAllAbsent | scripts/build-static.mjs:79 | `replaceAll` leaves a text without the pattern unchanged |
| JsString.ReplaceAllLiteral | scripts/build-static.mjs:79 | without `$` in the value, `replaceAll` inserts it literally at each occurrence, scanning on after it |
| Utils.EscapeHtml | js/utils.js:17-19 | the escaped text has no `<` or `>`, is never shorter, and text without `&`, `<`, `>` is unchanged |
| Utils.EscapeHtmlIsThreePasses | js/utils.js:18 | the three global replaces, in their written order, equal escaping each character once: the `&` introduced by later passes is never re-escaped |
| Utils.EscapeHtmlAppend | js/utils.js:18 | escaping works character by character: escaping a concatenation concatenates the escapes |
| Utils.ThreePassesAppend | js/utils.js:18 | the three-pass replace distributes over concatenation |
| Utils.ReplaceEveryAppend | js/utils.js:18 | one global single-character replace distributes over concatenation |
| Utils.DetermineLinebreaks | js/utils.js:34-39 | "\r\n" iff the text has CRLF, "\n" iff it has LF but no CRLF, "\r" iff CR without LF, "" iff neither; a non-empty answer occurs in the text |
| Utils.LeftShifted | js/utils.js:50-84 | without a linebreak the text is returned; otherwise a TypeError is thrown exactly when every line is empty |
| Utils.CommonPrefixNone | js/utils.js:59-69 | the first loop ends with `commonPrefix` null exactly when all lines are empty |
| Utils.CommonPrefixIsLeadingSpace | js/utils.js:61-69 | the prefix found is the leading whitespace of some non-empty line, so it is whitespace only |
| Utils.CommonPrefixNeverGrows | js/utils.js:68 | after any line, the final prefix is a prefix of the one held then |
| Utils.LeftShiftedLines | js/utils.js:71-83 | the result is the lines joined by the linebreak plus a final one; every non-empty line loses exactly `commonPrefix.length` characters, or all of them; empty lines stay empty |
| Utils.ShiftLinesLeft | js/utils.js:50-84 | the method over the `lines` array returns exactly `LeftShifted`, including the thrown TypeError |
| Utils.FindCommonPrefix | js/utils.js:59-69 | the first loop computes `CommonPrefix` of the lines |
| Utils.ShiftAndTerminate | js/utils.js:72-83 | the second loop shifts the array in place and returns every shifted line followed by the linebreak |
| Utils.ShiftLinesLeftDropsText | js/utils.js:61-77 | as written, "  a\n\tx" becomes "a\n\n": the `x` is cut away |
| Utils.ShiftLinesLeftThrowsOnBlankText | js/utils.js:59-73 | as written, "\n" makes `commonPrefix.length` throw |
| Utils.MinIndentSpec | js/utils.js:41-49 | the intended shift is at most every non-empty line's indentation and equals one of them; it is 0 without non-empty lines |
| Utils.LeftShiftedIntendedCutsOnlyIndent | js/utils.js:41-49 | the corrected shift never throws, cuts the same amount from every non-empty line, cuts whitespace only, and keeps empty lines |
| Utils.LeftShiftedIntendedIsMaximal | js/utils.js:41-49 | after the corrected shift some non-empty line has no indentation left, so no larger shift would be whitespace only |
| Utils.RemoveLeadingLinebreaks | js/utils.js:92-101 | the result is a suffix that no longer starts with the linebreak, and what was removed is whole linebreaks only; unchanged without a linebreak |
| Utils.RemoveTrailingLinebreaks | js/utils.js:109-118 | the result is a prefix that no longer ends with the linebreak, and what was removed is whole linebreaks only; unchanged without a linebreak |
| Utils.IsRepeatAppend | js/utils.js:96-98 | appending one more linebreak to whole linebreaks keeps it whole linebreaks |
| Utils.TrimSpaceTab | js/utils.js:137-149 | a trimmed line is a prefix of the line, does not end in a space or tab, and only spaces and tabs were cut |
| Utils.TrimLines | js/utils.js:126-155 | `trimLines` returns each line, right-trimmed of spaces and tabs, followed by the linebreak; unchanged without a linebreak |
| Utils.TrimmedLinesShape | js/utils.js:126-155 | the lines rejoin to the text, and the output is the trimmed lines joined plus a final linebreak, each one a prefix of its input line |
| ScreenSize.IndexIn | js/wpvs-detect-screen-size/wpvs-detect-screen-size.js:107-109 | `ordering.indexOf` gives the position of a known size, and -1 exactly for names not in the ordering |
| ScreenSize.CurrentSize | js/wpvs-detect-screen-size/wpvs-detect-screen-size.js:84-96 | the getter returns the first displayed size in the order phone, tablet, screen, hires, and "unknown" exactly when none is displayed |
| ScreenSize.CompareScreenSize | js/wpvs-detect-screen-size/wpvs-detect-screen-size.js:106-118 | the answer is -1, 0 or 1; 0 whenever a name is unknown; among known sizes -1, 0 and 1 mean smaller, equal and larger |
| ScreenSize.CompareAntisymmetric | js/wpvs-detect-screen-size/wpvs-detect-screen-size.js:106-118 | swapping the two sizes negates the answer |
| ScreenSize.CompareTransitive | js/wpvs-detect-screen-size/wpvs-detect-screen-size.js:106-118 | "smaller" is transitive |
| ScreenSize.UnknownComparesEqual | js/wpvs-detect-screen-size/wpvs-detect-screen-size.js:107-112 | with no probe displayed, every comparison answers 0 |
| ScreenSize.DetectScreenSizeElement.constructor | js/wpvs-detect-screen-size/wpvs-detect-screen-size.js:38-43 | no size is recorded and no event has been raised |
| ScreenSize.DetectScreenSizeElement.Render | js/wpvs-detect-screen-size/wpvs-detect-screen-size.js:48-78 | `_render` raises one event with the current size and records it in `_prevScreenSize` and `data-screen-size` |
| ScreenSize.DetectScreenSizeElement.OnResize | js/wpvs-detect-screen-size/wpvs-detect-screen-size.js:72-77 | a resize to the recorded size changes nothing; any other size raises exactly one event and is recorded; the last event always matches the recorded size |
| Observable.Unbound | js/observable_value.js:174-176 | `_unbind` keeps exactly the bindings whose type or object differ, in order |
| Observable.UnboundAppend | js/observable_value.js:175 | the filter works binding by binding and keeps the order |
| Observable.Without | js/observable_value.js:77-79 | `removeValidator` keeps exactly the other validators, every occurrence of the function removed |
| Observable.WithoutAppend | js/observable_value.js:78 | the filter works validator by validator and keeps the order |
| Observable.NotificationsAppend | js/observable_value.js:201-206 | observers are notified binding by binding: the calls for two lists of bindings are those of the first followed by those of the second |
| Observable.NotificationsUnbound | js/observable_value.js:100-102 | after `unbindFunction(func)` the observers notified are exactly the old ones minus every call to `func` |
| Observable.ObservableValue.constructor | js/observable_value.js:30-34 | the initial value, with no bindings, no validators and no calls |
| Observable.ObservableValue.CallValidators | js/observable_value.js:186-193 | true exactly when every validator accepts; validators are consulted in order, stopping right after the first refusal |
| Observable.ObservableValue.CallObservers | js/observable_value.js:201-219 | appends the notifications of all bindings, in binding order |
| Observable.ObservableValue.SetValue | js/observable_value.js:48-54 | when all validators accept, the value is stored and observers get (new, old); otherwise nothing changes |
| Observable.ObservableValue.Refresh | js/observable_value.js:59-61 | observers get the current value as both new and old; nothing else changes |
| Observable.ObservableValue.AddValidator | js/observable_value.js:73-75 | appends the validator at the end |
| Observable.ObservableValue.RemoveValidator | js/observable_value.js:77-79 | removes every occurrence of the validator |
| Observable.ObservableValue.BindFunction | js/observable_value.js:89-94 | appends one function binding at the end |
| Observable.ObservableValue.UnbindFunction | js/observable_value.js:100-102 | removes the function bindings of that function only |
| Observable.ObservableValue.Unbind | js/observable_value.js:174-176 | the bindings become `Unbound` of the old ones; value, validators and calls stay |
| Router.Registered | js/wpvs-router/wpvs-router.js:59-74 | registration pushes at most one route per script |
| Router.RegisteredSpec | js/wpvs-router/wpvs-router.js:69-70 | each route comes from a script with a truthy `data-route`, and each such script yields its route |
| Router.RegisteredAppend | js/wpvs-router/wpvs-router.js:59-74 | routes are pushed in document order |
| Router.LastFallbackSpec | js/wpvs-router/wpvs-router.js:71-72 | the last script with only a truthy `data-route-fallback` sets the fallback; without one the previous fallback stays |
| Router.RequestedUrl | js/wpvs-router/wpvs-router.js:88-89 | the URL is the hash without `#`, or "/" when that is empty; never empty |
| Router.FindRoute | js/wpvs-router/wpvs-router.js:91 | `find` returns the first route with that URL, or none when no route has it |
| Router.FindRouteAppend | js/wpvs-router/wpvs-router.js:70 | routes pushed later never shadow an earlier route for the same URL |
| Router.ShownSpec | js/wpvs-router/wpvs-router.js:91-95 | a URL with a route shows its first route; a URL without one shows the fallback |
| Router.RouterElement.constructor | js/wpvs-router/wpvs-router.js:44-49 | no routes, no fallback, nothing shown or raised, no listener |
| Router.RouterElement.HandleRouting | js/wpvs-router/wpvs-router.js:87-96 | shows the route's or fallback's content and raises "route-changed" with the URL; with neither, logs the error and changes nothing else |
| Router.RouterElement.Render | js/wpvs-router/wpvs-router.js:54-79 | clears the content, appends the registered routes after the existing ones, updates the fallback, adds one listener, then routes |
| Router.RouterElement.OnHashChange | js/wpvs-router/wpvs-router.js:77 | each listener added by a render routes once, so the event or error repeats once per listener |
| Router.RerenderShowsSame | js/wpvs-router/wpvs-router.js:54-79 | rendering the same scripts again duplicates the routes but changes no URL's content |
| DomUtils.Ancestors | js/dom_utils.js:22-36 | the walk starts with the element itself |
| DomUtils.AncestorsStep | js/dom_utils.js:25-32 | each visited node is followed by its parent, or its host when there is no parent; the walk stops at a node with neither |
| DomUtils.Bubble | js/dom_utils.js:22-36 | `func` sees the start and then each ancestor; a null start is passed once |
| DomUtils.MatchingMembers | js/dom_utils.js:56-59 | the matching children are exactly the children the selector accepts |
| DomUtils.MatchingChildren | js/dom_utils.js:56-60 | the inner loop collects the matching children in child order |
| DomUtils.FoundAppend | js/dom_utils.js:53-61 | the matches of lower levels come before those of higher ones |
| DomUtils.FoundMembers | js/dom_utils.js:50-64 | the result holds exactly the matching direct children of the visited nodes |
| DomUtils.OwnChildrenFirst | js/dom_utils.js:50-64 | the start's own matching children come first |
| DomUtils.UpwardsSearch | js/dom_utils.js:50-64 | the result is the matching children of each visited node, level by level; empty for a null start |
| Macro.DataName | js/wpvs-macro/wpvs-macro.js:90 | `dataset.name` is the value of the first `data-name` attribute, or "undefined" when there is none |
| Macro.Candidates | js/wpvs-macro/wpvs-macro.js:90-91 | every candidate is a definition with the requested name |
| Macro.NearestDefinitionWins | js/wpvs-macro/wpvs-macro.js:91-97 | a definition among the parent's children is used before any further up |
| Macro.PassWithoutDollar | js/wpvs-macro/wpvs-macro.js:107-115 | a text without `$` comes through a pass unchanged |
| Macro.UnsettledIff | js/wpvs-macro/wpvs-macro.js:104 | the loop is still running after n passes exactly when each of those passes changed the text |
| Macro.ApplyAttributes | js/wpvs-macro/wpvs-macro.js:107-115 | one pass replaces the first placeholder of each attribute in attribute order, with `url-` values encoded |
| Macro.MacroInsertElement.constructor | js/wpvs-macro/wpvs-macro.js:76-79 | empty content and no display style |
| Macro.MacroInsertElement.Render | js/wpvs-macro/wpvs-macro.js:85-120 | without a definition the element stays empty; otherwise it shows, as a block, the first definition's content after the passes up to the first fixpoint |
| Macro.Expand | js/wpvs-macro/wpvs-macro.js:101-116 | the loop stops at the first pass that changes nothing, and its result is a fixpoint of a pass |
| Macro.Settled | js/wpvs-macro/wpvs-macro.js:104 | two equal successive rounds mean a pass changes nothing more |
| Macro.PassSingle | js/wpvs-macro/wpvs-macro.js:107-115 | with one attribute a pass is one `replace` |
| Macro.RepeatedPlaceholder | js/wpvs-macro/wpvs-macro.js:104-116 | "$a$ $a$" needs two passes, one occurrence per pass, and then settles as "b b" |
| Macro.SelfReferenceNeverSettles | js/wpvs-macro/wpvs-macro.js:104-116 | an attribute whose value holds its own placeholder makes every pass change the text, so the loop never ends |
| BuildStatic.ReplaceExtensionsSpec | scripts/build-static.mjs:15 | one extension per `;`-separated piece of the configuration; no extension holds a `;` or starts or ends with whitespace |
| BuildStatic.ActionFor | scripts/build-static.mjs:19-35 | skipped exactly when the path starts with `_` or holds `/_`; a directory is created; a file is processed exactly when its name ends with an extension, else copied |
| BuildStatic.PlannedMembers | scripts/build-static.mjs:19-35 | every planned action comes from an entry that is not skipped, and every such entry has its action |
| BuildStatic.Build | scripts/build-static.mjs:19-35 | the loop over the listing takes exactly the planned actions, in listing order |
| BuildStatic.SkippedIffComponent | scripts/build-static.mjs:20 | the skip test holds exactly when some `/`-separated path component starts with `_` |
| BuildStatic.RunEnd | scripts/build-static.mjs:102 | `.` runs up to the first line terminator |
| BuildStatic.LastClose | scripts/build-static.mjs:102 | the greedy `(.*)\}` ends at the last `}` of that run |
| BuildStatic.MatchFromSpec | scripts/build-static.mjs:102-106 | a match puts the opening, the capture and `}` at one place in the line, and the capture has no line terminator |
| BuildStatic.MatchDirectiveSpec | scripts/build-static.mjs:102-106 | a directive match means the line contains `{define ` or `{insert `, the name and `}` |
| BuildStatic.MatchDirectiveComplete | scripts/build-static.mjs:102-106 | the pattern is unanchored: wherever the opening, a name without line terminators and `}` occur together in the line, it matches |
| BuildStatic.DefineDirectiveOpens | scripts/build-static.mjs:102-103 | outside blocks, a line whose trimmed text holds `{define NAME}` opens a definition and writes nothing |
| BuildStatic.InsertDirectiveOpens | scripts/build-static.mjs:105-106 | outside blocks, a line that is no definition and whose trimmed text holds `{insert NAME}` opens an insert block and writes nothing |
| BuildStatic.WholeLineDirective | scripts/build-static.mjs:102-106 | a line that is just a directive yields the name written in it |
| BuildStatic.NoBraceNoDirective | scripts/build-static.mjs:102-106 | a line without `{` opens no block |
| BuildStatic.Lookup | scripts/build-static.mjs:72 | reading a parameter fails exactly when no parameter has that name |
| BuildStatic.SetParam | scripts/build-static.mjs:98 | setting a known parameter keeps its place and every other parameter; a new one is added at the end |
| BuildStatic.SetParamLookup | scripts/build-static.mjs:98 | after setting, that name reads the new value and every other name reads as before |
| BuildStatic.Expanded | scripts/build-static.mjs:69-81 | expansion keeps the number of macro lines |
| BuildStatic.ExpandedWithoutBraces | scripts/build-static.mjs:69-81 | macro lines without `{` come out unchanged |
| BuildStatic.InsertMacro | scripts/build-static.mjs:69-85 | the inserted text is each line with every parameter substituted in parameter order, followed by "\n" |
| BuildStatic.SubstituteInPlace | scripts/build-static.mjs:78-80 | the inner loop applies `replaceAll` of the placeholder to every line in place |
| BuildStatic.ProcessFile | scripts/build-static.mjs:41-109 | the loop's output and warnings are those of the state machine `Run` over the lines |
| BuildStatic.DefiningLine | scripts/build-static.mjs:50-61 | inside `{define}`, the loop body does exactly one `DefiningStep` |
| BuildStatic.InsertingLine | scripts/build-static.mjs:62-100 | inside `{insert}`, the loop body does exactly one `InsertingStep` |
| BuildStatic.CopyingLine | scripts/build-static.mjs:102-108 | outside blocks, the loop body does exactly one `CopyingStep`, and at most one block opens |
| BuildStatic.PlainTextCopied | scripts/build-static.mjs:102-108 | outside blocks, lines without `{` are copied, each followed by "\n" |
| BuildStatic.DefinitionCollects | scripts/build-static.mjs:50-61 | every line before `{enddefine}` is appended untrimmed to the macro, a repeated definition extending it, and nothing is written |
| BuildStatic.DefiningLineAppends | scripts/build-static.mjs:56-60 | one line inside a definition is appended to the macro |
| BuildStatic.RunKeepsMacrosNonEmpty | scripts/build-static.mjs:56-60 | no run of lines creates a macro without lines |
| BuildStatic.InsertKnown | scripts/build-static.mjs:63-89 | `{endinsert}` of a known macro writes the expanded lines joined and ended by "\n", goes back to copying and clears the parameters |
| BuildStatic.UnknownInsertStaysOpen | scripts/build-static.mjs:63-67 | as written, `{endinsert}` of an unknown macro warns but stays in the block; the intended step also closes it |
| BuildStatic.UnknownInsertSwallowsAll | scripts/build-static.mjs:62-100 | as written, once inside the block of an unknown macro the processor stays there for any following lines, writes nothing more and defines no macro |
| BuildStatic.UnknownInsertSwallowsRest | scripts/build-static.mjs:62-100 | as written, for the lines "{insert nope}", "{endinsert}", "hello" nothing is written and the block stays open |
| BuildStatic.UnknownInsertKeepsRest | scripts/build-static.mjs:63-67 | with the block closed, the text after it is copied and one warning is printed |
| BuildStatic.PlainTextCopiedIntended | scripts/build-static.mjs:102-108 | the corrected processor still copies plain text unchanged |

## Left out

- Rendering details of the DOM are not modelled: the shadow root, `innerHTML` parsing, the created probe `div`s, CSS classes and style sheets. Dispatched events and logged messages are recorded as sequences, not delivered.
- The browser's media-query evaluation and `getComputedStyle` are inputs, as the displayed flags of the four probes. `adaptToScreenSize` and the rest of the screen-size file are not part of this model.
- ScreenSize.DetectScreenSizeElement.OnResize: the listener reads `screenSize` three times. The model reads it once, which agrees as long as the display does not change during one event.
- The `value` getter of `ObservableValue` simply returns `_value`. It is the field `value`.
- Only the model of function bindings is complete. `bindElement`, `unbindElement`, `bindJQueryValue`, `unbindJQueryValue`, `bindJQueryHtml` and `unbindJQueryHtml` depend on DOM and jQuery objects and are not modelled.
- `unbindJQueryValue` and `unbindJQueryHtml` (js/observable_value.js:145, 166) and the element case of `_callObservers` (line 209) refer to an undefined `element`. Those paths would throw a ReferenceError, and they are left out with the bindings above.
- Observable.ObservableValue.CallValidators: a validator's answer is a pure function of (validator, new, old). Side effects and exceptions of validators or bound functions are not modelled.
- Router: a route's content is read when the route is registered. The source reads `scriptElement.innerHTML` when the route is shown, so later edits to the script element are not modelled. The `route-changed` event's `sRoot` detail is left out.
- DomUtils: the DOM is a snapshot.
  - `"parentNode" in element` and `"host" in element` become membership in the parent and host maps.
  - A rank map witnesses that walking up ends, which every real DOM guarantees.
  - `func`'s `data` argument is not modelled.
  - A CSS selector is a predicate on nodes.
- Macro.Selector: the quoting of `data-name` inside the attribute selector is not modelled.
- Macro.MacroInsertElement.Render: the source's `while` loop runs for ever when no pass is a fixpoint (see Macro.SelfReferenceNeverSettles). The model makes at most `fuel` passes and reports whether they sufficed. `async` scheduling is not modelled.
- `this.attributes` is a sequence in document order. `encodeURI` is a parameter in both the macro element and the build script, and its URIError is not modelled.
- BuildStatic: `macroParams` is a sequence in insertion order. `Object.keys` lists integer-like keys first, and a key `__proto__` changes the prototype instead of adding a property. Neither is modelled.
- BuildStatic: the mapping of names to macros is a Dafny `map`. `Object.hasOwn` on a plain object agrees with it except for `__proto__`.
- BuildStatic: file-system access (`shell.ls`, `fs.statSync`, `shell.mkdir`, `shell.cp`, `fs.writeFileSync`), `readline`'s splitting into lines, encodings and `console.log` are not modelled. The listing, the directory flags and the file's lines are inputs, and the build actions and written text are outputs.
- Strings are sequences of Unicode scalar values, not UTF-16 code units. Surrogate pairs and lone surrogates are not distinguished.
- The regular expressions `/^\s*/`, `/&/g`, `/</g`, `/>/g`, `/\{define (.*)\}/` and `/\{insert (.*)\}/` are modelled by scanning functions that follow their matching rules.
- `Utils.ShiftLinesLeft` and `BuildStatic.ProcessFile` model the code as written. The corrected definitions are proved beside them, under Findings.

## Findings

| source | as written | input that shows it | evidently intended | confidence | as-written member | corrected member |
|---|---|---|---|---|---|---|
| js/utils.js:61-77 | `commonPrefix` only moves to a line's whitespace when it is a prefix of the current one, then every line loses `commonPrefix.length` characters | "  a\n\tx" gives "a\n\n": the second line loses its `x` | shift by the smallest indentation, cutting whitespace only (the function's documentation) | not executed | Utils.ShiftLinesLeftDropsText | Utils.LeftShiftedIntendedCutsOnlyIndent |
| js/utils.js:59-73 | `commonPrefix.length` is read while `commonPrefix` may still be null | "\n" (only empty lines) throws a TypeError | no shift, the lines returned with their linebreaks | not executed | Utils.ShiftLinesLeftThrowsOnBlankText | Utils.LeftShiftedIntendedCutsOnlyIndent |
| scripts/build-static.mjs:63-67 | `{endinsert}` of an unknown macro warns and `continue`s without clearing `insertMacro` | "{insert nope}", "{endinsert}", "hello": "hello" is never written | report the macro and close the block, so the following text is copied | not executed | BuildStatic.UnknownInsertSwallowsRest | BuildStatic.UnknownInsertKeepsRest |
