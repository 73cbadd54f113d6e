# Stencil template compilers in Dafny

Stencil is an asynchronous JavaScript templating library. This project models its two
template compilers and the small pieces of mutable state around them:

- **stencil.js `compile`.** The source splits template text at the start and stop tags
  (`<?`, `?>` by default) and turns it into the body of a JavaScript function. Static
  text becomes `print('...')` with quotes and line breaks escaped. A directive is
  classified by the suffix after its start tag:
  - `=` is a safe (HTML-escaped) echo;
  - `-` is an echo;
  - `#` is a nested template;
  - `!` is an asynchronous block;
  - anything else is plain code.

  Nest and async directives open a `function(){` continuation that holds everything
  after them. The end of the program closes all of them at once.
- **src/Template.js `compile`.** The same loop. Its suffixes are `=` (echo), `!=` (nest)
  and `!` (async), and the stop tag is searched only after the suffix.
- **Around the stencil.js compiler:**
  - the option merge `stencil.options`;
  - the template cache;
  - the output environment that `wrap` builds: `print`, `print.safe`, `print.end` and
    the shuffling of the `data`/`end` callbacks.
- **The `Template` object:**
  - constructor defaults;
  - an event-handler registry (add, remove, dispatch);
  - `compile(use_cached)`, `exec` and `echo`.
- **The `ServerTemplate` object:**
  - the trailing-slash rule of `getTemplateByFilename`;
  - the collapsing of dot runs in a requested path;
  - the branches of its `compile`.

Layout:

- `Values`: JavaScript values and truthiness.
- `JsString`: `indexOf`, `substr` and `substring`, with the swap `substring` does when its
  arguments are out of order.
- `Scanner`: one segmenter, `Scan`, for both compilers. It is parameterised by a
  `Dialect`: the tags, the suffix rules in priority order, and where the stop tag is
  searched from. Its lemmas say how a segmentation is shaped, what it reassembles to, and
  what its literal runs and bodies cannot contain.
- `Generator`: the code generated from a segmentation (`Program`), and its continuation
  structure (`Nesting`). It also holds `Round` and `Outcome`: one pass of either
  compiler's loop, and the rest of the run.
- `LiteralEscape`: the escaping of static text, with a decoder for JavaScript string
  literals to check it against.
- `Html`: the escaping done by `print.safe`.
- `Stencil`, `StencilOptions` and `StencilOutput`: stencil.js.
- `Templates`: src/Template.js.
- `ServerTemplates`: src/ServerTemplate.js.

Each compiler is an imperative method with the source's loops: `Stencil.Compile` and
`Templates.CompileSource`. Each is proved to produce
`Program(Scan(src, dialect, 0), syntax)`, so the segmentation and nesting lemmas hold for
their output. The syntax carries the escaping of static text as each source writes it
(see Findings). `Generator.Intended` swaps in the intended escaping, and
`Generator.ProgramAgrees` says the two programs coincide when no literal run holds a
quote or a backslash (nor, for src/Template.js, a line break).

## Model

| member | source | states |
|---|---|---|
| JsString.IndexOf | stencil.js:132 | `indexOf` returns -1 or a position at or after `from` where the whole pattern fits |
| JsString.MatchesAtOccurs | stencil.js:132 | the character-by-character test `indexOf` makes at a candidate position holds exactly where the pattern occurs |
| JsString.IndexOfFound | stencil.js:132 | a non-negative `indexOf` result is an occurrence of the pattern |
| JsString.IndexOfFirst | stencil.js:132 | no occurrence lies between `from` and the result (anywhere after `from` when it is -1) |
| JsString.SubstringSlice | stencil.js:135 | helper: `substring(a, b)` with `a <= b` inside the text is the slice between them |
| JsString.JoinAppend | stencil.js:231 | helper: joining two argument lists is joining each and concatenating |
| Scanner.SuffixedSubstr | stencil.js:146 | helper: the suffix test holds exactly when `src.substr(s, tag.length)` equals the tag |
| Scanner.MatchFirst | stencil.js:146-174 | the matched rule is the first one, in priority order, whose suffix follows the start tag; no earlier rule matches |
| Scanner.AfterNewlineShape | stencil.js:175-180 | what is skipped after a stop tag is nothing, CR, LF or CR LF, and it is the longest such run there |
| Scanner.CutParts | stencil.js:145-180 | helper: a directive's kind and body, whether it was closed, and where scanning resumes (after the stop tag and the line ending) |
| Scanner.CutKind | stencil.js:146-174 | a directive's kind is that of one of the rules, or plain code |
| Scanner.CutBody | stencil.js:145 | in a regular dialect (distinct suffix kinds, each suffix skipped by its own length, and no suffix holding the stop tag's first character when the stop tag is searched from before the suffix) a directive body never contains the stop tag |
| Scanner.LeadShape | stencil.js:132-139 | the literal run is the text up to the next start tag (all the rest without one), contains no start tag, and is absent when the tag is right there |
| Scanner.ScanAtEnd | stencil.js:132-139 | scanning from the end of the text (empty input, a template ending at a stop tag) gives one empty literal run |
| Scanner.ScanShape | stencil.js:130-181 | a segmentation is well formed: literal runs are non-empty except the last, two literal runs are never adjacent, only the last directive may be unterminated, terminated directives end in the stop tag plus a line ending, and a literal after a directive does not start with a line ending that could have been skipped |
| Scanner.ScanGapless | stencil.js:130-181 | in a regular dialect the segments reassemble to exactly the scanned text |
| Scanner.ScanBodies | stencil.js:145 | in a regular dialect no directive body of a segmentation contains the stop tag |
| Generator.EmitNesting | stencil.js:184-187 | the flat code (chunks, completion call, one closer per nest/async directive) is the code of the nested structure in which every opener encloses everything after it |
| Generator.NestingAt | stencil.js:160-169 | the chunk of segment `k` sits inside as many continuations as there are nest/async directives before it |
| Generator.ProgramNesting | stencil.js:119-197 | the whole program is the prefix, the nested structure's code and the suffix |
| Generator.ChunksAppend | stencil.js:130-181 | helper: the code of two segment sequences is the concatenation of their codes |
| Generator.OpenersAppend | stencil.js:160-166 | the opener count of two segment sequences is the sum of their counts |
| Generator.Round | stencil.js:130-181 | one pass of the loop either ends the scan or resumes strictly further on |
| Generator.OutcomeProgram | stencil.js:130-187 | finishing the loop from any state reached by scanning gives the program of the whole segmentation |
| Generator.OutcomeStart | stencil.js:120-121 | running the loop from its initial state gives the program of the whole segmentation |
| Generator.ChunksAgree | stencil.js:136-140 | on literal runs without quotes or backslashes (or line breaks, for an escaping whose line-break replacement is not `\n`) the chunks of the as-written escaping are those of the intended one |
| Generator.ProgramAgrees | stencil.js:119-197 | on such literal runs the whole program is that of the intended escaping |
| LiteralEscape.EscapeRoundTrip | stencil.js:22-23 | with the intended escaping, reading back the escaped literal text gives the original text, backslashes and quotes included, with CR LF normalised to LF (text without lone CRs) |
| LiteralEscape.QuotesEscapeAll | stencil.js:22 | after the intended quote pass the text is a sequence of backslash pairs and characters that are neither a backslash nor a quote, so no quote can end the literal |
| LiteralEscape.BackslashAsWritten | stencil.js:22 | as written, a backslash is not escaped: static text `\'` becomes `\\'`, which does not read back, and `\t` reads back as a TAB; the intended escaping reads `\'` back |
| LiteralEscape.AsWrittenAgrees | stencil.js:22-23 | on text without quotes and backslashes (and without line breaks, for another line-break replacement) the as-written escaping is the intended one |
| LiteralEscape.QuotePairAsWritten | stencil.js:22 | the quote expression as written leaves the first quote of `''` unescaped, so the generated string literal is broken |
| LiteralEscape.ContinuationDropsBreak | src/Template.js:24 | the newline replacement of src/Template.js turns a line break into a line continuation, which drops it from the value |
| LiteralEscape.LoneCarriageReturn | stencil.js:23 | a lone CR is not escaped, so the literal does not read back |
| Html.SafeTextIsEntityMap | stencil.js:236-239 | the five passes equal replacing each character by its entity in one pass |
| Html.SafeTextClean | stencil.js:236-239 | the escaped text contains no `"`, `'`, `<` or `>` |
| Html.SafeTextIdentity | stencil.js:236-239 | text without any of the five characters is unchanged |
| Html.SafeTextRoundTrip | stencil.js:236-239 | decoding the five entities restores the original text |
| Html.SafeAppend | stencil.js:236-239 | the escaping of a concatenation is the concatenation of the escapings |
| Stencil.Classify | stencil.js:146-174 | the kind is the first of safe, echo, nest, async whose suffix follows the start tag, else code; the safe body starts after the echo suffix's length |
| Stencil.TagsRegular | stencil.js:71-81 | the tags form a regular dialect exactly when the safe suffix is as long as the echo suffix and no suffix holds the stop tag's first character; the default tags do |
| Stencil.QuotePairCompiled | stencil.js:22 | the template `''` is one literal run, compiled as `print(''\'');`, whose string ends early; the intended escaping compiles `print('\'\'');` |
| Stencil.LiteralRound | stencil.js:131-142 | the static chunk emitted, and the position of the next start tag |
| Stencil.WrapDirective | stencil.js:146-174 | the directive's wrapping by kind and the continuation count |
| Stencil.CutOf | stencil.js:145-180 | the directive cut right after a start tag: the suffix tests pick its kind and body start, it is closed exactly when the stop tag is found (searched before the suffix is skipped), and scanning resumes after the stop tag and a line ending |
| Stencil.DirectiveRound | stencil.js:146-180 | given where the stop tag is (-1: none), the wrapped body, the continuation count, and where scanning resumes after the stop tag and a line ending, or -1 |
| Stencil.CompileRound | stencil.js:130-181 | one pass of the loop is one `Round` of the stencil.js dialect |
| Stencil.Compile | stencil.js:119-197 | the generated code is the program of the template's segmentation, static text escaped as written: `with` prefix and suffix without a parser, one `})` per nest/async directive |
| StencilOptions.MergedOn | stencil.js:65 | the merge adds exactly the fields that have defaults |
| StencilOptions.MergedField | stencil.js:65 | a truthy field is kept, a falsy or missing one takes the default, a field without a default is untouched |
| StencilOptions.MergedTruthy | stencil.js:65 | every field with a truthy default is truthy after the merge |
| StencilOptions.MergeIdempotent | stencil.js:61-67 | merging twice equals merging once |
| StencilOptions.MergeStep | stencil.js:65 | helper: merging one more field extends the merge by that field |
| StencilOptions.Options.MergeDefaults | stencil.js:64-66 | the in-place loop leaves the object equal to the merge of its old fields |
| StencilOptions.MergeOptions | stencil.js:61-67 | a string becomes `{ id }`, a falsy argument `{}`, an object is updated in place and returned, each merged with the defaults |
| StencilOptions.MergedTags | stencil.js:71-81 | after the merge the tags are strings and the start and stop tags are non-empty |
| StencilOptions.Lookup | stencil.js:32-33 | the cache is hit exactly for a truthy string id that has an entry, and the entry is returned |
| StencilOptions.LookupAfterStore | stencil.js:36 | a stored template is found under its id, and no other lookup changes |
| StencilOptions.Cache.Store | stencil.js:36 | the entry is set and no other entry changes |
| StencilOutput.Arrange | stencil.js:225-226 | with one callback it is `end` and nothing is streamed; with none, errors are rethrown |
| StencilOutput.Output.constructor | stencil.js:224-228 | the callbacks are arranged, and `result` starts empty |
| StencilOutput.Output.Emit | stencil.js:232-233 | `result` grows by the text; non-empty text goes to `data`; the streamed pieces still join to `result` |
| StencilOutput.Output.Print | stencil.js:230-234 | `print` appends the joined arguments and streams them when non-empty |
| StencilOutput.Output.PrintSafe | stencil.js:236-242 | `print.safe` does the same with the HTML-escaped text |
| StencilOutput.Output.End | stencil.js:244 | `print.end` reports the error and the current `result` |
| Templates.Classify | src/Template.js:152-175 | the kind is the first of echo, nest, async whose suffix follows the start tag, else code |
| Templates.BangEqualsIsNest | src/Template.js:68 | with the default suffixes, `<?!=` opens a nest, never an async block |
| Templates.TagsRegular | src/Template.js:152-175 | any non-empty start and stop tags form a regular dialect, as the stop tag is searched only after the suffix |
| Templates.LineBreakCompiled | src/Template.js:24 | the template `a` LF `b` is one literal run, compiled with a backslash before the raw line break; the intended escaping compiles `a\nb` |
| Templates.LiteralRound | src/Template.js:136-148 | the static chunk emitted, and the position of the next start tag |
| Templates.WrapDirective | src/Template.js:152-175 | the stop tag is searched from after the suffix; the directive's wrapping by kind and the continuation count |
| Templates.DirectiveRound | src/Template.js:150-181 | the wrapped body, and where scanning resumes after the stop tag and a line ending, or -1 |
| Templates.CompileRound | src/Template.js:136-182 | one pass of the loop is one `Round` of the src/Template.js dialect |
| Templates.CompileSource | src/Template.js:127-188 | the generated code is the program of the input's segmentation, static text escaped as written, ending with the completion event and one closer per nest/async directive |
| Templates.Template.constructor | src/Template.js:34-59 | each setting is taken from the argument when truthy, from the defaults otherwise; each event's list holds the `on<event>` function or is empty |
| Templates.Template.AddEventListener | src/Template.js:80-84 | for a known event the handler is appended to its list; for an unknown one nothing changes |
| Templates.Template.RemoveEventListener | src/Template.js:94-100 | as written: for a known event the list becomes what the `splice` loop leaves, which is `[fn]` when `fn` was registered and the unchanged list otherwise; for an unknown event nothing changes |
| Templates.Without | src/Template.js:97 | the intended removal leaves exactly the other handlers |
| Templates.WithoutSplit | src/Template.js:96-97 | the intended removal distributes over concatenation, so the other handlers keep their order |
| Templates.WithoutAbsent | src/Template.js:97 | removing a handler that is not registered changes nothing |
| Templates.SpliceLoopAsWritten | src/Template.js:96-97 | the loop as written computes `AsWrittenRemoval`, the passes of `SpliceStep` from the last position down |
| Templates.SpliceLoopSingle | src/Template.js:97 | helper: a list reduced to `[fn]` stays `[fn]` for the remaining passes |
| Templates.SpliceLoopPrefix | src/Template.js:96-97 | the passes over the first `i` positions leave `[fn]` when one of them holds `fn`, the list otherwise |
| Templates.AsWrittenRemovalKeeps | src/Template.js:96-97 | as written, removing a registered handler leaves the list `[fn]`, an unregistered one leaves it unchanged; it agrees with the intended removal exactly when `fn` is not registered |
| Templates.RemoveAsWrittenKeepsRemoved | src/Template.js:97 | removing `7` from `[7, 8]` as written leaves `[7]`; as intended it leaves `[8]` |
| Templates.Template.DispatchEvent | src/Template.js:109-115 | the handlers present when dispatch begins are called in registration order; an unknown event calls nothing |
| Templates.Calls | src/Template.js:113 | one call per handler, in order |
| Templates.Template.Compile | src/Template.js:124-194 | with a cached program `compile(true)` changes nothing; otherwise the program of the input, static text escaped as written, is stored and `compiled` fires |
| Templates.Template.Exec | src/Template.js:204-213 | `exec` compiles only when nothing is compiled, resets the output to empty and fires `exec` |
| Templates.Template.Echo | src/Template.js:222-225 | `echo` appends the joined arguments to the output (read as `null` before the first `exec`) and changes nothing else |
| Templates.Setting | src/Template.js:36-41 | `o[k] \|\| default`: a truthy string setting is used, otherwise the default |
| ServerTemplates.DefaultedPath | src/ServerTemplate.js:151 | an id ending in `/` gets `/index.html` appended; any other id is unchanged; the result never ends in `/` |
| ServerTemplates.DefaultedPathIdempotent | src/ServerTemplate.js:151 | defaulting twice equals defaulting once |
| ServerTemplates.DirectoryId | src/ServerTemplate.js:14 | `a/` names `a//index.html` |
| ServerTemplates.DropDots | src/ServerTemplate.js:75 | what remains after a run of dots starts with no dot and has the same non-dot characters |
| ServerTemplates.CollapseDots | src/ServerTemplate.js:75 | the collapse keeps the first character and never lengthens the path |
| ServerTemplates.CollapseNoDoubleDots | src/ServerTemplate.js:75 | after the collapse no two dots are adjacent |
| ServerTemplates.CollapseKeepsOthers | src/ServerTemplate.js:75 | the collapse only deletes dots; every other character is kept in order |
| ServerTemplates.CollapseIdentity | src/ServerTemplate.js:75 | a path without `..` is unchanged |
| ServerTemplates.CollapseIdempotent | src/ServerTemplate.js:75 | collapsing twice equals collapsing once |
| ServerTemplates.StepAsWritten | src/ServerTemplate.js:59-75 | as written, a template that has input and is not served from the cache throws |
| ServerTemplates.StepOf | src/ServerTemplate.js:59-75 | a cached program is used when asked for; otherwise input is compiled if present, else the collapsed path is read under the root |
| ServerTemplates.InputBranchThrows | src/ServerTemplate.js:67-71 | the written and intended branches differ exactly on templates with input not served from the cache |
| ServerTemplates.ServerTemplate.constructor | src/ServerTemplate.js:27-37 | the template settings as for a `Template` (input, the five tags with their defaults, one handler list per event, nothing compiled or fired), then `root` (working directory by default) and `path` (`/index.html` by default) |
| ServerTemplates.ServerTemplate.Compile | src/ServerTemplate.js:59-91 | as written: `compile(true)` with a program calls `next` once; a template with input throws before anything changes; otherwise the file is read and nothing changes yet |
| ServerTemplates.NextCall | src/ServerTemplate.js:62 | `next` is called once when given, not at all otherwise |
| ServerTemplates.GetTemplateByFilename | src/ServerTemplate.js:150-159 | a new template with empty input, whose path is the id with the trailing-slash rule applied, and whose root, tags and handler lists come from the settings as in the constructor; nothing is compiled, output or fired |

## Left out

- Turning the generated code into a function (`new Function`, `with(context)`) and running it: the compiled program is modelled as its text.
- The `without` rewrite of stencil.js (stencil.js:200-219): it works on the output of an external JavaScript parser. With a parser the model emits the code before that rewrite.
- Fetching templates: XHR, the DOM, `fs.stat` and `fs.readFile`. `ServerTemplates.ServerTemplate.Compile` stops at the `ReadFile` step.
- Joining the root and the path (`Path.join`): the step carries the root and the collapsed path separately.
- HTTP request handling and `ServerTemplate`'s `echo` and `exec`, which write to the response.
- The `console.log` of the generated code.
- The asynchronous runtime: `include` fetching and rendering child templates, `next`, `bind`.
- The working directory, `process.cwd()`, is a parameter.
- Handler functions are opaque handles. Dispatch records which handlers were called in `fired` instead of running them, so handlers that change the lists during a dispatch are not modelled. The extra arguments `dispatchEvent` passes on to its handlers (src/Template.js:111-113) are dropped: the dispatches the model performs (`compiled`, `exec`) pass none, and the `error` dispatches of the file branch, which pass the error, are outside the model.
- Callbacks (`data`, `end`) are opaque handles. `print.end` records its calls in `reports`.
- The array branch of the `Template` constructor (src/Template.js:53): it calls an unbound `toString`, which never yields `[object Array]`.
- Templates.Template.constructor: requires the string settings to be strings or falsy; options of other types (numbers, objects) are not modelled.
- ServerTemplates.GetTemplateByFilename: its settings are a map of options; passing a parent template object as the settings is not modelled.
- StencilOptions.TagsOf: option values other than strings are not given tags (`None`).
- Templates.Template.RemoveEventListener: event names are own keys only, as for `AddEventListener` below. The removal is the one as written (see Findings); the intended removal is `Templates.Without`, which no method uses.
- Templates.Template.AddEventListener: the handler table is a map over the four event names, so a lookup by a name such as `toString` or `constructor`, which JavaScript resolves to a truthy member of `Object.prototype`, is modelled as an unknown event rather than as a call on that member.
- Templates.Template.DispatchEvent: likewise, prototype members such as `toString` are not events; dispatching them is modelled as an unknown event.
- StencilOptions.Lookup: the cache is a map keyed by strings; ids that JavaScript would resolve through `Object.prototype` (`toString`, `constructor`) and numeric ids, which JavaScript coerces to strings, are not modelled.
- ServerTemplates.StepOf: the intended branches are kept beside the as-written ones for comparison; `ServerTemplates.ServerTemplate.Compile` follows the as-written branches, so its input branch throws.

- Templates.Template.Compile: the program is stored as text. In the source, `new Function` rejects generated code that does not parse (for example the code for the template `''`, see Findings) and throws before anything is stored and before `compiled` fires; the model does not capture that throw.
- Templates.Template.Exec: likewise, when the compile throws, the source passes the exception up before resetting the output and before `exec` fires; the model always resets and fires.
- StencilOutput.Output.Print: its arguments are taken as strings already converted as `Array.prototype.join` converts them (`null` and `undefined` as the empty string, numbers and objects through `ToString`); the conversion itself is not modelled.
- StencilOutput.Output.PrintSafe: arguments taken as already converted strings, as for `Print`.
- Templates.Template.Echo: arguments taken as already converted strings, as for `Print`.

## Findings

| source | as written | input that shows it | evidently intended | confidence | as-written member | corrected member |
|---|---|---|---|---|---|---|
| stencil.js:22 | `/([^\\])?'/g` also matches a quote together with the character before it, so in `''` the first quote is consumed unescaped | the template `''` compiles to `print(''\'');`, whose string literal ends early | the static text reads back as written | not executed | Stencil.QuotePairCompiled | LiteralEscape.QuotesEscapeAll |
| stencil.js:22 | a backslash in static text is copied unescaped, so it escapes the backslash the quote pass puts before a following quote, and that quote then ends the literal | static text `\'` becomes `\\'`, which ends the string literal; `\t` reads back as a TAB | every backslash is doubled, so the static text reads back as written | not executed | LiteralEscape.BackslashAsWritten | LiteralEscape.EscapeRoundTrip |
| src/Template.js:24 | a line break is replaced by a backslash and a raw LF, which is a line continuation in a string literal | the template `a` LF `b` compiles to a literal that reads back as `ab` | a line break is escaped as `\n`, as in stencil.js:23 | not executed | Templates.LineBreakCompiled | LiteralEscape.EscapeRoundTrip |
| src/Template.js:97 | `a = a.splice(i, 1)` replaces the list by the removed elements | removing `7` from `[7, 8]` leaves `[7]` | the handler is removed and the others stay | not executed | Templates.AsWrittenRemovalKeeps | Templates.Without |
| src/ServerTemplate.js:68 | the input branch compiles the undeclared variable `t` | a template with input `x`, not yet compiled, throws a ReferenceError | the template itself is compiled | not executed | ServerTemplates.StepAsWritten | ServerTemplates.StepOf |
