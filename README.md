# ComponentTagCompiler in Dafny

This project models `ComponentTagCompiler`, the source-to-source rewriter of the
Edge template tags plugin. It turns custom `<x-…>` tags into Edge directives:

- `<x-name attrs />` becomes `@component("path", { attrs })` followed by `@end`.
- `<x-name attrs>` becomes the same `@component` call.
- `</x-name>` becomes `@end`.
- `<x-slot …>` becomes `@slot(name[, props])`, and `</x-slot>` becomes `@end`.

The model takes the compiler's catalog of components as a parameter and is
stated on `seq<char>` throughout.

Modules, in dependency order:

- `Text` (text.dfy): `Option`/`Result`, the character classes of the
  regular expressions (`\w`, `\s`, `[\w-:.]`, `[^'"=<>\s]`, `[^x]`), and
  `Span`, the end of a greedy run.
- `Attributes` (attributes.dfy): the attribute extractor.
  - The insertion-ordered record with overwrite (`Put`).
  - The curly test and the `{{ … }}` splice.
  - The `attrPattern.exec` scan (`NextToken`) and the typing of one attribute (`Classify`).
  - The scan as a function (`AttributesOf`) and as the source's `while` loop
    (`GetAttributesFromAttributeString`).
  - `attributesToString`.
- `Paths` (paths.dfy): `componentString`.
  - The disk name, the group selection and the four probes.
  - A reference definition of the probing (`FirstListed`).
- `Patterns` (patterns.dfy): recognizers for the five regular expressions,
  each tried at the start of a suffix.
  - The attribute list is explored in the engine's backtracking order:
    value alternatives in the order written, unquoted values longest first,
    and the leading `\s*` giving back characters.
- `Compiler` (compiler.dfy): each global `replace` as a left-to-right scan
  (`Rewrite`), `compileSlots`, `compileTags` and `compile`, and the algebra
  of the scan:
  - text with no match is copied;
  - one replaced match inside inert text;
  - tag-free text is a fixed point.
- `Markup` (markup.dfy): well-formed attribute runs (`name="text"` with a
  name-character name and no `"` or `<` in the text), and the tag texts
  built from them.
  - The patterns read such tags exactly.
  - The extractor reads such runs into the reference record `Typed`.
- `Output` (output.dfy): what each pass and `compile` produce for such tags
  between inert texts, and the slot directive in its named, props, unnamed
  and failing forms.
- `Scenarios` (scenarios.dfy): the unit tests' inputs, with the
  surrounding text, tag names, attribute names and values left free.

Inert text is text in which every `<` is followed by neither `x` nor white
space, and, after `</`, again by neither. Plain text and ordinary HTML such as
`<div>` and `</p>` are inert.

The JavaScript `replace` callback that throws (`JSON.parse` of a bad `props`)
is modelled as `Err(PropsNotJson(text))` propagating out of the pass and out
of `compile`.

Points where the code does something one might not expect; the model follows the code:

- The extractor's regular expression (src/component-tag-compiler.ts:117) has
  no `{{ … }}` alternative, though the tag patterns have one. An unquoted
  template is read as a bare value, which stops at the first blank.
  - `size={{size}}` is still a template and gives `${size}`.
  - `size={{ size }}` is read in three parts. `size={{` stores the literal
    `"{{"`. The following ` size` is a second `size` with no value, which
    overwrites the first with `true` (line 136). Nothing matches in ` }}`.
    The attribute renders as `"size": true`.
- Every name starting with `:` is bound, `::class` included (`DoubleColonBinds`).
  The name keeps one colon and the value is copied unquoted. The test at
  test/index.test.ts:218-226 expects a quoted value instead.
- The probes of a disk tag repeat its disk name (`disk::disk::name`), because
  the probed path is built from the whole tag name. A disk tag therefore
  resolves to its full name unless the catalog lists one of the doubled
  `components/…` or `…/index` probes (`UnlistedTagKeepsName`,
  `DiskTagKeepsName`). Listing the doubled first probe `disk::disk::name`
  still gives `disk::name`, because the prefix is removed from it.
- `</x-slot…>` is any `</x-slot` or `</x:slot`, optionally after white space
  following `</`, up to the next `>`, so
  `</x-slots>` also closes a slot.
- A closing tag's name is not checked against the opening one (`PairCompiles`
  takes two names).

## Model

| member | source | states |
|---|---|---|
| Attributes.PutLookup | src/component-tag-compiler.ts:128-136 | after `attributes[key] = value` the key holds the new value, every other key keeps its value, and keys stay unique |
| Attributes.PutKeys | src/component-tag-compiler.ts:128-136 | an existing key keeps its position; a new key is appended (insertion order) |
| Attributes.Lookup | src/component-tag-compiler.ts:24-26 | a property read is absent exactly when no entry has the key, and a present value is the one stored under it |
| Attributes.HasMustacheIff | src/component-tag-compiler.ts:130 | the curly test succeeds iff some `{{` is closed by a `}}` with no line terminator between |
| Attributes.NoBraceNoMustache | src/component-tag-compiler.ts:130 | a value without `{` is never curly |
| Attributes.MustacheAt | src/component-tag-compiler.ts:133 | a match of `{{\s*([^}]+)\s*}}` is longer than four characters, lies inside the value and captures a non-empty expression |
| Attributes.SpliceIdentity | src/component-tag-compiler.ts:133 | without `{{` the splice leaves the value unchanged |
| Attributes.SpliceStep | src/component-tag-compiler.ts:133 | text without `{` before a `{{ blanks expr }}` is copied, the template becomes `${expr}` and the replace goes on after `}}`, so every template of a value is spliced |
| Attributes.SpliceTwo | src/component-tag-compiler.ts:133 | two templates in one value are both spliced and the text around them is kept |
| Attributes.SpliceSingle | src/component-tag-compiler.ts:133 | a single `{{ blanks expr }}` becomes `${expr}`: leading blanks dropped, trailing ones kept |
| Attributes.SingleMustache | src/component-tag-compiler.ts:130 | `{{inner}}` with no line terminator inside is curly |
| Attributes.TokenAt | src/component-tag-compiler.ts:117 | an attribute match at `i` has a non-empty name and ends after `i + 1`, inside the input |
| Attributes.NextToken | src/component-tag-compiler.ts:120 | the next match ends after `lastIndex` and inside the input, so the loop advances |
| Attributes.ScanFromUnique | src/component-tag-compiler.ts:120-138 | the scan never stores a key twice |
| Attributes.AttributesOf | src/component-tag-compiler.ts:111-114 | an empty attribute string gives the empty record; the record has unique keys |
| Attributes.GetAttributesFromAttributeString | src/component-tag-compiler.ts:111-141 | the `exec` loop returns the record `AttributesOf` describes, with unique keys |
| Attributes.AttributesToString | src/component-tag-compiler.ts:105-109 | the rendering is empty iff the record is, and one entry renders as `"key": value` |
| Attributes.AttributesToStringSnoc | src/component-tag-compiler.ts:105-109 | one more entry appends `, "key": value` to the rendering |
| Paths.DiskName | src/component-tag-compiler.ts:75 | a disk name is a non-empty word run at the start of the tag, followed by `::`; so a tag without `:` has none (`NoColonNoDisk`) |
| Paths.DiskNameOfPrefixed | src/component-tag-compiler.ts:75 | `disk::rest` has disk name `disk` |
| Paths.FindGroup | src/component-tag-compiler.ts:78-86 | the selected group is the first one that matches the disk name (or is a default group); with none, no group |
| Paths.DotsToSlashes | src/component-tag-compiler.ts:88 | same length; every `.` becomes `/` and every other character is kept, so a name without `.` is unchanged (`NoDotsKept`) |
| Paths.FirstListedIsFirstHit | src/component-tag-compiler.ts:90-100 | the probe result is a listed candidate whose predecessors are all unlisted, or the fallback with no candidate listed; a listed first probe wins (`FirstProbeListed`) |
| Paths.ComponentPath | src/component-tag-compiler.ts:88-100 | the if-chain of probes equals the reference first-listed candidate, falling back to the dots-to-slashes name |
| Paths.UnlistedTagKeepsName | src/component-tag-compiler.ts:88-100 | with no candidate listed the path is the dots-to-slashes name, and a disk tag keeps its `disk::` part |
| Paths.ListedNameKept | src/component-tag-compiler.ts:90-91 | a plain name listed in the default group resolves to itself |
| Paths.DiskTagKeepsName | src/component-tag-compiler.ts:75-100 | `disk::rest` listed on its disk, whose group lists no other name, resolves to `disk::rest` |
| Patterns.ListThenCloser | src/component-tag-compiler.ts:46 | a successful attribute list ends in the closer, inside the text, with `/` before `>` when self-closing |
| Patterns.ComponentTag | src/component-tag-compiler.ts:57 | a tag match starts a tag, ends with `>` (and `/>` when self-closing), and its name is made of name characters |
| Patterns.SlotOpening | src/component-tag-compiler.ts:17 | a slot opening match starts a tag and lies inside the text |
| Patterns.SlotClosing | src/component-tag-compiler.ts:33 | a slot closing match starts a tag and lies inside the text |
| Patterns.ClosingTag | src/component-tag-compiler.ts:68 | a closing-tag match starts a tag and lies inside the text |
| Compiler.JsonText | src/component-tag-compiler.ts:27 | a failure reports the rejected `props` text |
| Compiler.JsonTextOfLiteral | src/component-tag-compiler.ts:27 | a quoted literal with a plain body parses back to its body |
| Compiler.Recognize | src/component-tag-compiler.ts:19-31 | a match starts a tag and has a length inside the text; only the slot opening replacement can fail |
| Compiler.Rewrite | src/component-tag-compiler.ts:47-50 | every pass except slot opening always succeeds |
| Compiler.RewriteUnmatchedUpTo | src/component-tag-compiler.ts:59 | unmatched positions are copied one character at a time |
| Compiler.RewriteUnmatched | src/component-tag-compiler.ts:59 | with no match anywhere, the pass returns its input |
| Compiler.RewriteInert | src/component-tag-compiler.ts:47 | an inert prefix is copied and the scan continues after it |
| Compiler.ReplaceOne | src/component-tag-compiler.ts:59-62 | one match between inert texts is replaced and the texts around it are copied |
| Compiler.SkipOne | src/component-tag-compiler.ts:68 | a tag-like text the pass does not match, between inert texts, is copied |
| Compiler.FailAfter | src/component-tag-compiler.ts:27 | a failing `props` aborts the whole pass |
| Compiler.RewriteTagFree | src/component-tag-compiler.ts:33 | a tag-free text is a fixed point of every pass; inert text is tag-free (`InertTagFree`) |
| Compiler.CompileTagFree | src/component-tag-compiler.ts:10-13 | `compile` returns a tag-free text unchanged |
| Compiler.CompileIdempotentOnTagFreeOutput | src/component-tag-compiler.ts:10-13 | when `compile`'s output is tag-free, compiling it again changes nothing |
| Markup.ListOfQuoted | src/component-tag-compiler.ts:57 | the tag pattern's attribute list reads a well-formed attribute run exactly, ending where the run ends |
| Markup.TokenStep | src/component-tag-compiler.ts:117 | the extractor's next match on a well-formed attribute is its name and value, ending after its closing quote |
| Markup.ScanOfQuoted | src/component-tag-compiler.ts:120-138 | the extractor loop reads a well-formed run into the reference record `Typed` |
| Markup.AttributesOfQuoted | src/component-tag-compiler.ts:111-141 | the extractor of a well-formed run is the reference record |
| Markup.SelfClosingMatches | src/component-tag-compiler.ts:46 | the self-closing pattern reads `<x-name attrs />` exactly, whatever follows |
| Markup.OpeningMatches | src/component-tag-compiler.ts:57 | the opening pattern reads `<x-name attrs>` exactly, and the self-closing pattern does not take it |
| Markup.OpeningTakesSelfClosing | src/component-tag-compiler.ts:46-57 | the opening pattern also takes the self-closing `<x-a b=c/>`, reading the value `c/`, so the self-closing pass must run first; the self-closing pattern reads the value `c` |
| Markup.ClosingMatches | src/component-tag-compiler.ts:68 | `</x-name>` is a closing tag and neither tag pattern takes it |
| Markup.SlotPatternsSkipTags | src/component-tag-compiler.ts:17 | the slot patterns take no self-closing or opening tag whose name does not start with `slot`, or continues `slot` with a name character other than `:` (`slot-item`, `slotted`) |
| Markup.SlotPatternsSkipClosing | src/component-tag-compiler.ts:33 | the slot patterns take no closing tag whose name does not start with `slot` |
| Markup.SlotOpeningMatches | src/component-tag-compiler.ts:17 | `<x-slot attrs>` is a slot opening with no inline name and the attributes as written |
| Markup.InlineSlotOpeningMatches | src/component-tag-compiler.ts:17 | `<x-slot:word attrs>` is a slot opening whose inline name is `word` |
| Markup.SlotEndMatches | src/component-tag-compiler.ts:33 | `</x-slot>` is a slot closing and not a slot opening |
| Output.SelfClosingRecognized | src/component-tag-compiler.ts:44-53 | the self-closing pass replaces `<x-name attrs />` by the call with the reference record |
| Output.OpeningRecognized | src/component-tag-compiler.ts:55-65 | the self-closing pass skips `<x-name attrs>` and the opening pass replaces it |
| Output.ClosingRecognized | src/component-tag-compiler.ts:67-69 | `</x-name>` survives the first two passes and the closing pass turns it into `\n@end\n` |
| Output.SelfClosingCompiles | src/component-tag-compiler.ts:36-42 | `compileTags` of a self-closing tag between inert texts copies the texts and emits the call and `@end` |
| Output.PairCompiles | src/component-tag-compiler.ts:36-42 | `compileTags` of an opening tag, inert body and closing tag emits the call, the body and `@end` |
| Output.CompileSelfClosing | src/component-tag-compiler.ts:10-13 | `compile` of a self-closing tag whose name is not a slot opening's (see SlotPatternsSkipTags), between inert texts, succeeds with the texts copied around the call and `@end` |
| Output.CompilePair | src/component-tag-compiler.ts:10-13 | `compile` of a tag pair whose opening name is not a slot opening's and whose closing name does not start with `slot`, around an inert body, succeeds with the call, the body and `@end` |
| Output.SlotClosePass | src/component-tag-compiler.ts:33 | `</x-slot>` between inert texts becomes `\n@end` |
| Output.SlotBlock | src/component-tag-compiler.ts:15-34 | a slot block compiles to the directive, the body and `\n@end`, or fails when the directive fails |
| Output.SlotCompiles | src/component-tag-compiler.ts:19-31 | `<x-slot attrs>` … `</x-slot>` compiles to its directive, or fails with the directive's error |
| Output.SlotNamed | src/component-tag-compiler.ts:24-30 | `name="v"` gives `@slot("v")` |
| Output.SlotNamedWithProps | src/component-tag-compiler.ts:26-27 | `name="v" props="p"` gives `@slot("v", p)` |
| Output.SlotEmptyProps | src/component-tag-compiler.ts:26-27 | an empty `props` is typed `true` and gives `@slot("v", true)` |
| Output.SlotTemplatePropsFail | src/component-tag-compiler.ts:27 | a curly `props` template is rejected by `JSON.parse` |
| Output.SlotBoundPropsFail | src/component-tag-compiler.ts:27 | a bound `props` that is no JSON text (it starts with a letter, holds no blank and is none of `true`, `false`, `null`) makes the compilation fail with that text |
| Output.SlotUnnamed | src/component-tag-compiler.ts:24 | a slot without a name gives `@slot(undefined)` |
| Output.InlineSlotNamed | src/component-tag-compiler.ts:24 | a non-empty inline name wins, quoted |
| Output.InlineSlotCompiles | src/component-tag-compiler.ts:17-33 | `<x-slot:word>` … `</x-slot>` compiles to `@slot("word")`, the body and `\n@end` |
| Output.AttributesOfPair | src/component-tag-compiler.ts:120-138 | two attributes with different keys are typed in order |
| Output.NamedSlotCompiles | test/index.test.ts:47-54 | `<x-slot name="v">` body `</x-slot>` compiles to `@slot("v")\n`, the body and `\n@end` |
| Output.PropsSlotCompiles | test/index.test.ts:56-64 | with `props="p"` the directive is `@slot("v", p)` |
| Scenarios.BareSelfClosing | test/index.test.ts:66-71 | `<x-name />` becomes `@component("path", {  })` and `@end`, for any catalog |
| Scenarios.ListedSelfClosing | test/index.test.ts:91-96 | a listed `<x-name />` inside inert markup keeps its name as the path |
| Scenarios.BarePair | test/index.test.ts:195-216 | `a<x-name> body </x-name>b` copies `a`, the body and `b` around the call and `@end` |
| Scenarios.ListedPair | test/index.test.ts:195-216 | the same for a listed name, whose path is the name itself |
| Scenarios.MixedAttributes | test/index.test.ts:73-80 | a literal, a bound and a curly attribute are typed as `"v"`, raw and `${expr}` in order |
| Scenarios.MixedSelfClosing | test/index.test.ts:73-89 | the self-closing tag with those three attributes renders them in order |
| Scenarios.MixedPair | test/index.test.ts:98-107 | the opening tag with those three attributes, a body and a closing tag |
| Scenarios.DiskSelfClosing | test/index.test.ts:175-182 | `<x-disk::name />` resolves to `disk::name` |
| Scenarios.DiskPair | test/index.test.ts:184-193 | the same for a tag pair |
| Scenarios.DoubleColonBinds | src/component-tag-compiler.ts:125-128 | `::name="text"` is stored as bound `:name` with the raw text |

## Left out

- src/index.ts, the plugin registration: it calls the host engine's registration API and a once-only flag, and has no logic of its own.
- The constructor and `make`: the class has no mutable state, and the instance contributes only its catalog, here the `catalog` parameter.
- `edge.loader.listComponents()`: the component catalog is a parameter, a sequence of groups. The test's `getEdgeComponents` override is never called by the compiler.
- Compiler.JsonText: models `JSON.parse` only on a quoted literal whose body has no quote, backslash or control character, and on `true`, `false` and `null`. Every other text is reported as a failure, including numbers, objects, escapes and surrounding white space, which `JSON.parse` accepts.
- Attributes.Put: uses insertion order for every key. A JavaScript object lists integer-like keys first in ascending order, and treats `__proto__` specially; neither is modelled.
- The thrown `SyntaxError` is modelled as `Err(PropsNotJson(text))`, without its message.
- Strings are sequences of Unicode scalar values, not UTF-16 code units. Positions can differ for characters outside the Basic Multilingual Plane.
- The rendering tests (test/index.test.ts:109-173) exercise the host engine's evaluator, not the compiler.
- Only the compiler's own regular expressions are modelled, as recognizers. The general regular-expression engine is not.
- Tag texts other than the well-formed attribute runs (single-quoted, unquoted or `{{ … }}` values, or several blanks between attributes) are covered by the recognizers, but not by exact-output lemmas.
