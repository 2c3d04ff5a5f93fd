# Temml: delimiter segmentation and procedural macros, in Dafny

This project models two parts of Temml, the LaTeX-to-MathML converter, and
proves properties of the model.

**The auto-render extension's delimiter scan** (`src/auto-render.js`):
- `findEndOfMath` searches for a closing delimiter while tracking brace
  depth, skipping the character after each backslash.
- `splitAtDelimiters` cuts a text into plain-text and math segments.
- `amsRegex` marks AMS environments and references, whose delimiters stay
  in the math.
- The delimiter presets and `delimitersFromKey` choose a delimiter list.

**The procedural built-in macros of `src/macros.js`**:
- `defineMacro` and the macro tools `\noexpand`, `\@firstoftwo`,
  `\@secondoftwo`, `\@ifnextchar` and `\TextOrMath`.
- `stringFromArg`.
- `\char`, with `digitToNumber`, `nextCharNumber` and `appendCharNumbers`.
- AMS automatic dots: `dotsByToken`, `\dots`, `spaceAfterDots`, `\dotso`,
  `\dotsc` and `\cdots`.
- `\tag@literal` and `\newextarrow`.

The modules follow the source:

| module | models |
|---|---|
| `MathScanner` (`scanner.dfy`) | `findEndOfMath` |
| `Segmentation` (`segmentation.dfy`) | `splitAtDelimiters` and `amsRegex` |
| `DelimiterPresets` (`delimiter_presets.dfy`) | the delimiter lists and `delimitersFromKey` |
| `ExpansionContext` (`expansion_context.dfy`) | the part of the macro expander's context that the procedures use, plus `stringFromArg` |
| `MacroTools` (`macro_tools.dfy`) | the macro tools |
| `CharNumerals` (`char_numerals.dfy`) | `\char` |
| `Dots` (`dots.dfy`) | automatic dots |
| `DynamicDefinitions` (`dynamic_definitions.dfy`) | `defineMacro`, `\tag@literal` and `\newextarrow` |
| `Results` (`results.dfy`) | `Option` and `Result` |

How the JavaScript is represented:
- A procedure that throws a `ParseError` returns `Failure` with a
  `MacroError`.
- A procedure that returns a string or a token list returns `Success` with
  a `Step`: the expansion together with the context it leaves behind.
- Tokens are kept in reading order. The expander stores argument tokens
  reversed; `stringFromArg` walks that array from the end, which here means
  reading the argument front to back.
- `NaN` is `None`.

## Model

| member | source | states |
|---|---|---|
| MathScanner.Stops | src/auto-render.js:12-26 | The positions the scan examines, with their brace levels. It starts at the start index with level 0. Each next position skips one extra character after a backslash. `{` raises the level and `}` lowers it. |
| MathScanner.EndFrom | src/auto-render.js:4-29 | An answer lies at or after the start, inside the text, and the delimiter occurs there. |
| MathScanner.EndFromNone | src/auto-render.js:12-28 | The search returns "not found" (-1) exactly when no examined position is at level ≤ 0 with the delimiter there. |
| MathScanner.EndFromFirstHit | src/auto-render.js:12-16 | When the search answers, the answer is the first examined position at level ≤ 0 where the delimiter occurs. |
| MathScanner.EndOfMath | src/auto-render.js:4-29 | `findEndOfMath` answers only with a position at or after the start index, inside the text, where the delimiter occurs. When the delimiter occurs at the start index itself, that index is the answer, since the brace level is still 0 there. From a start at or past the end it finds nothing. |
| MathScanner.FindEndOfMath | src/auto-render.js:4-29 | The index loop as written returns -1 exactly when the search finds nothing. Otherwise it returns the search's answer, an index at or after `startIndex` where the delimiter occurs. |
| MathScanner.LevelCountsUnescapedBraces | src/auto-render.js:17-23 | The level at each examined position is the number of `{` minus `}` among the earlier examined characters, so escaped braces never count. |
| MathScanner.EscapedCharNeverExamined | src/auto-render.js:17-18 | The character after an examined backslash is never examined. It is neither compared with the delimiter nor counted as a brace. |
| MathScanner.StopsIncreasing | src/auto-render.js:12-26 | Examined positions strictly increase. |
| MathScanner.EndFromPrefix | src/auto-render.js:4-29 | Cutting the text anywhere after the closing delimiter does not change the answer: the scan never looks past its answer. |
| Segmentation.AmsPrefixed | src/auto-render.js:35 | `amsRegex` holds exactly when the slice begins with a backslash, then one of the names `begin`, `ref` or `eqref`, then `{`. |
| Segmentation.Split | src/auto-render.js:37-84 | `splitAtDelimiters` returns no segment exactly for the empty text, and never more segments than the text has characters. |
| Segmentation.SplitFromLeft | src/auto-render.js:57-74 | From a point where a left delimiter starts the text, the split yields at least one segment, and no more segments than the text has characters. |
| Segmentation.SearchLeft | src/auto-render.js:41-46 | `text.search` over the alternation of left delimiters returns the least index where some left delimiter occurs, and "none" when there is no such index. |
| Segmentation.Chosen | src/auto-render.js:58 | `findIndex` picks a delimiter whose left starts the text, and no earlier delimiter in the list has that property. |
| Segmentation.SplitRoundTrip | src/auto-render.js:45-83 | Text segments, followed by each math segment's `rawData`, concatenate back to the input exactly. |
| Segmentation.SplitFromLeftRoundTrip | src/auto-render.js:58-81 | The same round trip from a point where the text starts with a left delimiter, including the unterminated case. |
| Segmentation.NoDelimiterNoMath | src/auto-render.js:46-49 | Text containing no left delimiter becomes one text segment, or no segment when it is empty. |
| Segmentation.SplitSegments | src/auto-render.js:45-83 | Every text segment is non-empty. A text segment contains no left delimiter, unless it is the last segment and starts with one (an opening delimiter with no closing one). Every math segment satisfies `MathSegmentBuilt`. |
| Segmentation.SplitFromLeftSegments | src/auto-render.js:58-81 | The same segment properties for the part of the split that starts at a left delimiter. |
| Segmentation.MathSegmentBuilt | src/auto-render.js:58-72 | A math segment was opened by the first delimiter in list order whose left prefixes its `rawData`. |
| Segmentation.MathAtDelimited | src/auto-render.js:59-71 | A math segment's `rawData` starts with the left delimiter and ends with the right one, and its display flag is the delimiter's. For an AMS slice, `data` is `rawData`. Otherwise `data` is the part between the delimiters. Scanning `rawData` alone finds its closing delimiter at its end. |
| Segmentation.MathAtShape | src/auto-render.js:63-66 | The `rawData` and `data` slices as cut from the text: `data` equals `rawData` exactly when `amsRegex` matches. |
| Segmentation.ClosingFound | src/auto-render.js:59-63 | The closing delimiter found in the rest of the text is found again when only the math slice is scanned. |
| Segmentation.ChosenIsLongest | src/auto-render.js:58 | When no left is listed after a left it is a proper prefix of, the chosen left is the longest one that starts the text (`$$` before `$`). |
| Segmentation.CommonPrefix | src/auto-render.js:58 | Of two lefts that both start the text, the shorter is a prefix of the longer. |
| DelimiterPresets.DelimitersFromKey | src/auto-render.js:136-149 | A key outside the six recognised keys selects the default list. Every list returned is non-empty and has only non-empty lefts, so the splitter can use it. |
| DelimiterPresets.UnknownKeyIsDefault | src/auto-render.js:136-149 | Any key other than `$`, `(`, `$+`, `(+`, `ams` or `all` selects the default list. |
| DelimiterPresets.PresetsAreGood | src/auto-render.js:86-149 | Every list `delimitersFromKey` can return has only non-empty lefts, and lists a left after every left it is a proper prefix of ("$ must come after $$"). |
| DelimiterPresets.EnvironmentsAreGood | src/auto-render.js:122-131 | Of the nine `\begin{…}` lefts, none is a proper prefix of another, in either direction. The list is therefore prefix-ordered. |
| DelimiterPresets.BraceClosedNoPrefix | src/auto-render.js:122-131 | A left that ends with its only `}` is never a proper prefix of another such left. |
| DelimiterPresets.Separated | src/auto-render.js:136-149 | Two lists whose lefts differ at a fixed position cannot prefix one another, so concatenating presets keeps them ordered. |
| DelimiterPresets.PrefixOrderedAppend | src/auto-render.js:139-145 | `concat` of two well-ordered lists is well ordered when no left of the first list is a proper prefix of a left of the second. |
| ExpansionContext.PopToken | src/macros.js:156-164 | `popToken` yields the next token and the input after it. At the end of the input it yields the `EOF` sentinel and consumes nothing. Mode and macros are unchanged. |
| ExpansionContext.Future | src/macros.js:131-133 | `future` yields the token that `popToken` would yield, without consuming it. |
| ExpansionContext.ConsumeSpaces | src/macros.js:65-71 | `consumeSpaces` drops exactly the leading space tokens, leaves the rest in place, and leaves a non-space token (or nothing) in front. |
| ExpansionContext.StringFromArg | src/macros.js:96-103 | A one-token argument gives exactly that token's text. |
| ExpansionContext.StringFromArgAppend | src/macros.js:96-103 | `stringFromArg` of a concatenation is the concatenation of the two strings. |
| ExpansionContext.StringFromSingleChars | src/macros.js:96-103 | For single-character tokens, `stringFromArg` spells the tokens in reading order, one character each. |
| MacroTools.NoExpand | src/macros.js:28-38 | `\noexpand` consumes one token and returns it alone. The token is marked `noexpand` and `treatAsRelax` exactly when it is expandable; otherwise it is returned unchanged. |
| MacroTools.NoExpandIdempotent | src/macros.js:28-38 | The marks only add the `noexpand` and `treatAsRelax` flags to the popped token and keep its text. Applying `\noexpand` again to its own result changes nothing. |
| MacroTools.FirstOfTwo | src/macros.js:53-56 | `\@firstoftwo` expands to its first argument unchanged, with no parameters. It consumes nothing beyond its two arguments, and the second is dropped. |
| MacroTools.SecondOfTwo | src/macros.js:60-63 | `\@secondoftwo` expands to its second argument unchanged, with no parameters. It consumes nothing beyond its two arguments, and the first is dropped. |
| MacroTools.SelectorsMirror | src/macros.js:51-63 | `\@firstoftwo{a}{b}` is `\@secondoftwo{b}{a}`, and the other way round. |
| MacroTools.TextOrMath | src/macros.js:86-94 | `\TextOrMath` expands to its first argument in text mode and to its second otherwise, with nothing more consumed. |
| MacroTools.TextOrMathSelects | src/macros.js:86-94 | `\TextOrMath` behaves as `\@firstoftwo` in text mode and as `\@secondoftwo` in math mode. |
| MacroTools.IfNextChar | src/macros.js:65-78 | `\@ifnextchar` consumes only the leading spaces. It gives the second argument exactly when the first argument is one token with the text of the first non-space token (`EOF` at the end), and the third argument otherwise. |
| MacroTools.NextAfterSpaces | src/macros.js:71-72 | After `consumeSpaces`, `future()` is the first non-space token of the input. |
| MacroTools.IfNextCharIsSelector | src/macros.js:65-78 | `\@ifnextchar` equals `\@firstoftwo` or `\@secondoftwo` of its branches, applied after the spaces. |
| CharNumerals.DigitToNumber | src/macros.js:106-129 | Every value the digit table gives is below 16. |
| CharNumerals.DigitTableExact | src/macros.js:105-129 | `digitToNumber` is defined exactly on `0`–`9`, `a`–`f` and `A`–`F`, and maps each to its position among the sixteen digits. |
| CharNumerals.DigitRoundTrip | src/macros.js:105-129 | Each value below 16 is read back from its lower-case and upper-case digit. |
| CharNumerals.AppendCharNumbers | src/macros.js:137-144 | A `NaN` number stays `NaN`. |
| CharNumerals.FoldNaN | src/macros.js:138-142 | Folding characters onto a number gives a number exactly when it starts from a number and every character is a digit. |
| CharNumerals.AppendNaN | src/macros.js:137-144 | `appendCharNumbers` gives a number exactly when it is given one and every character after the first is a digit. A character outside the table makes it `NaN`. |
| CharNumerals.FoldIsHorner | src/macros.js:137-144 | Folding digits onto a number as `appendCharNumbers` does gives the positional value of the whole string, with `NaN` absorbing. |
| CharNumerals.TokenStep | src/macros.js:187-190 | One loop turn, shift in the first digit and then append the rest, appends the token's text to the positional value. |
| CharNumerals.FirstTokenValue | src/macros.js:179-184 | The value after the first token is the positional value of its text. |
| CharNumerals.NextCharNumber | src/macros.js:131-135 | For every base, the digit returned is defined and below the base exactly when the next token is not `EOF` and begins with a digit below the base. A defined digit comes with that token's text. |
| CharNumerals.RunLength | src/macros.js:186-193 | The length of the maximal run of tokens that are not `EOF` and whose first character is a digit below the base. |
| CharNumerals.ReadDigits | src/macros.js:185-193 | The loop leaves mode and macros alone. It stops before a token that does not continue the number, and a `NaN` number stays `NaN`. |
| CharNumerals.ReadDigitsSpec | src/macros.js:185-193 | The `while` loop consumes exactly the maximal run of digit tokens and stops before the first other token. The number becomes the positional value of everything read. |
| CharNumerals.ReadDigitsConsumes | src/macros.js:185-193 | Whatever the number so far, the loop leaves the input just after the run. |
| CharNumerals.ReadDigitsStep | src/macros.js:187-192 | One iteration consumes one digit token and appends its text. |
| CharNumerals.ReadDigitsStop | src/macros.js:187 | When the next token does not continue the run, the loop consumes nothing and keeps the number. |
| CharNumerals.NatToDecimal | src/macros.js:195 | The printed number has at least one character, consists of decimal digits only, and has no leading zero. |
| CharNumerals.CharDirective | src/macros.js:195 | The expansion is `\@char{` and `}` around the number's text. Reading that text back in base 10 gives the number, and `NaN` prints as `NaN`. |
| CharNumerals.DecimalRoundTrip | src/macros.js:195 | Reading the printed number in base 10 gives the number back. |
| CharNumerals.ParseBase | src/macros.js:177-195 | The base branch fails, with `Invalid base-b digit`, exactly when the first token's first character is not a digit below the base. On success it leaves the input just after the maximal run. |
| CharNumerals.ParseBaseValue | src/macros.js:177-195 | The code is the value, in the base, of the first token's text followed by the texts of the consumed digit tokens. |
| CharNumerals.CharMacro | src/macros.js:155-196 | `\char` succeeds with `\@char{…}`. Otherwise it fails with one of the four errors it can raise. It raises the missing-argument error exactly when the first token is `` ` `` and the next is `EOF`. |
| CharNumerals.CharCode | src/macros.js:165-173 | `` \char` `` fails exactly at `EOF`. Otherwise it gives the code of the token's first character, or of its second when the token starts with a backslash, and consumes that token. |
| CharNumerals.CharInBase | src/macros.js:155-195 | The base prefix and a run of digit tokens followed by a non-digit give `\@char{v}`. Here `v` is the run's value in that base, and the input is left just after the run. |
| CharNumerals.CharSelectsBase | src/macros.js:156-176 | `'` selects base 8 and `"` base 16, each consuming the prefix. Any other token except `` ` ``, or the end of the input, selects base 10 and is not consumed. `\char` is then the base branch on the token after the prefix, whatever it is, the `EOF` sentinel included. |
| CharNumerals.CharInvalidDigit | src/macros.js:156-183 | After the prefix, `\char` fails exactly when the next token, or `EOF` at the end, does not begin with a digit below the selected base. The error is `Invalid base-b digit` for that base. |
| CharNumerals.RunParse | src/macros.js:177-195 | The base branch on a run of digit tokens consumes exactly the run and yields its value. |
| CharNumerals.RunOfDigits | src/macros.js:187-193 | A run of digit tokens followed by a non-digit is a maximal run. |
| CharNumerals.DigitsHaveValue | src/macros.js:137-144 | Single-character digit tokens always have a value: no `NaN`. |
| CharNumerals.CharBacktick | src/macros.js:165-173 | `` \char`c `` is the code of `c`, and `` \char`\c `` the code of the character after the backslash. |
| CharNumerals.CharBacktickAtEnd | src/macros.js:169-170 | `` \char` `` at the end of the input raises the missing-argument error. |
| CharNumerals.HexAtEndIsNaN | src/macros.js:131-135 | As written, `\char"` at the end of the input yields `\@char{NaN}`; the input has the token shapes assumed by `LexerShaped`. |
| CharNumerals.HexPrefixAtEnd | src/macros.js:162-164 | `\char"` at the end pops the `EOF` sentinel as its first digit token. |
| CharNumerals.EofReadsAsNaN | src/macros.js:179-184 | The hexadecimal branch accepts `EOF`, because `E` is the digit 14. The `O` that follows makes the number `NaN`. |
| CharNumerals.NaNDirective | src/macros.js:195 | A `NaN` code prints as `\@char{NaN}`. |
| CharNumerals.CharMacroChecked | src/macros.js:177-183 | The corrected `\char` raises `Invalid base-16 digit` for `\char"` at the end of the input, and `Invalid base-8 digit` for `\char'`. |
| CharNumerals.CheckedCharIsNumber | src/macros.js:155-196 | For input whose tokens have the shapes `LexerShaped` assumes (one character, or a backslash and more), every success of the corrected `\char` carries a number, never `NaN`. |
| CharNumerals.ParseBaseIsNumber | src/macros.js:177-195 | For input of the shapes `LexerShaped` assumes, a success of the base branch carries the run's numeric value. |
| Dots.DotsChoice | src/macros.js:326-344 | `\dots` always chooses one of `\dotsb`, `\dotsc`, `\dotsi`, `\dotsx` and `\dotso`, and a token in `dotsByToken` decides by the table. |
| Dots.TableVariants | src/macros.js:269-324 | Every `dotsByToken` entry names a variant other than the fallback `\dotso`. |
| Dots.DotsBinaryExactly | src/macros.js:326-344 | `\dots` is `\dotsb` exactly when the table says so. For a token outside the table, it is `\dotsb` exactly when the token starts with `\not` or is a `bin` or `rel` math symbol. |
| Dots.DotsOtherExactly | src/macros.js:332-343 | `\dots` falls back to `\dotso` exactly when no rule applies. |
| Dots.GroupsOnlyBreakTies | src/macros.js:334-341 | Symbol groups are consulted only for tokens that neither the table nor the `\not` rule decides. |
| Dots.Dotso | src/macros.js:371-378 | `\dotso` is `\ldots\,` exactly when the next token is in `spaceAfterDots`, and `\ldots` otherwise. It consumes nothing. |
| Dots.Dotsc | src/macros.js:380-389 | `\dotsc` adds the thin space exactly before a token in `spaceAfterDots` other than a comma. |
| Dots.Cdots | src/macros.js:391-398 | `\cdots` is `\@cdots\,` exactly when the next token is in `spaceAfterDots`. |
| Dots.DotscDiffersOnlyAtComma | src/macros.js:371-389 | `\dotsc` and `\dotso` agree exactly when the next token is not a comma. |
| Dots.CdotsSpacedLikeDotso | src/macros.js:371-398 | `\cdots` adds its thin space exactly when `\dotso` does. |
| DynamicDefinitions.DefineMacro | src/macros.js:21-23 | `defineMacro` binds the name to the body, adds only that key, and keeps every other entry. |
| DynamicDefinitions.DefineMacroLastWins | src/macros.js:21-23 | Defining the same name twice keeps the later body. |
| DynamicDefinitions.DefineMacroCommutes | src/macros.js:21-23 | Definitions of different names may be made in either order. |
| DynamicDefinitions.TagLiteral | src/macros.js:460-465 | `\tag@literal` fails with `Multiple \tag` exactly when `\df@tag` is defined to something truthy. Otherwise it expands to the `\gdef` of `\df@tag` and consumes nothing. |
| DynamicDefinitions.SecondTagFails | src/macros.js:460-465 | Once the `\gdef` of a successful tag has run, a second `\tag@literal` fails. |
| DynamicDefinitions.SplitOn | src/macros.js:622 | `split(",")` returns at least one piece, none containing a comma, and joining the pieces with commas gives the string back. |
| DynamicDefinitions.SplitJoin | src/macros.js:622 | Splitting a comma-join of comma-free pieces returns the pieces. |
| DynamicDefinitions.ArrowMacro | src/macros.js:618-632 | `\newextarrow` fails on an empty name argument, then on bad spacing, then on a non-numeric character code. Each error is stated as an if-and-only-if. On success it defines the last name token to `\ext@arrow{l}{r}{code}{#1}` and expands to nothing. |
| DynamicDefinitions.NewExtArrow | src/macros.js:623-625 | As written, the spacing is rejected exactly when it does not split into two pieces, or when the first piece is non-empty and not numeric. |
| DynamicDefinitions.NewExtArrowChecked | src/macros.js:623-625 | The corrected check rejects the spacing unless it splits into two numeric pieces. |
| DynamicDefinitions.NonNumericRightSpacingAccepted | src/macros.js:623 | `\newextarrow{\name}{2,x}{8594}` defines the arrow as written and is rejected by the corrected check. |

## Left out

- The DOM traversal and rendering of the auto-render extension (`renderMathInText`, `renderElem`, option handling) is not part of this model.
- `escapeRegex` and `RegExp` construction are not modelled. The alternation search is stated directly as `Segmentation.SearchLeft`, the least index where a left occurs. Escaping makes each left match literally, which is what `OccursAt` states.
- `Segmentation.Split` requires a non-empty list with non-empty lefts. With an empty list the alternation matches the empty string, and `findIndex` yields -1, so the source throws on `delimiters[-1]`. An empty left matches everywhere. Every preset meets the requirement (`DelimiterPresets.PresetsAreGood`).
- `\expandafter` is not modelled. It calls the expander's `expandOnce`, whose code is not part of this model.
- `consumeArgs` and the rest of the `MacroExpander` are not modelled. Consumed arguments are a parameter, and the error for a missing argument belongs to the expander.
- MacroTools.NoExpand: tokens are values, so the in-place marking of the popped token object is not modelled. The marked token is returned as a changed copy. Other holders of the same object, such as a stored macro body whose tokens the expander pushes by reference, do not see the `noexpand` and `treatAsRelax` marks here.
- `isExpandable` in `\noexpand` and `Number` parsing (`isNaN`) in `\newextarrow` are parameters.
- `expandAfterFuture` in `\dots` is not modelled: the text of the expanded next token is a parameter. `symbols.math` is a map from symbol to group.
- Templates defined by string (`\dotsb`, `\dotsi`, `\tag`, `\tag@paren` and the rest) are data for the expander and are not modelled.
- JavaScript's `in` also finds inherited keys such as `toString`. The maps and sets here hold only the listed keys.
- Strings are sequences of characters. UTF-16 code units, surrogate pairs and `charCodeAt` on astral characters are not distinguished.
- CharNumerals.NatToDecimal: does not model JavaScript's double precision or its exponent notation for large numbers. Codes are unbounded naturals printed in plain decimal.
- ExpansionContext.StringFromArg: its own contract states only the one-token case. Joining longer arguments is stated by `StringFromArgAppend` and `StringFromSingleChars`.
- CharNumerals.AppendCharNumbers: its own contract states only that `NaN` stays `NaN`. Its value is stated by `FoldIsHorner` and `TokenStep`, and exactly when it is `NaN` by `AppendNaN`.
- CharNumerals.DigitToNumber: the lookup object is written as character ranges. Together with `DigitTableExact`, this gives the same sixteen digits in both cases.
- DynamicDefinitions.ArrowMacro: the source reads `args[0][0].text` and throws a JavaScript `TypeError` when the name argument is empty. Here that error is `UndefinedArrowName`.
- DynamicDefinitions.TagLiteral: JavaScript truthiness of `macros.get` is modelled as "defined and not the empty template". A procedure definition counts as truthy.
- MathScanner.FindEndOfMath: the loop's `index` is an unbounded natural, so reaching the end of the text is the only way out of the loop.

## Findings

| source | as written | input that shows it | evidently intended | confidence | as-written member | corrected member |
|---|---|---|---|---|---|---|
| src/macros.js:623 | `isNaN(padNums[0] \|\| isNaN(padNums[1]))`. The parenthesis closes in the wrong place. Only a non-empty first spacing is ever checked, and with an empty first spacing `isNaN` is applied to a boolean, which is never `NaN`. | `\newextarrow{\name}{2,x}{8594}` | `isNaN(padNums[0]) \|\| isNaN(padNums[1])`: both spacings must be numeric, as the error message "Invalid lspace,rspace" says. | medium, not executed | DynamicDefinitions.NonNumericRightSpacingAccepted | DynamicDefinitions.NewExtArrowChecked |
| src/macros.js:159-164 | After `'` or `"`, `\char` pops the next token without checking for the end of input. At the end, `popToken` yields the sentinel `EOF`. Its `E` is the hexadecimal digit 14, so the check at line 181 passes, and the `O` that follows makes the number `NaN`. | `\char"` at the end of the input | An invalid-digit error such as `Invalid base-16 digit`, as for any other non-digit after the prefix. | medium, not executed | CharNumerals.HexAtEndIsNaN | CharNumerals.CharMacroChecked |
