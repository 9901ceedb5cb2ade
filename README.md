# AlignTextView in Dafny

A model of the text-justification logic of the Android library AlignTextView.
The library has two views:

- **MixAlignTextView** lays out mixed Chinese and Latin text by itself.
  - `onMeasure` normalises the text and cuts it into paragraphs.
  - It cuts each paragraph into units (`getWorldsList`).
  - It breaks the units of each paragraph into lines, measuring the text of each line against the view's width (`getLineList`). Long Latin words are hyphenated and words that do not fit are carried.
  - It counts lines to report the height.
  - `onDraw` walks the lines. It stretches every line except the last of a paragraph across the view and moves a baseline down line by line.
- **AlignTextView** takes the lines its TextView laid out and stretches each one character by character, except the last line.

`Extension.kt` supplies the combinators and predicates both views use:

- `yes`/`no`, combinators on a nullable Boolean;
- `isSymbol`, which detects punctuation;
- `isCN`, which tests whether the UTF-8 byte count differs from the UTF-16 length.

How the model represents the system:

- Strings are sequences of UTF-16 code units (`Platform.Text`).
- Font measurement (`StaticLayout.getDesiredWidth`) is a function parameter `measure: Text -> real`.
- The Unicode class `\p{P}` is a parameter `punct`.
- Widths are `real`s.
- A `Canvas.drawText` call is a `DrawOp` value. Drawing returns the sequence of calls.

Modules:

| file | module | models |
|---|---|---|
| `platform.dfy` | `Platform` | JVM string operations the views rely on: `Char.isWhitespace`, `trim`, literal replace-all and split |
| `extension.dfy` | `Extension` | `yes`, `no`, `isSymbol`, `isCN` |
| `paragraphs.dfy` | `Paragraphs` | `getParagraphWordsList` normalisation and `getWorldsList` segmentation |
| `paragraphs_examples.dfy` | `ParagraphsExamples` | worked segmentations of `getWorldsList`, among them `"Hi 汉字test."` |
| `line_breaker.dfy` | `LineBreaker` | `getLineList` and `addLines` exactly as written |
| `line_breaker_fixed.dfy` | `LineBreakerFixed` | `getLineList` with the defects listed under Findings corrected |
| `line_breaker_examples.dfy` | `LineBreakerExamples` | the paragraph `"汉 myth字"`, which the written `getLineList` loses a word from |
| `layout.dfy` | `Layout` | the paragraph/line pipeline with the corrected breaker; line totals and content height |
| `mix_align_text_view.dfy` | `MixAlign` | the `MixAlignTextView` class: its five fields, `onMeasure`, `getParagraphWordsList`, `getParagraphLineList`, `onDraw` |
| `align_text_view.dfy` | `AlignTextView` | `onDraw` and `drawScaleText` of `AlignTextView` |

The imperative parts keep their form:

- The `getWorldsList` and `getLineList` loops are methods with loops, proved equal to the specification functions (`Words`, `Lines`).
- The `MixAlignTextView` fields `mParagraphWordsList`, `mParagraphLineList`, `mLineCount`, `mBaseLineY` and `mViewWidth` are fields of a Dafny class. Its methods modify them.

The segmentation does not separate every Chinese character and every punctuation run into a unit of its own. The code (`MixAlignTextView.kt:137-165`) cuts `"Hi 汉字test."` into `["Hi", "", "汉", "字test."]`:
  - a multi-byte character flushes the buffer before it, even an empty one;
  - Latin letters then join the buffer the character opened;
  - a full stop closes a non-empty buffer instead of forming a unit of its own.
- `ParagraphsExamples.HiExample` proves this segmentation for the text itself, with the full stop as the only punctuation.
- `Paragraphs.WideCharFlushesBuffer`, `Paragraphs.PunctuationEndsUnit`, `Paragraphs.WhitespaceEndsUnit` and `Paragraphs.PlainRunJoinsBuffer` state the rules that produce it, for any text read so far.

## Model

All source paths are under `app/src/main/java/com/hsicen/aligntextview/`, written in full below.

| member | source | states |
|---|---|---|
| Extension.YesNoReturnReceiver | app/src/main/java/com/hsicen/aligntextview/Extension.kt:17-32 | `yes` and `no` return their receiver unchanged. `yes` leaves the state alone unless the receiver is `true`. `no` leaves it alone when the receiver is `true`. |
| Extension.YesThenNoIsIfElse | app/src/main/java/com/hsicen/aligntextview/Extension.kt:17-32 | For a Boolean `c`, `c.yes{A}.no{B}` runs exactly one block: A when `c`, B otherwise. |
| Extension.YesThenNoOnNull | app/src/main/java/com/hsicen/aligntextview/Extension.kt:17-32 | On a null receiver the chain runs only the `no` block. |
| Extension.RemovePunct | app/src/main/java/com/hsicen/aligntextview/Extension.kt:47 | Removing punctuation never makes a string longer. |
| Extension.IsSymbolIffHasPunct | app/src/main/java/com/hsicen/aligntextview/Extension.kt:44-49 | `isSymbol(s)` holds exactly when some code unit of `s` is punctuation, in both directions. |
| Extension.IsSymbolUnit | app/src/main/java/com/hsicen/aligntextview/Extension.kt:44-49 | A one-unit string is `isSymbol` exactly when that unit is punctuation. |
| Extension.Utf8LengthAtLeastLength | app/src/main/java/com/hsicen/aligntextview/Extension.kt:51-55 | The UTF-8 byte count is never below the number of code units, so `isCN` means "more bytes than units". |
| Extension.AsciiIsNotCN | app/src/main/java/com/hsicen/aligntextview/Extension.kt:51-55 | An ASCII-only string takes one byte per unit and is never `isCN`. |
| Extension.IsCNUnit | app/src/main/java/com/hsicen/aligntextview/Extension.kt:51-55 | A one-unit string is `isCN` exactly when the unit is non-ASCII and not a surrogate. |
| Extension.UnitsBytesAppend | app/src/main/java/com/hsicen/aligntextview/Extension.kt:53 | Per-unit byte sizes add up over a concatenation. |
| Extension.Utf8LengthOfWellFormed | app/src/main/java/com/hsicen/aligntextview/Extension.kt:53 | For text without lone surrogates, the UTF-8 byte count is the sum of per-unit sizes. |
| Extension.WellFormedAppend | app/src/main/java/com/hsicen/aligntextview/Extension.kt:53 | Joining two texts without lone surrogates gives a text without lone surrogates. |
| Extension.WellFormedIsCNIffNonAscii | app/src/main/java/com/hsicen/aligntextview/Extension.kt:51-55 | Well-formed text is `isCN` exactly when it has a non-ASCII code unit. |
| Extension.UnitsBytesAtLeast | app/src/main/java/com/hsicen/aligntextview/Extension.kt:51-55 | Per-unit byte sizes sum to at least the length. They sum to exactly the length only when every unit is ASCII. |
| Extension.IsCNOfConcat | app/src/main/java/com/hsicen/aligntextview/Extension.kt:51-55 | For well-formed strings, `isCN(a + b)` holds exactly when `isCN(a)` or `isCN(b)` holds. |
| Extension.IsCNOfSplitPair | app/src/main/java/com/hsicen/aligntextview/Extension.kt:51-55 | Without well-formedness the law fails: the two halves of a surrogate pair are not `isCN` apart, but are `isCN` together. |
| Platform.RemoveWhitespace | app/src/main/java/com/hsicen/aligntextview/MixAlignTextView.kt:139 | The text with whitespace dropped holds no whitespace and is no longer than the input. |
| Platform.FlattenAppend | app/src/main/java/com/hsicen/aligntextview/MixAlignTextView.kt:74-76 | Joining a list of strings distributes over list concatenation. |
| Platform.TrimStart | app/src/main/java/com/hsicen/aligntextview/MixAlignTextView.kt:122 | The result is a suffix of the input and starts with a non-whitespace unit, or is empty. Every dropped unit is whitespace. |
| Platform.TrimEnd | app/src/main/java/com/hsicen/aligntextview/MixAlignTextView.kt:122 | The result is a prefix of the input and ends with a non-whitespace unit, or is empty. Every dropped unit is whitespace. |
| Platform.Trim | app/src/main/java/com/hsicen/aligntextview/MixAlignTextView.kt:122 | `trim()` returns an infix `s[a..b]` of the input: every unit before `a` and from `b` on is whitespace, and the result neither starts nor ends with whitespace. So it drops exactly the leading and trailing whitespace. Whitespace-free text is unchanged. |
| Platform.DropBlankPrefix | app/src/main/java/com/hsicen/aligntextview/MixAlignTextView.kt:122 | Dropping a prefix made only of whitespace keeps the non-whitespace characters. |
| Platform.DropBlankSuffix | app/src/main/java/com/hsicen/aligntextview/MixAlignTextView.kt:122 | Dropping a suffix made only of whitespace keeps the non-whitespace characters. |
| Platform.TrimKeepsText | app/src/main/java/com/hsicen/aligntextview/MixAlignTextView.kt:122 | `trim()` keeps every non-whitespace character, in order. |
| Platform.RemoveWhitespaceAppend | app/src/main/java/com/hsicen/aligntextview/MixAlignTextView.kt:139 | Dropping whitespace distributes over concatenation. |
| Platform.DeleteAll | app/src/main/java/com/hsicen/aligntextview/MixAlignTextView.kt:121-122 | Literal replace-all by `""` never lengthens the text. |
| Platform.DeleteAllAbsent | app/src/main/java/com/hsicen/aligntextview/MixAlignTextView.kt:121-122 | Deleting a pattern that does not occur changes nothing. |
| Platform.DeleteAllKeepsText | app/src/main/java/com/hsicen/aligntextview/MixAlignTextView.kt:121-122 | Deleting every occurrence of a whitespace-only pattern keeps every non-whitespace character, in order. |
| Platform.DeleteUnitRemovesIt | app/src/main/java/com/hsicen/aligntextview/MixAlignTextView.kt:122 | After `replace("\r", "")` no carriage return is left. |
| Platform.NoDoubleSpaceLeft | app/src/main/java/com/hsicen/aligntextview/MixAlignTextView.kt:121 | After deleting every pair of spaces, no two spaces are adjacent. |
| Platform.TripleSpaceDeletionIsIdle | app/src/main/java/com/hsicen/aligntextview/MixAlignTextView.kt:121 | The second replace, of three spaces, never matches after the first, so it changes nothing. |
| Platform.Split | app/src/main/java/com/hsicen/aligntextview/MixAlignTextView.kt:123 | `split` always gives at least one piece. |
| Platform.SplitFacts | app/src/main/java/com/hsicen/aligntextview/MixAlignTextView.kt:123 | No piece holds the separator. Every character of a piece comes from the input. Joining the pieces with the separator gives the input back. |
| Platform.JoinWithKeepsText | app/src/main/java/com/hsicen/aligntextview/MixAlignTextView.kt:123 | Joining pieces with a whitespace separator keeps the same non-whitespace characters as joining them with nothing. |
| Paragraphs.Normalize | app/src/main/java/com/hsicen/aligntextview/MixAlignTextView.kt:121-122 | The normalised content holds no carriage return. |
| Paragraphs.NormalizeKeepsText | app/src/main/java/com/hsicen/aligntextview/MixAlignTextView.kt:121-122 | The three replaces and `trim()` remove only whitespace: the normalised content has the same non-whitespace characters, in order. |
| Paragraphs.KeepNonEmpty | app/src/main/java/com/hsicen/aligntextview/MixAlignTextView.kt:125-128 | Filtering keeps at most as many pieces as there were. |
| Paragraphs.KeptAreNonEmptyParts | app/src/main/java/com/hsicen/aligntextview/MixAlignTextView.kt:125-128 | A piece is kept exactly when it is non-empty and one of the pieces, in both directions. The kept pieces joined are all the pieces joined, so the filter loses no character. |
| Paragraphs.ParagraphsKeepText | app/src/main/java/com/hsicen/aligntextview/MixAlignTextView.kt:119-128 | The paragraphs joined have the same non-whitespace characters as the whole text, in order. |
| Paragraphs.ParagraphsAreClean | app/src/main/java/com/hsicen/aligntextview/MixAlignTextView.kt:119-129 | Every paragraph `getParagraphWordsList` segments is non-empty and holds neither `'\n'` nor `'\r'`. |
| Paragraphs.WordsList | app/src/main/java/com/hsicen/aligntextview/MixAlignTextView.kt:133-168 | The `getWorldsList` loop returns exactly the unit list `Words`, whose properties are the next lemmas. |
| Paragraphs.ScanUnit | app/src/main/java/com/hsicen/aligntextview/MixAlignTextView.kt:138-159 | One loop turn is the scan step: whitespace flushes, punctuation joins and closes a non-empty buffer, a multi-byte unit flushes and opens a new buffer, and anything else joins. |
| Paragraphs.StepKeepsText | app/src/main/java/com/hsicen/aligntextview/MixAlignTextView.kt:138-159 | Each loop turn keeps the emitted units plus the buffer equal to the non-whitespace characters read so far. |
| Paragraphs.StepWellShaped | app/src/main/java/com/hsicen/aligntextview/MixAlignTextView.kt:138-159 | Each loop turn preserves where wide characters, punctuation and empty units may stand. |
| Paragraphs.ScanTextInvariant | app/src/main/java/com/hsicen/aligntextview/MixAlignTextView.kt:137-160 | Both invariants hold after the whole loop. |
| Paragraphs.WordsRebuildParagraph | app/src/main/java/com/hsicen/aligntextview/MixAlignTextView.kt:137-165 | Joining all units gives the paragraph with its whitespace removed, and no unit contains whitespace. |
| Paragraphs.WideCharOpensUnit | app/src/main/java/com/hsicen/aligntextview/MixAlignTextView.kt:147-152 | A non-punctuation, multi-byte character only ever stands first in a unit. An empty unit is always followed by a unit that such a character opens. The last unit is never empty. |
| Paragraphs.ScanSnoc | app/src/main/java/com/hsicen/aligntextview/MixAlignTextView.kt:137-160 | Reading one more character is one scan step on the state after the text before it. |
| Paragraphs.StepPunct | app/src/main/java/com/hsicen/aligntextview/MixAlignTextView.kt:140-146 | Punctuation joins a non-empty buffer, which is trimmed and closed as a unit, or opens the buffer when it is empty. |
| Paragraphs.WideCharFlushesBuffer | app/src/main/java/com/hsicen/aligntextview/MixAlignTextView.kt:148-152 | A multi-byte non-punctuation character emits the buffer before it, even an empty one as `""`, and opens a new buffer holding itself. |
| Paragraphs.PunctuationEndsUnit | app/src/main/java/com/hsicen/aligntextview/MixAlignTextView.kt:140-146 | Punctuation that meets a non-empty buffer becomes the last character of the unit it closes; it never forms a unit of its own then. On an empty buffer it opens the buffer. |
| Paragraphs.WhitespaceEndsUnit | app/src/main/java/com/hsicen/aligntextview/MixAlignTextView.kt:139 | Whitespace emits a non-empty buffer and otherwise changes nothing. |
| Paragraphs.PlainRunJoinsBuffer | app/src/main/java/com/hsicen/aligntextview/MixAlignTextView.kt:152 | A run of plain characters (single-byte, not whitespace, not punctuation) only extends the buffer. |
| Paragraphs.UnitsAreFinal | app/src/main/java/com/hsicen/aligntextview/MixAlignTextView.kt:137-160 | An emitted unit is never changed later: the units after a prefix of the text are a prefix of the units after the whole. |
| Paragraphs.UnitsStartWords | app/src/main/java/com/hsicen/aligntextview/MixAlignTextView.kt:137-165 | The units emitted after any prefix of the paragraph start the final unit list. |
| Paragraphs.PunctuationClosesUnit | app/src/main/java/com/hsicen/aligntextview/MixAlignTextView.kt:140-146 | Punctuation stands only first or last in a unit. |
| Paragraphs.WordsCountBound | app/src/main/java/com/hsicen/aligntextview/MixAlignTextView.kt:137-165 | At most length + 1 units are produced. |
| Paragraphs.WordsOfEachAt | app/src/main/java/com/hsicen/aligntextview/MixAlignTextView.kt:125-128 | Entry `i` of the per-paragraph unit lists is the unit list of paragraph `i`. |
| ParagraphsExamples.AsciiWordIsPlain | app/src/main/java/com/hsicen/aligntextview/MixAlignTextView.kt:148-152 | A word of ASCII letters is plain: no whitespace, no punctuation, one byte per character. |
| ParagraphsExamples.IdeographIsWide | app/src/main/java/com/hsicen/aligntextview/MixAlignTextView.kt:148-152 | A CJK ideograph is `isCN` and not punctuation. |
| ParagraphsExamples.WordBlankWideWideWordPunct | app/src/main/java/com/hsicen/aligntextview/MixAlignTextView.kt:137-165 | A Latin word, a blank, two wide characters, a Latin word and a punctuation mark segment as the word, "", the first wide character, and the second wide character with the word and the mark. |
| ParagraphsExamples.HiExample | app/src/main/java/com/hsicen/aligntextview/MixAlignTextView.kt:137-165 | `getWorldsList` cuts "Hi 汉字test." into "Hi", "", "汉" and "字test.". |
| ParagraphsExamples.WideBlankWordWide | app/src/main/java/com/hsicen/aligntextview/MixAlignTextView.kt:137-165 | A wide character, a blank, a Latin word and a wide character segment as "", the first character, the word, and the last character. |
| LineBreaker.AddLines | app/src/main/java/com/hsicen/aligntextview/MixAlignTextView.kt:172-178 | `addLines` appends a copy of the working line to `lines` and leaves the line empty. |
| LineBreaker.ScanCharQuiet | app/src/main/java/com/hsicen/aligntextview/MixAlignTextView.kt:229-273 | A consonant that keeps `sb` within the width only grows `sb`. |
| LineBreaker.WordStepFits | app/src/main/java/com/hsicen/aligntextview/MixAlignTextView.kt:188-284 | A unit that fits stays on the line. After the last unit the line is committed. |
| LineBreaker.LineList | app/src/main/java/com/hsicen/aligntextview/MixAlignTextView.kt:180-294 | The `getLineList` loop returns exactly `Lines`: the lines of the paragraph, or the exception it throws. |
| LineBreaker.WordTurn | app/src/main/java/com/hsicen/aligntextview/MixAlignTextView.kt:188-285 | One turn of `forEachIndexed` is `WordStep`: resume `cutWord`, append the unit with or without a blank, handle overflow, close after the last unit. A throw is reported as the failure. |
| LineBreaker.OverflowTurn | app/src/main/java/com/hsicen/aligntextview/MixAlignTextView.kt:211-279 | The overflow branch is `Overflow`, including the `substring` exception. |
| LineBreaker.CharLoop | app/src/main/java/com/hsicen/aligntextview/MixAlignTextView.kt:229-274 | `charLoop` visits every character: `return@charLoop` acts as `continue`. |
| LineBreaker.CharTurn | app/src/main/java/com/hsicen/aligntextview/MixAlignTextView.kt:230-273 | One character turn follows the vowel rule and the default rule, as the source orders them. |
| LineBreaker.RunErrSticky | app/src/main/java/com/hsicen/aligntextview/MixAlignTextView.kt:225 | Once the loop has thrown, later units change nothing. |
| LineBreaker.MeasureGrows | app/src/main/java/com/hsicen/aligntextview/MixAlignTextView.kt:208 | Under a monotone measure, appending text never makes it narrower. |
| LineBreaker.SpacedTextGrows | app/src/main/java/com/hsicen/aligntextview/MixAlignTextView.kt:198-208 | Under a monotone measure, the spaced text of the first `m` units is never wider than that of the first `n >= m`. |
| LineBreaker.FittingTurn | app/src/main/java/com/hsicen/aligntextview/MixAlignTextView.kt:188-284 | A unit whose spaced text still fits after fitting units joins the line whole. The last one closes the single line. |
| LineBreaker.RunWithoutOverflow | app/src/main/java/com/hsicen/aligntextview/MixAlignTextView.kt:188-284 | With a monotone measure and a paragraph whose fully spaced text fits the width, the loop never throws or carries anything, and `sb` is the spaced text of the units read. After `n < |units|` units the line holds exactly those units. After all units there is one line holding them all. |
| LineBreaker.NoOverflowSingleLine | app/src/main/java/com/hsicen/aligntextview/MixAlignTextView.kt:188-290 | With a monotone measure and a paragraph whose spaced text fits the width, a non-empty unit list gives exactly one line equal to the list, and an empty list gives no lines. |
| LineBreaker.UnsplittableUnitCarried | app/src/main/java/com/hsicen/aligntextview/MixAlignTextView.kt:189-290 | An `isCN` unit, or one of 3 characters or fewer, that overflows is removed from the line. The line is committed, and the unit alone opens the next line or forms a final line. |
| LineBreaker.CrashCondition | app/src/main/java/com/hsicen/aligntextview/MixAlignTextView.kt:224-226 | A turn throws exactly when a non-`isCN` word longer than 3 overflows while `sb` holds that word alone with no trailing blank. The end index is then -1. |
| LineBreaker.LoneLongWordCrashes | app/src/main/java/com/hsicen/aligntextview/MixAlignTextView.kt:225 | A paragraph that is one Latin word longer than 3 and wider than the view makes `getLineList` throw. |
| LineBreaker.ScanCharPastOverflow | app/src/main/java/com/hsicen/aligntextview/MixAlignTextView.kt:241-273 | With a measure that grows with the text, once `sb` overflows every character turn commits a line and `sb` stays too wide. |
| LineBreaker.ScanPastOverflow | app/src/main/java/com/hsicen/aligntextview/MixAlignTextView.kt:229-274 | After an overflow the scan goes on. It commits one line per remaining character, and `cutWord` ends as the whole word. |
| LineBreaker.ScanCharCommitsFragment | app/src/main/java/com/hsicen/aligntextview/MixAlignTextView.kt:229-273 | With a measure that grows with the text, a turn past the overflow commits the working line closed by `w[0,j)` plus a hyphen (by `w[0,j+2)` after a vowel) and carries `w[j,L)` when 2 < j ≤ L-2. At any other index it commits the working line as it stands and carries the whole word. |
| LineBreaker.VowelCarryOverwritten | app/src/main/java/com/hsicen/aligntextview/MixAlignTextView.kt:233-250 | A vowel turn whose look-ahead overflows at a legal index carries `w[k,L)`, but the scan that goes on ends with `cutWord` set to the whole word. |
| LineBreaker.ScanCharCuts | app/src/main/java/com/hsicen/aligntextview/MixAlignTextView.kt:241-273 | One character turn only appends lines made of old units and legal hyphenated prefixes. It carries nothing else. |
| LineBreaker.ScanCutsAtLegalIndices | app/src/main/java/com/hsicen/aligntextview/MixAlignTextView.kt:242-266 | Every `"-"`-terminated fragment is cut at an index k with 2 < k ≤ L-2. `cutWord` ends as before, as the whole word, or as the rest from such a k. |
| LineBreaker.CutPieces | app/src/main/java/com/hsicen/aligntextview/MixAlignTextView.kt:242-266 | At a legal index, the default rule's prefix `[0,k)` followed by the rest `[k,L)` rebuilds the word. The vowel rule's prefix `[0,k+2)` does not: it overlaps the rest by two characters. |
| LineBreaker.QuietScan | app/src/main/java/com/hsicen/aligntextview/MixAlignTextView.kt:229-274 | A scan that meets no vowel and never overflows only copies the word into `sb`. |
| LineBreaker.OverflowDropsWord | app/src/main/java/com/hsicen/aligntextview/MixAlignTextView.kt:211-279 | When the character rescan of a long Latin word never decides, the overflow branch ends with the word off the line and `sb` cleared. Nothing is carried. |
| LineBreaker.WordLostWhenScanFits | app/src/main/java/com/hsicen/aligntextview/MixAlignTextView.kt:211-279 | Such a word is lost: it is in no line and not in `cutWord`, and the lines before it are kept. |
| LineBreakerExamples.CellsAscii | app/src/main/java/com/hsicen/aligntextview/MixAlignTextView.kt:208 | In the monospaced measure of the example, ASCII text is one cell per character. |
| LineBreakerExamples.QuietWhenShort | app/src/main/java/com/hsicen/aligntextview/MixAlignTextView.kt:229-274 | Rescanning a vowel-free ASCII word that fits in five cells stays quiet. |
| LineBreakerExamples.ParagraphUnits | app/src/main/java/com/hsicen/aligntextview/MixAlignTextView.kt:137-165 | `getWorldsList` cuts "汉 myth字" into "", "汉", "myth" and "字". |
| LineBreakerExamples.CellsAppend | app/src/main/java/com/hsicen/aligntextview/MixAlignTextView.kt:208 | The example measure adds up over concatenation. |
| LineBreakerExamples.CellsMonotone | app/src/main/java/com/hsicen/aligntextview/MixAlignTextView.kt:208 | The example measure is monotone. |
| LineBreakerExamples.EmptyUnit | app/src/main/java/com/hsicen/aligntextview/MixAlignTextView.kt:188-208 | The empty unit joins the line and adds nothing to `sb`. |
| LineBreakerExamples.HanUnit | app/src/main/java/com/hsicen/aligntextview/MixAlignTextView.kt:188-208 | After "汉" the line holds "" and "汉", and `sb` is "汉". |
| LineBreakerExamples.MythAppended | app/src/main/java/com/hsicen/aligntextview/MixAlignTextView.kt:198-207 | "myth", followed by the wide "字", joins the line with no blank. |
| LineBreakerExamples.HanMythCells | app/src/main/java/com/hsicen/aligntextview/MixAlignTextView.kt:208 | "汉myth" takes six cells. |
| LineBreakerExamples.MythOverflowsQuietly | app/src/main/java/com/hsicen/aligntextview/MixAlignTextView.kt:211-274 | "汉myth" overflows five cells, "myth" is a Latin word longer than 3, and its rescan from a single blank never overflows and meets no vowel. |
| LineBreakerExamples.MythLost | app/src/main/java/com/hsicen/aligntextview/MixAlignTextView.kt:211-279 | In "汉 myth字" at a width of five cells, the turn for "myth" leaves only "" and "汉" on the line, clears `sb` and carries nothing. |
| LineBreakerExamples.MythUnit | app/src/main/java/com/hsicen/aligntextview/MixAlignTextView.kt:188-279 | After the first three units no line is committed and "myth" is nowhere. |
| LineBreakerExamples.ZiAppended | app/src/main/java/com/hsicen/aligntextview/MixAlignTextView.kt:189-207 | "字" joins the emptied line. |
| LineBreakerExamples.ZiUnit | app/src/main/java/com/hsicen/aligntextview/MixAlignTextView.kt:188-284 | "字" fits and closes the paragraph as the single line "", "汉", "字". |
| LineBreakerExamples.MythIsDropped | app/src/main/java/com/hsicen/aligntextview/MixAlignTextView.kt:180-294 | `getWorldsList` cuts "汉 myth字" into "", "汉", "myth" and "字", and `getLineList` lays those units out at five cells as the single line "", "汉", "字". "myth" is one of the units but appears on no line. |
| LineBreakerExamples.SpacedParagraphFits | app/src/main/java/com/hsicen/aligntextview/MixAlignTextView.kt:198-208 | The units of "汉 myth字" are spaced as "汉myth字", eight cells wide. |
| LineBreakerExamples.RoomyLineKeepsMyth | app/src/main/java/com/hsicen/aligntextview/MixAlignTextView.kt:180-294 | At eight cells the same paragraph is one line holding all four units: the loss needs the overflow. |
| LineBreakerFixed.FirstCut | app/src/main/java/com/hsicen/aligntextview/MixAlignTextView.kt:229-274 | The corrected scan stops at its first decision. Like the source, it keeps the vowel look-ahead character in `sb`. Any head it returns keeps at least 3 characters and leaves at least one for the next line. So at a vowel at index L-2, where the source puts the whole word and a hyphen on the line, it carries the word whole. |
| LineBreakerFixed.LineTextSnoc | app/src/main/java/com/hsicen/aligntextview/MixAlignTextView.kt:172-178 | A line's characters grow by the characters of the piece added to it. |
| LineBreakerFixed.AllTextSnoc | app/src/main/java/com/hsicen/aligntextview/MixAlignTextView.kt:172-178 | Committing a line appends its characters to those of the finished lines. |
| LineBreakerFixed.CommitPlaced | app/src/main/java/com/hsicen/aligntextview/MixAlignTextView.kt:172-178 | `addLines` neither loses nor repeats a character. |
| LineBreakerFixed.ResumePlaced | app/src/main/java/com/hsicen/aligntextview/MixAlignTextView.kt:189-195 | Resuming `cutWord` moves it onto the line without changing the placed text, and leaves nothing pending. |
| LineBreakerFixed.AppendPlaced | app/src/main/java/com/hsicen/aligntextview/MixAlignTextView.kt:189-207 | Resuming `cutWord` and appending unit `i` adds exactly unit `i` to the placed text. |
| LineBreakerFixed.CarryPlaced | app/src/main/java/com/hsicen/aligntextview/MixAlignTextView.kt:215-223 | Carrying a word whole to the next line keeps every character. |
| LineBreakerFixed.HeadPlaced | app/src/main/java/com/hsicen/aligntextview/MixAlignTextView.kt:263-266 | Cutting a word into a head on the line and a pending rest keeps every character exactly once. |
| LineBreakerFixed.OverflowPlaced | app/src/main/java/com/hsicen/aligntextview/MixAlignTextView.kt:211-279 | The corrected overflow branch keeps every character exactly once. |
| LineBreakerFixed.StepPlaced | app/src/main/java/com/hsicen/aligntextview/MixAlignTextView.kt:188-285 | Each corrected turn adds exactly its unit to the placed text. After the last unit the working line is empty. |
| LineBreakerFixed.RunPlaced | app/src/main/java/com/hsicen/aligntextview/MixAlignTextView.kt:188-285 | After `n` units the placed text is the first `n` units joined. |
| LineBreakerFixed.RunEndsWithEmptyLine | app/src/main/java/com/hsicen/aligntextview/MixAlignTextView.kt:282-284 | After the last unit the working line is always committed. |
| LineBreakerFixed.FinishPlaced | app/src/main/java/com/hsicen/aligntextview/MixAlignTextView.kt:287-290 | The final line for a pending `cutWord` completes the placed text. |
| LineBreakerFixed.LinesRebuildUnits | app/src/main/java/com/hsicen/aligntextview/MixAlignTextView.kt:180-294 | Round trip: the characters of all pieces of all lines, hyphens dropped, are the paragraph's units joined, in order. |
| LineBreakerFixed.HeadsAreProperPrefixes | app/src/main/java/com/hsicen/aligntextview/MixAlignTextView.kt:242-266 | A head is a prefix of at least 3 characters. The rest is non-empty, and head + rest is the word. |
| LineBreakerFixed.FittingStep | app/src/main/java/com/hsicen/aligntextview/MixAlignTextView.kt:188-284 | A fitting unit after fitting units joins the line whole. The last one closes the single line. |
| LineBreakerFixed.RunWithoutOverflow | app/src/main/java/com/hsicen/aligntextview/MixAlignTextView.kt:188-284 | With a monotone measure and a paragraph whose spaced text fits, the corrected loop keeps all units whole on one line, carries nothing, and `sb` is the spaced text of the units read. |
| LineBreakerFixed.Wholes | app/src/main/java/com/hsicen/aligntextview/MixAlignTextView.kt:207 | Every unit becomes one piece. |
| LineBreakerFixed.WholesSnoc | app/src/main/java/com/hsicen/aligntextview/MixAlignTextView.kt:207 | One more unit adds one whole piece. |
| LineBreakerFixed.NoOverflowSingleLine | app/src/main/java/com/hsicen/aligntextview/MixAlignTextView.kt:188-290 | With a monotone measure and a paragraph whose spaced text fits, a non-empty list is exactly one line of whole units, and an empty list gives no line. |
| Layout.LinesOfEachAt | app/src/main/java/com/hsicen/aligntextview/MixAlignTextView.kt:296-298 | Entry `i` of the per-paragraph line lists is the lines of paragraph `i`. |
| Layout.LayOutKeepsText | app/src/main/java/com/hsicen/aligntextview/MixAlignTextView.kt:119-299 | Across the whole pipeline with the corrected breaker, there is one line list per paragraph. The characters on the lines of each paragraph are that paragraph's characters with whitespace removed. |
| Layout.LaidParagraphsKeepText | app/src/main/java/com/hsicen/aligntextview/MixAlignTextView.kt:125-128 | The characters on all lines of all paragraphs, hyphens dropped, are the paragraphs joined with whitespace removed. |
| Layout.LayOutKeepsAllText | app/src/main/java/com/hsicen/aligntextview/MixAlignTextView.kt:119-299 | Round trip over the whole text: the characters on all lines, hyphens dropped, are the text with whitespace removed, in order. |
| Layout.LineTotalAppend | app/src/main/java/com/hsicen/aligntextview/MixAlignTextView.kt:292 | The line count adds up over paragraphs. |
| Layout.ContentHeightPerLine | app/src/main/java/com/hsicen/aligntextview/MixAlignTextView.kt:62-64 | Every extra counted line adds one line height to the reported height. |
| MixAlign.LinesOfAll | app/src/main/java/com/hsicen/aligntextview/MixAlignTextView.kt:296-298 | Without a throw, every paragraph has its lines. After a throw, fewer do. |
| MixAlign.LinesOfAllBreaksEach | app/src/main/java/com/hsicen/aligntextview/MixAlignTextView.kt:296-298 | Stored entry `i` is the lines `getLineList` gives for paragraph `i`. |
| MixAlign.LinesOfAllStopsAtFailure | app/src/main/java/com/hsicen/aligntextview/MixAlignTextView.kt:296-298 | When the loop stopped, the next paragraph is the one that threw, with that exception. |
| MixAlign.LinesOfAllFailureSticky | app/src/main/java/com/hsicen/aligntextview/MixAlignTextView.kt:296-298 | After a throw, later paragraphs are never broken. |
| MixAlign.WordsOfKeptSnoc | app/src/main/java/com/hsicen/aligntextview/MixAlignTextView.kt:125-128 | One more split piece adds its unit list exactly when the piece is non-empty. |
| MixAlign.ScaleOpsAt | app/src/main/java/com/hsicen/aligntextview/MixAlignTextView.kt:93-96 | Draw call `k` of `drawScaleText` draws unit `k` at its accumulated x on the current baseline. |
| MixAlign.UnitXClosedForm | app/src/main/java/com/hsicen/aligntextview/MixAlignTextView.kt:91-96 | Accumulated x in closed form: the x of unit `k` is the widths of the units before it plus `k` gaps. |
| MixAlign.UnitGapFills | app/src/main/java/com/hsicen/aligntextview/MixAlignTextView.kt:89-90 | For a line of at least two units, the `size - 1` gaps add up to the view width less the line's width. |
| MixAlign.SpansWithGap | app/src/main/java/com/hsicen/aligntextview/MixAlignTextView.kt:91-96 | With gaps that fill the room, the last unit's right edge lands on the width. |
| MixAlign.ScaledLineSpansView | app/src/main/java/com/hsicen/aligntextview/MixAlignTextView.kt:82-97 | When a line measures as the sum of its units, `drawScaleText` ends its last unit exactly at the view width. |
| MixAlign.LinesAdvanceClosedForm | app/src/main/java/com/hsicen/aligntextview/MixAlignTextView.kt:101-106 | A paragraph moves the baseline down one line height per line. |
| MixAlign.ParagraphsAdvanceClosedForm | app/src/main/java/com/hsicen/aligntextview/MixAlignTextView.kt:100-108 | The paragraphs move the baseline by the line count times the line height, plus one paragraph space per paragraph. |
| MixAlign.DrawnHeightMatchesMeasure | app/src/main/java/com/hsicen/aligntextview/MixAlignTextView.kt:100-108 | For the same lines, the drawn height equals the height `onMeasure` reports (lines 62-64) from a fresh line count, plus the trailing paragraph gap. |
| MixAlign.SecondMeasureOvershoots | app/src/main/java/com/hsicen/aligntextview/MixAlignTextView.kt:48-65 | A second measure, counting the lines twice, reports one extra line height per line more than the drawing needs. |
| MixAlign.MixAlignTextView.constructor | app/src/main/java/com/hsicen/aligntextview/MixAlignTextView.kt:19-45 | A new view has empty lists, a zero line count, baseline and width, and the given text, paragraph space and metrics. |
| MixAlign.MixAlignTextView.GetParagraphWordsList | app/src/main/java/com/hsicen/aligntextview/MixAlignTextView.kt:119-129 | Appends the unit list of every non-empty paragraph, in order (`ParagraphWords`, about which `ParagraphsAreClean` and `WordsRebuildParagraph` speak). |
| MixAlign.MixAlignTextView.AddParagraph | app/src/main/java/com/hsicen/aligntextview/MixAlignTextView.kt:126-127 | One loop turn: a non-empty paragraph adds its unit list, and an empty one adds nothing. |
| MixAlign.MixAlignTextView.GetParagraphLineList | app/src/main/java/com/hsicen/aligntextview/MixAlignTextView.kt:171-299 | Appends the lines of each paragraph and adds their number to `mLineCount`. It stops at the first exception and reports it. |
| MixAlign.MixAlignTextView.AddLineList | app/src/main/java/com/hsicen/aligntextview/MixAlignTextView.kt:292-297 | Stores one paragraph's lines and adds their count to `mLineCount`. |
| MixAlign.MixAlignTextView.OnMeasure | app/src/main/java/com/hsicen/aligntextview/MixAlignTextView.kt:48-65 | Resets the lists and the baseline and sets the view width. It rebuilds the unit and line lists and adds the new lines to the old `mLineCount`. The reported height is (paragraphs - 1)·paragraphSpace + mLineCount·lineHeight, or the exception. |
| MixAlign.MixAlignTextView.Remeasure | app/src/main/java/com/hsicen/aligntextview/MixAlignTextView.kt:48-65 | Two measures of the same text succeed or fail alike, and the line count grows by twice the line total. |
| MixAlign.MixAlignTextView.OnMeasureFixed | app/src/main/java/com/hsicen/aligntextview/MixAlignTextView.kt:48-65 | With `mLineCount` reset, the count equals the line total and the height depends only on the text and the width. |
| MixAlign.MixAlignTextView.JoinLine | app/src/main/java/com/hsicen/aligntextview/MixAlignTextView.kt:72-76 | `drawEndText`'s buffer is the units of the line joined. |
| MixAlign.MixAlignTextView.DrawScaleText | app/src/main/java/com/hsicen/aligntextview/MixAlignTextView.kt:82-97 | Draws the units one by one at positions that `ScaleOpsAt` and `ScaledLineSpansView` describe. |
| MixAlign.MixAlignTextView.DrawLine | app/src/main/java/com/hsicen/aligntextview/MixAlignTextView.kt:101-105 | Draws the last line of a paragraph whole at x 0 and stretches any other line. The baseline then moves down one line height. |
| MixAlign.MixAlignTextView.DrawParagraph | app/src/main/java/com/hsicen/aligntextview/MixAlignTextView.kt:100-107 | Draws every line of a paragraph, each on its own baseline, and moves the baseline by one line height per line. |
| MixAlign.MixAlignTextView.OnDraw | app/src/main/java/com/hsicen/aligntextview/MixAlignTextView.kt:67-117 | Without a layout or a canvas, draws nothing. Otherwise it starts the baseline at textSize + paddingTop and draws every paragraph, with a paragraph space after each. |
| AlignTextView.LineModeChoice | app/src/main/java/com/hsicen/aligntextview/AlignTextView.kt:55-67 | A line is stretched exactly when it is not the last line, or it is the only line and `alignOnlyOneLine` is set. With several lines, exactly the last is plain. |
| AlignTextView.CharXClosedForm | app/src/main/java/com/hsicen/aligntextview/AlignTextView.kt:77-95 | xᵢ = paddingLeft + Σ_{j<i} wⱼ + i·d, the closed form of x₀ = paddingLeft, xᵢ₊₁ = xᵢ + wᵢ + d. |
| AlignTextView.ScaleOpsCases | app/src/main/java/com/hsicen/aligntextview/AlignTextView.kt:72-96 | An empty line draws nothing. A line ending in code 10, or of one character, is drawn once, whole, at paddingLeft. Any other line draws each character alone at its xᵢ. |
| AlignTextView.CharOps | app/src/main/java/com/hsicen/aligntextview/AlignTextView.kt:90-95 | The character loop makes one call per character. |
| AlignTextView.CharOpsAt | app/src/main/java/com/hsicen/aligntextview/AlignTextView.kt:90-95 | Call `k` draws character `k` alone at xₖ. |
| AlignTextView.DrawScaleText | app/src/main/java/com/hsicen/aligntextview/AlignTextView.kt:72-96 | The `drawScaleText` loop produces the calls `ScaleOpsCases` describes. It needs no precondition. It reaches the division only after the early returns, where `Gap`'s requirement of two or more characters holds, so it never divides by zero. |
| AlignTextView.StretchedLineSpansView | app/src/main/java/com/hsicen/aligntextview/AlignTextView.kt:88-95 | When the per-character widths sum to `lineWidth`, the last character's right edge lands at paddingLeft + measuredWidth - paddingStart - paddingEnd, the full-width intent of the class comment (lines 13-15). |
| AlignTextView.DrawLine | app/src/main/java/com/hsicen/aligntextview/AlignTextView.kt:50-67 | One turn of `onDraw` draws the line stretched or plain, as `LineModeChoice` decides, on the line's baseline plus paddingTop. |
| AlignTextView.OnDraw | app/src/main/java/com/hsicen/aligntextview/AlignTextView.kt:49-68 | Draws every layout line in turn, each as `DrawLine` describes. |

## Left out

- Android view plumbing is outside the model:
  - the constructors' attribute reading (`obtainStyledAttributes`);
  - `super.onMeasure`;
  - `setTextColor` and paint colour state;
  - the `px` display-metrics conversion.
  `setMeasuredDimension` is the `Dimension` returned by `OnMeasure`.
- `StaticLayout.getDesiredWidth` is a font measurement outside the code. It is the parameter `measure`, and no property depends on particular widths except where a lemma states its assumption (monotone, additive, or the five-cell measure of the example).
- `\p{P}` is the parameter `punct`. The `Regex` engine is not modelled: the patterns in `getParagraphWordsList` are literals, modelled as literal replace-all and split.
- `AlignTextView` takes the TextView's own line breaking (`layout.getLineStart/End/Baseline`) as an input sequence of lines with their baselines. Its fallback to `super.onDraw` for non-`String` text is not modelled.
- Floating point is modelled as `real`, with no rounding. `.toInt()` and `.toFloat()` conversions are exact.
- `@Synchronized` on `getWorldsList` is not modelled: the function uses only local buffers.
- The shared `mDrawText` builder is modelled only as the value `JoinLine` returns.
- MixAlign.MixAlignTextView.OnDraw: the `layout ?: return` and `canvas ?: return` checks are the one flag `ready`.
- LineBreaker.AddLines: the null checks of `addLines` cannot fire, because both arguments are always non-null locals, so they are not modelled.
- MixAlign.MixAlignTextView.OnMeasure: `text` is fixed at construction. `setText` is not modelled, so measuring twice always sees the same text.
- MixAlign.MixAlignTextView.Remeasure: states the doubled line count and that both measures agree on success. It does not restate the two reported heights, which `SecondMeasureOvershoots` compares.
- LineBreaker.UnsplittableUnitCarried: assumes the overflowing unit is non-empty. An empty unit (the `""` segmentation emits) carried as `cutWord` would be skipped by `cutWord.isNotEmpty()`, which is a different path.
- LineBreaker.Lines, LineBreakerFixed.Lines: no width bound is stated for either breaker, because none holds. A line that is not the last and holds more than one unit can still be wider than the view. The vowel rule at `MixAlignTextView.kt:233-245` measures `sb` with the look-ahead character added. When that overflows, it puts the head up to and including the look-ahead on the line, plus a hyphen, which is exactly the text that overflowed. For example, with one cell per ASCII character and a seven-cell view, the units `"ab"`, `"xxxaxxx"` give a first line `"ab"`, `"xxxax-"`: eight cells. `LineBreaker.ScanCharCommitsFragment` states the line committed there.
- MixAlign.UnitGap: with fewer than two units, `drawScaleText` divides by 0 or -1. The model returns 0 there instead of Infinity/NaN or a negative gap. Either way the gap is never added to a drawn position, because a one-unit line draws one call at 0 and an empty line draws nothing.

## Findings

Nothing here was executed. Each row is a consequence of the code as written, proved in the model.

| source | as written | input that shows it | evidently intended | confidence | as-written member | corrected member |
|---|---|---|---|---|---|---|
| app/src/main/java/com/hsicen/aligntextview/MixAlignTextView.kt:250-272 | `return@charLoop` only ends the current lambda call, so the character scan continues after a cut. Each later character commits another line: at a legal index 2 < j ≤ L-2 that line ends with a new hyphenated prefix of the word, at any other index it is the (empty) working line. The last character resets `cutWord` to the whole word. | Any Latin word longer than 3 whose rescan overflows before its last character, with a measure that grows with the text | Stop the scan at the first cut (`break`) | high (not executed) | LineBreaker.ScanPastOverflow | LineBreakerFixed.FirstCut |
| app/src/main/java/com/hsicen/aligntextview/MixAlignTextView.kt:243-245 | The vowel rule puts `w[0, k+2)` plus a hyphen on the line but sets `cutWord` to `w[k, L)`, so the head and the carry share characters k and k+1. The overlap is latent: because of the previous row the scan goes on and ends with `cutWord` set to the whole word, so the overlapping rest never reaches a line. It shows once the scan stops at its first cut. | A word whose rescan overflows on the look-ahead after a vowel at index k with 2 < k ≤ L-2, once the scan stops at that cut | The head and the carried rest split the word: head `[0,k+2)`, rest `[k+2,L)` | high (not executed) | LineBreaker.VowelCarryOverwritten | LineBreakerFixed.HeadsAreProperPrefixes |
| app/src/main/java/com/hsicen/aligntextview/MixAlignTextView.kt:225-278 | When a long Latin word overflows as a whole but its character rescan from the shortened `sb` never overflows and meets no vowel, no branch places it. The word is removed from the line and `cutWord` stays empty, so it disappears. | "汉 myth字" at a width of five cells, one cell per ASCII letter and two per Chinese character: its units "", "汉", "myth", "字" are laid out as the one line "", "汉", "字" | Carry the word whole when the scan finds no cut, so every character reaches a line | high (not executed) | LineBreaker.WordLostWhenScanFits | LineBreakerFixed.LinesRebuildUnits |
| app/src/main/java/com/hsicen/aligntextview/MixAlignTextView.kt:225 | `sb.substring(0, sb.length - L - 1)` throws `StringIndexOutOfBoundsException` with end -1 when `sb` holds only the overflowing word and no trailing blank. | A paragraph that is one Latin word of more than 3 letters, wider than the view | Cut `sb` back to no less than the empty string and go on | high (not executed) | LineBreaker.LoneLongWordCrashes | LineBreakerFixed.LinesRebuildUnits |
| app/src/main/java/com/hsicen/aligntextview/MixAlignTextView.kt:51-54 | `onMeasure` clears the lists but not `mLineCount`, which grows on every measure. The reported height then grows each time. | Any text measured twice, e.g. once per layout pass | Reset `mLineCount` with the lists, so the height equals what `onDraw` covers | high (not executed) | MixAlign.SecondMeasureOvershoots | MixAlign.DrawnHeightMatchesMeasure |

Notes on the rows:

- **`return@charLoop`:**
  - `ScanPastOverflow` shows the scan committing one line per remaining character and ending with `cutWord` as the whole word.
  - `ScanCharCommitsFragment` states what each of those lines holds: a new hyphenated prefix at a legal index, the working line as it stands elsewhere.
  - The corrected `FirstCut` stops at the first decision.
  - `LineBreakerFixed.LinesRebuildUnits` shows the corrected breaker neither loses nor repeats a character.
- **Vowel-rule overlap:** `VowelCarryOverwritten` shows the overlapping carry is set and then overwritten by the whole word, so the overlap stays latent behind the `return@charLoop` row. `CutPieces` proves the prefix and rest rebuild the word exactly when the default rule cut. In the corrected breaker the head is `w[..h]` and the rest `w[h..]`, and `HeadsAreProperPrefixes` proves that head + rest is the word.
- **Lost word:** `LineBreakerExamples.MythIsDropped` is the concrete run. `Layout.LayOutKeepsAllText` lifts the corrected round trip to the whole text.
- **Line count:**
  - As written, `MixAlign.MixAlignTextView.OnMeasure` and `Remeasure` accumulate `mLineCount`.
  - `MixAlign.MixAlignTextView.OnMeasureFixed` resets it.
  - `DrawnHeightMatchesMeasure` proves the reset count gives the height the drawing uses.

