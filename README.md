# format: positional curly-brace formatting, modelled in Dafny

`format.hpp` is a header-only C++ formatter. `format(fmt, v0, ..., vk)`
replaces `{0}` in `fmt` with the text of `v0`, then `{1}` in the result with
the text of `v1`, and so on. There is one overload for each arity from one to
six. The model keeps the three layers of the header:

- `find_and_replace` (module `Replace`, over `Search`). It finds the leftmost
  occurrence of `find`, keeps the text before it, inserts `replace`, and
  recurses on the text after the match only. `Search.Find` stands for
  `std::string::find`: the leftmost index, or `None` for `npos`.
  `Replace.FindAndReplace` follows the C++ branch by branch.
- `format_onearg<T, argnum>` (module `Format`). It builds the marker
  `'{' + decimal(argnum) + '}'` (`Format.Marker`, `Format.Decimal`). It then
  replaces every occurrence of the marker with the argument text
  (`Format.FormatOneArg`).
- The six `format` overloads (`Format.Format1` … `Format.Format6`). The
  one-argument overload is a single `format_onearg` pass for marker 0. Each
  overload from two arguments on calls the overload with one argument fewer
  and then makes one more `format_onearg` pass. `Format.FormatSeq` is the chain of the one- to
  five-argument overloads, continued for any number of arguments. At six
  arguments it is `Format.Format6Intended`, not `Format.Format6`: the
  sixth pass of the header searches for `{4}` a second time (see
  "## Findings").

Arguments are strings: the text `operator<<` would print for them.

Several independent definitions state what the recursion means:

- `Replace.ReplaceScan` is a left-to-right scanner.
- `Replace.Split` and `Replace.Join` cut the text at the replaced matches.
- `Format.Render` is positional substitution over a template split into
  literal `Piece`s and markers.

The lemmas connect the code to these definitions. `FormatCases` derives the
calls of `test.cpp` from them. It also pins down behaviours that the tests do
not exercise:

- Inserted text is rescanned by later passes.
- Inserted text is not rescanned within one pass.
- Doubled braces are not escapes.

The header has no scanner, no `{{`/`}}` escape, no argument-index check, no
exact-size output buffer and no error of any kind. Within one pass, unknown
markers and stray braces are copied to the output. A later pass can still
match a marker that an earlier argument completes
(`FormatCases.LaterPassCompletesMarker`). The model follows the code.

## Model

| member | source | states |
|---|---|---|
| Search.FindFrom | format.hpp:31 | the result is the first index at or after `from` where `find` occurs; `None` means no occurrence from `from` on |
| Search.Find | format.hpp:31-36 | the result is the leftmost occurrence, which lies inside the string; `None` (`npos`) exactly when `find` occurs nowhere |
| Search.OccursInSlice | format.hpp:38-39 | an occurrence inside a `substr` slice is an occurrence in the whole string, shifted by the slice start |
| Replace.FindAndReplace | format.hpp:22-43 | the recursion itself, branch by branch; what it means is stated by Replace.NoMatchUnchanged, Replace.LeftmostMatch, Replace.FindAndReplaceIsScan and Replace.ReplaceJoinsSplit |
| Replace.NoMatchUnchanged | format.hpp:24-36 | an empty `find`, or a `find` that occurs nowhere, returns `str` unchanged |
| Replace.LeftmostMatch | format.hpp:38-42 | when the leftmost occurrence starts at `index`, the result is `before + replace + recursion on after`, and the recursion runs on a strictly shorter string |
| Replace.LengthFormula | format.hpp:38-42 | output length = `\|str\| + k * (\|replace\| - \|find\|)`, where k counts the matches the same recursion replaces |
| Replace.OccurrencesFit | format.hpp:38-42 | the replaced matches do not overlap: `k * \|find\| <= \|str\|` |
| Replace.FindAndReplaceIsScan | format.hpp:22-43 | the recursion equals a left-to-right scanner that either consumes a whole match and emits `replace`, or copies one character |
| Replace.SplitJoin | format.hpp:38-42 | the text between replaced matches, joined again by `find`, gives back `str` |
| Replace.SplitPiecesAbsent | format.hpp:31-38 | no text between replaced matches contains `find` |
| Replace.SplitCount | format.hpp:38-42 | there is one piece more than there are replaced matches |
| Replace.ReplaceJoinsSplit | format.hpp:38-42 | the result is the pieces of `str` joined by `replace`, so the inserted text never takes part in the search |
| Replace.ReplaceBySelf | format.hpp:22-43 | replacing `find` by itself returns `str` |
| Replace.JoinSplit | format.hpp:31-42 | for a `find` that cannot overlap itself, text joined from `find`-free pieces splits back into exactly those pieces |
| Replace.EveryMatchReplaced | format.hpp:22-43 | for such a `find` and such pieces, every occurrence is replaced, each by the same `replace` text |
| Format.Decimal | format.hpp:55-57 | the printed index is a non-empty run of digits with a leading `0` only for zero |
| Format.DecimalRoundTrip | format.hpp:56 | reading the printed index back gives the index |
| Format.DecimalInjective | format.hpp:56 | distinct indices print differently |
| Format.Marker | format.hpp:55-57 | the search string is `{`, decimal digits, `}` |
| Format.MarkerBorderFree | format.hpp:55-59 | no proper suffix of a marker is a prefix of it, so its occurrences never overlap |
| Format.MarkersDiffer | format.hpp:55-59 | text that starts with marker i does not start with marker k ≠ i |
| Format.MarkersDisjoint | format.hpp:55-59 | an occurrence of marker i and one of marker k ≠ i never overlap: one ends before the other starts |
| Format.MarkerSurvivesPass | format.hpp:22-43 | a replacement pass for marker k keeps some occurrence of any other marker i that the text contains, whatever the replacement |
| Format.SurvivesAtMatch | format.hpp:38-42 | the step of that pass at a match for k: an occurrence of marker i before the match is kept in `before`, one behind it is kept if the rescanned remainder keeps it |
| Format.HasMarkerAfterPass | format.hpp:48-60 | `format_onearg` for marker k keeps marker i ≠ k somewhere in the text |
| Format.FormatOneArg | format.hpp:48-60 | one pass for marker `argnum`; what it means is stated by Format.ScanRender (on a rendered template with brace-free literals and arguments, for k ≤ \|args\|, it fills the next argument or changes nothing) and Replace.EveryMatchReplaced (every marker between marker-free text becomes the same argument) |
| Format.Format1 | format.hpp:66-70 | the one-argument overload; Format.Format1InOrder ties it to Format.FormatSeq and Format.FormatSeqRenders to positional substitution |
| Format.Format2 | format.hpp:72-76 | the two-argument overload; stated by Format.Format2InOrder and Format.FormatSeqRenders |
| Format.Format3 | format.hpp:78-82 | the three-argument overload; stated by Format.Format3InOrder and Format.FormatSeqRenders |
| Format.Format4 | format.hpp:84-88 | the four-argument overload; stated by Format.Format4InOrder and Format.FormatSeqRenders |
| Format.Format5 | format.hpp:90-94 | the five-argument overload; stated by Format.Format5InOrder and Format.FormatSeqRenders |
| Format.Format6 | format.hpp:96-100 | the six-argument overload as written; Format.Format6KeepsMarkerFive states that a `{5}` in any template survives whatever the arguments; Format.Format6IgnoresSixth states that on a brace-free template with brace-free v0..v4 the sixth argument never appears; Format.Format6LeavesMarkerFive is the concrete case |
| Format.Format6Intended | format.hpp:96-100 | the six-argument overload with the last pass for marker 5; Format.Format6IntendedInOrder and Format.Format6IntendedFillsMarkerFive state that it fills `{5}` |
| Format.FormatSeq | format.hpp:66-94 | the chain of passes for any number of arguments; Format.FormatSeqRenders states that it is positional substitution on brace-free text, FormatCases.NoMarkerTemplateUnchanged that it leaves marker-free templates alone |
| Format.ScanRender | format.hpp:59 | for k ≤ \|args\|, on a rendered template whose literals and arguments contain no `{`: one pass for marker k fills argument k when k = \|args\| and changes nothing when k < \|args\| |
| Format.FormatSeqRenders | format.hpp:66-94 | on a template whose literal text and arguments have no `{`, the chained passes give positional substitution: every marker i < n gets argument i, whatever the order or repetition, and markers ≥ n stay literal |
| Format.RepeatedPassUnchanged | format.hpp:59 | on a rendered template whose literals and arguments contain no `{`, a second pass for an index already substituted changes nothing |
| Format.Format1InOrder | format.hpp:66-70 | `format(fmt, v0)` is the pass for marker 0 |
| Format.Format2InOrder | format.hpp:72-76 | `format(fmt, v0, v1)` makes the passes for markers 0 and 1, in that order |
| Format.Format3InOrder | format.hpp:78-82 | three arguments: passes for markers 0, 1, 2 in order |
| Format.Format4InOrder | format.hpp:84-88 | four arguments: passes for markers 0 to 3 in order |
| Format.Format5InOrder | format.hpp:90-94 | five arguments: passes for markers 0 to 4 in order |
| Format.Format6IgnoresSixth | format.hpp:96-100 | the six-argument overload as written gives the five-argument result on brace-free input: the sixth argument never appears and `{5}` stays literal |
| Format.Format6KeepsMarkerFive | format.hpp:96-100 | as written, if the template contains `{5}` anywhere, the result still contains `{5}`, for every template and every six arguments |
| Format.Format6LeavesMarkerFive | format.hpp:99 | as written, `format("{5}", a, b, c, d, e, f)` is `"{5}"` |
| Format.Format6IntendedInOrder | format.hpp:96-100 | the corrected six-argument overload makes passes for markers 0 to 5 in order |
| Format.Format6IntendedFillsMarkerFive | format.hpp:99 | corrected, `format("{5}", a, b, c, d, e, f)` is `"f"` |
| FormatCases.NoMarkerTemplateUnchanged | format.hpp:33-35 | a template in which no marker `{0}` .. `{n-1}` occurs comes back unchanged from n passes, whatever the arguments, even if it holds other brace text |
| FormatCases.NoBraceTemplateUnchanged | format.hpp:33-35 | a template without `{` comes back unchanged for any arguments |
| FormatCases.UnknownBracesStay | format.hpp:31-35 | brace text that is not a marker is copied: `format("{x}", "A")` is `"{x}"` |
| FormatCases.PlainTemplateCase | test.cpp:9-10 | `format("o hai", 42)` is `"o hai"` |
| FormatCases.SingleMarkerCase | test.cpp:12-13 | `format("i can has {0}", "formatting")` is `"i can has formatting"` |
| FormatCases.RepeatedMarkerCase | test.cpp:15-16 | `format("{0} {0}", 2.5)` is `"2.5 2.5"` |
| FormatCases.TwoMarkersCase | test.cpp:18-19 | `format("{0} {1}", 0, 1)` is `"0 1"` |
| FormatCases.OutOfOrderCase | test.cpp:21-22 | `format("{1} {0} {1}", "right", "left")` is `"left right left"` |
| FormatCases.LaterPassRescans | format.hpp:72-76 | a later pass rescans inserted text: `format("{0}", "{1}", "x")` is `"x"` |
| FormatCases.LaterPassCompletesMarker | format.hpp:72-76 | a stray `}` in the template is copied by the first pass but consumed by the second once the first argument completes a marker: `format("{0}1}", "{", "X")` is `"X"` |
| FormatCases.OnePassDoesNotRescan | format.hpp:38-42 | one pass does not rescan its own insertion: `format("{0}", "{0}{0}")` is `"{0}{0}"` |
| FormatCases.DoubledBracesStay | format.hpp:31-42 | `{{0}}` is not an escape: `format("{{0}}", "A")` is `"{A}"`, with no error |

## Left out

- Stringification of arguments (format.hpp:51-53, `ostringstream << value`, including floating-point output such as `2.5`). Each argument is given as the text it would print.
- The C++ template machinery: the type parameters, the `argnum` template parameter, and the implicit conversion of `v5` to `T4` at format.hpp:99. Only the marker index each overload uses is kept.
- The internals of `std::string::find` and `substr`. They are specified as "leftmost occurrence" and "slice".
- Characters are Dafny `char`s, not the bytes of `std::string`. No encoding is involved, because the header only compares and copies characters.
- Cost: the recursion copies strings at every level, and its stack depth grows with the number of matches. Neither time, memory nor stack overflow is modelled.
- Format.FormatSeqRenders: it is stated only for templates whose literal text and arguments contain no `{`. Outside that case the chained passes really do depend on the inserted text (see FormatCases.LaterPassRescans), so no positional law holds there.
- test.cpp:24-25 (four arguments, repeated markers) has no concrete lemma of its own. Format.Format4InOrder together with Format.FormatSeqRenders cover it.

## Findings

| source | as written | input that shows it | evidently intended | confidence | as-written member | corrected member |
|---|---|---|---|---|---|---|
| format.hpp:99 | the six-argument overload calls `format_onearg<T4, 4>(..., v5)`, so its last pass searches for `{4}` a second time | `format("{5}", "a", "b", "c", "d", "e", "f")` returns `"{5}"` | `format_onearg<T5, 5>`, so that `{5}` becomes `"f"` | high; not executed | Format.Format6LeavesMarkerFive | Format.Format6IntendedInOrder |
