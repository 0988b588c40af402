# PowerBookmark query engine and record store in Dafny

PowerBookmark is a browser extension that stores bookmarks as records: a URL
with a display name and a set of tags. This project models its core:

- the record store `PBMState` (`src/powerbookmark.js`), as a class whose
  `urls` map is updated in place. Pure functions `Upserted` and `Removed`
  specify `setUrl` and `removeUrl`, and beside them sit the tag filters
  `withTag`/`withoutTag` and the n-ary set operators `and`/`or`;
- the search page's query engine (`src/pages/search.js`), in four stages:
  - the tokenizer splits the tag field on spaces, trims the words and peels
    off one "(" and one ")";
  - `infixToPostfix` is a shunting-yard compiler;
  - the postfix evaluator runs a stack of URL sets;
  - the fuzzy ranking sorts the results by Levenshtein distance plus a
    substring bonus;
- the add page's bookmark form (`pages/set.js`): the tag field is parsed with
  `split(",")` and `trim`, and printed back with ", " after every tag.

Each stage is a pure function. Beside it stands a method that mirrors the
source's loop and is proved equal to that function: `InfixToPostfix`,
`EvaluatePostfix`, `LevenshteinDistance` and `FillFields`. The sort is the
insertion sort `SortByRank`, proved to rearrange the array into ascending
order of the ranking key. `SearchUrls` then composes them. A search ends in one of three
outcomes:

- `Results` with the URLs;
- `ErrorFlag`, when the evaluation loop caught an exception and gave the tag
  field its error style;
- `Uncaught`, when an exception escaped the handler.

Where the code departs from the textbook shunting-yard and RPN algorithms, the model does what the code does:

- Operators left on the stack after the last token are appended from the
  bottom of the stack up, not popped. So `a | b & c` selects
  `a ∩ (b ∪ c)`, not `a ∪ (b ∩ c)` (`ShuntingYard.OrThenAnd`,
  `Search.OrThenAndQuery`).
- An unmatched "(" is not an error. It is output as an operand and evaluated
  as the tag "(" (`Search.UnmatchedOpenQuery`). So `(a & b` selects what `a`
  alone selects (`Search.OpenGroupQuery`).
- An unmatched ")" throws outside the `try` and escapes as an uncaught
  exception (`Search.UnmatchedCloseQuery`).
- An operator with too few operands sets the error flag and is caught
  (`Search.LoneOperatorQuery`).
- Nothing checks that one set is left on the stack. The result is the bottom
  set, `stack[0]` (`Search.JuxtaposedQuery`). It can never be missing
  (`Search.NeverEmptyStack`).
- `levenshteinCompare` is called with two arguments. Its third is
  `undefined`, so every score is shifted by the distance to the string
  "undefined". The shift is the same for every URL and does not change the
  order (`Ranking.TotalIsShiftedKey`).
- A word made only of parentheses still yields an empty operand, which
  selects the URLs tagged "" (`Tokenizer.LoneParenthesis`).

## Model

| member | source | states |
|---|---|---|
| `Text.Split` | pages/set.js:38 | splitting on a one-character separator gives at least one piece, and no piece holds the separator |
| `Text.JoinSplit` | pages/set.js:38 | joining the pieces of a split with the separator gives back the text |
| `Text.SplitJoin` | pages/set.js:38 | splitting a join of separator-free pieces gives back the pieces |
| `Text.SplitAppend` | pages/set.js:38 | a separator cuts the pieces into those of the text before it and those after it |
| `Text.TrimStart` | pages/set.js:39 | the result is a suffix of the text; what it drops is whitespace; it does not start with whitespace |
| `Text.TrimEnd` | pages/set.js:39 | the result is a prefix of the text; what it drops is whitespace; it does not end with whitespace |
| `Text.Trim` | pages/set.js:39 | the trimmed text has whitespace at neither end and is the slice of the text with only whitespace before and after it |
| `Text.TrimUnique` | pages/set.js:39 | a trimmed text with only whitespace around it is what trimming the whole gives |
| `Text.TrimBlank` | pages/set.js:39-40 | a text trims to the empty string exactly when it is all whitespace |
| `Text.TrimTrailingWhitespace` | pages/set.js:39 | a whitespace character behind a text does not change its trimmed form |
| `Text.TrimLeadingWhitespace` | pages/set.js:39 | a whitespace character in front of a text does not change its trimmed form |
| `Text.TrimKeepsOut` | pages/set.js:39 | trimming introduces no character that was not in the text |
| `Text.TrimNonEmpty` | pages/set.js:39-40 | every kept piece is non-empty and trimmed, and no more pieces come out than went in |
| `Text.TrimNonEmptyPositions` | pages/set.js:39-40 | the result is the trims of exactly the non-blank pieces, in their order |
| `Text.Kept` | pages/set.js:39-40 | a piece is dropped exactly when it is all whitespace, and otherwise kept as its trim |
| `Text.TrimNonEmptyAvoids` | pages/set.js:39-40 | a character absent from every piece is absent from every kept piece |
| `Text.TrimNonEmptyAppend` | pages/set.js:39-40 | trimming and filtering a concatenation of piece lists handles each list on its own |
| `Text.TrimmedPieces` | pages/set.js:38-40 | split-trim-filter yields non-empty, trimmed pieces free of the separator |
| `Text.TrimmedPiecesAppend` | pages/set.js:38-40 | a separator cuts the result into the results for the text on each side |
| `Text.TrimmedPiecesEmpty` | pages/set.js:38-40 | the empty text yields no piece |
| `Text.TrimmedPiecesSingle` | pages/set.js:38-40 | a non-empty, trimmed, separator-free text is its own single piece |
| `Text.TrimmedPiecesLeadingWhitespace` | pages/set.js:38-40 | leading whitespace other than the separator does not change the pieces |
| `Text.TrimmedPiecesTrailingWhitespace` | pages/set.js:38-40 | trailing whitespace other than the separator does not change the pieces |
| `Text.SplitSnoc` | pages/set.js:38 | a character other than the separator at the end of the text extends the last piece |
| `Text.TrimmedPiecesTrailingSeparator` | pages/set.js:38-40 | a separator at the end of the text adds no piece |
| `Text.DeleteChar` | src/pages/search.js:27 | deleting a character never lengthens a text |
| `Text.DeleteCharMembers` | src/pages/search.js:27 | `replaceAll(c, "")` keeps exactly the characters other than `c` |
| `Text.DeleteCharAbsent` | src/pages/search.js:27 | a text without `c` is unchanged |
| `Text.DeleteCharAppend` | src/pages/search.js:27 | deletion distributes over concatenation |
| `Text.Lower` | src/pages/search.js:77-78 | `toLowerCase` keeps the length, maps each ASCII capital to its small letter (code point + 32) and keeps every other character |
| `Text.LowerIdempotent` | src/pages/search.js:81-82 | lower-casing twice is lower-casing once |
| `Text.ContainsEmptyAndSelf` | src/pages/search.js:84-85 | every text includes the empty text and itself |
| `Store.Dedup` | src/powerbookmark.js:4 | `new Set(tags)` is duplicate-free, has exactly the members of the list, lists them in the order of their first occurrence, and is no longer than the list |
| `Store.FirstIndex` | src/powerbookmark.js:4 | the position found holds the element and no earlier position does |
| `Store.DedupDistinct` | src/powerbookmark.js:4 | a duplicate-free list becomes a set unchanged and in the same order |
| `Store.NewEntry` | src/powerbookmark.js:1-5 | a `URLEntry` keeps its name and holds each given tag exactly once |
| `Store.AllUrls` | src/powerbookmark.js:31-33 | `getAllUrls` gives exactly the URLs `collectionHas` accepts |
| `Store.GetUrl` | src/powerbookmark.js:36-38 | `getUrl` finds an entry exactly for a stored URL, and it is the stored entry |
| `Store.WithTag` | src/powerbookmark.js:78-83 | a URL is selected iff it is stored and its tags contain the tag |
| `Store.WithoutTag` | src/powerbookmark.js:87-92 | a URL is selected iff it is stored and its tags lack the tag |
| `Store.TagPartition` | src/powerbookmark.js:78-92 | for one tag, `withTag` and `withoutTag` are disjoint and together give every stored URL |
| `Store.DefaultName` | src/powerbookmark.js:44 | the stored name is the given name unless it is missing or empty, in which case it is the URL |
| `Store.Upserted` | src/powerbookmark.js:42-47 | after `setUrl` the URL is stored with the defaulted name and the deduplicated tags (none when missing), and every other URL's entry is unchanged |
| `Store.Removed` | src/powerbookmark.js:50-52 | after `removeUrl` the URL is gone and every other URL's entry is unchanged |
| `Store.UpsertIdempotent` | src/powerbookmark.js:42-47 | repeating a `setUrl` call changes nothing more |
| `Store.RemoveAfterUpsert` | src/powerbookmark.js:42-52 | removing a URL just set leaves the store as removing it from the old store would |
| `Store.PBMState.constructor` | src/powerbookmark.js:25 | the collection starts empty |
| `Store.PBMState.SetUrl` | src/powerbookmark.js:42-47 | the collection becomes `Upserted` of the old one |
| `Store.PBMState.RemoveUrl` | src/powerbookmark.js:50-52 | the collection becomes `Removed` of the old one |
| `Store.And` | src/powerbookmark.js:102-106 | with no argument the result is undefined; otherwise it holds exactly the URLs in every argument; for two arguments it is their intersection |
| `Store.Or` | src/powerbookmark.js:110-114 | with no argument the result is undefined; otherwise it holds exactly the URLs in some argument; for two arguments it is their union |
| `Tokenizer.Words` | src/pages/search.js:17-19 | every word is non-empty, trimmed and free of spaces |
| `Tokenizer.Strip` | src/pages/search.js:27 | the operand has no parenthesis, and it keeps every other character of the word |
| `Tokenizer.WordTokens` | src/pages/search.js:20-34 | a word yields one to three tokens; exactly one operand, the stripped word; a "(" only first and only when the word starts with "("; a ")" only last and only when it ends with ")" |
| `Tokenizer.TokenShape` | src/pages/search.js:20-35 | every token is a standalone parenthesis or holds no parenthesis |
| `Tokenizer.OperandsAreStrippedWords` | src/pages/search.js:17-35 | the non-parenthesis tokens are exactly the stripped words, one per word and in order |
| `Tokenizer.TokenizeEmpty` | src/pages/search.js:17-40 | the token list is empty iff the query has no non-blank word |
| `Tokenizer.TokenizeShape` | src/pages/search.js:17-35 | every query token is a standalone parenthesis or holds no parenthesis |
| `Tokenizer.SingleWord` | src/pages/search.js:17-35 | a one-word query yields that word's tokens |
| `Tokenizer.LoneParenthesis` | src/pages/search.js:23-31 | the query "(" yields ["(", ""] and ")" yields ["", ")"]: an empty operand |
| `Tokenizer.DoubleParentheses` | src/pages/search.js:23-31 | `((x))` yields the same tokens as `(x)`: one parenthesis per side |
| `Search.SomeOperandToken` | src/pages/search.js:17-35 | a query with a word has a token that is not a parenthesis |
| `ShuntingYard.InfixToPostfix` | src/pages/search.js:154-199 | the method's result equals the compiler function `Compile` |
| `ShuntingYard.PopToOpenRemovesOne` | src/pages/search.js:178-190 | the ")" branch fails iff no "(" is on the stack; otherwise it removes exactly one "(" |
| `ShuntingYard.StepOpens` | src/pages/search.js:163-194 | one token fails iff it is ")" with no "(" pending, and it changes the pending "(" count by its own kind |
| `ShuntingYard.RunMismatch` | src/pages/search.js:163-196 | from any state, compilation fails iff some prefix of the remaining tokens closes more than is pending plus opened |
| `ShuntingYard.CompileMismatch` | src/pages/search.js:178-188 | "Mismatched parentheses" is thrown iff some prefix of the tokens holds more ")" than "(" |
| `ShuntingYard.CompileKeepsOperands` | src/pages/search.js:191-196 | the operands reach the output in input order, none dropped or added |
| `ShuntingYard.CompileMultiset` | src/pages/search.js:163-196 | the output is the input minus one "(" and one ")" per matched pair |
| `ShuntingYard.AndThenOr` | src/pages/search.js:166-175 | a AND b, then OR c, compiles to a, b, AND, c, OR |
| `ShuntingYard.OrThenAnd` | src/pages/search.js:196 | a OR b, then AND c, compiles to a, b, c, OR, AND: leftovers go out bottom first |
| `ShuntingYard.UnmatchedOpen` | src/pages/search.js:176-196 | `( a` compiles to `a (` without error |
| `ShuntingYard.OpenGroup` | src/pages/search.js:176-196 | `( a op b` compiles without error to `a b ( op` |
| `ShuntingYard.BinaryQuery` | src/pages/search.js:163-196 | `a op b` compiles to `a b op` |
| `ShuntingYard.OperandsOnly` | src/pages/search.js:191-192 | operands without operators pass through in order |
| `ShuntingYard.LoneOperator` | src/pages/search.js:166-196 | a lone operator is copied to the output |
| `ShuntingYard.UnmatchedClose` | src/pages/search.js:178-188 | `a )` is the mismatched-parentheses error |
| `Evaluator.Reverse` | src/pages/search.js:42 | position k of the reversal is position n-1-k of the list |
| `Evaluator.EvaluatePostfix` | src/pages/search.js:42-68 | the evaluation loop's result equals the evaluator function `Evaluate` |
| `Evaluator.EvalFromShape` | src/pages/search.js:47-68 | evaluation fails iff some operator meets fewer than two sets; otherwise the stack grows by operands minus operators |
| `Evaluator.EvalLeavesSet` | src/pages/search.js:47-70 | a successful evaluation with a token to run, or from a non-empty stack, leaves at least one set |
| `Evaluator.EvalStaysInStore` | src/pages/search.js:47-63 | every set on the stack stays a set of stored URLs |
| `Evaluator.EvaluateInStore` | src/pages/search.js:42-68 | every set the evaluation leaves holds only stored URLs |
| `Evaluator.EvalFromAppend` | src/pages/search.js:47-68 | evaluating `p + q` evaluates `q` on the stack `p` leaves, and a failure in `p` is final |
| `Evaluator.EvalOperand` | src/pages/search.js:58-61 | an operand pushes `withoutTag` of its rest when it starts with "!", else its `withTag` set |
| `Evaluator.EvalOperator` | src/pages/search.js:52-57 | the AND operator replaces the top two sets by their intersection, the OR operator by their union |
| `Levenshtein.Min3` | src/pages/search.js:229-233 | the minimum is one of the three values and no larger than any |
| `Levenshtein.LevenshteinDistance` | src/pages/search.js:202-238 | the table method returns the edit distance `Distance` |
| `Levenshtein.FillColumn` | src/pages/search.js:222-234 | filling column j makes columns 0..j hold the prefix distances, and row 0 is untouched |
| `Levenshtein.DistanceStep` | src/pages/search.js:225-233 | a table cell is the minimum of delete, insert and substitute on the prefixes |
| `Levenshtein.DistanceEmpty` | src/pages/search.js:212-218 | the distance to or from "" is the other string's length |
| `Levenshtein.DistanceSelf` | src/pages/search.js:202-238 | every string is at distance 0 from itself |
| `Levenshtein.DistanceSymmetric` | src/pages/search.js:202-238 | the distance does not depend on the order of the arguments |
| `Levenshtein.DistanceBounds` | src/pages/search.js:202-238 | the distance lies between the length difference and the longer length |
| `Levenshtein.DistanceZero` | src/pages/search.js:202-238 | distance 0 iff the strings are equal |
| `Ranking.JsString` | src/pages/search.js:203-204 | a missing argument converts to "undefined", a given one to itself |
| `Ranking.LevenshteinCompare` | src/pages/search.js:241-246 | the result is the difference of the two distances to the query, and 0 for equal arguments |
| `Ranking.Bonus` | src/pages/search.js:84-85 | the bonus is -1000 iff the target includes the query, and 0 otherwise |
| `Ranking.TotalIsShiftedKey` | src/pages/search.js:84-101 | the comparator's `totalA` is the ranking key minus a constant of the two queries |
| `Ranking.RankCompare` | src/pages/search.js:76-104 | the comparator returns the difference of the two ranking keys |
| `Ranking.RankKeyIgnoresQueryCase` | src/pages/search.js:81-82 | lower-casing the queries first does not change any key |
| `Ranking.RankKeyEmptyQueries` | src/pages/search.js:81-101 | with empty queries a URL's key is its length plus three times its name's length, minus 4000 |
| `Ranking.SortByRank` | src/pages/search.js:76-104 | the sort permutes the URLs into ascending order of ranking key |
| `Ranking.InsertRanked` | src/pages/search.js:76-104 | one insertion step extends the sorted prefix by one place and permutes the array |
| `Search.BlankQuery` | src/pages/search.js:71-73 | a query without a non-blank word, the empty query among them, selects every stored URL |
| `Search.FilterInStore` | src/pages/search.js:40-73 | whatever a query selects is a set of stored URLs |
| `Search.NeverEmptyStack` | src/pages/search.js:70 | with a non-parenthesis token, `stack[0]` is read from an empty stack only after a mismatch |
| `Search.UncaughtIffMismatched` | src/pages/search.js:40-70 | a search escapes uncaught iff the query has a word and its parentheses are mismatched |
| `Search.ErrorFlagIffStarved` | src/pages/search.js:47-67 | the error flag is set iff the parentheses match and some operator meets fewer than two sets |
| `Search.AndQuery` | src/pages/search.js:52-54 | `a & b` selects the intersection of what `a` and `b` select |
| `Search.OrQuery` | src/pages/search.js:55-57 | a OR b selects the union of what `a` and `b` select |
| `Search.OrThenAndQuery` | src/pages/search.js:196 | a OR b, then AND c, selects `a ∩ (b ∪ c)` |
| `Search.AndThenOrQuery` | src/pages/search.js:166-175 | a AND b, then OR c, selects `(a ∩ b) ∪ c` |
| `Search.UnmatchedOpenQuery` | src/pages/search.js:176-177 | `( a` is no error and selects what `a` selects |
| `Search.OpenGroupQuery` | src/pages/search.js:176-196 | `( a & b` with no ")" selects what `a` selects, for either operator |
| `Search.UnmatchedCloseQuery` | src/pages/search.js:186-188 | `a )` escapes uncaught |
| `Search.LoneOperatorQuery` | src/pages/search.js:64-67 | a lone operator sets the error flag |
| `Search.JuxtaposedQuery` | src/pages/search.js:70 | `a b` selects what `a` selects; the extra set is ignored |
| `Search.SingleOperandQuery` | src/pages/search.js:58-61 | one operand selects its own set |
| `Search.NegationPartition` | src/pages/search.js:59-61 | `t` and `!t` select disjoint sets that together give every stored URL |
| `Search.Spread` | src/pages/search.js:70 | `[...set]` lists every element of the set exactly once |
| `Search.FilterQuery` | src/pages/search.js:16-73 | the tokenize-compile-evaluate pipeline gives `FilterUrls` of the tag field, a set of stored URLs |
| `Search.RankResults` | src/pages/search.js:70-104 | the sorted list holds every selected URL exactly once, in ascending order of ranking key |
| `Search.SearchUrls` | src/pages/search.js:12-104 | a search ends with results or with the error flag exactly when filtering does; the results list each selected URL once, in ascending order of ranking key |
| `TagField.ParseTags` | pages/set.js:38-40 | every parsed tag is non-empty, trimmed and free of commas |
| `TagField.ParseTagsAppend` | pages/set.js:38-40 | a comma splits the field into the tags before it and the tags after it |
| `TagField.ParseEmpty` | pages/set.js:38-40 | an empty field holds no tags |
| `TagField.ParseAfterSpace` | pages/set.js:39 | a space before a tag is trimmed away |
| `TagField.ParseClean` | pages/set.js:38-40 | a clean tag on its own parses to itself |
| `TagField.CommaSeparates` | pages/set.js:38-40 | "," separates two tags |
| `TagField.CommaSpaceSeparates` | pages/set.js:38-40 | ", " separates two tags just as "," does |
| `TagField.TrailingSeparator` | pages/set.js:38-40 | a trailing ", " adds no tag |
| `TagField.ParseBeforeSpace` | pages/set.js:39 | a space after a tag is trimmed away |
| `TagField.ParseTrailingComma` | pages/set.js:38-40 | a comma at the end of the field adds no tag |
| `TagField.TrailingComma` | pages/set.js:38-40 | a clean tag followed by "," is that one tag |
| `TagField.TagThenSpace` | pages/set.js:38-40 | a clean tag followed by a space is that one tag |
| `TagField.PaddedTag` | pages/set.js:38-40 | a clean tag with a space on each side is that one tag |
| `TagField.SpacedCommas` | pages/set.js:38-40 | `x , y ,` parses to exactly the tags `x` and `y` |
| `TagField.ParsePrinted` | pages/set.js:17-40 | parsing the printed tag field gives back the clean tags, in order |
| `TagField.FillFields` | pages/set.js:12-29 | a stored URL fills the fields with its name and printed tags; anything else clears both |
| `TagField.Submit` | pages/set.js:33-49 | a valid URL stores the record parsed from the form; an invalid one leaves the store alone |
| `TagField.SubmitKeepsFormRecords` | pages/set.js:33-43 | submitting keeps every record with a non-empty name and duplicate-free clean tags |
| `TagField.UpsertCleanTags` | pages/set.js:33-43 | storing a record with clean tags under a non-empty URL keeps every record in that shape |
| `TagField.ResubmitUnchanged` | pages/set.js:12-43 | typing a stored URL and submitting the filled form leaves the store unchanged |
| `TagField.NewBookmark` | pages/set.js:38-43 | a new URL with empty fields is stored under itself as name, with no tags |

## Left out

- Page wiring is not modelled: the DOM, the results area, the entry buttons, the tabs API and `console.error`. The result list is where the model stops. The remove button's `removeUrl` is `Store.PBMState.RemoveUrl`.
- Browser storage is not modelled: `PBMState.update`, `save`, `URLEntry.toString`/`fromString` and the promise sequencing. A search works on a snapshot `Urls` of the store.
- `PBMState.config` and the settings page are outside the query engine and the record store.
- `getTags` is not modelled. It counts tag occurrences for no page of the core, and it calls `PBMState.hasOwn`, which the class does not define.
- `new URL(...)` validation is not modelled: URL parsing is the browser's, so `TagField.Submit` takes its verdict as the boolean `urlIsValid`.
- Text.Lower: `toLowerCase` is modelled on ASCII only. Other characters are left as they are, so non-ASCII case mapping is not captured.
- Text.Split: strings are sequences of `char`, which are Unicode scalar values, where JavaScript strings are sequences of UTF-16 code units. `trim` uses the ECMAScript WhiteSpace and LineTerminator set as listed in `IsWhitespace`.
- Levenshtein.LevenshteinDistance: it counts Unicode scalar values, where the source counts UTF-16 code units. A character outside the Basic Multilingual Plane counts once here and twice in the source, and a lone surrogate cannot be represented.
- Search.Spread: the enumeration order of a JavaScript `Set` is not modelled. It picks some duplicate-free listing of the set.
- Store.AllUrls: the key order of `Object.keys` is not modelled. It gives the set of keys.
- Ranking.SortByRank: the engine's sort algorithm is not modelled. An insertion sort driven by the same comparator stands in for it. The contract states a permutation in ascending key order, not which order equal keys end up in.
- Ranking.RankCompare: it requires both URLs to be stored. The comparator would throw on `getUrl(a).name` otherwise, but it is only given URLs from the store (`Search.FilterInStore`).
- Search.UncaughtIffMismatched: it speaks of the query string. `Search.NeverEmptyStack` gives the same fact for any token list with a non-parenthesis token.
