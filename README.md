# sqf: a verified model of the tokenizer, the parser helpers and the array built-ins

This project models the core of `sqf`, a Python linter and interpreter for
SQF, the scripting language of the Arma games. It is written in Dafny and
proves properties of the model.

It covers these parts of the code:

- **The C++ keyterm tokenizer** (`core/tokenizer_source/tokenizer.h`). It cuts
  a script into tokens and keeps every keyterm (operators, brackets, comment
  marks) whole. The longest completed keyterm that no other tracked match
  shares or contains is emitted first. The text buffered before it is
  tokenized recursively.
  - Module `Tokenizer` gives the reference semantics as functions
    (`Scan`, `Emit`, `Flush`, `Run`). They come in two variants: the code
    as written, and a corrected one.
  - It also holds the imperative algorithm (`TokenizeScan` and the methods it
    calls). These keep the C++ data structures `usages` and `string_usages`,
    and are proved to compute `Run(Corrected, ...)` exactly.
  - `TokenizerExamples` proves the model's outcome on inputs where the code
    as written goes wrong (see "## Findings").
- **The helpers of `sqf/parser.py`**:
  - `rindex`, `is_end_statement` and `is_last_endif` with its own
    assertions, and `_analyze_array`: module `SqfParser`;
  - `parse_strings_and_comments`, a mode machine that gathers strings and
    comments: module `SqfStrings`.
- **The two expression splitters**, `sqf/parse_exp.py` (split by priority
  levels of operator sets) and `core/parse_exp.py` (split by an ordered
  operator list). They are modules `SqfParseExp` and `CoreParseExp`, over
  the result trees of `ExpTree`.
- **The variable scopes** of `sqf/namespace.py` (module `Namespaces`).
- **The value types** of `sqf/types.py` (module `SqfTypes`):
  - constants, and `Keyword` with its case-insensitive equality;
  - `String` with its quote checks;
  - the mutable `Array` as a class whose methods change its items in place.
- **The helpers of `sqf/base_type.py`** (module `BaseType`): `get_coord`
  (line and column at the end of a text), `equal_dicts` and `position`.
- **The array built-ins** `_select_array`, `_subtract_arrays`, `_find`,
  `_pushBack` and `_pushBackUnique`, and the `Action` wrapper of
  `sqf/interpreter_expressions.py` (module `ArrayBuiltins`).

The main results:

- The corrected tokenizer always returns, and its tokens concatenate back to
  the text (`Tokenizer.RunRoundTrip`, `Tokenizer.Tokenize`).
- `parse_strings_and_comments` loses nothing: its pieces concatenate back to
  the script. Every string piece passes the checks of `String(...)`. The
  error is raised exactly when the script ends inside a string, at the
  position proved (`SqfStrings.ParseStringsRoundTrip`,
  `SqfStrings.ParseStringsQuoted`, `SqfStrings.ParseStringsError`).
- Both expression splitters only regroup the items. The operator chosen is
  the first, in priority or list order, that splits the expression
  (`SqfParseExp.ParseLeaves`, `SqfParseExp.ParseFirstPriority`,
  `CoreParseExp.ParseLeaves`, `CoreParseExp.ParseSplitsAtFirst`).
- `_analyze_array` fails exactly when there are tokens and some
  comma-separated element is empty. Otherwise it gives one element per
  comma plus one (`SqfParser.ArrayOfCount`).
- A local name resolves to the innermost scope holding it, and a global name
  to the base scope (`Namespaces.ResolveLocal`, `Namespaces.ResolveGlobal`).

The Python callbacks (`analyze_tokens`, an `Action`'s function) are parameters of the model.

## Model

Source paths are relative to the repository root.

| member | source | states |
|---|---|---|
| Tokenizer.StartsWith | core/tokenizer_source/tokenizer.h:18-20 | `startswith(a, b)` holds exactly when `b` is no longer than `a` and agrees with `a` on each of its positions |
| Tokenizer.RFind | core/tokenizer_source/tokenizer.h:13 | `rfind` gives the last position where `t` occurs, and none when `t` occurs nowhere |
| Tokenizer.RSplit | core/tokenizer_source/tokenizer.h:12-16 | when `term` occurs, prefix + term + suffix is the sequence, split at the last occurrence; any split it returns is a prefix and a suffix of the sequence |
| Tokenizer.Insert | core/tokenizer_source/tokenizer.h:70 | inserting into `matches` adds exactly the new term |
| Tokenizer.InsertSorted | core/tokenizer_source/tokenizer.h:70 | `matches` stays in `std::set` order (strictly increasing) after an insertion |
| Tokenizer.Without | core/tokenizer_source/tokenizer.h:117-118 | the matches left are those of the old matches that are not erased |
| Tokenizer.WithoutTwice | core/tokenizer_source/tokenizer.h:111-119 | erasing two sets of matches one after the other is erasing their union |
| Tokenizer.SelectFrom | core/tokenizer_source/tokenizer.h:74-94 | the candidate is the initial one or a longer eligible match (not shared, not contained in another tracked string) |
| Tokenizer.SelectLongest | core/tokenizer_source/tokenizer.h:92-93 | no eligible match is longer than the candidate chosen |
| Tokenizer.Cleanup | core/tokenizer_source/tokenizer.h:109-119 | a keyterm keeps its tracked string exactly when the emission does not discard it; kept strings are unchanged |
| Tokenizer.UpdateTermsFrame | core/tokenizer_source/tokenizer.h:34-72 | the keyterm loop changes neither the buffer nor the emitted tokens |
| Tokenizer.ScanSuffix | core/tokenizer_source/tokenizer.h:29-122 | after any number of characters, the buffer `sequence` is a suffix of the text read so far |
| Tokenizer.SelfCall | core/tokenizer_source/tokenizer.h:98-103 | a recursive call on a prefix at least as long as the text is a call on the text itself |
| Tokenizer.AdvanceKeeps | core/tokenizer_source/tokenizer.h:31-72 | reading a character appends it to the buffer and keeps the tracking invariant: every tracked string is a suffix of the buffer and a prefix of its keyterm, and every match is tracked as itself |
| Tokenizer.ScanKeeps | core/tokenizer_source/tokenizer.h:29-122 | the corrected scan never throws or diverges; emitted tokens + buffer is the text read, and the tracking invariant holds |
| Tokenizer.EmitKeeps | core/tokenizer_source/tokenizer.h:96-121 | a corrected emission keeps emitted tokens + buffer unchanged and keeps the tracking invariant |
| Tokenizer.CleanupKeeps | core/tokenizer_source/tokenizer.h:109-120 | the corrected cleanup keeps the tracking invariant for the new buffer |
| Tokenizer.FlushRoundTrip | core/tokenizer_source/tokenizer.h:124-134 | the corrected end-of-input flush returns, and adds tokens that concatenate to the buffer |
| Tokenizer.RunRoundTrip | core/tokenizer_source/tokenizer.h:22-137 | with distinct keyterms, corrected `tokenize` returns, and its tokens concatenate back to the text |
| Tokenizer.InverseRemove | core/tokenizer_source/tokenizer.h:60-65 | dropping a keyterm's usage removes it from the users of its string in `string_usages`, erasing an empty entry |
| Tokenizer.InverseAdd | core/tokenizer_source/tokenizer.h:55-56 | recording a new usage adds the keyterm to the users of its string |
| Tokenizer.SharedCount | core/tokenizer_source/tokenizer.h:80-81 | a match is shared by another keyterm exactly when its `string_usages` entry has more than one user |
| Tokenizer.ShadowedKeys | core/tokenizer_source/tokenizer.h:82-88 | a match is shadowed exactly when another key of `string_usages` contains it |
| Tokenizer.InverseDrop | core/tokenizer_source/tokenizer.h:113-115 | erasing the users of a string erases that string from `string_usages` |
| Tokenizer.KeptBounds | core/tokenizer_source/tokenizer.h:110-116 | the cleanup loop starts from all usages and ends at `Cleanup` |
| Tokenizer.UpdateKeyterm | core/tokenizer_source/tokenizer.h:35-71 | one pass of the keyterm loop computes `UpdateTerm`, and `string_usages` stays the inverse of `usages` |
| Tokenizer.UpdateKeyterms | core/tokenizer_source/tokenizer.h:34-72 | the keyterm loop computes `UpdateTerms`, and `string_usages` stays the inverse of `usages` |
| Tokenizer.ContainedElsewhere | core/tokenizer_source/tokenizer.h:82-88 | `invalid` holds exactly when some other key of `string_usages` contains the match |
| Tokenizer.SelectCandidate | core/tokenizer_source/tokenizer.h:74-94 | the loop over `matches` picks `SelectFrom` of the matches |
| Tokenizer.EraseUsers | core/tokenizer_source/tokenizer.h:113-114 | the usages left are the old ones minus the erased keyterms |
| Tokenizer.CleanupUsages | core/tokenizer_source/tokenizer.h:109-119 | the cleanup loop leaves `Cleanup` of the usages, with `string_usages` their inverse, and drops the matches among the tracked strings |
| Tokenizer.FlushMatches | core/tokenizer_source/tokenizer.h:124-134 | the flush loop computes the corrected `Flush` |
| Tokenizer.ScanCharacter | core/tokenizer_source/tokenizer.h:31-121 | one pass of the character loop takes the scan state after `i` characters to the state after `i + 1` |
| Tokenizer.TokenizeScan | core/tokenizer_source/tokenizer.h:22-137 | the imperative `tokenize` returns `Run(Corrected, text, ks)`, whose tokens concatenate back to the text |
| Tokenizer.Dedup | core/tokenizer_source/tokenizer.h:34-35 | the keyterm list without repeats holds the same keyterms, each once |
| Tokenizer.Tokenize | core/tokenizer_source/tokenizer.h:22-137 | corrected `tokenize` on any keyterm list returns tokens that concatenate back to the text; no text gives no tokens |
| TokenizerExamples.GrowStep | core/tokenizer_source/tokenizer.h:44-57 | a keyterm that extends its partial match records the longer match, and becomes a match when complete |
| TokenizerExamples.FailStep | core/tokenizer_source/tokenizer.h:58-66 | a keyterm whose partial match fails loses its usage |
| TokenizerExamples.MatchedStep | core/tokenizer_source/tokenizer.h:42-71 | a completed match is left alone by later characters |
| TokenizerExamples.EmptySplit | core/tokenizer_source/tokenizer.h:12-16 | on a missing one-character term, `rsplit` of the empty buffer wraps around to two empty halves |
| TokenizerExamples.BaAsWritten | core/tokenizer_source/tokenizer.h:124-134 | as written, `tokenize("ba", ["b","a","baQ"])` is `["b","a","","b"]`, which is not the text |
| TokenizerExamples.BaCorrected | core/tokenizer_source/tokenizer.h:124-134 | corrected, the same call gives `["b","a"]` |
| TokenizerExamples.AbdeAsWritten | core/tokenizer_source/tokenizer.h:109-119 | as written, `tokenize("abde", ["ab","abc","bde"])` is `["ab","de","bde"]`, seven characters for four |
| TokenizerExamples.AbdeCorrected | core/tokenizer_source/tokenizer.h:109-119 | corrected, the same call gives `["ab","de"]` |
| TokenizerExamples.DupDiverges | core/tokenizer_source/tokenizer.h:34-103 | with the keyterm `"aa"` listed twice, `tokenize("a", ...)` calls itself on `"a"` forever, in both variants |
| TokenizerExamples.DupCorrected | core/tokenizer_source/tokenizer.h:34-103 | with the repeat removed, `"a"` comes back as the single token `"a"` |
| TokenizerExamples.AbAbAsWritten | core/tokenizer_source/tokenizer.h:33-71 | with `"ab"` listed twice before `"b"`, the second copy erases the partial match `"a"` of the first, and `tokenize("ab", ...)` gives `["a", "b"]`, in both variants |
| TokenizerExamples.AbAbCorrected | core/tokenizer_source/tokenizer.h:33-71 | with the repeat removed, `"ab"` comes back as the single token `"ab"` |
| BaseType.SplitLines | sqf/base_type.py:15 | `split('\n')` always gives at least one piece |
| BaseType.AfterLastNewline | sqf/base_type.py:15-17 | the index after the last newline: every later character is not a newline |
| BaseType.SplitLinesRoundTrip | sqf/base_type.py:15 | joining the pieces with newlines gives the text back |
| BaseType.SplitLinesNoNewline | sqf/base_type.py:15 | no piece holds a newline |
| BaseType.SplitLinesCount | sqf/base_type.py:15-16 | there is one more piece than there are newlines |
| BaseType.CountCharPositive | sqf/base_type.py:15-16 | a character is counted exactly when it occurs |
| BaseType.SplitLinesLast | sqf/base_type.py:15-17 | the last piece is the text after the last newline |
| BaseType.LastNewlineShift | sqf/base_type.py:15-17 | dropping the first character moves the position after the last newline back by one, unless no newline is left |
| BaseType.LastLineLength | sqf/base_type.py:17 | the last line's length is the text's length minus the position after its last newline |
| BaseType.GetCoordMeaning | sqf/base_type.py:14-18 | `get_coord` gives the number of newlines plus one, and the count of characters after the last newline |
| BaseType.EqualDicts | sqf/base_type.py:3-11 | `equal_dicts` holds exactly when the two dictionaries agree once the ignored keys are removed |
| BaseType.EqualDictsReflexive | sqf/base_type.py:3-11 | every dictionary equals itself |
| BaseType.EqualDictsSymmetric | sqf/base_type.py:3-11 | the comparison is symmetric |
| BaseType.EqualDictsTransitive | sqf/base_type.py:3-11 | the comparison is transitive |
| BaseType.EqualDictsIgnores | sqf/base_type.py:3-11 | changing an ignored key never changes the answer |
| BaseType.Position | sqf/base_type.py:44-48 | `(1, 1)` without a parent; otherwise, of the text up to the element, the number of newlines plus one and the count of characters after the last newline |
| SqfTypes.Lower | sqf/types.py:276 | lower-casing keeps the length and lower-cases each character |
| SqfTypes.LowerIdempotent | sqf/types.py:276 | lower-casing twice is lower-casing once |
| SqfTypes.KeywordEquality | sqf/types.py:292-299 | two keywords are equal exactly when their lower-cased tokens are, and exactly when their hash keys are |
| SqfTypes.EqualEquivalence | sqf/base_type.py:35-39 | value equality is reflexive, symmetric and transitive |
| SqfTypes.MakeString | sqf/types.py:44-55 | `String(raw)` keeps the quote as container and the text between the quotes; no value is undefined |
| SqfTypes.StringRoundTrip | sqf/types.py:44-59 | `str()` of a string made from a quoted text gives that text back |
| SqfTypes.StringOneQuote | sqf/types.py:44-59 | a one-character quote passes the checks but prints as two quotes |
| SqfTypes.Padding | sqf/types.py:139 | `[Nothing()] * n` has `max(n, 0)` items, all `Nothing` |
| SqfTypes.PrefixPy | sqf/types.py:151 | `list[:n]` clamps `n` to the length, and a negative `n` counts from the end |
| SqfTypes.ExtendedMeaning | sqf/types.py:138-141 | `extend(i)` keeps the items; past the end it pads with `Nothing` up to `i + 1` items, otherwise nothing changes |
| SqfTypes.ResizedMeaning | sqf/types.py:147-152 | `resize(c)` with `c >= 0` gives `c` items, the first `min(c, len)` of them the old ones |
| SqfTypes.ResizedNegative | sqf/types.py:147-152 | a negative count drops that many items from the end |
| SqfTypes.Reversed | sqf/types.py:154-156 | the reversed list holds item `len - 1 - i` at `i` |
| SqfTypes.ReversedTwice | sqf/types.py:154-156 | reversing twice gives the items back |
| SqfTypes.SetItemMeaning | sqf/types.py:162-171 | `set [i, v]` with `i >= 0` puts `v` at `i` after extending, and keeps every other item |
| SqfTypes.Array.Items | sqf/types.py:132-136 | `.value` is None exactly for an undefined array |
| SqfTypes.Array.constructor | sqf/types.py:94-104 | the array holds the given items, or none and is undefined without them |
| SqfTypes.Array.UpdateBaseTokens | sqf/base_type.py:67-72 | every item of an array is a base token |
| SqfTypes.Array.Extend | sqf/types.py:138-141 | the items become `Extended(items, index)` |
| SqfTypes.Array.Append | sqf/types.py:143-145 | the token is appended |
| SqfTypes.Array.Resize | sqf/types.py:147-152 | the items become `Resized(items, count)` |
| SqfTypes.Array.Reverse | sqf/types.py:154-156 | the items are reversed in place |
| SqfTypes.Array.Add | sqf/types.py:158-160 | the other items are appended |
| SqfTypes.SetFrom | sqf/types.py:162-171 | `set` on the items of the right-hand array raises `IndexError` exactly when there are fewer than two or the index is below `-len`, and `TypeError` exactly when the index is not a number; otherwise it stores `SetItem` of the index and the second item |
| SqfTypes.Array.Set | sqf/types.py:162-171 | `set` changes the items to `SetFrom` of the right-hand array's items when that succeeds; otherwise it reports the same exception and nothing changes |
| SqfTypes.NewArray | sqf/types.py:94-104 | `Array(tokens)` fails exactly when an item is `Keyword(',')`; otherwise a fresh array holds the items |
| SqfTypes.NewArrayNoComma | sqf/types.py:98-99 | no item of a made array equals a comma keyword, whatever its case |
| ArrayBuiltins.Find | sqf/interpreter_expressions.py:379-384 | `_find` is -1 exactly when no item equals `rhs`, otherwise the first index of an equal item |
| ArrayBuiltins.PushBack | sqf/interpreter_expressions.py:387-389 | the value is appended and its index returned |
| ArrayBuiltins.PushBackUnique | sqf/interpreter_expressions.py:392-397 | with an equal item present it gives -1 and changes nothing; otherwise it appends and returns the new index |
| ArrayBuiltins.ValueSet | sqf/interpreter_expressions.py:375 | the set holds exactly the values of the items of `rhs` |
| ArrayBuiltins.SubtractArrays | sqf/interpreter_expressions.py:374-376 | the result is no longer than `lhs`; its contents are stated by `SubtractMembers`, `SubtractCounts` and `SubtractKeepsOrder` |
| ArrayBuiltins.SubtractMembers | sqf/interpreter_expressions.py:374-376 | an item is kept exactly when it is in `lhs` and its value is not a value of `rhs` |
| ArrayBuiltins.SubtractKeepsOrder | sqf/interpreter_expressions.py:374-376 | the result is a subsequence of `lhs` |
| ArrayBuiltins.SubtractCounts | sqf/interpreter_expressions.py:374-376 | every item whose value is not a value of `rhs` keeps all its copies in `lhs`, every other item none; with `SubtractKeepsOrder`, the result is exactly the filtered list |
| ArrayBuiltins.SubtractStep | sqf/interpreter_expressions.py:376 | the first item is kept or dropped by its own value, then the rest is filtered |
| ArrayBuiltins.SubtractExample | tests/test_interpreter.py:65-69 | `[1,2,3,2,4] - [2,3]` is `[1,4]` |
| ArrayBuiltins.Clamp | sqf/interpreter_expressions.py:371 | a clamped slice bound lies within the list |
| ArrayBuiltins.SelectArray | sqf/interpreter_expressions.py:361-371 | an exception is raised exactly when both operands are defined and the right-hand array has fewer than two items (`IndexError`), a `start` that is not a number, or a `count` that is not a number after a `start` within the array (`TypeError`) |
| ArrayBuiltins.SelectArrayMeaning | sqf/interpreter_expressions.py:361-371 | `select [start, count]` with numbers within bounds gives up to `count` items from `start` and reports no error |
| ArrayBuiltins.SelectArrayRaisesExamples | sqf/interpreter_expressions.py:364-367 | `[1, 2, 3] select [1]` raises `IndexError`; `[1, 2, 3] select [nil, 1]` raises `TypeError` |
| ArrayBuiltins.SelectArrayPastEnd | sqf/interpreter_expressions.py:364-369 | a numeric start past the end reports "Selecting element past size" and selects nothing, whatever the count |
| ArrayBuiltins.CallAction | sqf/interpreter_expressions.py:466-479 | the action runs, on the arguments, exactly when every argument and every array item is defined |
| Namespaces.Lookup | sqf/namespace.py:15-19 | a missing name reads as the class `Nothing` (`None`), and only a missing one; a present name reads as its value, even when that value is a `Nothing` instance |
| Namespaces.LookupAfterSet | sqf/namespace.py:15-22 | after `s[k] = v`, `s[k]` is `v` (not the missing-name sentinel) and every other name reads as before |
| Namespaces.InnermostFrom | sqf/namespace.py:39-43 | the search from scope `i` down to 1 finds the highest scope holding the name, or 0 when none does |
| Namespaces.Resolve | sqf/namespace.py:37-45 | the scope found is in the stack |
| Namespaces.ResolveGlobal | sqf/namespace.py:44-45 | a name not starting with `_` resolves to the base scope |
| Namespaces.ResolveLocal | sqf/namespace.py:38-43 | a local name resolves above the base exactly when a non-base scope holds it, and then to the innermost one |
| Namespaces.Scope.constructor | sqf/namespace.py:6-10 | a scope has its level and its values, empty when none are given |
| Namespaces.Scope.Get | sqf/namespace.py:15-19 | `scope[name]` is `Lookup` of its values: the class `Nothing` exactly when the name is missing |
| Namespaces.Scope.Set | sqf/namespace.py:21-22 | `scope[item] = value` updates that entry only, and reading it back gives `value` |
| Namespaces.Namespace.Maps | sqf/namespace.py:27 | one map of values per scope of the stack |
| Namespaces.Namespace.constructor | sqf/namespace.py:26-27 | a new namespace holds one fresh base scope with the given variables |
| Namespaces.Namespace.CurrentScope | sqf/namespace.py:29-31 | the current scope is the top of the stack |
| Namespaces.Namespace.BaseScope | sqf/namespace.py:33-35 | the base scope is the bottom of the stack |
| Namespaces.Namespace.GetScope | sqf/namespace.py:37-45 | `get_scope(name)` is the scope `Resolve` picks |
| Namespaces.Namespace.AddScope | sqf/namespace.py:47-48 | a fresh scope at the next level is pushed and the others are kept |
| Namespaces.Namespace.DelScope | sqf/namespace.py:50-51 | only the top scope is popped |
| ExpTree.LeafAll | sqf/parse_exp.py:23 | one leaf per item, in order |
| ExpTree.LeavesOfAppend | sqf/parse_exp.py:28-35 | the items of two result lists side by side are the items of each in turn |
| ExpTree.LeavesOfLeafAll | sqf/parse_exp.py:23 | the leaves of an unsplit expression are its items |
| ExpTree.LeavesOfSingle | sqf/parse_exp.py:38-39 | a one-element result has the items of its element |
| SqfParseExp.CommonOps | sqf/parse_exp.py:26 | the common operators are operators, and an item's normalized text is common exactly when it is an operator |
| SqfParseExp.CommonOpsOccur | sqf/parse_exp.py:26-27 | when some operator is common, some item is one |
| SqfParseExp.CommonOpsMeaning | sqf/parse_exp.py:26 | an operator is common exactly when some item normalizes to it |
| SqfParseExp.CommonOpsNonEmpty | sqf/parse_exp.py:26-27 | some operator is common exactly when some item is an operator |
| SqfParseExp.CommonOpsIgnoresCase | sqf/parse_exp.py:2-3 | expressions that agree up to case meet the same operators |
| SqfParseExp.FirstIndex | sqf/parse_exp.py:14 | the first index whose item is an operator |
| SqfParseExp.LastIndex | sqf/parse_exp.py:12 | the last index whose item is an operator |
| SqfParseExp.Partition | sqf/parse_exp.py:6-15 | three parts: items, the operator, items |
| SqfParseExp.PartitionMeaning | sqf/parse_exp.py:6-15 | the parts concatenate back to `exp`, the middle one is an operator, and both sides are shorter |
| SqfParseExp.PartitionPlace | sqf/parse_exp.py:11-14 | with one operator the split is at its last occurrence, with several at the first occurrence of any |
| SqfParseExp.Min | sqf/parse_exp.py:24 | the least priority |
| SqfParseExp.SortedKeys | sqf/parse_exp.py:24 | `sorted(keys)` lists exactly the keys, in strictly increasing order |
| SqfParseExp.ConsSorted | sqf/parse_exp.py:24 | the least key followed by the sorted rest is the sorted whole |
| SqfParseExp.FirstApplicable | sqf/parse_exp.py:24-27 | a chosen priority is one whose operators split `exp` |
| SqfParseExp.FirstApplicableAt | sqf/parse_exp.py:24-27 | the first key in order whose operators split `exp` is the one chosen |
| SqfParseExp.FirstApplicableNone | sqf/parse_exp.py:24-27 | none is chosen exactly when no key's operators split `exp` |
| SqfParseExp.ParseUnfold | sqf/parse_exp.py:18-43 | without a split the result is the unwrapped list of items, and with a split it is the split by the chosen priority |
| SqfParseExp.ParseExp | sqf/parse_exp.py:18-43 | the imperative `parse_exp` computes `Parse` |
| SqfParseExp.SplitBy | sqf/parse_exp.py:28-36 | the loop over the parts computes the split |
| SqfParseExp.ParsePart | sqf/parse_exp.py:30-35 | one pass of the part loop computes that part's contribution |
| SqfParseExp.ParseLeaves | sqf/parse_exp.py:18-43 | reading the leaves of the result gives `exp` back |
| SqfParseExp.ParseFirstPriority | sqf/parse_exp.py:24-36 | the lowest priority whose operators split `exp` is the one used |
| SqfParseExp.ParseNoSplit | sqf/parse_exp.py:38-43 | with no split, a single item comes back alone and a longer list unchanged |
| CoreParseExp.IndexOf | core/parse_exp.py:3 | the first index of `op`, and none exactly when `op` is absent |
| CoreParseExp.Partition | core/parse_exp.py:1-6 | three parts |
| CoreParseExp.PartitionMeaning | core/parse_exp.py:1-6 | the parts concatenate back to `exp`; with `op` present the split is at its first occurrence and both sides are shorter |
| CoreParseExp.FirstOp | core/parse_exp.py:11-12 | the operator chosen occurs in `exp`, and none is chosen exactly when no operator occurs |
| CoreParseExp.FirstOpAt | core/parse_exp.py:11-12 | the first operator, in list order, that occurs is the one chosen |
| CoreParseExp.CollectThree | core/parse_exp.py:14-24 | the result of three parts is the contribution of each in turn |
| CoreParseExp.ParseExp | core/parse_exp.py:9-26 | the imperative `parse_exp` computes `Parse` |
| CoreParseExp.ParsePart | core/parse_exp.py:16-24 | one pass of the part loop computes that part's contribution |
| CoreParseExp.ParseLeaves | core/parse_exp.py:9-26 | reading the leaves of the result gives `exp` back |
| CoreParseExp.CollectLeaves | core/parse_exp.py:14-24 | the leaves of the collected parts are the items of the parts |
| CoreParseExp.ParseNoOperator | core/parse_exp.py:26 | an expression without any operator comes back unchanged, one leaf per item |
| CoreParseExp.ParseSplitsAtFirst | core/parse_exp.py:9-24 | with an operator present, the result is the result of the items before its first occurrence, that operator, then the result of the items after |
| SqfStrings.ParseStringsAndComments | sqf/parser.py:128-193 | the imperative loop computes `ParseStrings` |
| SqfStrings.FlatAppend | sqf/parser.py:146 | appending a piece appends its text |
| SqfStrings.StepGood | sqf/parser.py:137-186 | one pass of the loop keeps the invariant: pieces + buffer is the text read, every piece is well formed, and the buffer starts with its mode's mark |
| SqfStrings.StepText | sqf/parser.py:137-186 | one pass keeps pieces + buffer equal to the text read |
| SqfStrings.StepBuffer | sqf/parser.py:137-186 | one pass keeps the buffer starting with the quote or comment mark of its mode, and `in_double` off outside strings |
| SqfStrings.StepPieces | sqf/parser.py:137-186 | one pass only emits well-formed pieces |
| SqfStrings.ClosedWellFormed | sqf/parser.py:140-171 | what closes a string or comment makes a well-formed piece |
| SqfStrings.LexGood | sqf/parser.py:137-186 | the invariant holds after every prefix of the tokens |
| SqfStrings.LexShape | sqf/parser.py:137-186 | after every prefix, the pieces are well formed and the buffer starts with its mark |
| SqfStrings.ParseStringsRoundTrip | sqf/parser.py:128-193 | the pieces of a result concatenate back to the script |
| SqfStrings.ParseStringsQuoted | sqf/parser.py:146-157 | every string piece meets the checks of `String(...)`: two or more characters, the same quote at both ends |
| SqfStrings.ParseStringsError | sqf/parser.py:188-193 | the error is raised exactly when the script ends inside a string, at the coordinate of the text of the pieces before it |
| SqfStrings.PrintedIsText | sqf/parser.py:50-51 | `str()` of a well-formed piece is its text |
| SqfStrings.LexPlain | sqf/parser.py:185-186 | tokens without quotes or comment marks are copied in order and the machine stays in code mode |
| SqfStrings.Plains | sqf/parser.py:186 | one plain piece per token |
| SqfStrings.ParseStringsPlain | sqf/parser.py:128-193 | a script without quotes or comment marks comes back as its tokens |
| SqfStrings.LexUnfold | sqf/parser.py:137 | the state after one more token is one more step |
| SqfStrings.DoubledQuote | sqf/parser.py:140-148 | `"a""b"` is one string |
| SqfStrings.LoneQuote | sqf/parser.py:151-158 | `'a'b` is a string followed by a token |
| SqfStrings.LineComment | sqf/parser.py:166-171 | a line comment runs up to and including `\r\n` |
| SqfStrings.BlockComment | sqf/parser.py:160-165 | a block comment runs to its closing mark, whatever lies inside |
| SqfStrings.UnclosedString | sqf/parser.py:190-191 | an unclosed string after `x\n` is an error at line 2, column 0 |
| SqfStrings.UnclosedComment | sqf/parser.py:188-189 | an unclosed comment is kept up to the end of the script |
| SqfParser.Reverse | sqf/parser.py:16 | `the_list[::-1]` holds item `len - 1 - i` at `i` |
| SqfParser.FirstMatch | sqf/parser.py:16 | `.index` gives the first equal item, and fails exactly when none is equal |
| SqfParser.Rindex | sqf/parser.py:15-16 | `rindex` has no result exactly when no item equals `value`, otherwise the last position of an equal item |
| SqfParser.StopsMeaning | sqf/parser.py:26-29 | `single` stops at `;`, `both` at `;` and `,` |
| SqfParser.IsEndStatementCases | sqf/parser.py:196-203 | inside `[]` only `;` or the end of file ends a statement; outside brackets or in `()`/`{}` also `,`; in any other state only the end of file |
| SqfParser.IsLastEndif | sqf/parser.py:262-269 | the answer is true exactly when the `#ifdef`/`#ifndef` count exceeds the `#endif` count by one |
| SqfParser.DifferenceAppend | sqf/parser.py:263-268 | the balance of two stretches of tokens adds up |
| SqfParser.IfdefExamples | sqf/parser.py:270-272 | the three assertions after `is_last_endif` hold |
| SqfParser.Parts | sqf/parser.py:533-541 | there is always at least one comma-separated part |
| SqfParser.PartsCount | sqf/parser.py:533-541 | one part per comma, plus one |
| SqfParser.PartsHaveNoComma | sqf/parser.py:533-541 | no part holds a comma |
| SqfParser.CommaWord | sqf/parser.py:534 | a token equal to the comma keyword is that keyword |
| SqfParser.PartsJoin | sqf/parser.py:533-541 | joining the parts with commas gives the tokens back |
| SqfParser.LastPartEmpty | sqf/parser.py:544 | the last part is empty exactly when there are no tokens or the last one is a comma |
| SqfParser.PartsStable | sqf/parser.py:533-541 | a finished part of a prefix is a part of the whole |
| SqfParser.AnalyzeArray | sqf/parser.py:529-548 | the imperative loop computes `ArrayOf` |
| SqfParser.ArrayEmptyPart | sqf/parser.py:536-537 | a comma after an empty part rejects the array |
| SqfParser.ArrayEnd | sqf/parser.py:543-548 | after the loop, an empty last part after a comma is an error, otherwise the last part is analysed when there are tokens |
| SqfParser.ArrayOfCount | sqf/parser.py:529-548 | the array is an error exactly when there are tokens and some part is empty; otherwise it has no element for no tokens and one per comma plus one |
| SqfParser.ArrayTrailingComma | sqf/parser.py:544-545 | a trailing comma, as in `[1,]`, is an error |

## Left out

- The character loop of `tokenize` uses `unsigned int` and `size_t` arithmetic. Only the one wrap-around that matters is modelled: `rfind` returning `npos` in `rsplit` (`Tokenizer.RSplit`). Texts are assumed to fit in memory.
- `Tokenizer.RunRoundTrip`, `Tokenizer.TokenizeScan`: proved for the corrected variant only. The code as written breaks the round trip (see Findings).
- `Tokenizer.TokenizeScan`: requires distinct keyterms. `Tokenizer.Tokenize` removes repeats first, so on a keyterm list with repeats it differs from the code as written, which can then never return (`TokenizerExamples.DupDiverges`) or split a keyterm it should keep whole (`TokenizerExamples.AbAbAsWritten`).
- The inputs on which the code as written throws `std::out_of_range` (for example `tokenize("catazq", ["cat","catalog","atazq"])`) are not written out as lemmas. The model returns `Thrown` for them, as `Tokenizer.Outcome` allows.
- sqf/base_tokenizer.py, which calls the C++ tokenizer and drops empty tokens, is not part of this model.
- `SqfTypes.Lower`: lower-cases ASCII letters only. Python's `str.lower()` on other Unicode letters is not modelled.
- Floating-point numbers: `Number` holds an `int`. So `ArrayBuiltins.SelectArray` and `SqfTypes.Array.Set` do not model the `TypeError` that a non-integral float raises as a slice bound or list index.
- The `Value` type covers `Nothing`, `Number`, `Boolean`, `String` and `Keyword`. Variables, statements, code, namespaces, configs and objects of sqf/types.py are not part of this model. `Variable` is kept only for what `is_global` says about a name.
- Nested arrays are not modelled: an `Array`'s items are flat values.
- A scope's dictionary is a value map. The aliasing of the `values` dictionary passed to `Scope(...)` with the caller's dictionary is not modelled.
- `SqfTypes.Array.UpdateBaseTokens`: parents (`set_parent`) and positions of the items are not modelled, beyond `BaseType.Position` on a given text.
- `BaseType.Position` takes the result of `string_up_to` as an argument; `string_up_to` is not part of this model.
- `BaseType.EqualDicts`: a dictionary is a `map`. Its key iteration order is not observable, so it is not modelled.
- `SqfParseExp`: items are the strings `str(item)` gives. Every item is assumed truthy, so `add_condition` keeps every leaf. The `container` argument is always `list`.
- `CoreParseExp.FirstOp`: the test `exp != op` (core/parse_exp.py line 12) compares a list to an item, so it always holds. It is left out.
- `SqfParser.Rindex`: the `ValueError` of a missing value is the `None` result.
- `SqfParser.Same`: equality of `ParserKeyword` and `Preprocessor` tokens is taken to be `Keyword`'s case-insensitive equality. `EndOfFile` tokens always compare equal. The definitions of these token classes are not part of this model.
- `SqfParser.ArrayOf`: `analyze_tokens` is a function parameter. `tokens_until` is given as the text `get_coord` joins, because its `str()` of each token is not modelled.
- `SqfStrings.CommentText`: for an unclosed block comment, `Comment(...)` strips two characters too many. The model keeps the text. That piece is always the last one, so no error position depends on it.
- The rest of sqf/parser.py is not part of this model: `parse_single`, `parse_block`, `parse`, define expansion and the `#ifdef` handling (`get_ifdef_variable`, `get_ifdef_tokens`, `statement_stops_at`).
- The other built-ins of sqf/interpreter_expressions.py and the interpreter that calls them are not part of this model. The interpreter's error reporting is the `error` field of `ArrayBuiltins.Selection`; a Python exception `_select_array` raises is `ArrayBuiltins.Raises`, named by its class.
- `ArrayBuiltins.SubtractArrays`: items are compared by their Python `.value`. A `True`/`False` value equals `1`/`0`, as in Python. Hashing is otherwise not modelled.
- I/O, file reading, and the Python `assert`s that guard the types of arguments are not modelled.
- `SqfTypes.MakeString`: requires a value whose first and last characters are the same quote. The `AssertionError`s of sqf/types.py lines 49-51 on other values, and the `IndexError` of `value[0]` on `""`, are not modelled.
- `Namespaces.Namespace.CurrentScope`, `Namespaces.Namespace.BaseScope`, `Namespaces.Namespace.GetScope`, `Namespaces.Namespace.DelScope`: require a non-empty stack. The `IndexError` that sqf/namespace.py lines 31, 35, 43, 45 and 51 raise on an empty stack is not modelled. `DelScope` may pop the base scope, as `del_scope` does; the stack is then empty.

## Findings

| source | as written | input that shows it | evidently intended | confidence | as-written member | corrected member |
|---|---|---|---|---|---|---|
| core/tokenizer_source/tokenizer.h:124-134 | the end-of-input flush splits the buffer at each pending match, even one whose text already went out with an earlier prefix; `rsplit` then falls back on `npos` and the flush pushes an empty prefix and the match again | `tokenize("ba", ["b", "a", "baQ"])` gives `["b", "a", "", "b"]` ("bab") | tokens that concatenate back to the text: `["b", "a"]`, skipping a match that no longer occurs in the buffer | not executed | TokenizerExamples.BaAsWritten | TokenizerExamples.BaCorrected |
| core/tokenizer_source/tokenizer.h:109-119 | after an emission, only tracked strings contained in the emitted term are dropped; a partial match that reaches back into the emitted text survives, completes later and is emitted again | `tokenize("abde", ["ab", "abc", "bde"])` gives `["ab", "de", "bde"]` (7 characters for 4) | drop every tracked string that is not a suffix of the new buffer: `["ab", "de"]` | not executed | TokenizerExamples.AbdeAsWritten | TokenizerExamples.AbdeCorrected |
| core/tokenizer_source/tokenizer.h:34-103 | a keyterm listed twice sees, in its second pass, the partial match its first pass just grew; it completes too early, and the recursive call gets the whole text | `tokenize("a", ["aa", "aa"])` calls itself on `"a"` forever | each keyterm counted once: `"a"` comes back as `["a"]` | not executed | TokenizerExamples.DupDiverges | TokenizerExamples.DupCorrected |
| core/tokenizer_source/tokenizer.h:33-71 | a keyterm listed twice starts a partial match in its first pass; the second pass appends the same character again, fails to match and erases the partial match, so the keyterm is never completed | `tokenize("ab", ["ab", "ab", "b"])` gives `["a", "b"]` | each keyterm counted once: `["ab"]`, as with `["ab", "b"]` | not executed | TokenizerExamples.AbAbAsWritten | TokenizerExamples.AbAbCorrected |
