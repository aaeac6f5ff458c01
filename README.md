# Synonym checker, modelled in Dafny

This project models `SynonymCheck`, a command-line program. It reads one list of lines that
holds several independent phases. Each phase has a count-prefixed block of synonym pairs and
then a count-prefixed block of query pairs. For every query the program prints `synonyms` or
`different`.

The model has four modules, one per file:

- `java_text.dfy` (`JavaText`): the Java library behaviour the program relies on.
  - `String.split(" ")`: single spaces only, trailing empty tokens dropped, and a string
    without a space comes back whole.
  - `toLowerCase` and `equalsIgnoreCase` on ASCII letters.
  - `String.isBlank`, matching `"\\d+"`, and `Integer.parseInt`, including its `int` range.
  - The exceptions, as an `Error` datatype inside a `Result`.
- `synonym_store.dfy` (`SynonymStore`): building the store, a map from lower-cased word to a
  set of words.
  - `AddPair` is the four-branch put rule. It is deliberately not union-find: only the two
    words of the pair are updated.
  - `WellFormed` is the invariant construction keeps: every key is in its own set, and every
    member of a stored set is a key.
  - `BuildStore` is the left fold of `FoldLine` that specifies construction.
    `ConstructSynonymStore` is the imperative loop, proved equal to it; `PutPair` holds the
    four branches of map puts for one pair.
- `query.dfy` (`Query`): evaluating a query.
  - The checks in order: equal words, unknown word, the direct check (the two sets share
    more than one word), then the one-hop check.
  - The one-hop expansion (`Expand`) fails with `NullPointer` when a member has no entry.
    On a well-formed store it never does.
  - `RunAll` specifies a block of queries: every line is evaluated (`EvaluateLine`) and the
    results are collected up to the first failure (`Collect`). `RunTestCases` is the loop,
    proved equal to it.
- `phases.dfy` (`Phases`): the frame splitter and the phase driver.
  - A `SharedIndex` object stands for the shared cursor, which the methods advance in place.
  - `ReadBlock`, `Segregate`, `Phase`, `RunPhases` and `Program` are the specification
    functions. `ReadCountedBlock`, `SegregateSynonymsVsTestCases`, `Process`, `RunPhasesLoop` and
    `RunProgram` are the imperative code, each proved against one of them.
  - The printed lines are returned as a sequence, together with the error that ended the run,
    if any. A phase prints only after all of its queries are answered, so a failure keeps
    the output of the phases before it.

Consequences of the merge rule and of the tokeniser that are easy to get wrong:

- Pairs `(happy, glad)` then `(glad, cheerful)`: `cheerful` is a newcomer, so it receives
  `glad`'s grown set plus `glad`, which is `{happy, glad, cheerful}`, not `{glad, cheerful}`.
  The direct check, not the one-hop check, answers `synonyms` (`Query.ChainIsSynonyms`).
- Pairs `(a, b)`, `(c, d)`, `(b, c)`: `a` keeps `{a, b}` and `d` keeps `{c, d}`. Even so,
  query `(a, d)` answers `synonyms`, because both one-hop expansions reach `{a, b, c, d}`
  (`Query.StaleSetsStillSynonyms`). It is never `different`.
- Tokens are separated by single spaces, not by whitespace in general. A tab does not
  separate tokens, and two spaces produce an empty token.
- A blank block-count line fails the `"\\d+"` match, so it raises a number-format error. A
  missing count line, or a block that runs past the end of the input, raises
  `IndexOutOfBounds`. The phase-count line alone is checked for blankness first.

## Model

| member | source | states |
|---|---|---|
| `JavaText.LowerChar` | src/com/SynonymCheck.java:64-65 | an upper-case ASCII letter becomes the letter 32 code points above it, and every other character is kept |
| `JavaText.ToLower` | src/com/SynonymCheck.java:64-65 | the result has the input's length, contains no upper-case ASCII letter, and keeps every other character |
| `JavaText.ToLowerAscii` | src/com/SynonymCheck.java:64-65 | each upper-case ASCII letter of the string is lowered to the letter 32 code points above it |
| `JavaText.EqualsIgnoreCase` | src/com/SynonymCheck.java:66 | the two strings agree once lower-cased; `EqualsIgnoreCaseCharwise` proves this is Java's length check followed by a character-by-character comparison under case mapping |
| `JavaText.EqualsIgnoreCaseCharwise` | src/com/SynonymCheck.java:66 | equal ignoring case exactly when the lengths agree and every pair of characters agrees after case mapping |
| `JavaText.EqualsIgnoreCaseOfLowered` | src/com/SynonymCheck.java:66 | on two lower-cased words, equalsIgnoreCase holds exactly when they are equal |
| `JavaText.Split` | src/com/SynonymCheck.java:53 | `split(" ")` with the limit 0: `SplitTokens` and `JoinPieces` characterize its tokens, and `SplitPair` the two-word case |
| `JavaText.PiecesNoSpace` | src/com/SynonymCheck.java:99 | no piece between single spaces contains a space |
| `JavaText.SplitTokens` | src/com/SynonymCheck.java:99 | no token contains a space; a line without a space is one token; otherwise the tokens are the space-separated pieces up to the last non-empty one, and every piece dropped after them is empty |
| `JavaText.JoinPieces` | src/com/SynonymCheck.java:99 | the pieces between single spaces, joined back with one space, give the original line |
| `JavaText.SplitPair` | src/com/SynonymCheck.java:53 | two space-free words with one space between them split into exactly those two tokens |
| `JavaText.IsBlank` | src/com/SynonymCheck.java:170 | every character is whitespace, so the empty line is blank; `Phases.DigitsNotBlank` proves no all-digit line is blank |
| `JavaText.MatchesDigits` | src/com/SynonymCheck.java:143 | the line is non-empty and all ASCII digits, as `matches("\\d+")` requires; `ParseInt` and `Phases.ReadBlock` rely on it |
| `JavaText.ParseInt` | src/com/SynonymCheck.java:175 | a digit string parses to its decimal value when that fits an int, and otherwise raises a number-format error |
| `JavaText.ParseIntDecimal` | src/com/SynonymCheck.java:146 | every int-sized number, written in decimal, parses back to itself |
| `SynonymStore.MergeAndReturn` | src/com/SynonymCheck.java:131-136 | the new set holds the bag and the added word and nothing else |
| `SynonymStore.AddPair` | src/com/SynonymCheck.java:105-125 | after one pair, both words are keys; each word's set holds the other word, and on a well-formed store both words; every other key keeps exactly its old set |
| `SynonymStore.AddPairJoins` | src/com/SynonymCheck.java:105-125 | on a well-formed store, all four branches give both words the same set: their two prior sets plus both words |
| `SynonymStore.AddPairGrows` | src/com/SynonymCheck.java:105-125 | folding a pair never removes a word from any stored set |
| `SynonymStore.AddPairKeepsWellFormed` | src/com/SynonymCheck.java:95-136 | every key stays in its own set, and every member of a stored set stays a key |
| `SynonymStore.FoldLine` | src/com/SynonymCheck.java:98-126 | one more line succeeds exactly when the store so far exists and the line has two tokens; the keys then grow by exactly the line's two lower-cased words |
| `SynonymStore.BuildStore` | src/com/SynonymCheck.java:95-129 | a failed construction fails with "Must be a Pair" |
| `SynonymStore.BuildStoreSucceeds` | src/com/SynonymCheck.java:98-102 | construction succeeds exactly when every line has at least two tokens |
| `SynonymStore.BuildStoreAborts` | src/com/SynonymCheck.java:100-101 | one line that is not a pair makes the whole construction fail with "Must be a Pair" |
| `SynonymStore.BuildStoreWellFormed` | src/com/SynonymCheck.java:95-129 | every store construction builds is well formed |
| `SynonymStore.BuildStoreKeys` | src/com/SynonymCheck.java:95-129 | the keys of a built store are exactly the lower-cased first two words of its lines |
| `SynonymStore.SinglePairStore` | src/com/SynonymCheck.java:119-124 | a single pair line stores both lower-cased words, each with the set of the two |
| `SynonymStore.PutPair` | src/com/SynonymCheck.java:105-125 | the four branches of map puts leave exactly the store the pair rule describes |
| `SynonymStore.ConstructSynonymStore` | src/com/SynonymCheck.java:95-129 | the put-by-put loop builds exactly the store of the fold, and that store is well formed |
| `Query.IntersectionMoreThanOne` | src/com/SynonymCheck.java:91-92 | the intersection has more than one element exactly when two distinct words lie in both sets |
| `Query.CheckIfRelation` | src/com/SynonymCheck.java:88-93 | true exactly when two distinct words lie in both sets |
| `Query.Expand` | src/com/SynonymCheck.java:83-84 | the flatMap succeeds exactly when every member is a key, and then gives every word one hop away |
| `Query.ExpandWellFormed` | src/com/SynonymCheck.java:83-84 | on a well-formed store, the expansion of a stored set never meets a missing entry and contains the set itself |
| `Query.CheckIfDirectRelation` | src/com/SynonymCheck.java:76-80 | true exactly when the two words' own sets share two distinct words |
| `Query.CheckIfInDirectRelation` | src/com/SynonymCheck.java:82-86 | fails with a null-pointer error exactly when a member of either set has no entry; otherwise true exactly when the one-hop expansions share two distinct words |
| `Query.VerifyConstraintsAndGet` | src/com/SynonymCheck.java:63-74 | the verdict is "synonyms" or "different", and the only failure is a null-pointer error |
| `Query.VerdictCases` | src/com/SynonymCheck.java:63-74 | equal lower-cased words are synonyms even when unknown; distinct words where one is not a key are different; for two distinct keys the verdict is "synonyms" exactly when the direct sets, or else the one-hop sets, share two words |
| `Query.VerdictOnWellFormed` | src/com/SynonymCheck.java:68-69 | on a well-formed store, a query never fails |
| `Query.VerdictSymmetric` | src/com/SynonymCheck.java:63-74 | swapping the two query words does not change the verdict |
| `Query.SinglePairSynonyms` | src/com/SynonymCheck.java:63-70 | with only the pair (a, b) folded in, with a different from b, the query (a, b) or (b, a) in any letter case answers "synonyms" |
| `Query.ChainIsSynonyms` | src/com/SynonymCheck.java:112-114 | after (a, b) and (b, c), c holds {a, b, c}, and the direct check alone makes (a, c) synonyms |
| `Query.StaleSetsStillSynonyms` | src/com/SynonymCheck.java:105-111 | after (a, b), (c, d) and (b, c), the direct check fails for (a, d), yet the verdict is "synonyms" through the one-hop check |
| `Query.StaleStore` | src/com/SynonymCheck.java:105-125 | after (a, b), (c, d) and (b, c), a keeps the stale set {a, b} and d keeps {c, d}, while b and c hold {a, b, c, d} |
| `Query.UnmentionedIsDifferent` | src/com/SynonymCheck.java:68-73 | a word that no pair line mentions is "different" from every other word |
| `Query.EvaluateLine` | src/com/SynonymCheck.java:53-57 | a query line that is answered is answered "synonyms" or "different" |
| `Query.Collect` | src/com/SynonymCheck.java:51-60 | a successful collection has one value per line result |
| `Query.CollectValues` | src/com/SynonymCheck.java:51-60 | collecting succeeds exactly when every line result does, and then keeps every value in its place |
| `Query.CollectFirstFailure` | src/com/SynonymCheck.java:52-58 | a failed collection carries the error of its first failing line, and every line before it succeeded |
| `Query.RunAll` | src/com/SynonymCheck.java:50-61 | the verdicts of a block of query lines, up to the first failure; `RunAllVerdicts` and `RunAllFirstFailure` characterize it |
| `Query.RunAllVerdicts` | src/com/SynonymCheck.java:50-61 | the run succeeds exactly when every line does; then the i-th verdict is line i's verdict, and each verdict is "synonyms" or "different" |
| `Query.RunAllFirstFailure` | src/com/SynonymCheck.java:52-58 | a failing run fails with the error of its first failing line |
| `Query.RunTestCases` | src/com/SynonymCheck.java:50-61 | the appending loop returns exactly the verdict list of the specification |
| `Query.PhaseQueriesNeedOnlyPairs` | src/com/SynonymCheck.java:44-46 | against a store built from pair lines, the queries fail only when a line is not a pair, with "Must be a Pair", and never on a missing entry |
| `Phases.ReadBlock` | src/com/SynonymCheck.java:142-149 | a block is read exactly when the cursor is in range, the count line is all digits and fits an int, and the block fits the input; the block is then the count's many lines after the count line, and the next cursor is the old cursor plus the count plus one; a count line that is not all digits raises the number-format error with its message |
| `Phases.Segregate` | src/com/SynonymCheck.java:138-162 | on success the synonym block is lines idx+1 to idx+n1, the query block the n2 lines after the second count line, and the cursor ends at idx+n1+n2+2; a failure comes from one of the two count reads |
| `Phases.ReadCountedBlock` | src/com/SynonymCheck.java:142-148 | reads the block at the shared cursor and moves the cursor just past it; on failure the cursor stays put |
| `Phases.SegregateSynonymsVsTestCases` | src/com/SynonymCheck.java:138-162 | returns the two blocks and leaves the shared cursor where the specification says; when only the second count fails, the cursor has already moved past the first block |
| `Phases.SharedIndex.constructor` | src/com/SynonymCheck.java:26 | the cursor starts at the given value |
| `Phases.ExtractTotalNumberOfTestCases` | src/com/SynonymCheck.java:169-177 | a null or blank line raises IllegalArgument, a line that is not all digits raises NumberFormat; an all-digit line (leading zeros allowed) succeeds exactly when its value fits an int, and the result is then that value, otherwise NumberFormat |
| `Phases.ExtractRoundTrip` | src/com/SynonymCheck.java:169-177 | every int-sized count, written in decimal, is read back as itself |
| `Phases.Phase` | src/com/SynonymCheck.java:43-48 | one phase: split the frame, build the store, answer the queries; `PhaseOutcome` states what it prints and where it leaves the cursor |
| `Phases.PhaseOutcome` | src/com/SynonymCheck.java:43-48 | a successful phase prints one verdict per query line and moves the cursor past its two blocks; a phase never fails with a null-pointer error |
| `Phases.Process` | src/com/SynonymCheck.java:43-48 | splits the frame, builds the store and answers the queries, returning the phase's verdicts and advancing the cursor as the specification says |
| `Phases.RunPhases` | src/com/SynonymCheck.java:27-29 | no more phases complete than were asked for, and the run ends without failure exactly when all of them complete |
| `Phases.ProgramRunsEveryPhase` | src/com/SynonymCheck.java:23-31 | a run that ends without failure has run exactly as many phases as the first line says |
| `Phases.Program` | src/com/SynonymCheck.java:23-31 | the phase count from the first line, then that many phases from line 1; `ProgramRunsEveryPhase` and `BadFirstLine` characterize it |
| `Phases.BadFirstLine` | src/com/SynonymCheck.java:24-25 | a first line that is not a number prints nothing and runs no phase; a blank one raises IllegalArgument, any other raises NumberFormat |
| `Phases.ProcessNext` | src/com/SynonymCheck.java:27-29 | one pass of the phase loop either ends the run with its error or prints its verdicts ahead of the remaining phases |
| `Phases.RunPhasesLoop` | src/com/SynonymCheck.java:27-29 | the loop over the shared cursor prints exactly what the remaining phases print and ends with their failure |
| `Phases.RunProgram` | src/com/SynonymCheck.java:23-31 | the phase loop over one shared cursor, starting at line 1, prints exactly what the specification prints and ends with the same failure |
| `Phases.OnePhaseVerdicts` | src/com/SynonymCheck.java:44-46 | the pair "a b" builds a store, and against it the query "b a" answers exactly ["synonyms"] |
| `Phases.OnePhaseRun` | src/com/SynonymCheck.java:23-48 | a one-phase input with the pair "a b" and the query "b a" prints exactly "synonyms" and ends normally |

## Left out

- Reading the input file is not modelled; the model starts from the list of lines. The source
  swallows an IOException and continues with an empty list. Reading its first line then
  raises IndexOutOfBounds, which the model does represent.
- Printing is not modelled. The lines that would be printed are returned as a sequence, in
  order.
- The concurrent map and the atomic integer are modelled as a plain map and an object with an
  integer field. The source uses them from one thread only.
- The unused helper that builds an identity map is not modelled; nothing calls it.
- Case mapping covers ASCII letters only. Locale rules and other Unicode case mappings are not
  modelled.
- The order of hash-set iteration is not modelled; the results depend only on set contents.
- Stack traces and the process exit status are not modelled. A run ends with the error value
  that stopped it.
- ReadBlock: when the count plus the cursor overflows an int, Java's `subList` may raise
  IllegalArgumentException rather than IndexOutOfBoundsException. The model reports
  IndexOutOfBounds in every case where the block does not fit.
- ParseInt: the message of the overflow error follows the JDK's "For input string" wording.
  No caller reads it.
- Java strings are UTF-16 code units. Dafny characters are Unicode scalar values, so
  unpaired surrogates are not represented.
