# Company mapping: a Dafny model of the identity-resolution engine

The two scripts `supabase/mapping_script.py` and `supabase/mapping_script2.py`
link a list of listed companies (id, name, TSX code) to the companies of
goldstockdata.com. Each script scrapes the goldstock pages into a cache and
builds two lookup dictionaries from them: a normalised ticker and a normalised
name or alias, each mapped to a goldstock company. It then walks the companies
through four tiers:

1. a fixed override table (`known_mappings`);
2. an exact normalised ticker;
3. an exact normalised name;
4. the best fuzzy choice among the normalised goldstock names.

The result is one mapping row per company. The run saves a checkpoint on the
way, stops when the interrupt flag is raised, and can resume from the
checkpoint.

The model covers:

- the first copy of `normalize_ticker`, `normalize_name` and
  `extract_company_aliases` in `mapping_script.py`, and the versions in
  `mapping_script2.py`;
- the index building and the tiered loop of `perform_matching`, with its
  periodic and interrupt-time saves;
- `CompanyMatcher.save_checkpoint`;
- the cache logic of `fetch_company_by_id`;
- the resume filter and the merge in `main`.

Modules follow the program:

| module | what it holds |
|---|---|
| `Text` | Python's `str` primitives on ASCII text |
| `Patterns` | the regular expressions of the normalisers |
| `Records` | the entities and the `known_mappings` table |
| `Fuzzy` | `process.extractOne` over an abstract scorer |
| `LookupIndex` | the last-writer-wins dictionary fold |
| `Tiers` | the tier order, shared by both scripts and parameterised by a `Config` |
| `Matcher` | the `CompanyMatcher` class, the files it writes, the interrupt flag, and the resume filter and merge |
| `MappingScript`, `MappingScript2` | the pure normalisers of each script |
| `MappingScriptRun`, `MappingScript2Run` | the stateful loop, the fetch cache and `main` of each script |
| `NameExamples` | concrete names run through the normalisers |

The scripts differ as follows.

| | script 1 | script 2 |
|---|---|---|
| fuzzy floor | 80 | 70 |
| `matched` from | 90 | 85 |
| periodic save | at every tenth row, only after a fuzzy or unmatched row (the tiers before it `continue` past the save) | at every tenth row and at the last row |
| interrupt flag | read at the head of each iteration | read at the head and again after each row; a raised flag seen after a row saves at once |
| empty goldstock list | no early return | `perform_matching` returns `[]` |
| interrupt reads in `main` | one, the guard before the checkpoint is removed at the end | four: three that exit (before the fetch, after it, after matching) and the same final guard |
| `--clear-cache` | removes the cache | also removes the checkpoint |
| aliases | | also add the contents of parentheses; initials skip words that do not start with a letter |
| name suffixes | | four more |
| ticker codes | | `NEO` and `.CSE` codes added |

Interruption is modelled by the class `InterruptFlag`. Its constant
`raisedAt` is the number of earlier reads from which the flag reads raised.
Each read of the global `interrupted` in `perform_matching` and `main` is a
call to `Poll`. Under a handler that only sets the flag (see "Left out"),
the model covers every moment at which the signal can arrive relative to
those reads. The reads inside
`fetch_companies_parallel` are not part of this model.

Files are modelled by the class `Files`, which has four fields:

- the cache file;
- the checkpoint file;
- the CSV;
- `checkpointHistory`, the sizes at which the checkpoint was written, in order.

The fuzzy scorer `fuzz.token_sort_ratio` is a function parameter: a page is a
`Response` and the goldstock list that `fetch_companies_parallel` returns is a
parameter of `main`.

The code is followed where it departs from its own comments.

- The alias loop at `mapping_script.py:399` is not nested inside
  `if normalized:`, so both scripts index aliases unconditionally.
- `normalize_name` is not idempotent: `"shop corp corp"` becomes
  `"shop corp"` and then `"shop"`.
- A crash loses at most nine rows in script 2 (`LastSave2Bounds`). In script 1,
  rows from the first three tiers never reach the save, so any number of
  rows can be lost (`NoSaveWithoutFuzzy`).

## Model

| member | source | states |
|---|---|---|
| Text.Lower | supabase/mapping_script.py:163 | `str.lower`: same length; every character is its lower-case form, and none is upper case |
| Text.Upper | supabase/mapping_script.py:149 | `str.upper`: same length; every character is its upper-case form, and none is lower case |
| Text.Strip | supabase/mapping_script.py:180 | `str.strip`: the result is a contiguous slice of the input with no white space at either end and only white space around it; it is empty exactly when the input is all white space |
| Text.LStrip | supabase/mapping_script.py:180 | `str.lstrip`: a suffix of the input, not starting with white space, with only white space before it |
| Text.RStrip | supabase/mapping_script.py:180 | `str.rstrip`: a prefix of the input, not ending with white space, with only white space after it |
| Text.StripNonSpace | supabase/mapping_script.py:180 | stripping removes only white space: the non-space characters stay, in order |
| Text.StripPadded | supabase/mapping_script.py:149 | one space on each side of a trimmed text is all that `strip` removes |
| Text.BlankNonWord | supabase/mapping_script.py:177 | `re.sub(r'[^\w\s]', ' ', s)`: same length; word characters and white space stay where they are, every other character becomes a space |
| Text.BlankNonWordWords | supabase/mapping_script.py:177 | after the substitution the non-space characters are exactly the word characters of the input, in order |
| Text.CollapseSpace | supabase/mapping_script.py:178 | `re.sub(r'\s+', ' ', s)`: no two spaces in a row; every character is a space or a non-space character of the input; a leading run of white space leaves a leading space; the non-space characters are those of the input, in order |
| Text.CollapseSpaceWords | supabase/mapping_script.py:178 | the words of the result (split on white space) are exactly the words of the input, in order, so every run of white space becomes one space between the same words |
| Text.CollapseSpaceEnds | supabase/mapping_script.py:178 | the result ends with a space exactly when the input ends with white space |
| Text.DeleteChars | supabase/mapping_script.py:147 | `re.sub('[.\-_]', '', s)`: no character of the class remains and every kept character is from the input; an input without them is unchanged |
| Text.DeleteCharsAppend | supabase/mapping_script.py:147 | deleting from two texts put together is deleting from each and putting the results together |
| Text.Split | supabase/mapping_script.py:193 | `str.split()`: every word is a non-empty token without white space, and the words run together are the input's non-space characters, in order |
| Text.SplitSpaced | supabase/mapping_script.py:193 | a white-space character separates words: splitting at it splits each side on its own, so no word spans it and none is lost |
| Text.SplitToken | supabase/mapping_script.py:193 | a single token splits into itself |
| Text.SplitStrip | supabase/mapping_script.py:180 | stripping the edge white space leaves the words unchanged |
| Text.Distinct | supabase/mapping_script.py:206 | `list(set(xs))`: the same members as the input, each once, no longer than the input |
| Text.ContainsIff | supabase/mapping_script.py:200-203 | `sub in s` holds exactly when `sub` occurs at some position of `s` |
| Text.Replace | supabase/mapping_script.py:202-204 | `str.replace` of a pattern the text does not contain leaves the text unchanged |
| Text.ReplaceFirst | supabase/mapping_script.py:202-204 | `str.replace` keeps the text before the first occurrence, puts the replacement in its place and goes on after it, so an occurrence overlapping a replaced one is not replaced |
| Patterns.SplitFinalNewline | supabase/mapping_script.py:144 | Python's `$` matches at the end or before one final newline: the two parts rebuild the input and the second is that newline or empty |
| Patterns.StripExchangePrefix | supabase/mapping_script.py:141 | `re.sub('^(CODES):', '', s, IGNORECASE)`: the input, or the input with one listed code (in any case) and its colon removed from the front; unchanged when no code matches |
| Patterns.StripExchangePrefixRemoves | supabase/mapping_script.py:141 | a code of the list, written in any case, followed by a colon is removed from the front, leaving exactly the rest |
| Patterns.NoExchangePrefix | supabase/mapping_script.py:141 | a ticker without a colon keeps its front |
| Patterns.StripDotCode | supabase/mapping_script.py:144 | `\.(CODES)` at the end, case-insensitively: when some listed code ends the body after a dot, the result is the body without that dot and code; unchanged when none matches |
| Patterns.StripDotCodeRemoves | supabase/mapping_script.py:144 | a dot and a code equal to a listed one up to case (`re.IGNORECASE`) at the end are removed, leaving exactly the rest |
| Patterns.StripExchangeSuffix | supabase/mapping_script.py:144 | `re.sub(r'\.(CODES)$', '', s, IGNORECASE)`: when a listed `.CODE`, in any case, ends the input (before a final newline, which stays), the result is the input without it; unchanged when no code ends it |
| Patterns.NoSuffixUnspaced | supabase/mapping_script.py:144 | a ticker that ends in no listed `.CODE` keeps its end |
| Patterns.StripExchangeSuffixRemoves | supabase/mapping_script.py:144 | the suffix substitution removes a `.CODE` at the end whose code equals a listed one up to case, so `abc.to` becomes `abc` |
| Patterns.StripExchangeSuffixBeforeNewline | supabase/mapping_script.py:144 | `$` also matches before a final newline: `rest.CODE\n` becomes `rest\n` |
| Patterns.NoExchangeSuffix | supabase/mapping_script.py:144 | a ticker without a dot keeps its end |
| Patterns.StripUpper | supabase/mapping_script.py:149 | `.strip().upper()`: stripped, no lower-case letter, every other character from the input; its non-space characters are the input's, upper-cased and in order |
| Patterns.StripUpperAt | supabase/mapping_script.py:149 | position by position, the result is the stripped input upper-cased: same length, each character the upper-case form of the stripped input's, white space where it had white space |
| Patterns.StripUpperKeeps | supabase/mapping_script.py:149 | an already stripped upper-case ticker is unchanged |
| Patterns.StripUpperNoPunctuation | supabase/mapping_script.py:147-149 | after the punctuation is deleted, strip and upper bring none back |
| Patterns.StripUpperUnspaced | supabase/mapping_script.py:149 | on a ticker without white space, `.strip().upper()` is `.upper()` |
| Patterns.StripNameSuffix | supabase/mapping_script.py:174 | one substitution of `\s+word\.?$`: when the pattern matches nowhere the name is unchanged; otherwise the result is the name cut at the first character of the white-space run before the final word, with a final newline kept. It never lengthens the name and keeps a lower-case name lower-case |
| Patterns.StripNameSuffixRemovesWord | supabase/mapping_script.py:174 | a name ending in a space and the pattern's word loses exactly that word and the space |
| Patterns.NoMatchIff | supabase/mapping_script.py:174 | a suffix pattern matches nowhere exactly when the name (before a final newline) does not end with white space and the pattern's word, with or without its optional character |
| Patterns.StripNameSuffixes | supabase/mapping_script.py:173-174 | the suffix loop never lengthens the name and keeps a lower-case name lower-case |
| Patterns.StripNameSuffixesAppend | supabase/mapping_script.py:173-174 | the loop over two lists of patterns is the loop over the first, then over the second |
| Patterns.StripNameSuffixesNoMatch | supabase/mapping_script.py:173-174 | a name that no pattern matches goes through the loop unchanged |
| Patterns.PassRemovesAt | supabase/mapping_script.py:173-174 | a name ending in the word of the j-th pattern, where no earlier pattern ends in its last letter, loses that word at the j-th pass |
| Patterns.LastCharKeeps | supabase/mapping_script.py:173-174 | patterns whose words do not end in the name's last character leave the name unchanged |
| Patterns.CleanUp | supabase/mapping_script.py:177-180 | the punctuation, collapse and strip steps give a normal shape: word characters and single inner spaces, no space at either end; its non-space characters are exactly the word characters of the input, in order |
| Patterns.CleanUpWords | supabase/mapping_script.py:177-180 | the words of the cleaned name are the words left once every non-word character is blanked, in order |
| Patterns.CleanUpJoin | supabase/mapping_script.py:177-180 | the cleaned name is exactly those words joined with single spaces (`' '.join`) |
| Patterns.NormalShapeJoin | supabase/mapping_script.py:177-180 | a string in normal shape is the single-space join of its own words |
| Patterns.CleanUpKeepsNormal | supabase/mapping_script.py:177-180 | a name already in normal shape is unchanged by the clean-up |
| Patterns.NormalizeWith | supabase/mapping_script.py:157-180 | `normalize_name` for a list of suffix patterns: `""` for a missing or empty name; otherwise a lower-case result in normal shape whose non-space characters are the word characters left by the suffix pass over the lower-cased name |
| Patterns.NormalizeWithJoin | supabase/mapping_script.py:157-180 | for a non-empty name the result is the words of the suffix-stripped lower-cased name, punctuation blanked, joined with single spaces |
| Patterns.NormalizeWithFixed | supabase/mapping_script.py:157-180 | a lower-case name in normal shape that no suffix matches is its own normal form |
| Patterns.ParenGroups | supabase/mapping_script.py:188 | `re.sub(r'\([^)]+\)', '', s)` and `re.findall(r'\(([^)]+)\)', s)`: every group is non-empty and holds no `)`; the text left and the groups with their brackets account for every character of the input; without both brackets the input is unchanged and has no group |
| Patterns.ParenGroupsPlainPrefix | supabase/mapping_script.py:188 | text before the first `(` is kept as it is and the scan goes on after it |
| Patterns.ParenGroupsGroup | supabase/mapping_script.py:188 | a `(`, a non-empty text without `)` and a `)` form one group: the text is collected, the three parts leave the string, and the scan goes on after the `)` |
| Patterns.ParenGroupsLoneOpen | supabase/mapping_script.py:188 | a `(` with no `)` after it, or with `)` right after it, starts no group and is kept |
| Records.UnmatchedRow | supabase/mapping_script.py:514-523 | the unmatched row: well formed, status unmatched, method `none`, the company's own id, name and code |
| Records.LinkedRow | supabase/mapping_script.py:502-511 | a linked row carries the goldstock id and name, the status, confidence and method given, and the company's own id, name and code |
| Records.Ids | supabase/mapping_script.py:114 | `[m.company_id for m in mappings]`: one id per row, in order |
| Records.CheckpointOf | supabase/mapping_script.py:112-114 | the checkpoint `save_checkpoint` builds: the rows themselves, and their company ids in order |
| Records.IdsAppend | supabase/mapping_script.py:114 | the ids of two lists of rows put together are the two id lists put together |
| Records.NatToString | supabase/mapping_script.py:323 | `str(goldstock_id)`: a non-empty string of decimal digits with no leading zero, whose decimal value is the number |
| Records.NatToStringInjective | supabase/mapping_script.py:323 | distinct ids give distinct `goldstock_id` strings |
| Fuzzy.BestIndex | supabase/mapping_script.py:481-485 | `extractOne`'s choice: an index whose score no choice exceeds, and before which every choice scores strictly less |
| Fuzzy.ExtractOne | supabase/mapping_script2.py:471-476 | `process.extractOne` with a cutoff: a result is a choice with its score, at least the cutoff and at least every other score; there is none exactly when every choice scores below the cutoff |
| Fuzzy.FirstIndexOf | supabase/mapping_script2.py:481 | `choices.index(x)`: the first position holding `x` |
| Fuzzy.ExtractOneFirstCopy | supabase/mapping_script.py:492-498 | looking up the first copy of the chosen name finds the best index itself, so duplicated names resolve to the first company with the best score |
| Fuzzy.ExtractOneRaiseCutoff | supabase/mapping_script.py:481-501 | `extractOne` with no cutoff, then a floor check, is `extractOne` with the floor as cutoff |
| LookupIndex.PutEntries | supabase/mapping_script.py:399-402 | after storing a record under keys, a key is present exactly when it was before or is a non-empty new key; new keys map to the record and the others keep their value |
| LookupIndex.OfSound | supabase/mapping_script.py:387-402 | every key of the built dictionary is non-empty and maps to the last record that has the key |
| LookupIndex.OfComplete | supabase/mapping_script.py:387-402 | the last record holding a non-empty key is what the dictionary maps that key to |
| LookupIndex.OfKeys | supabase/mapping_script.py:387-402 | a key is in the dictionary exactly when it is non-empty and some record has it |
| Tiers.TickerOf | supabase/mapping_script.py:389-390 | the guard `if gs.ticker:` before `normalize_ticker`: a missing or empty ticker gives no key |
| Tiers.TickerKeys | supabase/mapping_script.py:389-392 | a company's ticker keys are exactly its normalised ticker |
| Tiers.NameKeys | supabase/mapping_script.py:395-402 | a company's name keys are exactly its normalised name and its normalised aliases |
| Tiers.TickerIndexSound | supabase/mapping_script.py:387-392 | every key of `gs_by_ticker` is non-empty and maps to a company whose normalised ticker is that key, the last such company |
| Tiers.NameIndexSound | supabase/mapping_script.py:394-402 | every key of `gs_by_normalized_name` is non-empty and maps to a company whose name or one of whose aliases normalises to it, the last such company |
| Tiers.TickerIndexComplete | supabase/mapping_script.py:387-392 | the last company with a given normalised ticker is the one the dictionary maps it to |
| Tiers.AliasIndexed | supabase/mapping_script.py:399-402 | every alias with a non-empty normal form is a key of the name dictionary |
| Tiers.BuildIndex | supabase/mapping_script.py:384-402 | the single loop of script 1 builds exactly `TickerIndex` and `NameIndex` |
| Tiers.IndexTicker | supabase/mapping_script.py:389-392 | one company's ticker step stores it under its ticker key |
| Tiers.IndexName | supabase/mapping_script.py:395-402 | one company's name step stores it under its name key, then under each alias key in order |
| Tiers.Choices | supabase/mapping_script.py:478 | `normalized_gs_names`: the i-th choice is the normalised name of the i-th goldstock company |
| Tiers.FuzzyPick | supabase/mapping_script.py:467-498 | the fuzzy tier: a pick needs a non-empty query and a score of at least the floor, and is one of the goldstock companies |
| Tiers.Outcome | supabase/mapping_script.py:412-524 | the row for one company: well formed and carrying the company's id, name and code |
| Tiers.Outcomes | supabase/mapping_script.py:406-526 | one row per company |
| Tiers.OutcomeAt | supabase/mapping_script.py:406-526 | the i-th row is the outcome of the i-th company |
| Tiers.OutcomesIds | supabase/mapping_script.py:406-526 | the rows carry the companies' ids in input order |
| Tiers.OutcomesSnoc | supabase/mapping_script.py:526 | one more company appends exactly its row |
| Tiers.KnownTierFirst | supabase/mapping_script.py:412-427 | a company in the override table is matched to the table's entry, method `known_mapping`, with the table's confidence, whatever the other tiers would find |
| Tiers.TickerTierSecond | supabase/mapping_script.py:429-447 | otherwise a ticker hit links it to the ticker's company, matched, confidence 100, method `exact_ticker`; the two normalised tickers agree |
| Tiers.NameTierThird | supabase/mapping_script.py:449-465 | otherwise a name hit links it to the name's company, matched, confidence 95, method `exact_name`; the normalised name is non-empty |
| Tiers.FuzzyTierLast | supabase/mapping_script.py:467-524 | otherwise the row is fuzzy exactly when the normalised name is non-empty and some choice reaches the floor. It links the first best-scoring company with its score as confidence: `matched` exactly from the split, otherwise `manual`. Every other row is the unmatched row |
| Tiers.UnmatchedExactly | supabase/mapping_script.py:500-524 | a company is unmatched exactly when it is not in the table, has no ticker hit, has no name hit, and its normalised name is empty or every choice scores below the floor |
| Matcher.SaveMappings | supabase/mapping_script.py:572-588 | `save_mappings`: the CSV holds exactly the rows, and nothing else changes |
| Matcher.CompanyMatcher.constructor | supabase/mapping_script.py:70-110 | the matcher loads the cache file, and the checkpoint file or the empty checkpoint when there is none |
| Matcher.CompanyMatcher.SaveCache | supabase/mapping_script.py:93-101 | the cache file holds the in-memory cache, and nothing else changes |
| Matcher.CompanyMatcher.SaveCheckpoint | supabase/mapping_script.py:112-116 | `save_checkpoint`: the in-memory checkpoint and the file both hold the rows and their ids; the save is recorded; the cache and the CSV are unchanged |
| Matcher.InterruptFlag.Poll | supabase/mapping_script.py:406-408 | one read of `interrupted`: it counts one more read and returns whether the flag is raised at that read |
| Matcher.SeenAtMonotone | supabase/mapping_script.py:118-121 | once raised the flag stays raised: the handler only ever sets it to true |
| Matcher.Remaining | supabase/mapping_script.py:624-626 | the resume filter: the companies whose id is not among the processed ids, in order |
| Matcher.RemainingAppend | supabase/mapping_script.py:626 | the filter of two lists put together is the two filters put together |
| Matcher.ToProcess | supabase/mapping_script.py:623-627 | without `--resume` every company is processed; with it, exactly those not listed in the checkpoint's `processed_ids` |
| Matcher.RemainingAllProcessed | supabase/mapping_script.py:624-626 | when every company was processed before, none remains |
| Matcher.Merge | supabase/mapping_script.py:646-649 | `existing + mappings` when resuming, otherwise the new rows alone |
| Matcher.CompanyIds | supabase/mapping_script.py:625-626 | the company ids in order |
| Matcher.RemainingIdsFrom | supabase/mapping_script.py:624-626 | every remaining id is an input id and not a processed one |
| Matcher.RemainingIdsDistinct | supabase/mapping_script.py:624-626 | filtering keeps input ids distinct |
| Matcher.MergeCoversAll | supabase/mapping_script.py:623-649 | earlier rows followed by the rows of the remaining companies cover every input company, each id once |
| Matcher.MergeOwnCheckpointRepeats | supabase/mapping_script.py:544 | merging new rows with the checkpoint they were just saved to gives the rows twice, so some id repeats |
| MappingScript.NormalizeTicker | supabase/mapping_script.py:125-155 | `None` exactly for a missing or empty ticker; otherwise stripped and without lower-case letters, and (outside the `.CN` shortcut) without `.`, `-` or `_` |
| MappingScript.NormalizeTickerPlain | supabase/mapping_script.py:141-149 | a plain ticker of upper-case letters and digits is its own normal form |
| MappingScript.NormalizeTickerPrefixed | supabase/mapping_script.py:141 | a listed exchange prefix is removed: `TSX:ABC` becomes `ABC` |
| MappingScript.NormalizeTickerColon | supabase/mapping_script.py:141-149 | a listed prefix before a ticker that itself holds a colon is removed once |
| MappingScript.NormalizeTickerSuffixed | supabase/mapping_script.py:135-144 | a listed exchange suffix is removed: `ABC.TO` becomes `ABC` |
| MappingScript.NormalizeTickerAnyCaseSuffix | supabase/mapping_script.py:135-144 | the suffix pattern ignores case: `abc.to` becomes `ABC`; only `.CN` in capitals takes the shortcut, so `abc.cn` also goes by the regular path and becomes `ABC` |
| MappingScript.SuffixedKeeps | supabase/mapping_script.py:144-149 | a plain ticker, a dot and a listed code in any case come out of the suffix, punctuation and case steps as the plain ticker |
| MappingScript.CnShortcut | supabase/mapping_script.py:135-138 | `ABC.CN` takes the `.CN` shortcut and becomes `ABC` |
| MappingScript.NormalizeTickerCnKeepsPrefix | supabase/mapping_script.py:135-138 | the `.CN` shortcut returns before the prefix is removed: `TSX:ABC.CN` becomes `TSX:ABC` |
| MappingScript.NormalizeTickerOnePrefix | supabase/mapping_script.py:141 | only one prefix is removed, so normalising twice can differ from normalising once |
| MappingScript.NormalizeTickerDeletes | supabase/mapping_script.py:141-149 | a ticker without a colon, white space or listed dot-code at its end only loses its `.`, `-` and `_` and is upper-cased; every other character stays, in order |
| MappingScript.NormalizeTickerJoins | supabase/mapping_script.py:147-149 | two plain tickers joined by `.`, `-` or `_` come out run together (`BRK-B` and `BRK.B` give `BRKB`), unless a dot joins them and the second is a listed code |
| MappingScript.NormalizeTickerTrims | supabase/mapping_script.py:149 | white space around a ticker goes and its letters are upper-cased: ` abc ` gives `ABC` |
| MappingScript.NormalizeTickerDropsPrefix | supabase/mapping_script.py:141 | a listed prefix in any case and its colon make no difference: `cve:abc` normalises as `abc` does, outside the `.CN` shortcut and without a second colon |
| MappingScript.NormalizeName | supabase/mapping_script.py:157-180 | `""` for a missing or empty name; otherwise lower case, word characters and single inner spaces, no space at either end; its non-space characters are the word characters left once the 17 suffix patterns have run over the lower-cased name |
| MappingScript.NormalizeNameJoin | supabase/mapping_script.py:157-180 | for a non-empty name, `normalize_name` is the words of the lower-cased name after the 17 suffix patterns, punctuation blanked, joined with single spaces |
| MappingScript.NormalizeNameFixed | supabase/mapping_script.py:157-180 | a name already in normal form that no suffix pattern matches is unchanged |
| MappingScript.WithoutParens | supabase/mapping_script.py:188 | `re.sub(r'\([^)]+\)', '', name).strip()`: stripped and no longer than the name; without both brackets it is the stripped name |
| MappingScript.WithoutParensOneGroup | supabase/mapping_script.py:188 | one group between two texts without `(` goes with its brackets, and the two texts are joined and stripped: `Barrick (ABX) Gold` gives `Barrick  Gold` |
| MappingScript.Initials | supabase/mapping_script.py:196 | one upper-cased first letter per word |
| MappingScript.AliasCandidates | supabase/mapping_script.py:184-204 | the alias list before de-duplication: the name first, at most four more |
| MappingScript.ExtractCompanyAliases | supabase/mapping_script.py:182-206 | the aliases, each once, are exactly: the name; the name without its parenthesised groups when both brackets occur and that is non-empty; the initials when there are two words or more; the `&`→`and` form when `&` occurs; the ` and `→` & ` form when ` and ` occurs |
| MappingScript.CandidatesMembers | supabase/mapping_script.py:184-204 | the members of the candidate list, case by case |
| MappingScript.AliasesInitials | supabase/mapping_script.py:193-198 | a name of two words or more has its initials, one per word, as an alias |
| MappingScript.AliasesOfPlainName | supabase/mapping_script.py:182-206 | a one-word name without brackets, `&` or ` and ` has only itself as alias |
| MappingScript2.NormalizeTicker2 | supabase/mapping_script2.py:130-146 | `None` exactly for a missing or empty ticker; otherwise stripped, no lower-case letter, and no `.`, `-` or `_` (there is no shortcut) |
| MappingScript2.NormalizeTicker2Prefixed | supabase/mapping_script2.py:137 | a listed prefix, `NEO` included, is removed |
| MappingScript2.NormalizeTicker2Colon | supabase/mapping_script2.py:137-143 | a listed prefix before a ticker holding a colon is removed once |
| MappingScript2.NormalizeTicker2Suffixed | supabase/mapping_script2.py:138 | a listed suffix, `.CSE` and `.NEO` included, is removed |
| MappingScript2.NormalizeTicker2AnyCaseSuffix | supabase/mapping_script2.py:138 | the suffix pattern ignores case: `abc.to` and `abc.cn` become `ABC` |
| MappingScript2.NormalizeTicker2PrefixAndSuffix | supabase/mapping_script2.py:137-138 | `TSX:ABC.CN` becomes `ABC`: without the shortcut, prefix and suffix both go |
| MappingScript2.NormalizeTicker2OnePrefix | supabase/mapping_script2.py:137 | only one prefix is removed |
| MappingScript2.NormalizeTicker2Deletes | supabase/mapping_script2.py:137-143 | a ticker without a colon, white space or listed dot-code at its end only loses its `.`, `-` and `_` and is upper-cased |
| MappingScript2.NormalizeTicker2Joins | supabase/mapping_script2.py:141-143 | two plain tickers joined by `.`, `-` or `_` come out run together, unless a dot joins them and the second is a listed code |
| MappingScript2.NormalizeTicker2Trims | supabase/mapping_script2.py:143 | white space around a ticker goes and its letters are upper-cased |
| MappingScript2.NormalizeTicker2DropsPrefix | supabase/mapping_script2.py:137 | a listed prefix in any case and its colon make no difference, without a second colon (there is no `.CN` shortcut) |
| MappingScript2.NormalizeName2 | supabase/mapping_script2.py:148-168 | `""` for a missing or empty name; otherwise lower case in normal shape, its non-space characters the word characters left by the 21 patterns |
| MappingScript2.NormalizeName2Join | supabase/mapping_script2.py:148-168 | for a non-empty name, the words left by the 21 patterns with punctuation blanked, joined with single spaces |
| MappingScript2.NormalizeName2Fixed | supabase/mapping_script2.py:148-168 | a normal name that no suffix matches is unchanged |
| MappingScript2.NormalizeNamesAgree | supabase/mapping_script2.py:155-161 | on a normal name that none of script 2's patterns match, the two scripts' `normalize_name` agree |
| MappingScript2.AlphaInitials | supabase/mapping_script2.py:186 | the initials are script 1's initials of the words that start with a letter: upper-case letters, at most one per word |
| MappingScript2.LetterWords | supabase/mapping_script2.py:186 | the filter `if w and w[0].isalpha()`: no more words than the input, each a token starting with a letter |
| MappingScript2.AlphaInitialsAllLetters | supabase/mapping_script2.py:186 | when every word starts with a letter, the initials are script 1's |
| MappingScript2.AlphaInitialsSkipDigits | supabase/mapping_script2.py:186 | a word starting with a digit gives no initial |
| MappingScript2.ParenContents | supabase/mapping_script2.py:180 | the contents `findall` returns are the groups `ParenGroups` collects: non-empty, without `)` |
| MappingScript2.ParenContentsFirst | supabase/mapping_script2.py:180 | the first group after a text without `(` is the first content, and the others come from the text after its `)` |
| MappingScript2.AliasCandidates2 | supabase/mapping_script2.py:172-194 | the alias list before de-duplication starts with the name |
| MappingScript2.ExtractCompanyAliases2 | supabase/mapping_script2.py:170-196 | the aliases, each once, are exactly: the name; the name without groups when non-empty; the group contents; the letter initials when longer than one; the `&`→`and` form; and the ` and `→` & ` form when ` and ` occurs in any case |
| MappingScript2.CandidatesMembers2 | supabase/mapping_script2.py:172-194 | the members of the candidate list, case by case |
| MappingScript2.AliasesParenContents | supabase/mapping_script2.py:175-181 | each parenthesised group is an alias |
| MappingScript2.AliasesUpperAnd | supabase/mapping_script2.py:193-194 | ` AND ` passes the lower-case test but `replace(' and ', ' & ')` leaves the name as it is, so that alias adds nothing new |
| MappingScript2.AliasesOfPlainName2 | supabase/mapping_script2.py:170-196 | a one-word name without brackets, `&` or ` and ` in any case has only itself as alias |
| NameExamples.NormalizeNameAgnico | supabase/mapping_script.py:157-180 | `Agnico Eagle Mines Ltd` normalises to `agnico eagle`: `ltd` and then `mines` are removed |
| NameExamples.CorpRemovedOnce | supabase/mapping_script.py:173-174 | a stem ending in `p` followed by ` corp` loses the ` corp` and nothing more: each pattern runs once and no later pattern ends in `p` |
| NameExamples.NormalizeNameNotIdempotent | supabase/mapping_script.py:157-180 | normalising `shop corp corp` twice differs from normalising it once |
| NameExamples.NormalizeName2International | supabase/mapping_script2.py:160 | script 2 removes a final ` international` |
| NameExamples.NormalizeNameKeepsInternational | supabase/mapping_script.py:166-171 | script 1 keeps it |
| NameExamples.NormalizeNameAmpersand | supabase/mapping_script.py:157-180 | `A&B Mining` normalises to `a b`: ` mining` is removed, then `&` becomes a space |
| MappingScriptRun.TickerOfSettings | supabase/mapping_script.py:431-432 | for script 1 the guard `if company.tsx_code:` adds nothing to `normalize_ticker` |
| MappingScriptRun.FuzzyMatch | supabase/mapping_script.py:467-499 | `extractOne` without cutoff, the first-copy search and the floor 80 together give exactly the fuzzy tier `FuzzyPick` |
| MappingScriptRun.ExactTierRows | supabase/mapping_script.py:412-465 | the first three tiers, each as its own row |
| MappingScriptRun.FuzzyTierRow | supabase/mapping_script.py:500-524 | the row built from the fuzzy result is the outcome, with confidence between the floor and 100 |
| MappingScriptRun.FuzzyRow | supabase/mapping_script.py:467-526 | the fuzzy or unmatched row of a company no exact tier resolved is its outcome, and it reaches the save |
| MappingScriptRun.MatchCompany | supabase/mapping_script.py:412-526 | one loop body produces the company's outcome and reports whether the save is reached (not after a `continue`) |
| MappingScriptRun.Processed | supabase/mapping_script.py:406-408 | the loop processes every company unless a read at the head of some iteration sees the flag |
| MappingScriptRun.PeriodicSavesExactly | supabase/mapping_script.py:528-531 | a checkpoint is saved at size k exactly when k is a positive multiple of 10 and the k-th row came from the fuzzy tier or matched nothing; sizes increase |
| MappingScriptRun.SavesUpToExactly | supabase/mapping_script.py:528-531 | the same for the first n rows |
| MappingScriptRun.NoSaveWithoutFuzzy | supabase/mapping_script.py:412-531 | rows that all come from the first three tiers cause no periodic save at all |
| MappingScriptRun.SavedWithinNine | supabase/mapping_script.py:528-531 | when every row reaches the save, some save lies within the last nine rows |
| MappingScriptRun.PerformMatching | supabase/mapping_script.py:379-546 | `perform_matching`: the rows are the outcomes of the first `Processed` companies, with one read per iteration started. The checkpoint history is the periodic saves and then the final one. The checkpoint, its file and the CSV end as the rows; the cache is untouched |
| MappingScriptRun.MatchAll | supabase/mapping_script.py:404-540 | the loop alone: the rows and reads as above; the history gains exactly the periodic saves |
| MappingScriptRun.MatchNext | supabase/mapping_script.py:410-540 | one iteration appends the next company's outcome and keeps the save history in step |
| MappingScriptRun.FetchCompanyById | supabase/mapping_script.py:212-345 | a cached id returns its entry with no request. Otherwise the id is requested: a 404 stores `None` without saving; a failure stores nothing; a nameless page stores `None`; a page stores the company with its aliases. The last two save the cache when its size is a multiple of 50. Earlier entries never change |
| MappingScriptRun.RunMain | supabase/mapping_script.py:590-668 | `main`: `--clear-cache` empties the cache file, and no companies or no goldstock list leaves at once. Otherwise the CSV is the merge of the new rows with the checkpoint as `perform_matching` left it. No rows means the summary raises (`Crashed`). Otherwise it completes and removes the checkpoint file unless the last read sees the flag |
| MappingScriptRun.RunMainFixed | supabase/mapping_script.py:623-668 | the corrected `main`: it merges with the checkpoint as loaded, never raises, and otherwise behaves the same |
| MappingScriptRun.ResumeRepeatsNewRows | supabase/mapping_script.py:644-649 | as written, a resumed run with new rows writes them twice (an id repeats) and drops every earlier row |
| MappingScriptRun.ResumeWithNothingLeft | supabase/mapping_script.py:623-661 | as written, a resumed run with every company processed before has nothing left and merges to no rows, so the summary divides by zero |
| MappingScriptRun.ResumeFixedCoversAll | supabase/mapping_script.py:623-649 | corrected, the merged rows cover every input company with no id twice, and with nothing left they are the earlier rows |
| MappingScript2Run.TickerOfSettings2 | supabase/mapping_script2.py:391-394 | for script 2 the guard `if gs.ticker:` adds nothing to `normalize_ticker` |
| MappingScript2Run.BuildIndex2 | supabase/mapping_script2.py:388-404 | script 2's two separate loops build the same dictionaries as the single loop |
| MappingScript2Run.FuzzyMatch2 | supabase/mapping_script2.py:465-489 | `extractOne` with cutoff 70, then `choices.index`, is exactly the fuzzy tier `FuzzyPick` |
| MappingScript2Run.MatchCompany2 | supabase/mapping_script2.py:417-501 | the chained `if not match` tiers with their mutable fields produce the company's outcome |
| MappingScript2Run.Reads2 | supabase/mapping_script2.py:409-521 | the loop reads the flag twice per company when it is never raised, and never more |
| MappingScript2Run.Reads2First | supabase/mapping_script2.py:409-521 | every read but the last sees the flag clear, and a loop that stops early stops at a read that sees it raised |
| MappingScript2Run.Processed2 | supabase/mapping_script2.py:409-521 | at most all the companies; all of them when the flag is never raised |
| MappingScript2Run.SavesUpTo2Exactly | supabase/mapping_script2.py:509-511 | a save happens at size k exactly when k is a multiple of 10 or the last company's; sizes increase |
| MappingScript2Run.LastSave2IsLast | supabase/mapping_script2.py:509-511 | `LastSave2` is the last save so far, or 0 when there was none |
| MappingScript2Run.LastSave2Bounds | supabase/mapping_script2.py:509-511 | after the last row every row is saved; before it, the saved rows are a multiple of 10 and fewer than ten rows are unsaved |
| MappingScript2Run.Saved2 | supabase/mapping_script2.py:509-521 | the rows on disk when the loop ends are never more than the rows processed |
| MappingScript2Run.UnsavedRows2 | supabase/mapping_script2.py:508-521 | at most nine processed rows are missing from disk; none when the loop stops after a row or runs to the end |
| MappingScript2Run.PerformMatching2 | supabase/mapping_script2.py:381-523 | an empty goldstock list returns no rows and changes nothing. Otherwise the rows are the outcomes of the first `Processed2` companies, after `Reads2` reads. The history is the saves at multiples of 10 and the last row, and then the interrupt save. The files show the rows up to `Saved2`; the cache is untouched |
| MappingScript2Run.MatchAll2 | supabase/mapping_script2.py:406-521 | the loop: rows, reads, save history and files as above |
| MappingScript2Run.Iterate2 | supabase/mapping_script2.py:409-521 | one iteration: it stops at the head read, or appends the outcome, saves when due, and stops or goes on after the second read |
| MappingScript2Run.AppendRow2 | supabase/mapping_script2.py:502-511 | the append and the due save keep the history and the files in step with the rows |
| MappingScript2Run.PollAfterRow2 | supabase/mapping_script2.py:518-521 | a raised flag after a row saves every row and stops; a clear flag changes nothing |
| MappingScript2Run.StopAtHead2 | supabase/mapping_script2.py:410-412 | a stop at the head of iteration i means i rows, 2i+1 reads, and files as of the last periodic save |
| MappingScript2Run.StopAfterRow2 | supabase/mapping_script2.py:518-521 | a stop after row i means i+1 rows, 2i+2 reads, and every row saved |
| MappingScript2Run.RunToEnd2 | supabase/mapping_script2.py:409 | a run with no raised read processes and saves every row |
| MappingScript2Run.SaveStep2 | supabase/mapping_script2.py:509 | the save rule `(i+1) % 10 == 0 or i == len-1` extends the save history by i+1 exactly when it fires |
| MappingScript2Run.FetchCompanyById2 | supabase/mapping_script2.py:274-352 | as script 1, except that a 404 also saves the cache when its size is a multiple of 50, and the aliases are script 2's |
| MappingScript2Run.NotSeenAfterLoop2 | supabase/mapping_script2.py:645-647 | a clear read after the loop means the loop ran to the end and saved every row |
| MappingScript2Run.RunMain2 | supabase/mapping_script2.py:578-684 | `main`: `--clear-cache` empties the cache and the checkpoint; no companies leaves at once; each of the three flag checks leaves `Interrupted`, the files showing the rows saved so far. Otherwise the CSV and checkpoint hold the merged rows; no rows raises, and otherwise the checkpoint file is removed unless the last read sees the flag |
| MappingScript2Run.Finish2 | supabase/mapping_script2.py:642-684 | from `perform_matching` on: interrupted, the files show the saved rows; otherwise the merged rows are written and the run completes |
| MappingScript2Run.Finish2Fixed | supabase/mapping_script2.py:642-681 | the corrected tail: the merge reads the checkpoint as loaded, so a completed run writes the earlier rows followed by the new ones (covering every company once, by `MappingScriptRun.ResumeFixedCoversAll`) |
| MappingScript2Run.WriteResults2 | supabase/mapping_script2.py:649-681 | merge, write the CSV and checkpoint, save the cache; no rows means `Crashed`; otherwise remove the checkpoint file unless the last read sees the flag |
| MappingScript2Run.ResumeRepeatsNewRows2 | supabase/mapping_script2.py:649-652 | as written, a resumed run with new rows writes them twice and drops every earlier row |
| MappingScript2Run.FinalRows2 | supabase/mapping_script2.py:649-652 | the rows `main` writes: the new rows alone without `--resume`; with it, the new rows twice, or the loaded rows when there are no new ones |
| MappingScript2Run.ResumeWithNothingLeft2 | supabase/mapping_script2.py:614-652 | with nothing left to process, the loop saves nothing, so the merge reads the loaded checkpoint and writes the earlier rows, which are not empty |
| MappingScript2Run.CompletedRunWritesRows2 | supabase/mapping_script2.py:649-675 | a completed run over a non-empty company list always writes rows, so script 2's summary never divides by zero |
| MappingScript2Run.InterruptedResumeDropsPrior2 | supabase/mapping_script2.py:518-521 | the checkpoint an interrupted resumed run leaves lists none of the earlier ids, so the next resume repeats those companies |

## Left out

- The HTML parsing of `fetch_company_by_id` is not modelled: the selectors, the name clean-up regular expressions, and `extract_ticker_from_page` with its ticker patterns. A page is a `Response` carrying the name and ticker the parser would find.
- `time.sleep`, `random.uniform`, the HTTP session, `requests` exceptions (a `Failed` response) and `verify_logo` are I/O.
- `fetch_companies_parallel`, with its thread pool, its reads of the flag and its cache saves every 50 companies, is concurrency. The goldstock list is a parameter of `main`, and the cache changes made while fetching are not modelled.
- The SIGINT handler is left out. Script 2's handler calls `sys.exit(0)`, which ends the program wherever it is. Interruption is modelled only as a flag read at the points the code reads it, as if the handler only set the flag.
- `load_companies`, the JSON and CSV encodings, `asdict` and `Mapping(**m)` are data formats: the loaded companies are a parameter, and files hold values.
- Logging, the progress and summary counts and their percentages are not modelled. An empty row list, where the summary divides by zero, is the exit `Crashed`.
- `unmatched_count` in script 2 is only counted and never used.
- The `--limit`, `--max-id` and `--workers` options only shape the inputs.
- The second half of `mapping_script.py` (lines 674-1188) is not part of this model. It repeats the whole script, from `normalize_name` to `main`, and ends with a second `main()` call. `main` never calls `sys.exit` in script 1, so whenever the first call returns (`NoInput` or `Completed`), `main` runs a second time on the files the first call left; only the division by zero (`Crashed`) stops it. `RunMain` models one call. With `--resume`, the first call removes the checkpoint, so the second call processes every loaded company, and its own merge against the checkpoint it has just saved writes every row twice (`MergeOwnCheckpointRepeats`).
- Text.Lower: only ASCII letters change case; Python's `lower`/`upper` and the `\w`, `\s` classes are Unicode-aware.
- Text.Distinct: `list(set(...))` has an unspecified order; only membership and distinctness are stated.
- MappingScript.ExtractCompanyAliases: states membership and distinctness, not the order of the list, which comes from `set`.
- MappingScript2.ExtractCompanyAliases2: same as above, and no bound on the number of aliases, since a name can hold any number of groups.
- Fuzzy.ExtractOne: `fuzz.token_sort_ratio` is a parameter with integer scores 0-100; its own definition is not modelled.
- Matcher.CompanyMatcher.constructor: a cache or checkpoint file that fails to parse is not modelled; the files hold well-formed values.
- Matcher.CompanyMatcher.SaveCheckpoint: a failed write (logged in script 2) is not modelled.
- MappingScriptRun.FetchCompanyById: the cache is keyed by the numeric id; the key `goldstock_<id>` is a one-to-one encoding of it.

## Findings

| source | as written | input that shows it | evidently intended | confidence | as-written member | corrected member |
|---|---|---|---|---|---|---|
| supabase/mapping_script.py:644-649 | `perform_matching` saves the checkpoint at its end, overwriting `matcher.checkpoint`. The merge then reads the new rows as the "existing" ones and writes `new + new` | `--resume` with a checkpoint listing company 1, and companies 1 and 2 loaded: after the first call of `main` the CSV holds company 2's row twice and not company 1's. The second `main()` call at the end of the file then processes both companies and leaves company 1's and company 2's rows twice each | earlier rows followed by the new ones, each company once | not executed | MappingScriptRun.ResumeRepeatsNewRows | MappingScriptRun.ResumeFixedCoversAll |
| supabase/mapping_script.py:623-663 | a resumed run whose companies were all processed before matches nothing and merges to no rows. The summary then divides by `len(mappings) == 0` | `--resume` with a checkpoint listing company 1, and only company 1 loaded | the earlier rows are written and the run completes | not executed | MappingScriptRun.ResumeWithNothingLeft | MappingScriptRun.RunMainFixed |
| supabase/mapping_script2.py:649-652 | the same merge: the save after the last row has overwritten `matcher.checkpoint`, so a resumed run writes `new + new`. Interrupted, the checkpoint it leaves lists none of the earlier ids (`InterruptedResumeDropsPrior2`) | `--resume` with a checkpoint listing company 1, and companies 1 and 2 loaded: the CSV and checkpoint hold company 2's row twice | earlier rows followed by the new ones, each company once | not executed | MappingScript2Run.ResumeRepeatsNewRows2 | MappingScript2Run.Finish2Fixed |
