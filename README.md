# Steam library rescuer and PPG sampling pipeline in Dafny

This project models two small browser programs.

**SteamLibraryRescuer** (`SteamLibraryRescuer/script.js`) rebuilds lost
Steam `appmanifest_<appid>.acf` files. It works in three steps:

1. It collects the game folder names from a selected `steamapps/common`
   directory, or from names typed one per line.
2. It downloads the public AppID list into a map from normalised game name
   to AppID. Each folder is then identified by an exact lookup of its
   normalised name. When there is no exact hit, the best candidates
   scoring at least 0.8 on a positional similarity are offered in a prompt.
3. It writes a manifest for each matched game from a fixed template.

The modules are:

- `Text`: the ECMAScript string primitives the page uses (`trim`, `split`,
  `String(n)`, `parseInt`).
- `Names`: `normalizeName`.
- `Similarity`: `simpleSimilarity`.
- `GameMaps`: the map and the loops that fill it.
- `Fuzzy`: `findSimilarAppId`. The prompt's answer is a parameter.
- `Folders`: step 1.
- `Acf`: the template and `generateAcfContent`.
- `Rescuer`: the page state, as the class `Rescuer.Rescuer`, plus the
  identification pass.

**PPG** (`NTHU/PPG/src/main.js`) estimates a photoplethysmography signal
from camera frames. Each frame's mean value goes into a ring buffer of 300
slots, written one slot per frame. At each window boundary the AC window
`ac` becomes either the buffer detrended by a least-squares line (on even
windows) or a flat window holding the last `acWindow` (on odd windows).
Every frame reads its AC value from `ac`, and a chart keeps a fixed-length list of points. `Detrending`
models `detrend` and `windowMean` over exact reals. `Ppg` models the
pipeline state as the class `Ppg.Pipeline`, with the ring buffer `acdc`
as an array updated in place.

Modelling decisions:

- `GAME_MAP` is the list of its entries in enumeration order, with each
  key once. An assignment to an existing key keeps its place; a new key
  goes to the end.
- The map-filling loops (`StoreItems`, `StorePairs`) and the
  identification loop (`IdentifyLoop`) work on values. The class methods
  assign their results to the fields.
- Manifest keys are the template's lines (`Acf.Key`), and `KeyName` gives
  each key's quoted text. `KeyNameInjective` shows that distinct keys have
  distinct quoted names. Which line a pattern matches in the text is not
  modelled (see "Left out"). The regular
  expressions are modelled by their effect on fields: the first line with
  that key (`SetFirst`), or every such line for the `g` flag (`SetAll`).
- `generateAcfContent` reads the clock twice, once in the template and
  once for `LastUpdated`. Both readings are the single parameter
  `unixTime`; the template's value is overwritten anyway.
- Scores, frame values and sums are exact reals. A JavaScript `NaN` from
  `0 / 0` is `None`.
- `detrend([])` is `Some([])`, because its loops do not run.
  `detrend([v])` is `None`, because its slope is `0 / 0`.
  `windowMean([])` is `None`.
- The `onload` handler (`Pipeline.ProcessFrame`) is separate from
  `computeFrame` (`Pipeline.Tick`). `Tick` advances the frame counter
  before the handler can run, so the handler stores the frame at whatever
  counter value holds when the image has loaded. The caller chooses the
  interleaving.
- `detrend` assigns to an undeclared global `detrended`. No other code
  reads it, so it is modelled as a local.

Facts about the PPG code that the model keeps:

- The gate `(nFrame / 100) % 2 == 0` (`NTHU/PPG/src/main.js:87-99`) is
  evaluated only at a window boundary, where `nFrame / 100` is `3k` for
  window `k`. It is therefore open exactly on even windows: open at frame 0,
  closed at 300, open at 600, and so on (`GateOfWindow`, `GateAlternates`,
  `GateFlips`). Frames up to 100 are never handed to the handler
  (`main.js:58`), so the first boundary processed is 300, where the window
  is held. Nothing is detrended before frame 600 (`FirstBoundaryHolds`).
- The held value is the last `acWindow` (`main.js:97`). At frame 300 that is
  still the initial 0.008 (`main.js:15`), so `ac` holds 300 copies of 0.008
  until frame 600. From frame 600 on it is the mean of the last detrended
  window, which over exact reals is always 0 (`Detrending.MeanOfDetrended`).

## Model

| member | source | states |
|---|---|---|
| Names.NormalizeName | SteamLibraryRescuer/script.js:10-15 | the key contains only `[A-Z0-9]` and is no longer than the name |
| Names.NormalizeIdempotent | SteamLibraryRescuer/script.js:10-15 | normalising a normalised name changes nothing |
| Names.NormalizeKey | SteamLibraryRescuer/script.js:10-15 | a string already made of `[A-Z0-9]` is its own key |
| Names.NormalizeAppend | SteamLibraryRescuer/script.js:10-15 | normalisation works character by character: the key of `a + b` is the key of `a` followed by the key of `b` |
| Names.NormalizeChar | SteamLibraryRescuer/script.js:12-13 | an ASCII letter or digit becomes its upper-case form; any other character disappears |
| Names.UpperCase | SteamLibraryRescuer/script.js:12 | `toUpperCase` keeps the length; definition, pinned by `NormalizeChar` and `UpperCaseAppend` |
| Names.KeepKeyChars | SteamLibraryRescuer/script.js:13 | the replace leaves only `[A-Z0-9]` and never lengthens the string |
| Names.UpperCaseAppend | SteamLibraryRescuer/script.js:12 | upper-casing distributes over concatenation |
| Names.KeepKeyCharsAppend | SteamLibraryRescuer/script.js:13 | the global replace distributes over concatenation |
| Names.KeepKeyCharsOfKey | SteamLibraryRescuer/script.js:13 | the replace leaves a string of key characters unchanged |
| Similarity.Score | SteamLibraryRescuer/script.js:69-83 | definition of the value `simpleSimilarity` returns; pinned by `SimpleSimilarity`, `ScoreBounds`, `ScoreSymmetric` and `ScoreSelf` |
| Similarity.SimpleSimilarity | SteamLibraryRescuer/script.js:69-83 | the loop computes 2 × (equal positions up to the shorter length) / (len1 + len2), or 0 for two empty strings, and the result lies in [0, 1] |
| Similarity.ScoreBounds | SteamLibraryRescuer/script.js:69-83 | every score lies in [0, 1] |
| Similarity.ScoreSymmetric | SteamLibraryRescuer/script.js:69-83 | the score does not depend on argument order |
| Similarity.MatchesSymmetric | SteamLibraryRescuer/script.js:76-81 | the count of equal positions does not depend on argument order |
| Similarity.ScoreSelf | SteamLibraryRescuer/script.js:69-83 | a non-empty string scores exactly 1 against itself |
| Similarity.MatchesSelf | SteamLibraryRescuer/script.js:76-81 | a string agrees with itself at every position |
| Similarity.ThresholdInIntegers | SteamLibraryRescuer/script.js:82-94 | the test `score >= 0.8` holds iff 5 × matches ≥ 2 × (len1 + len2) |
| Text.TrimIsSlice | SteamLibraryRescuer/script.js:261 | `trim` returns a slice of its input with only white space cut at either end |
| Text.Trim | SteamLibraryRescuer/script.js:261 | the result neither starts nor ends with white space and is no longer than the input |
| Text.TrimMembers | SteamLibraryRescuer/script.js:261 | `trim` adds no character |
| Text.Split | SteamLibraryRescuer/script.js:220 | `split` gives at least one part and no part contains the separator |
| Text.JoinSplit | SteamLibraryRescuer/script.js:260 | joining the parts of `split` with the separator gives back the string |
| Text.SplitConcat | SteamLibraryRescuer/script.js:260 | splitting at one separator gives the parts before it followed by the parts after it |
| Text.SplitJoin | SteamLibraryRescuer/script.js:260 | splitting separator-free parts joined by the separator gives back the parts |
| Text.NatToString | SteamLibraryRescuer/script.js:312 | `String(appid)` is a non-empty run of decimal digits with no leading zero |
| Text.ParseInt | SteamLibraryRescuer/script.js:122 | definition of `parseInt` with no radix (leading white space, a sign, `0x`, the longest digit run, `NaN` as `None`); pinned by `ParseIntNatToString` and `DigitPrefix` |
| Text.ParseIntNatToString | SteamLibraryRescuer/script.js:122 | `parseInt` reads back the decimal text of a natural number |
| Text.DigitPrefix | SteamLibraryRescuer/script.js:122 | `parseInt` reads the longest prefix of digits, stopping at the first non-digit |
| GameMaps.Lookup | SteamLibraryRescuer/script.js:433 | `GAME_MAP[k]` is defined iff the map has key `k`, and then it is that entry's value |
| GameMaps.Put | SteamLibraryRescuer/script.js:312 | assigning an existing key keeps the map's length; a new key is appended; every existing entry keeps its key and place |
| GameMaps.PutLookup | SteamLibraryRescuer/script.js:312 | after `m[k] = v`, key `k` reads `v`, every other key reads what it did, and keys stay unique |
| GameMaps.PutUnique | SteamLibraryRescuer/script.js:318 | an assignment keeps every key once |
| GameMaps.FirstKeyWithValue | SteamLibraryRescuer/script.js:454 | `Object.keys(m).find(...)` gives the first key in order whose value is the AppID, or `undefined` iff no value matches |
| GameMaps.ArrayPairs | SteamLibraryRescuer/script.js:310-314 | the array branch stores at most one pair per item |
| GameMaps.Truthy | SteamLibraryRescuer/script.js:311 | definition of `item.appid && item.name`; pinned by `ArrayPairsStep` |
| GameMaps.ArrayPairsStep | SteamLibraryRescuer/script.js:311-313 | an item is stored, with `String(item.appid)`, exactly when both `appid` and `name` are truthy |
| GameMaps.Assign | SteamLibraryRescuer/script.js:309-321 | definition of the loops' assignments `GAME_MAP[normalizeName(name)] = appid`, in order; pinned by `AssignLookup` and `AssignKeepsKeys` |
| GameMaps.AssignLookup | SteamLibraryRescuer/script.js:309-321 | after the loop, each normalised name reads the AppID of the last pair with that name, and other keys are untouched |
| GameMaps.AssignKeepsKeys | SteamLibraryRescuer/script.js:309-321 | filling never removes or reorders keys already in the map |
| Fuzzy.Candidates | SteamLibraryRescuer/script.js:90-103 | every result is a map entry whose key scores at least 0.8 against the folder key, and carries that score |
| Fuzzy.CandidatesComplete | SteamLibraryRescuer/script.js:90-103 | every map entry scoring at least 0.8 is among the results |
| Fuzzy.CollectCandidates | SteamLibraryRescuer/script.js:87-103 | the scoring loop keeps exactly the qualifying entries, in map order |
| Fuzzy.CandidatesStep | SteamLibraryRescuer/script.js:92-100 | one more entry is appended exactly when its score reaches 0.8 |
| Fuzzy.SortByScore | SteamLibraryRescuer/script.js:105 | the sort orders by non-increasing score, is a permutation, and keeps entries with equal scores in their original order |
| Fuzzy.InsertByScore | SteamLibraryRescuer/script.js:105 | inserting into a sorted list keeps it sorted and adds exactly the new element |
| Fuzzy.InsertStable | SteamLibraryRescuer/script.js:105 | an insertion puts the new element after all its equals |
| Fuzzy.WithScoreAppend | SteamLibraryRescuer/script.js:105 | the elements with a given score in a concatenation are those of each part, in order |
| Fuzzy.Choices | SteamLibraryRescuer/script.js:105-111 | definition of `results.slice(0, 5)` after the sort; pinned by `ChoicesOffered`, `ChoicesAreBest` and `ChoicesNonEmpty` |
| Fuzzy.ChoicesOffered | SteamLibraryRescuer/script.js:107-115 | at most five choices, best first, each a map entry scoring at least 0.8 |
| Fuzzy.ChoicesAreBest | SteamLibraryRescuer/script.js:105-111 | no qualifying entry left out of the prompt scores more than an offered one |
| Fuzzy.PrefixIsBest | SteamLibraryRescuer/script.js:111 | a prefix of a score-sorted list holds its best elements |
| Fuzzy.ChoicesNonEmpty | SteamLibraryRescuer/script.js:90-111 | if some entry scores at least 0.8, the prompt shows at least one choice |
| Fuzzy.ChoiceIndex | SteamLibraryRescuer/script.js:121-123 | an answer is accepted iff it is non-empty, is not `'0'`, and parses to a number k in 1..count; it then selects index k − 1 |
| Fuzzy.ChoiceOfNumber | SteamLibraryRescuer/script.js:121-123 | typing `k` with 1 ≤ k ≤ count selects index k − 1 |
| Fuzzy.FuzzyMatch | SteamLibraryRescuer/script.js:85-132 | any match returned is a map entry whose name scores at least 0.8 |
| Fuzzy.FindSimilarAppId | SteamLibraryRescuer/script.js:85-132 | the method (scoring loop, sort, slice, prompt) returns the match defined by `FuzzyMatch` |
| Fuzzy.FuzzyMatchPicks | SteamLibraryRescuer/script.js:119-128 | answering `k` returns the AppID and name of the k-th choice |
| Fuzzy.FuzzyMatchNull | SteamLibraryRescuer/script.js:107-131 | a cancelled prompt, an empty answer, `'0'` or no candidate gives `null` |
| Fuzzy.FuzzyMatchOutOfRange | SteamLibraryRescuer/script.js:121-131 | an answer that is not a number in 1..count gives `null` |
| Folders.GameFolderOf | SteamLibraryRescuer/script.js:219-237 | a file yields path component [1] when it exists, is non-empty, is not one of the four ignored names and contains no `/` |
| Folders.FolderCandidates | SteamLibraryRescuer/script.js:218-239 | each file adds at most one candidate folder |
| Folders.FolderNames | SteamLibraryRescuer/script.js:207-241 | definition of `INPUT_FOLDER_NAMES` after a selection; pinned by `CollectFolderNames` and `FolderNamesFound` |
| Folders.CollectFolderNames | SteamLibraryRescuer/script.js:207-241 | the loop and `Array.from(set)` give the distinct game folders in first-seen order |
| Folders.CollectStep | SteamLibraryRescuer/script.js:218-239 | each file adds its game folder to the set unless it is already there |
| Folders.FolderNamesFound | SteamLibraryRescuer/script.js:218-241 | each name appears once; a name is listed iff some selected file lies in that game folder; no name is empty or ignored |
| Folders.Dedup | SteamLibraryRescuer/script.js:236-241 | the set holds exactly the elements added to it |
| Folders.DedupNoDuplicates | SteamLibraryRescuer/script.js:236-241 | the set holds each element once |
| Folders.DedupFirstSeenOrder | SteamLibraryRescuer/script.js:236-241 | `Array.from(set)` lists the names in the order each was first added |
| Folders.TrimmedNonEmpty | SteamLibraryRescuer/script.js:260-262 | each kept name is non-empty and trimmed, and every line whose trimmed text is non-empty contributes that text |
| Folders.TrimmedNonEmptyAppend | SteamLibraryRescuer/script.js:260-262 | the names of `a + b` are the names of `a` followed by those of `b`, so lines keep their order |
| Folders.TrimmedNonEmptyLast | SteamLibraryRescuer/script.js:260-262 | the last line's trimmed text, if non-empty, comes after the names of the lines before it |
| Folders.TrimmedNonEmptyLine | SteamLibraryRescuer/script.js:260-262 | a single line gives its trimmed text, or nothing if that is empty |
| Folders.ManualFolders | SteamLibraryRescuer/script.js:258-262 | the typed names are non-empty, trimmed and contain no line break, and every line with non-blank text contributes its trimmed text |
| Folders.ManualFoldersAppend | SteamLibraryRescuer/script.js:258-262 | the names of `a + "\n" + b` are those of `a` followed by those of `b` |
| Folders.ManualFoldersLine | SteamLibraryRescuer/script.js:258-262 | a text with no line break gives its trimmed text, or nothing if that is empty |
| Folders.TrimmedNonEmptyOfNames | SteamLibraryRescuer/script.js:260-262 | names that are already non-empty and trimmed pass through unchanged |
| Folders.ManualFoldersOfLines | SteamLibraryRescuer/script.js:258-264 | names typed one per line are read back exactly |
| Acf.Template | SteamLibraryRescuer/script.js:17-41 | the template has 18 lines, one per key, in template order |
| Acf.TemplateValues | SteamLibraryRescuer/script.js:20-40 | each key of the template holds its default value, with `LastUpdated` the clock |
| Acf.TemplateKeysUnique | SteamLibraryRescuer/script.js:20-40 | each key appears once in the template |
| Acf.KeyName | SteamLibraryRescuer/script.js:20-40 | definition of each key's quoted name in the template; pinned by `KeyNameInjective` |
| Acf.KeyNameInjective | SteamLibraryRescuer/script.js:50-64 | distinct keys have distinct quoted names |
| Acf.SetFirst | SteamLibraryRescuer/script.js:50-58 | a single replacement keeps every line and key in place |
| Acf.SetAll | SteamLibraryRescuer/script.js:61-64 | a global replacement keeps every line and key in place |
| Acf.SetFirstValue | SteamLibraryRescuer/script.js:50-58 | after a single replacement, key `k` reads the new value if it had a line, and every other key reads what it did |
| Acf.SetAllValue | SteamLibraryRescuer/script.js:61-64 | after a global replacement, key `k` reads the new value if it had a line, and every other key reads what it did |
| Acf.Assigned | SteamLibraryRescuer/script.js:49-64 | exactly the ten keys the function sets receive a value |
| Acf.Fill | SteamLibraryRescuer/script.js:49-64 | definition of the ten replacements in source order; pinned by `Assigned`, `FillValue` and `FillKeys` |
| Acf.FillValue | SteamLibraryRescuer/script.js:49-64 | on a manifest with every key, the ten replacements make each set key read its assigned value and leave the rest alone |
| Acf.FillKeys | SteamLibraryRescuer/script.js:49-64 | the replacements keep the sequence of keys |
| Acf.GenerateAcfContent | SteamLibraryRescuer/script.js:43-66 | definition of the manifest: the template with the ten replacements; pinned by `GeneratedFields` and `GeneratedValues` |
| Acf.GeneratedFields | SteamLibraryRescuer/script.js:43-66 | the manifest keeps the template's keys in order, keeps unset lines verbatim, and gives every key its assigned value or its template default |
| Acf.GeneratedValues | SteamLibraryRescuer/script.js:43-66 | `appid` is the AppID; `installdir` is the folder; `name` is the official name, or the folder if it is empty; `StateFlags` is 4; `LastUpdated` is the clock; the size and byte counters are 0; `universe` and `buildid` stay 1 |
| Rescuer.InitialTable | SteamLibraryRescuer/script.js:276-282 | row i is (id i, folder i, AppID `-`, name `Unknown`, pending), one per folder, in order |
| Rescuer.LeftCount | SteamLibraryRescuer/script.js:409-410 | the number of rows not removed is at most the number of rows |
| Rescuer.LeftCountZero | SteamLibraryRescuer/script.js:409-410 | no rows are left iff every row is removed |
| Rescuer.FindIndex | SteamLibraryRescuer/script.js:392 | `findIndex` gives the first row with the id, or -1 (`None`) iff none has it |
| Rescuer.FindIndexOfNumbered | SteamLibraryRescuer/script.js:392-393 | in a table numbered by place, id `k` is row `k` when it exists |
| Rescuer.ExactHit | SteamLibraryRescuer/script.js:432-433 | definition of a truthy `GAME_MAP[normalizedFolderName]`; pinned by `ExactHitWins` and `NotFoundRow` |
| Rescuer.ReverseName | SteamLibraryRescuer/script.js:454-455 | the official name of an exact hit is the first key in map order whose value is the AppID, or the folder name when that key is `""` or there is none |
| Rescuer.ToProcess | SteamLibraryRescuer/script.js:424 | definition of the rows the loop does not skip (neither removed nor matched); pinned by `IdentifyRow` |
| Rescuer.ProcessRow | SteamLibraryRescuer/script.js:427-460 | definition of a row after the loop body: exact hit, else the prompt's match, else Not Found; pinned by `ResolveRow`, `ExactHitWins`, `NotFoundRow` and `MatchFromMap` |
| Rescuer.ResolveRow | SteamLibraryRescuer/script.js:427-460 | the loop body for an unprocessed row computes the row defined by `ProcessRow` |
| Rescuer.IdentifyRow | SteamLibraryRescuer/script.js:423-466 | removed and matched rows are skipped; the row is reported as matched iff it was unprocessed and ends in `success` |
| Rescuer.Identify | SteamLibraryRescuer/script.js:423-460 | the pass keeps the table's length, one row per row; pinned by `IdentifyLoop` and `IdentifyRows` |
| Rescuer.IdentifyLoop | SteamLibraryRescuer/script.js:423-471 | the loop turns the table into the pass's result, and the identified list holds the rows it matched, in table order |
| Rescuer.IdentifyStep | SteamLibraryRescuer/script.js:423-466 | one iteration fixes row `i` and appends it to the identified list iff it became a match |
| Rescuer.IdentifyRows | SteamLibraryRescuer/script.js:423-460 | a pass keeps ids and folder names, leaves removed and matched rows unchanged, and ends every other row in `success` or `error` |
| Rescuer.ExactHitWins | SteamLibraryRescuer/script.js:433-456 | an exact hit is taken without a prompt, whatever the answer would be, and its name is the reverse lookup's |
| Rescuer.NotFoundRow | SteamLibraryRescuer/script.js:436-449 | a row ends in `error` ("-", "Not Found") iff there is no exact hit and the prompt gives no match |
| Rescuer.MatchFromMap | SteamLibraryRescuer/script.js:433-460 | a matched row's AppID is a map value, and its official name is the folder name or a map key under that AppID |
| Rescuer.NewlyIdentified | SteamLibraryRescuer/script.js:462-466 | the pass identifies at most one entry per row; pinned by `NewlyIdentifiedRows` |
| Rescuer.NewlyIdentifiedRows | SteamLibraryRescuer/script.js:462-466 | an entry is in the identified list iff some row this pass matched carries it |
| Rescuer.MatchedAtMostLeft | SteamLibraryRescuer/script.js:476-478 | "Matched x of y" never has x > y |
| Rescuer.RerunFindsNothing | SteamLibraryRescuer/script.js:419-424 | a pass over a table with no unprocessed rows changes nothing and identifies nothing, which drops earlier matches from the list |
| Rescuer.IdentifyKeepsNumbering | SteamLibraryRescuer/script.js:423-460 | a pass keeps rows numbered by place and leaves none loading |
| Rescuer.StoreItems | SteamLibraryRescuer/script.js:309-314 | the array loop leaves the map equal to the old map with each truthy item assigned in order, keys unique |
| Rescuer.StoreItem | SteamLibraryRescuer/script.js:310-314 | one iteration of the array loop stores a truthy item under its normalised name and skips any other |
| Rescuer.StorePairs | SteamLibraryRescuer/script.js:315-321 | the object loop leaves the map equal to the old map with each property assigned in order, keys unique |
| Rescuer.LoadPairStep | SteamLibraryRescuer/script.js:318 | one property assignment extends the loop invariant |
| Rescuer.Rescuer.constructor | SteamLibraryRescuer/script.js:3-6 | the globals start empty |
| Rescuer.Rescuer.HandleFolderDirectory | SteamLibraryRescuer/script.js:204-252 | the folder list becomes the distinct game folders of the selected files (empty for no files), and nothing else changes |
| Rescuer.Rescuer.CheckStep1 | SteamLibraryRescuer/script.js:254-289 | the typed names are used only when no folder was selected; it fails iff the list is empty, and otherwise builds a fresh pending table |
| Rescuer.Rescuer.LoadArray | SteamLibraryRescuer/script.js:309-314 | the map becomes the old map with the array's truthy items assigned |
| Rescuer.Rescuer.LoadObject | SteamLibraryRescuer/script.js:315-321 | the map becomes the old map with the object's properties assigned |
| Rescuer.Rescuer.FetchAppIdMap | SteamLibraryRescuer/script.js:293-333 | the map grows by the downloaded list and is never cleared; a failed download leaves it unchanged |
| Rescuer.Rescuer.RemoveGame | SteamLibraryRescuer/script.js:390-404 | the row with that id, if any, is marked removed, and nothing else changes |
| Rescuer.Rescuer.StartIdentify | SteamLibraryRescuer/script.js:406-498 | it returns early with nothing changed when no row is left or the map is empty; otherwise it runs the pass, sets the identified list to this pass's matches, and reports "x of y" or no match |
| Detrending.Mean | NTHU/PPG/src/main.js:120-128 | the mean is defined iff the window is non-empty |
| Detrending.WindowMean | NTHU/PPG/src/main.js:120-128 | the loop computes the sum over the length, and `NaN` (`None`) for an empty window |
| Detrending.Accumulate | NTHU/PPG/src/main.js:131-146 | the loops compute Σi, Σy, Σiy and Σi² over i = 0..n−1 |
| Detrending.LineOfSums | NTHU/PPG/src/main.js:147-152 | no line exactly when n = 0 or the spread n·Σi² − (Σi)² is 0; otherwise the slope and intercept solve the normal equations |
| Detrending.SubtractLine | NTHU/PPG/src/main.js:154-157 | the last loop computes the residuals `y[i] − (intercept + slope·i)` |
| Detrending.Detrend | NTHU/PPG/src/main.js:130-160 | the result is the residuals of the least-squares line (`Detrended`) |
| Detrending.Detrended | NTHU/PPG/src/main.js:130-160 | the detrended window has the input's length |
| Detrending.Fit | NTHU/PPG/src/main.js:147-152 | the line satisfies the least-squares normal equations |
| Detrending.NormalExists | NTHU/PPG/src/main.js:147-152 | for two or more points, a line satisfying the normal equations exists |
| Detrending.NormalUnique | NTHU/PPG/src/main.js:147-152 | for two or more points, that line is unique |
| Detrending.FitFromSums | NTHU/PPG/src/main.js:147-152 | the slope and intercept computed from the sums are the least-squares line |
| Detrending.DetrendedDefined | NTHU/PPG/src/main.js:147-151 | the result is `NaN` (`None`) exactly for a single-point window |
| Detrending.XxPositive | NTHU/PPG/src/main.js:149 | the denominator `xx` is non-zero iff n ≥ 2, and then it is positive |
| Detrending.XxClosed | NTHU/PPG/src/main.js:149 | 12·xx = n²(n − 1)(n + 1) |
| Detrending.SumIClosed | NTHU/PPG/src/main.js:142 | 2·Σi = n(n − 1) |
| Detrending.SumIIClosed | NTHU/PPG/src/main.js:145 | 6·Σi² = n(n − 1)(2n − 1) |
| Detrending.DetrendedSums | NTHU/PPG/src/main.js:154-157 | the residuals sum to 0, and so does their sum weighted by i |
| Detrending.MeanOfDetrended | NTHU/PPG/src/main.js:94-95 | the mean of a detrended window (two or more points) is exactly 0 |
| Detrending.MeanOfConstant | NTHU/PPG/src/main.js:120-128 | a constant window of length n > 0 averages to its value |
| Detrending.LinearIsFlat | NTHU/PPG/src/main.js:130-160 | detrending a perfectly linear window gives all zeros |
| Detrending.DetrendIdempotent | NTHU/PPG/src/main.js:130-160 | detrending a detrended window changes nothing |
| Ppg.Slot | NTHU/PPG/src/main.js:84 | the slot of frame `n` is below 300, and is `n` itself for n < 300 |
| Ppg.SlotAdvances | NTHU/PPG/src/main.js:84 | consecutive frames write consecutive slots, wrapping from 299 to 0 |
| Ppg.WindowFillsSlots | NTHU/PPG/src/main.js:84-87 | window k starts at a boundary and its 300 frames fill slots 0..299 in order |
| Ppg.AtBoundary | NTHU/PPG/src/main.js:87 | definition of `nFrame % WINDOW_LENGTH == 0`; pinned by `WindowFillsSlots` |
| Ppg.GateActive | NTHU/PPG/src/main.js:92 | definition of `(nFrame / 100) % 2 == 0`; pinned by `GateOfWindow`, `GateAlternates` and `FirstBoundaryHolds` |
| Ppg.GateOfWindow | NTHU/PPG/src/main.js:87-92 | at frame 300k the detrend branch is taken iff k is even |
| Ppg.GateAlternates | NTHU/PPG/src/main.js:87-92 | at a boundary, `(nFrame / 100) % 2 == 0` iff `(nFrame / 300) % 2 == 0` |
| Ppg.GateFlips | NTHU/PPG/src/main.js:87-99 | consecutive boundaries take opposite branches |
| Ppg.FirstBoundaryHolds | NTHU/PPG/src/main.js:58-99 | the only boundary below 600 that the handler sees is 300, and there the window is held |
| Ppg.Held | NTHU/PPG/src/main.js:97 | `Array(300).fill(v)` has 300 copies of `v` |
| Ppg.HeldMean | NTHU/PPG/src/main.js:95-97 | the mean of a held window is the held value |
| Ppg.Slide | NTHU/PPG/src/main.js:260-263 | push then shift keeps the length, drops the oldest point and puts the new one last |
| Ppg.SlideSuffix | NTHU/PPG/src/main.js:252-264 | after k ≤ length updates, the list is the old list minus its first k points, followed by the new points |
| Ppg.SlideAll | NTHU/PPG/src/main.js:252-264 | after as many updates as the list is long, it holds exactly the new points in order |
| Ppg.SeedPoints | NTHU/PPG/src/main.js:243-249 | the seeded points are k copies of (0.5, current flag) |
| Ppg.Pipeline.constructor | NTHU/PPG/src/main.js:13-23 | both windows hold 300 × 0.5, the counter and flag are 0, `acFrame` and `acWindow` are 0.008, and the chart is empty |
| Ppg.Pipeline.ProcessFrame | NTHU/PPG/src/main.js:84-102 | only slot `nFrame % 300` of the buffer changes. Between boundaries `ac`, the flag and `acWindow` are unchanged. An even boundary sets the flag to 1, `ac` to the detrended buffer and `acWindow` to its mean, which is 0. An odd boundary sets the flag to 0 and `ac` to 300 copies of the old `acWindow`. `acFrame` becomes `ac[nFrame % 300]` |
| Ppg.Pipeline.Tick | NTHU/PPG/src/main.js:57-118 | a frame is handed to the handler iff `nFrame > 100` and the video plays; the counter always advances by one, and nothing else changes |
| Ppg.Pipeline.SeedData | NTHU/PPG/src/main.js:240-250 | 100 points (0.5, current flag) are appended, and nothing else changes |
| Ppg.Pipeline.UpdateData | NTHU/PPG/src/main.js:252-264 | the point (`acFrame`, flag) is pushed and the oldest shifted out |
| Ppg.Pipeline.ChartTick | NTHU/PPG/src/main.js:288-292 | the chart updates only while the video plays |

## Left out

- DOM and UI updates: status messages, tables, step switching, button states, `updateGameTable` and `updateStep`. They carry no state the model reads.
- The network download and JSON parsing in `fetchAppIdMap`. The parsed list is a parameter (`Download`), and `Failed` stands for a failure before the map is touched (a network error, a bad status, bad JSON).
- Rescuer.Rescuer.FetchAppIdMap: a partial load is not modelled. An exception in the middle of a filling loop (for example a non-string name, which makes `normalizeName` throw, `SteamLibraryRescuer/script.js:310-320`) is caught at line 328 and leaves `GAME_MAP` with the entries stored so far; the model either stores the whole list or nothing.
- Step 3, `startDownload`: the JSZip archive and the download link. Only the manifest content it writes (`generateAcfContent`) is modelled.
- `prompt` and `alert`: the prompt's answer is a parameter, one per table row.
- Rescuer.MatchedAtMostLeft: the identification pass (`Rescuer.Rescuer.StartIdentify`) is modelled as running without interruption. In the page, the `await` after each match (`SteamLibraryRescuer/script.js:470`) lets other handlers run, and a click on a row's remove button then runs `removeGame` in the middle of the pass. A row matched and then removed still counts in "Matched x" but not in "of y", so one folder matched and then removed gives "Matched 1 of 0". The bound x ≤ y holds only for a pass with no removal during it.
- `Date.now()` is a parameter (`unixTime`). The `time` field of chart points and of `xMeanArr` entries is not modelled.
- The camera, canvas and pixel averaging that produce `xMean`: the frame value is a parameter of `ProcessFrame`.
- `frameCount`, `xMeanArr`, `delay`, the FPS text and the `setTimeout`/`setInterval` scheduling. The caller decides when `Tick`, `ProcessFrame` and `ChartTick` run. Each `play` event starts another `computeFrame` chain and another `drawLineChart`, and with it another `seedData`; the model has one of each.
- The d3 chart rendering, `resize` and the touch zoom handlers.
- Similarity.Score: exact rationals rather than IEEE doubles. This matters only for strings far longer than any game name.
- Detrending.Detrend: exact reals rather than doubles. `NaN` is `None`, and rounding error is not modelled.
- Names.NormalizeName: `toUpperCase` is modelled for ASCII only, character by character. Some non-ASCII characters upper-case to ASCII letters, for example dotless ı, long ſ, ß (to `SS`), ŉ, ǰ, ẖ, ẗ, ẘ, ẙ, ẚ and the ﬀ–ﬆ ligatures. The page keeps those letters but the model drops them, and in the page the key can be longer than the name.
- GameMaps.Truthy: an AppID is modelled as a natural number, as Steam's list supplies it. The page accepts any truthy `item.appid` (`SteamLibraryRescuer/script.js:311-312`) and stores `String(item.appid)`; a string, negative or fractional AppID cannot be represented in the model.
- Acf.GeneratedValues: inserted values are taken literally. In the page the folder name, AppID and official name are spliced into a replacement string (`SteamLibraryRescuer/script.js:50-53`), where `$&`, `$'`, `` $` ``, `$$` and `$1` are expanded. A name containing one of these does not end up verbatim in `installdir` or `name`.
- GameMaps.Put: JavaScript objects enumerate integer-like keys (such as a normalised name of digits only) in numeric order before the other keys. The model keeps insertion order for every key, which only affects which key `find` returns first and the order of similarity candidates with equal scores.
- Acf.GeneratedFields: the manifest text is modelled as its fields, not as a string. The regular expressions' matching inside the text (`\s+`, the lazy `".*?"`) is not modelled, and each replacement is taken to hit the line of its key. An earlier inserted value that itself contains a quoted key followed by white space and a quoted string (a folder name with `"name" "x"` in it, say) could be matched instead.
