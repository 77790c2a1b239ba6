# Content index generator, modelled in Dafny

`generateIndex.js` builds the JSON index files of a devotional-text
collection.

- The **flat indexer** (`generateAartiList`) reads every `.json` file of the
  aarti folder. It writes one record per readable file to `index.json`:
  `id`, `title`, `artist`, `category`, `subtitle` (`""` when missing or
  falsy) and `file` (the file name). The records are sorted by `id`.
- The **grouped indexer** (`generateVartaList`) reads the files of one varta
  folder. Each name looks like `v84_1_p1.json`: once the first `.json` is
  removed, the name is split on `_`.
  - Parts 0 and 1 name a Vaishnav, for example `v84_1`.
  - Part 2 names one prasang of that Vaishnav, for example `p1`.
  - The first file of a Vaishnav gives the group its `name` (which defaults to
    `Vaishnav <part 1>`) and its `bio` (which defaults to `""`).
  - Every file appends one prasang `{id, title, file: <prefix>/<filename>}`.
  - Groups are sorted by id, and so are the prasangs inside each group.
- Both indexers sort with `naturalSort`, which compares digit runs by value,
  so `p2` comes before `p10`.
- A missing folder is skipped with a warning. A blank, unreadable or
  unparsable file, or a badly named one, is skipped, and the run goes on.

The model is eight modules.

- `Wrappers` holds `Option`.
- `JsonValues` models a parsed JSON value, JavaScript truthiness and `||`.
- `Strings` models `endsWith`, the first-occurrence `replace`, `split` and
  `join`.
- `NaturalOrder` holds the comparator, a stable sort and its properties.
- `Listing` models a folder listing. Each entry is a name plus one of
  `Blank`, `Unreadable` or `Parsed(value)`.
- `AartiIndex` models the flat indexer as functions over the listing.
- `VartaIndex` models the grouped indexer. A method with a `while` loop fills
  the group table file by file. Its invariant ties the table, at every step,
  to a fold over the accepted files, and the lemmas about that fold state
  the grouping properties.
- `Scenarios` evaluates the model on small, concrete listings.

Where the code does something other than what its comments suggest, or
what a reader would expect, the model follows the code.

- Only the **first** `.json` in a name is removed, not a trailing extension.
  So `v84.json_1_p1.json` gives the parts `v84`, `1`, `p1.json`
  (`VartaIndex.FirstOccurrenceRemoved`). The comments at
  generateIndex.js:83-86 expect `v84_1_p1.json` to give
  `["v84", "1", "p1"]`, which holds for names with no `.` before the
  extension (`VartaIndex.NamePartsStripSuffix`).
- The sort of the flat index is not failure-free. A record whose `id` is not
  a string makes `localeCompare` throw outside the per-file `try`, and
  nothing is written (`AartiIndex.Outcome.Aborted`).
- A file whose content is the JSON value `null` is skipped. Reading a
  property of `null` throws inside the per-file `try`.
- The comparator is a total preorder, not an order. `a` and `A`, or `p01`
  and `p1`, are equivalent. The sort is stable, so equivalent ids keep their
  listing order.

## Model

| member | source | states |
|---|---|---|
| NaturalOrder.Chunks | generateIndex.js:18-20 | cuts a string into digit runs, taken by value, and single other characters, case-folded; `ChunksAppend` (cutting a concatenation at a seam outside a digit run), `DigitsAreOneChunk` and `CaseInsensitive` state how |
| NaturalOrder.NaturalLeq | generateIndex.js:18-21 | `naturalSort(x, y) <= 0`; the lemmas below prove it reflexive, total and transitive, numeric on digit runs and blind to ASCII case |
| NaturalOrder.NaturalLeqReflexive | generateIndex.js:19-21 | every string may precede itself |
| NaturalOrder.NaturalLeqTotal | generateIndex.js:19-21 | of any two strings, one may precede the other |
| NaturalOrder.NaturalLeqTransitive | generateIndex.js:19-21 | the order is transitive, so sorting by it is well defined |
| NaturalOrder.NumbersCompareByValue | generateIndex.js:18-21 | after a common prefix, two digit runs compare by numeric value (`p2` before `p10`) |
| NaturalOrder.DigitRunsCompareByValue | generateIndex.js:17-21 | digit runs inside a string compare by value whatever non-digit text follows (`v84_2_x` before `v84_10_x`); when the values are equal the text after them decides |
| NaturalOrder.CaseInsensitive | generateIndex.js:20 | a string and its lower-case form cut into the same chunks and are equivalent (base sensitivity) |
| NaturalOrder.SortBy | generateIndex.js:56 | the sorted sequence is ordered by the key and is a permutation of the input |
| NaturalOrder.SortByStable | generateIndex.js:56 | elements with equivalent keys keep their input order |
| NaturalOrder.SortByKeepsKeysDistinct | generateIndex.js:119-120 | sorting keeps keys pairwise distinct |
| JsonValues.Truthy | generateIndex.js:47 | JavaScript truthiness of a property read; `JsonValues.FalsyValues` lists its falsy values |
| JsonValues.FalsyValues | generateIndex.js:47 | a read value is falsy exactly when it is `undefined`, `null`, `false`, `0` or `""` |
| JsonValues.Get | generateIndex.js:42-47 | `data.key`: an object's own member or `undefined`; `AartiIndex.ReadAarti` and `VartaIndex.AcceptedFields` state what each field of a record reads |
| JsonValues.OrElse | generateIndex.js:47 | `v \|\| fallback` yields `v` when it is truthy and the fallback otherwise |
| Strings.IndexOf | generateIndex.js:85 | the result is the position of the first occurrence of the pattern, or None when there is none |
| Strings.RemoveFirst | generateIndex.js:85 | `s.replace(pat, '')`: unchanged when `pat` does not occur; otherwise one pattern's length shorter, and putting `pat` back at the first occurrence gives `s` again |
| Strings.FirstOccurrence | generateIndex.js:85 | when the pattern occurs at `i` and its first character is absent before `i`, `replace` removes exactly that occurrence |
| Strings.RemoveFirstShortens | generateIndex.js:85 | a name ending in `.json` loses exactly five characters |
| Strings.RemoveFirstStripsSuffix | generateIndex.js:85 | when the extension occurs only at the end, `replace` strips it as a suffix |
| Strings.Split | generateIndex.js:85 | `split` gives one more part than the separator count, and no part holds the separator |
| Strings.SplitJoin | generateIndex.js:85 | splitting parts joined by the separator gives back the parts |
| AartiIndex.AartiList | generateIndex.js:24-60 | `generateAartiList`: nothing written exactly for a missing folder; a written index is sorted by id and a permutation of the collected records; an abort means some collected record has no text id. `AartiListSorted`, `AartiListMembers` and `AartiListWritten` state the rest |
| AartiIndex.Collected | generateIndex.js:33-55 | the `filter`, `map` and `filter(Boolean)` chain: at most one record per entry, each for a `.json` file; `EntryContribution`, `CollectedCount` and `CollectedMembers` state exactly which |
| AartiIndex.ReadAarti | generateIndex.js:35-53 | a record exists exactly for parsed, non-null content; `id`, `title`, `artist` and `category` are the parsed fields as read; `subtitle` is the parsed one when truthy and `""` otherwise; `file` is the file name |
| AartiIndex.EntryContribution | generateIndex.js:33-55 | wherever it is listed, a yielding entry adds its own record in its own place, and any other entry adds nothing |
| AartiIndex.CollectedCount | generateIndex.js:33-55 | the number of records equals the number of `.json` entries with parsed, non-null content |
| AartiIndex.CollectedMembers | generateIndex.js:33-55 | a record is collected if and only if some yielding entry produced it |
| AartiIndex.AartiListSorted | generateIndex.js:55-58 | the written index is sorted by id, is a permutation of the collected records, has one record per yielding entry, and keeps listing order among equivalent ids |
| AartiIndex.AartiListMembers | generateIndex.js:33-58 | a record is in the written index if and only if some yielding entry produced it |
| AartiIndex.AartiListWritten | generateIndex.js:24-28 | a missing folder writes nothing; when every yielding file has a text id, the index is written |
| VartaIndex.NameParts | generateIndex.js:85 | `filename.replace('.json', '').split('_')`: at least one part, no part holds `_`, and joining the parts with `_` gives the name with its first `.json` removed |
| VartaIndex.Accept | generateIndex.js:75-104 | the `forEach` callback's verdict on one file; `AcceptConditions` states when a file is accepted and `AcceptedFields` what it contributes |
| VartaIndex.AcceptConditions | generateIndex.js:75-91 | a file is accepted if and only if it is `.json`, parses to a non-null value, and its name has at least two `_` once the first `.json` is removed |
| VartaIndex.AcceptedFields | generateIndex.js:85-111 | group id is part 0 `_` part 1 (and splits back into them); prasang is part 2, the title and `<prefix>/<filename>`; name and bio fall back to `Vaishnav <part 1>` and `""`; the name is always truthy |
| VartaIndex.NamePartsStripSuffix | generateIndex.js:85 | without a `.` before the extension, the parts are those of the name with its extension stripped |
| VartaIndex.FirstOccurrenceRemoved | generateIndex.js:85 | `v84.json_1_p1.json` splits into `v84`, `1`, `p1.json`, not the parts of the extension-stripped name |
| VartaIndex.EntryContribution | generateIndex.js:75-116 | wherever it is listed, an entry adds its own accepted file in its own place, or nothing |
| VartaIndex.GenerateVartaList | generateIndex.js:63-129 | nothing is written exactly when the folder is missing; otherwise the result is the grouped, sorted list of the listing |
| VartaIndex.GroupFiles | generateIndex.js:73-116 | after the loop over the listing, the group table is the fold of the accepted files |
| VartaIndex.HandleFile | generateIndex.js:77-115 | one callback leaves the table unchanged for a skipped file, and otherwise files its prasang (creating the group on first sight) |
| VartaIndex.AddFile | generateIndex.js:96-111 | the table after one accepted file; `AddFileEffect`, `InitThenPush` and `BuildKeepsHeader` state its effect |
| VartaIndex.AddFileEffect | generateIndex.js:96-111 | one step touches only the file's own group: an existing group keeps its header and gains the prasang at the end, a new group is created from the file and listed last, every other group is unchanged |
| VartaIndex.Build | generateIndex.js:73-116 | `vaishnavMap` after the accepted files in listing order; `BuildValid`, `BuildIds`, `BuildPrasangs`, `BuildFirstWins` and `BuildCount` state what it holds |
| VartaIndex.InitThenPush | generateIndex.js:96-111 | creating an empty group and then pushing equals filing the prasang in one step |
| VartaIndex.GroupStep | generateIndex.js:75-116 | the fold over one more entry is the fold so far, plus that entry's prasang if it is accepted |
| VartaIndex.BuildValid | generateIndex.js:93-104 | the table lists each group id once, lists exactly its map's keys, and files each group under its own id |
| VartaIndex.BuildIds | generateIndex.js:93-104 | a group exists if and only if some accepted file has its id |
| VartaIndex.BuildPrasangs | generateIndex.js:107-111 | a group's prasangs are its files' prasangs in listing order, and a missing group has no files |
| VartaIndex.BuildFirstWins | generateIndex.js:96-104 | a group's name and bio are those of the first file with its id |
| VartaIndex.BuildKeepsHeader | generateIndex.js:96-104 | later files never change an existing group's id, name or bio |
| VartaIndex.BuildCount | generateIndex.js:107-111 | the table holds exactly one prasang per accepted file |
| VartaIndex.Finish | generateIndex.js:119-125 | `Object.values`, the sort by group id and the sort inside each group; `FinishMembers`, `TotalSort` and `TotalSortEach` state what it keeps |
| VartaIndex.VartaList | generateIndex.js:63-129 | the array `generateVartaList` writes for a listing; `VartaListSorted`, `VartaListIds`, `VartaListGroups`, `VartaListCount` and `VartaListStable` state it |
| VartaIndex.TotalSort | generateIndex.js:119-120 | sorting the groups keeps the total number of prasangs |
| VartaIndex.TotalSortEach | generateIndex.js:121-125 | sorting inside each group keeps the total number of prasangs |
| VartaIndex.FinishMembers | generateIndex.js:119-125 | each written group is a table group with its prasangs sorted, and every table group is written |
| VartaIndex.VartaListSorted | generateIndex.js:119-125 | written groups are sorted by id with distinct ids, and each group's prasangs are sorted by id |
| VartaIndex.VartaListIds | generateIndex.js:93-125 | a group with id `k` is written if and only if some accepted file has group id `k` |
| VartaIndex.VartaListGroups | generateIndex.js:96-125 | each written group holds exactly its files' prasangs (as a multiset), and its name and bio come from its first file |
| VartaIndex.VartaListCount | generateIndex.js:107-125 | the written prasangs number exactly the accepted files |
| VartaIndex.VartaListStable | generateIndex.js:119-125 | groups with equivalent ids are written in the order of their first files, and prasangs with equivalent ids in the order of their files |
| Scenarios.NumericAwareSort | generateIndex.js:18-21 | `a2`, `a10`, `a1` sort to `a1`, `a2`, `a10` |
| Scenarios.FlatProjection | generateIndex.js:42-49 | `{id:"x1",title:"T",artist:"A",category:"C"}` in `x1.json` gives that record with `subtitle:""` and `file:"x1.json"` |
| Scenarios.FlatResilience | generateIndex.js:37-55 | a valid file next to an unreadable one gives an index of exactly the valid file's record |
| Scenarios.Grouping | generateIndex.js:93-125 | `v84_1_p2.json` and `v84_1_p1.json` give one group `v84_1`, named `Vaishnav 1`, with prasangs `p1` then `p2` at `84/<filename>` |
| Scenarios.FirstWinsNaming | generateIndex.js:96-104 | of the names `Alice` (listed first) and `Bob` in one group, the group is named `Alice` |
| Scenarios.MalformedNameSkipped | generateIndex.js:88-91 | `badname.json` yields no group and no prasang |

## Left out

- File system calls (`existsSync`, `readdirSync`, `readFileSync`, `writeFileSync`, `path.join`) are I/O. The listing is an input: `None` for a missing folder, otherwise one entry per name with its content. The written file is the returned value.
- Reading and parsing text is I/O and parsing. Each entry's content is already classified: `Blank` (empty or all whitespace), `Unreadable` (the read or `JSON.parse` threw), or `Parsed(value)`.
- `JSON.stringify` is not modelled. A missing field is `None`, which `JSON.stringify` leaves out of the output; the text layout is not modelled.
- `localeCompare` with `{numeric: true, sensitivity: 'base'}` depends on ICU collation, which cannot be modelled here. The model uses a simpler natural comparator: digit runs by value, ASCII letters without case, and numbers before other characters. Accents, Unicode collation weights and punctuation rules are not modelled.
- AartiIndex.AartiList: a sort that throws gives `Aborted` whenever there are two or more records and one lacks a text id. The real sort throws only if the engine's comparison order makes such a record the left operand of a comparison, and that order is not fixed by the language.
- Console output (warnings, errors, summaries) has no effect on the indexes.
- The driver (lines 132-147) and the configuration constants (lines 5-15) are left out. `folderPrefix` is a parameter, and the folder and output paths are not modelled.
- Any error outside the per-file `try` blocks is left out, apart from the sort error above: for example a failed listing or a failed write, and the process exit. Any way a read can fail counts as `Unreadable`.
- JSON numbers are `real` values. Floating-point rounding is not modelled; only truthiness depends on numbers.
- The grouping table models the object `vaishnavMap` as a map plus the order of first insertion. The two agree because a group id always has exactly one `_`, so it is never an integer-like key (which `Object.values` would list first) and never a prototype property.
- `v.prasangs.sort(...)` inside `map` sorts each group's array in place. The model returns a new group value with its prasangs sorted instead, and no array is shared between groups.
- Running an indexer twice on the same listing gives the same output. In the model this holds by construction, because both indexers are functions of the listing, so no lemma states it.
