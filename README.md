# voice-ui-server: quantity extraction and the record store

This project models the logic of the voice-ordering server in `index.js`:

- **The quantity extractor** of the `/transcribe` handler. Every match of the global
  pattern `(.+?)(\d{1,4})個` in the transcript becomes a record `{ item, quantity }`.
  The item is the lazy first capture with the glyphs 、。・ removed and then trimmed.
  The quantity is the digit capture read by `parseInt`. The pattern is run by an
  explicit backtracking matcher (module `Extractor`): start positions from left to
  right, a lazy capture that grows one character at a time, a greedy `\d{1,4}` that
  backtracks, and a global scan that resumes after each `個`. Each stage is proved
  against a declarative description of the leftmost, shortest-capture match, and the
  whole `matchAll` result is shown to be the only one that description allows
  (`ExtractorLemmas`). `ExtractorExamples` works through concrete transcripts.
- **The record store** behind `POST /save`, `GET /history` and `GET /load/:filename`
  (module `RecordStore`). The data directory is `None` until the first non-empty save
  creates it, and then maps file names to the items saved in them. A server may also
  start over a directory an earlier run left behind. `SavedFiles` derives
  the file name from the ISO time of the request and holds the history chain
  `.filter(...).sort().reverse()`. `TextOrder` holds the order `sort()` uses without a
  comparator, and proves that the sorted result does not depend on the order of its input.

The class `RecordStore.DataStore` holds the directory as a field. Its `Save`, `History`
and `Load` methods are proved against the functions `AfterSave`, `SaveReply`,
`SavedNames` and `LoadFrom`. The lemmas beside those functions relate the operations
to each other.

The clock is a parameter: `Save` takes the ISO timestamp of the request. JSON encoding
is taken to be lossless, so a file is modelled by the sequence of items it encodes.

## Model

| member | source | states |
|---|---|---|
| Extractor.IsLineTerminator | index.js:55 | the characters the pattern's `.` refuses: LF, CR, U+2028 and U+2029 |
| Extractor.IsDigit | index.js:55 | `\d` without the unicode flag: the ASCII digits 0 to 9 |
| Extractor.IsStripped | index.js:57 | the class `[、。・]`: U+3001, U+3002 and U+30FB |
| Extractor.IsSpace | index.js:57 | what `trim` removes: the ECMAScript white-space and line-terminator code points |
| Extractor.DigitRun | index.js:55 | the greedy `\d{1,4}` takes a run of ASCII digits of at most the bound, and stops only at the bound, the end of text or a non-digit |
| Extractor.BacktrackDigits | index.js:55 | backtracking from `j` digits finds a digit count followed by `個` if there is one of at most `j`, and reports none otherwise |
| Extractor.QuantityMatch | index.js:55 | `(\d{1,4})個` matches at a position exactly when the greedy digit run is followed by `個`; no other digit count can match |
| Extractor.LazyCapture | index.js:55 | growing the lazy capture finds the shortest capture at the start that lets the rest match, and fails only when no capture length matches |
| Extractor.MatchAt | index.js:55 | a match at one start position is the shortest-capture match, and none is reported only when no capture and digit count match there |
| Extractor.Exec | index.js:55 | a search from `lastIndex` returns the leftmost match with the shortest capture, or none when no position from `lastIndex` on starts a match |
| Extractor.MatchAll | index.js:55 | the matches are each the first match after the end of the previous one, every one is a shortest-capture match, and nothing matches after the last |
| ExtractorLemmas.MatchAllUnique | index.js:55 | only one sequence of matches satisfies the leftmost, shortest-capture, resume-after-match rule |
| ExtractorLemmas.FirstMatchUnique | index.js:55 | at most one match is the leftmost one with the shortest capture |
| ExtractorLemmas.QuantityUnique | index.js:55 | at a given position only one digit count can be followed by `個` |
| ExtractorLemmas.MatchesInOrder | index.js:55 | the matches are in text order and do not overlap |
| ExtractorLemmas.OrderedMatches | index.js:55 | any sequence that satisfies the matchAll rule is in text order and free of overlaps |
| ExtractorLemmas.MatchAllAfterPrefix | index.js:55 | a scan started after a prefix finds the matches of the rest, shifted by the prefix length |
| Extractor.StripGlyphs | index.js:57 | the result holds none of 、。・ and is no longer than the input |
| ExtractorLemmas.StripGlyphsKeeps | index.js:57 | a character is kept exactly when it occurs in the capture and is not one of 、。・ |
| ExtractorLemmas.StripGlyphsAppend | index.js:57 | glyph removal works piece by piece, so the kept characters stay in their order |
| ExtractorLemmas.StripGlyphsIdentity | index.js:57 | a text without the glyphs is unchanged |
| ExtractorLemmas.StripGlyphsIdempotent | index.js:57 | removing the glyphs twice is removing them once |
| Extractor.Trim | index.js:57 | the result neither starts nor ends with white space, and trimming adds no glyph |
| ExtractorLemmas.TrimDropsSpaces | index.js:57 | the result is a slice of the input with only white space cut off before and after it |
| ExtractorLemmas.TrimIdentity | index.js:57 | a text that neither starts nor ends with white space is unchanged |
| ExtractorLemmas.TrimIdempotent | index.js:57 | trimming twice is trimming once |
| Extractor.DecimalValue | index.js:58 | `parseInt` of `n` ASCII digits is below 10 to the power `n` |
| Extractor.RecordOf | index.js:56-59 | a record's quantity is at most 9999, and its item has no 、。・ and no white space at either end |
| Extractor.ToRecord | index.js:56-58 | the record of a match reads `match[1]` and `match[2]` out of the transcript; its quantity is at most 9999 and its item is glyph-free and trimmed |
| Extractor.Extract | index.js:55-59 | one record per match; every quantity is at most 9999 and every item is glyph-free and trimmed |
| ExtractorLemmas.GroupIsFirstMatch | index.js:55 | a transcript that starts with a well-formed group matches first on exactly that group |
| ExtractorLemmas.GroupThenRest | index.js:55-59 | a leading group yields its record first, then the records of the rest as if it stood alone |
| ExtractorLemmas.GroupsThenRest | index.js:55-59 | a transcript of N groups followed by anything yields the N records in order, then the records of what follows |
| ExtractorLemmas.OneRecordPerGroup | index.js:55-59 | a transcript made only of groups yields exactly one record per group, in order |
| ExtractorLemmas.ExtractEmpty | index.js:55-59 | the empty transcript yields no record |
| ExtractorLemmas.ExtractEmptyIff | index.js:55-59 | the result is empty exactly when no ASCII digit stands right before `個` with a non-line-terminator before it |
| ExtractorExamples.ApplesAndBananas | index.js:55-59 | "りんご3個、バナナ12個" yields りんご × 3 and バナナ × 12 |
| ExtractorExamples.FiveDigits | index.js:55-59 | "12345個" yields the item "1" with quantity 2345 |
| ExtractorExamples.LetterThenFiveDigits | index.js:55-59 | "a12345個" yields the item "a1" with quantity 2345 |
| ExtractorExamples.GlyphOnly | index.js:55-59 | "、3個" yields the empty item with quantity 3 |
| ExtractorExamples.NothingBeforeNumber | index.js:55 | "3個" yields nothing, because the capture needs a character |
| ExtractorExamples.LineBreakBeforeNumber | index.js:55 | "りんご\n3個" yields nothing, because `.` does not match a line break |
| TextOrder.Less | index.js:108 | the comparison `sort()` uses without a comparator: character by character, a proper prefix first |
| TextOrder.LessTotal | index.js:108 | two different strings are ordered one way or the other |
| TextOrder.LessTransitive | index.js:108 | the string order is transitive |
| TextOrder.Insert | index.js:108 | one sorting step: inserting into an ascending sequence keeps it ascending and adds exactly the new element |
| TextOrder.SortAscending | index.js:108 | the sorted result is ascending and a permutation of the input |
| TextOrder.AscendingUnique | index.js:108 | only one ascending arrangement of a multiset of strings exists, so the sort algorithm does not matter |
| TextOrder.Reverse | index.js:109 | the reversed sequence holds the input's elements in the opposite positions |
| TextOrder.ReverseAscending | index.js:108-109 | reversing an ascending sequence gives a descending one |
| TextOrder.StrictlyDescendingUnique | index.js:108-109 | a strictly descending sequence is fixed by the set of its elements |
| SavedFiles.IsSavedName | index.js:107 | the history filter: the name starts with `saved-` and ends with `.json` |
| SavedFiles.Dashed | index.js:79 | `:` and `.` become `-` and every other character stays |
| SavedFiles.SavedName | index.js:79-80 | the file name passes the history filter, holds no `:`, and is the timestamp's length plus the prefix and suffix |
| SavedFiles.SavedNameKeepsOrder | index.js:79-108 | for ISO timestamps, the file of a later save sorts after the file of an earlier one |
| SavedFiles.SavedNameInjective | index.js:79-80 | different ISO timestamps give different file names |
| SavedFiles.SavedOnly | index.js:107 | the filter keeps every occurrence of a `saved-*.json` name and drops every other name |
| SavedFiles.NewestFirst | index.js:105-109 | the history is descending and holds exactly the saved names of the listing, with their multiplicity |
| SavedFiles.NewestFirstOfDirectory | index.js:105-109 | for a listing without repeats, the history is strictly descending and holds exactly its saved names |
| SavedFiles.NewestFirstOrderFree | index.js:105-109 | the order in which the directory lists its files does not change the history |
| RecordStore.IsEmptyRequest | index.js:75 | `items` is not an array, or is an empty one |
| RecordStore.SaveReply | index.js:75-90 | the answer is 400 exactly when `items` is not an array or is empty; otherwise it names a `saved-*.json` file with no `:` |
| RecordStore.AfterSave | index.js:75-87 | an empty request leaves the directory unchanged; otherwise the directory exists and holds the new file |
| RecordStore.LoadFrom | index.js:122-130 | the answer is 404 exactly when the name is not in the directory; otherwise it is that file's items |
| RecordStore.LoadAfterSave | index.js:71-130 | loading the file a non-empty save has just written gives back the saved items |
| RecordStore.SaveKeepsOthers | index.js:83-130 | a save changes no other file, and creating the directory adds none |
| RecordStore.SameTimeOverwrites | index.js:79-87 | a second save at the same time replaces the first file and adds no other |
| RecordStore.HistoryAfterSave | index.js:71-116 | after a non-empty save, the history lists what it listed before plus the new file |
| RecordStore.TwoSavesNewestFirst | index.js:71-116 | after two saves at different times into a directory without saved files, the history is the later file, then the earlier one |
| RecordStore.HistoryDetermined | index.js:98-116 | the history's promise (strictly newest first, exactly the saved names) fixes the list |
| RecordStore.DataStore.constructor | index.js:81-85 | before the first save there is no data directory |
| RecordStore.DataStore.Open | index.js:100-103 | a server started over an existing data directory holds that directory as it is |
| RecordStore.DataStore.Save | index.js:71-95 | the answer is `SaveReply` and the new directory is `AfterSave` of the old one |
| RecordStore.DataStore.History | index.js:98-116 | `[]` without a directory; otherwise strictly descending and holding exactly the saved names |
| RecordStore.DataStore.Load | index.js:118-135 | the answer is `LoadFrom` of the directory: 404 exactly when the directory or the file is missing; otherwise the file's items |

## Left out

- The Whisper transcription: the multer upload, the call to the OpenAI API, the
  deletion of the uploaded audio and the 500 answer on a failed call. The extractor
  takes the transcript as its input.
- The 500 answers of `/save`, `/history` and `/load` on file-system or JSON errors.
  Writes, reads and directory listings always succeed in the model.
- JSON encoding and decoding: a file holds exactly the items saved in it.
- `path.join` normalisation. `/load` takes the name as given and looks it up in the
  data directory. Names that `path.join` would resolve outside that directory, or to
  the directory itself, are not modelled.
- Strings are sequences of Unicode code points, while JavaScript strings are UTF-16
  code units. The matcher is unaffected: no surrogate is a digit, `個` or a line
  terminator. `sort()` compares UTF-16 code units, so the model's order differs from it
  only between characters above U+FFFF and characters from U+E000 to U+FFFF.
- The clock: `Save` takes the ISO time of the request as a parameter.
- `SavedNameKeepsOrder` and `SavedNameInjective` assume the `toISOString` layout of
  years 0 to 9999.
- Console logging, the Express and CORS wiring, and the server start-up.
- Where the code and its intent may differ, the model follows the code:
  - the `.` of the capture also matches digits, so a number of more than four digits
    leaves its leading digits in the item;
  - text between two groups becomes part of the next item;
  - `/load` does not check the file name against the history filter;
  - two saves within the same millisecond write to the same file, and the second
    replaces the first.
