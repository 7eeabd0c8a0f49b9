# MongoLogHandler validator, modelled in Dafny

The handler ingests comma-separated access-log lines. Each line holds an IP
address, a URL, a duration and a datetime, in any order. `insertLog` checks
a line with `isValid`, then reads the buffer it built back into a document
and stores that document. This project models everything up to the store.

`isValid` resets the handler state and runs `isFull`, which requires
exactly three commas. It then runs `matchPattern`. That method splits the
line with `getValues` and classifies each trimmed value against four shape
tests in a fixed order: `isIP`, `isDuration`, `isDateTime`, `isUrl`. A
category is taken only while its key does not occur anywhere in the
`StringBuilder jsonLog` buffer. Each accepted value is inserted just
before the closing `}` of that buffer, as `"key": value`. A value that
fits no open category throws "incorrect value". Finally `isFull` runs
again, on the buffer.

`getMapFromJsonLog` cuts the buffer back into pieces, strips the quotes of
each attribute with `removeOddQuotes`, and puts the pairs into the
`documentContent` map. It throws when a value it reads back is a lone
quote: such a value is neither a float nor a date, so it reaches
`removeOddQuotes`, whose `substring(1, 0)` fails. An accepted line whose
last value starts with `}` gets there, because the last piece is cut at
the first `}`.

Modules:

- `Wrappers` (wrappers.dfy): `Option` and `Result`. A thrown exception is
  a `Failure` carrying its message.
- `Text` (text.dfy): `indexOf`, `contains`, `trim`, and the splitting
  loop of `getValues`, stated as functions with their laws.
- `Shapes` (shapes.dfy):
  - the shape tests: `isIP`, `isDateTime` and `isUrl` restated
    character by character from their regular expressions, and
    `isDuration`, which tries `Integer.parseInt` and then
    `Float.parseFloat`, as a signed decimal literal;
  - `Integer.parseInt` and `getDateTime`;
  - lemmas giving each shape's meaning in numbers, and the round trip
    from a written datetime back to its six numbers.
- `Classify` (classify.dfy): the specification of `matchPattern` and
  `isValid` as functions, with the properties of the whole scan:
  - `Choose`: one turn's choice;
  - `Step`: one turn of the loop;
  - `Scan`: the whole loop;
  - `Validate`: `isValid`.
- `Document` (document.dfy): the specification of `getMapFromJsonLog`
  (`Segments`, `ReadBack`, `PutAll`). It proves that a buffer `isValid`
  accepts reads back exactly when no stored value is a lone quote, and
  then into a document with exactly the four keys.
- `Handler` (handler.dfy): class `LogHandler`. Its fields `jsonLog` and
  `documentContent` are updated in place by methods that follow the Java
  code step by step. Each method is proved to end in the state the
  functions above describe. Loops that the Java writes inline are split
  into methods of their own:
  - `MatchValue`, `MatchValues` and `ChooseCategory` for `matchPattern`;
  - `PutPiece` and `PutSegments` for `getMapFromJsonLog`; the next
    piece is taken by the function `NextSet`.

  Every method that changes the buffer requires and keeps `Valid()`:
  the buffer is `{...}`.
- `TestLines` (test_lines.dfy): lines worked through the model. Three
  come from the handler's tests: two rejected lines and an accepted one.
  The fourth, `1.2.3.4, 5, 2017-1-1T1:1:1, }x.com`, is not among the
  tests: it is built to show a line that `isValid` accepts but whose
  read-back throws.

In these places the model follows the code rather than the documentation
(the one place where it follows a corrected reading instead is the URL
test, see `Classify.Fits` under "## Left out"):

- The final check of `matchPattern` counts the commas of the buffer
  (`isFull(jsonLog)`). It does not check that all four categories were
  filled. `Classify.ValidatePlain` shows the two agree whenever the
  rendered numbers and dates hold no comma.
- A duration may carry a sign, because `Integer.parseInt` and
  `Float.parseFloat` accept one.

## Model

| member | source | states |
|---|---|---|
| Text.IndexOf | src/main/java/mongo/db/MongoLogHandler.java:218-220 | `indexOf` is -1 exactly when the character is absent; otherwise it is the position of the first occurrence |
| Text.Count | src/main/java/mongo/db/MongoLogHandler.java:117-120 | the number of times a character occurs in the text; `CountAfterFirst` ties it to the `isFull` loop, which counts by cutting the text after each comma |
| Text.Contains | src/main/java/mongo/db/MongoLogHandler.java:142 | `String.contains`: the word occurs as a block of consecutive characters; it defines the "already filled" test of each category |
| Text.MissingChar | src/main/java/mongo/db/MongoLogHandler.java:142 | a word holding a character that the text lacks does not occur in the text |
| Text.CountAfterFirst | src/main/java/mongo/db/MongoLogHandler.java:117-120 | dropping everything through the first comma removes exactly one comma, so the `isFull` loop counts the commas |
| Text.Split | src/main/java/mongo/db/MongoLogHandler.java:215-224 | the pieces between separators number one more than the separators, and none holds a separator |
| Text.JoinSplit | src/main/java/mongo/db/MongoLogHandler.java:215-224 | the untrimmed pieces joined by the separator give back the input |
| Text.SplitJoin | src/main/java/mongo/db/MongoLogHandler.java:215-224 | splitting a join of separator-free pieces gives back those pieces |
| Text.Trim | src/main/java/mongo/db/MongoLogHandler.java:219-222 | `trim` keeps one block of the input: what it removes at either end is characters up to U+0020, and what it keeps starts and ends with a character above U+0020 |
| Text.Values | src/main/java/mongo/db/MongoLogHandler.java:215-224 | `getValues` returns one more value than the separator occurs |
| Text.ValuesAt | src/main/java/mongo/db/MongoLogHandler.java:218-222 | each value is the piece at the same position, trimmed |
| Text.ValuesStep | src/main/java/mongo/db/MongoLogHandler.java:218-221 | one round of the `getValues` loop: the trimmed first piece, then the values of the rest |
| Text.ValuesNoSep | src/main/java/mongo/db/MongoLogHandler.java:215-224 | no value holds the separator |
| Shapes.IsIP | src/main/java/mongo/db/MongoLogHandler.java:188-193 | `isIP`: the value split at its dots is exactly four groups, each one of the three alternatives of the group pattern: `25` then 0-5, `2` then 0-4 then a digit, or one or two digits, optionally after a `0` or `1` (meaning in numbers: `IpExactly`) |
| Shapes.IsDuration | src/main/java/mongo/db/MongoLogHandler.java:172-187 | `isDuration`: an optional sign, then digits with at most one point and at least one digit |
| Shapes.IsDateTime | src/main/java/mongo/db/MongoLogHandler.java:163-171 | `isDateTime`: a `T` whose left side is three `-`-separated parts and right side three `:`-separated parts, each matching its alternative of the pattern (meaning in numbers: `DateTimeIsWritten`) |
| Shapes.GetDateTime | src/main/java/mongo/db/MongoLogHandler.java:89-106 | `getDateTime`: the date before the first `T` and the time after it, split into trimmed values, of which the first three of each are read by `Integer.parseInt`; `None` where a `substring`, a `get` or a parse throws |
| Shapes.Seconds | src/main/java/mongo/db/MongoLogHandler.java:101-103 | the seconds text as `getDateTime` reads it holds no `.`: it is the whole text, or the part before its first `.` |
| Shapes.DateTimeDropsFraction | src/main/java/mongo/db/MongoLogHandler.java:101-103 | a written datetime followed by `.` and any text reads as the datetime alone: `getDateTime` drops the fraction of the seconds |
| Shapes.FirstCharacters | src/main/java/mongo/db/MongoLogHandler.java:163-193 | an IP and a datetime begin with a digit, a duration with a sign, a digit or a `.` |
| Shapes.ParseInt | src/main/java/mongo/db/MongoLogHandler.java:94-103 | `Integer.parseInt` yields a value in the 32-bit range, and `None` where it throws |
| Shapes.ParseDigits | src/main/java/mongo/db/MongoLogHandler.java:94-103 | one to nine plain digits always parse, to their decimal value |
| Shapes.OctetRange | src/main/java/mongo/db/MongoLogHandler.java:190 | a group of the IP pattern is one to three digits of value at most 255, and every such string is a group |
| Shapes.IpOfGroups | src/main/java/mongo/db/MongoLogHandler.java:188-193 | four dot-free groups joined by dots are an IP exactly when each is a group of the pattern |
| Shapes.IpExactly | src/main/java/mongo/db/MongoLogHandler.java:188-193 | `isIP` holds exactly when the value is four groups of one to three digits, each at most 255, joined by dots, with nothing else |
| Shapes.IntegersAreDurations | src/main/java/mongo/db/MongoLogHandler.java:172-187 | every value `Integer.parseInt` reads is accepted by `isDuration` |
| Shapes.YearRange | src/main/java/mongo/db/MongoLogHandler.java:166 | the year alternative is exactly four digits of value 2000 to 2017 |
| Shapes.MonthRange | src/main/java/mongo/db/MongoLogHandler.java:167 | the month alternative is exactly one or two digits of value 1 to 12 (so `00` is refused) |
| Shapes.DayRange | src/main/java/mongo/db/MongoLogHandler.java:167 | the day alternative is exactly one or two digits of value 1 to 31, with no per-month check |
| Shapes.HourRange | src/main/java/mongo/db/MongoLogHandler.java:168 | the hour alternative is exactly one or two digits of value at most 23 |
| Shapes.SixtyRange | src/main/java/mongo/db/MongoLogHandler.java:168 | the minute and second alternative is exactly one or two digits of value at most 59 |
| Shapes.GetDateTimeOfPieces | src/main/java/mongo/db/MongoLogHandler.java:89-106 | with three or more date and time values that `Integer.parseInt` reads, the seconds cut at their first `.`, `getDateTime` yields those six integers |
| Shapes.DateTimeReadsBack | src/main/java/mongo/db/MongoLogHandler.java:89-106 | `Y-M-DTh:m:s` written with components of the right digit counts and ranges is accepted by `isDateTime`, and `getDateTime` returns exactly the numbers written |
| Shapes.PiecesWellWritten | src/main/java/mongo/db/MongoLogHandler.java:166-168 | components accepted by the six alternatives of the pattern have its digit counts and numeric ranges |
| Shapes.DateTimeIsWritten | src/main/java/mongo/db/MongoLogHandler.java:163-171 | every token `isDateTime` accepts is such a written datetime, and `getDateTime` reads exactly its numbers |
| Shapes.DateTimeParses | src/main/java/mongo/db/MongoLogHandler.java:89-106 | `getDateTime` never throws on an accepted datetime, and its numbers lie in the pattern's ranges |
| Shapes.UrlPrefixNeverWidens | src/main/java/mongo/db/MongoLogHandler.java:194-199 | a value is a URL exactly when it has no whitespace and holds a `.` or a `/` that is neither first nor last; the optional prefix never widens this |
| Shapes.UrlAsWrittenDiffers | src/main/java/mongo/db/MongoLogHandler.java:196 | the pattern as written accepts everything the corrected one does, and more only where a whitespace character follows `www` |
| Shapes.UrlWwwSpace | src/main/java/mongo/db/MongoLogHandler.java:196 | `www x.com` is accepted as written and refused by the corrected pattern |
| Shapes.UrlAsWritten | src/main/java/mongo/db/MongoLogHandler.java:194-199 | `isUrl` as written: a body, optionally after `http://`, `https://` or `www` plus any one character but a line terminator; a body has no whitespace and holds a `.`, or a `/` that is neither first nor last |
| Shapes.IsUrl | src/main/java/mongo/db/MongoLogHandler.java:194-199 | `isUrl` as evidently intended: the same with a literal `www.` prefix; characterised by `UrlPrefixNeverWidens` |
| Classify.Fits | src/main/java/mongo/db/MongoLogHandler.java:142-157 | the shape test of each category: `isIP`, `isDuration`, `isDateTime`, `isUrl` |
| Classify.Choose | src/main/java/mongo/db/MongoLogHandler.java:142-158 | the category a turn takes: the first of ip, duration, datetime, url that is open and fits (characterised by `ChoosePriority`) |
| Classify.ValueOf | src/main/java/mongo/db/MongoLogHandler.java:142-156 | the value each category appends: the token as a string for ip and url, the parsed number for duration, the date `getDateTime` reads for datetime |
| Classify.Insert | src/main/java/mongo/db/MongoLogHandler.java:209-213 | `StringBuilder.insert(length - 1, t)`: the text goes in just before the last character |
| Classify.Step | src/main/java/mongo/db/MongoLogHandler.java:137-158 | one turn of the loop keeps a non-empty buffer: a comma after the first value, then the chosen entry or the "incorrect value" throw |
| Classify.Scan | src/main/java/mongo/db/MongoLogHandler.java:134-159 | the loop over the values, turn after turn from the starting buffer, stopping at the first throw; its buffer is never empty |
| Classify.Full | src/main/java/mongo/db/MongoLogHandler.java:114-125 | `isFull`: true for exactly three commas, otherwise the "not enough values" throw (`FullNeverFalse`) |
| Classify.Validate | src/main/java/mongo/db/MongoLogHandler.java:108-112 | `isValid`: `isFull` of the line, then `matchPattern` from `{}`; the buffer and result it leaves |
| Classify.Rank | src/main/java/mongo/db/MongoLogHandler.java:142-157 | each category has its place in the order ip, duration, datetime, url |
| Classify.ChoosePriority | src/main/java/mongo/db/MongoLogHandler.java:142-158 | the category taken is open, fits the value, and no open fitting category comes before it; there is none exactly when no open category fits |
| Classify.ChooseChain | src/main/java/mongo/db/MongoLogHandler.java:142-158 | the choice is the chain of four tests in the source's order |
| Classify.DateTimeValue | src/main/java/mongo/db/MongoLogHandler.java:150-151 | a value taken as a datetime is read by `getDateTime`, and its entry is the rendered date |
| Classify.InsertBraced | src/main/java/mongo/db/MongoLogHandler.java:209-213 | inserting before the last character keeps the buffer `{...}` and puts the text just before `}` |
| Classify.InsertTwice | src/main/java/mongo/db/MongoLogHandler.java:210-212 | two inserts in a row are one insert of both texts |
| Classify.InsertEntry | src/main/java/mongo/db/MongoLogHandler.java:139-155 | an entry inserted into `{e1,...,en}`, after a comma when n > 0, gives `{e1,...,en,e}` |
| Classify.StepTakes | src/main/java/mongo/db/MongoLogHandler.java:139-156 | a turn whose choice is `c` inserts the entry of `c` and records `c` |
| Classify.StepThrows | src/main/java/mongo/db/MongoLogHandler.java:139-158 | a turn with no choice throws, with the buffer keeping its comma |
| Classify.StepChoice | src/main/java/mongo/db/MongoLogHandler.java:137-158 | a turn throws exactly when no open category fits; otherwise the value takes the open fitting category that comes first, and that key is then in the buffer |
| Classify.ValueCloses | src/main/java/mongo/db/MongoLogHandler.java:142-157 | "already filled" looks at values too: a value taken as an IP or URL closes every category whose key occurs in it |
| Classify.ScanStops | src/main/java/mongo/db/MongoLogHandler.java:158 | once the loop throws, later values change nothing |
| Classify.StepRecorded | src/main/java/mongo/db/MongoLogHandler.java:137-158 | a turn that does not throw keeps the loop invariant: braced buffer, one distinct fitting category per value, every key taken present |
| Classify.ScanRecorded | src/main/java/mongo/db/MongoLogHandler.java:134-159 | after a loop that did not throw: one category per value, each fitting its value, none twice, every key taken in the buffer |
| Classify.ScanBraced | src/main/java/mongo/db/MongoLogHandler.java:137-159 | the buffer stays `{...}` whether or not the loop throws |
| Classify.ScanWraps | src/main/java/mongo/db/MongoLogHandler.java:134-159 | from `{}`, a loop that did not throw leaves `{e1,e2,...}`, one entry per value, in input order |
| Classify.EntryOccurrence | src/main/java/mongo/db/MongoLogHandler.java:142-155 | a word free of quotes, colons and spaces occurs in an entry `"k":v` only if it occurs in the key or in the value text |
| Classify.InsertOccurrence | src/main/java/mongo/db/MongoLogHandler.java:142-155 | a brace-free word that lacks the first inserted character occurs in the buffer after the insertion only if it occurred before or occurs in the inserted text |
| Classify.CommaKeepsOpen | src/main/java/mongo/db/MongoLogHandler.java:140-141 | the comma written before every value after the first leaves every open category open and the buffer braced |
| Classify.EntryKeepsOpen | src/main/java/mongo/db/MongoLogHandler.java:142-155 | writing an entry whose key and value do not hold a category's key leaves that category open |
| Classify.ScanTakes | src/main/java/mongo/db/MongoLogHandler.java:137-155 | a value that fits an open category, each earlier-ranked category being taken or not fitting it, is taken as that category: its entry goes in before the closing brace and the category joins the taken ones |
| Classify.ScanTakesValue | src/main/java/mongo/db/MongoLogHandler.java:137-155 | the same turn, with the entry written for the value named |
| Classify.FieldsAt | src/main/java/mongo/db/MongoLogHandler.java:143-155 | the field written for the value at position j is its category's key with that value's text |
| Classify.FullNeverFalse | src/main/java/mongo/db/MongoLogHandler.java:114-125 | `isFull` never returns false; it succeeds exactly when `getValues` would give four values |
| Classify.ValidateNeverFalse | src/main/java/mongo/db/MongoLogHandler.java:108-125 | `isValid` returns true or throws, never false, and leaves a braced buffer |
| Classify.ValidateAccepted | src/main/java/mongo/db/MongoLogHandler.java:134-161 | when `isValid` returns true: three commas, four values, every category exactly once, each value fitting its category, and the buffer is the four comma-free entries in order |
| Classify.ValidatePlain | src/main/java/mongo/db/MongoLogHandler.java:108-112 | with renderings that write no comma, `isValid` returns true exactly when the line has three commas and every value finds an open category |
| Document.RemoveQuotesOfQuoted | src/main/java/mongo/db/MongoLogHandler.java:82-87 | `removeOddQuotes` undoes the quoting of `appendJsonLogWithString` |
| Document.RemoveOddQuotesCases | src/main/java/mongo/db/MongoLogHandler.java:82-87 | text without a quote is kept; a quoted text loses two characters; the only input it throws on is a lone quote |
| Document.RemoveOddQuotes | src/main/java/mongo/db/MongoLogHandler.java:82-87 | `removeOddQuotes`: a text holding a quote loses its first and last characters, and `None` where that `substring` throws |
| Document.Pair | src/main/java/mongo/db/MongoLogHandler.java:55-67 | a piece that reads holds a `:`, and its value is never a lone quote: on that value and on a bad attribute or colon the read throws |
| Document.NextSet | src/main/java/mongo/db/MongoLogHandler.java:70-75 | the next piece: up to the next comma, or else up to the first `}`; `None` where there is no `}` |
| Document.Segments | src/main/java/mongo/db/MongoLogHandler.java:54-80 | the loop of `getMapFromJsonLog`: the pairs it puts, in order, and whether it ended without throwing |
| Document.ReadBack | src/main/java/mongo/db/MongoLogHandler.java:50-53 | `getMapFromJsonLog` from the start: the first piece runs from after `{` to the first comma, and a buffer with no comma past the first character throws |
| Document.PutAll | src/main/java/mongo/db/MongoLogHandler.java:59-67 | `documentContent.put` of each pair in turn, a later pair overwriting an earlier one under the same key |
| Document.ReadFields | src/main/java/mongo/db/MongoLogHandler.java:59-67 | fields put in order until the first value that is a lone quote: the pairs put are a prefix, all of them exactly when no value is a lone quote |
| Document.PairOfLine | src/main/java/mongo/db/MongoLogHandler.java:55-67 | an entry `"key": value` reads back as that key and value, except that a value that is a lone quote throws |
| Document.CutLine | src/main/java/mongo/db/MongoLogHandler.java:75 | the last piece runs only to the first `}`, which cuts a value holding one |
| Document.PutAllKeys | src/main/java/mongo/db/MongoLogHandler.java:59-67 | the document holds the keys it had plus the keys put |
| Document.PutAllValues | src/main/java/mongo/db/MongoLogHandler.java:59-67 | when no key is put twice, every key holds the value put under it |
| Document.SegmentsTail | src/main/java/mongo/db/MongoLogHandler.java:54-80 | from a piece that reads, the loop puts the remaining entries in order, the last value cut at `}`, and throws exactly at the first value that is a lone quote |
| Document.ReadBackLines | src/main/java/mongo/db/MongoLogHandler.java:50-81 | a buffer `{e1,...,en}` of two or more comma-free entries reads back as `ReadFields` of its fields with the last value cut at `}`: in order, throwing exactly at the first lone-quote value |
| Document.DocumentOfEntries | src/main/java/mongo/db/MongoLogHandler.java:50-81 | four comma-free entries, one per category, read back without throwing exactly when no value (the last cut at its first `}`) is a lone quote, and then into a document with exactly the four keys, each holding the value written under it |
| Document.ValidatedDocument | src/main/java/mongo/db/MongoLogHandler.java:39-41 | after `isValid` accepts a line, `getMapFromJsonLog` throws exactly when the stored text of a value is a lone quote; otherwise the document holds exactly the four keys, each with the text of the value taken for it, the last one cut at its first `}` |
| Document.LastBraceThrows | src/main/java/mongo/db/MongoLogHandler.java:75-85 | an accepted line whose last value starts with `}` makes `getMapFromJsonLog` throw: that value is taken as the url, and its entry cut at `}` leaves a lone quote |
| Handler.LogHandler.constructor | src/main/java/mongo/db/MongoLogHandler.java:35-36 | a new handler has an empty document and the buffer `{}` |
| Handler.LogHandler.GetValues | src/main/java/mongo/db/MongoLogHandler.java:215-224 | the loop returns exactly `Values(s, sep)`: the trimmed pieces, in order |
| Handler.LogHandler.IsFull | src/main/java/mongo/db/MongoLogHandler.java:114-125 | the counting loop returns true for three commas and throws "not enough values" otherwise |
| Handler.LogHandler.AppendJsonLogWithString | src/main/java/mongo/db/MongoLogHandler.java:209-213 | three inserts put the quoted text just before the last character; the buffer stays `{...}` |
| Handler.LogHandler.AppendJsonLog | src/main/java/mongo/db/MongoLogHandler.java:201-208 | the entry `"attr": value` goes in before the last character, a `String` quoted and any other value as its text; the buffer stays `{...}` |
| Handler.LogHandler.ChooseCategory | src/main/java/mongo/db/MongoLogHandler.java:142-158 | the four guarded tests pick `Choose(jsonLog, value)` |
| Handler.LogHandler.MatchValue | src/main/java/mongo/db/MongoLogHandler.java:137-158 | one turn moves the buffer and the categories taken from the state after i values to the state after i+1; the buffer stays `{...}` |
| Handler.LogHandler.AppendEntry | src/main/java/mongo/db/MongoLogHandler.java:142-156 | the entry appended for a value of category `c` is its key with `ValueOf`: the token quoted for ip and url, the rendered number for duration, the rendered date for datetime; the buffer stays `{...}` |
| Handler.LogHandler.MatchValues | src/main/java/mongo/db/MongoLogHandler.java:137-159 | the loop ends in the buffer `Scan` describes, and reports a throw exactly when `Scan` does; the buffer stays `{...}` |
| Handler.LogHandler.MatchPattern | src/main/java/mongo/db/MongoLogHandler.java:134-161 | the buffer ends as `Scan` of the values; the result is "incorrect value" when the loop throws, else `isFull` of the buffer; the buffer stays `{...}` |
| Handler.LogHandler.IsValid | src/main/java/mongo/db/MongoLogHandler.java:108-112 | the document is cleared, the buffer is `{...}`, and the buffer and result are those of `Validate`, whatever the state before |
| Handler.LogHandler.PutPiece | src/main/java/mongo/db/MongoLogHandler.java:55-69 | the piece is split at its first colon and the pair `Pair(piece)` is put; the document is untouched where a `substring` or `removeOddQuotes` throws, on the attribute or on a lone-quote value |
| Handler.LogHandler.PutSegments | src/main/java/mongo/db/MongoLogHandler.java:54-80 | the loop puts the pairs of `Segments` in order and reports a throw exactly when `Segments` does, keeping the pairs put before it |
| Handler.LogHandler.GetMapFromJsonLog | src/main/java/mongo/db/MongoLogHandler.java:50-81 | the document becomes the old one with the pairs of `ReadBack(jsonLog)` put in order; the buffer is unchanged |
| Handler.LogHandler.InsertLog | src/main/java/mongo/db/MongoLogHandler.java:39-41 | a rejected line passes on `isValid`'s exception and leaves the document cleared; after an accepted line the document is the read-back of the buffer, the result throws exactly when that read-back does, and otherwise the document holds exactly the four keys |
| TestLines.FourValues | src/main/java/mongo/db/MongoLogHandler.java:215-224 | `a, b, c, d` with trimmed, comma-free tokens has three commas and the values `[a, b, c, d]` |
| TestLines.BadIpNotIp | src/test/test/mongo/db/MongoLogHandlerTest.java:32 | `111.35.300.105` is no IP |
| TestLines.BadIpIsUrl | src/test/test/mongo/db/MongoLogHandlerTest.java:32 | `111.35.300.105` is a URL |
| TestLines.BadIpTakenAsUrl | src/test/test/mongo/db/MongoLogHandlerTest.java:32 | from `{}`, `111.35.300.105` is taken as the URL |
| TestLines.UrlTakenTwice | src/main/java/mongo/db/MongoLogHandler.java:137-158 | once a first value is taken as the URL, a second value that is no IP, number or datetime makes the loop throw |
| TestLines.SiteRejected | src/test/test/mongo/db/MongoLogHandlerTest.java:32 | after the bad IP is taken as the URL, `https://regex101.com` fits no open category |
| TestLines.MisreadLineRejected | src/test/test/mongo/db/MongoLogHandlerTest.java:32 | `isValid` throws "incorrect value" on `111.35.300.105, https://regex101.com, 50.9, 111.35.120.105` |
| TestLines.BraceLineValues | src/main/java/mongo/db/MongoLogHandler.java:215-224 | `1.2.3.4, 5, 2017-1-1T1:1:1, }x.com` has the four values written |
| TestLines.BraceLineThrows | src/main/java/mongo/db/MongoLogHandler.java:39-41 | once `isValid` accepts `1.2.3.4, 5, 2017-1-1T1:1:1, }x.com`, `getMapFromJsonLog` throws |
| TestLines.AcceptedLine | src/main/java/mongo/db/MongoLogHandler.java:107-110 | with renderings free of commas, a line of three commas whose four values the loop takes without a throw is accepted by `isValid` |
| TestLines.BraceLineAccepted | src/main/java/mongo/db/MongoLogHandler.java:107-110 | `isValid` accepts `1.2.3.4, 5, 2017-1-1T1:1:1, }x.com` when numbers are rendered `1` and dates `D` |
| TestLines.BraceLineFails | src/main/java/mongo/db/MongoLogHandler.java:39-41 | for that line and rendering, `isValid` succeeds and `getMapFromJsonLog` then throws |
| TestLines.PaddedValues | src/main/java/mongo/db/MongoLogHandler.java:215-224 | blanks before the first value and after the third are trimmed away: the line has three commas and its four values are the tokens |
| TestLines.PaddedLineSplits | src/test/test/mongo/db/MongoLogHandlerTest.java:35 | the test's first correct line has three commas and the values `111.35.120.105`, `https://regex101.com`, `50.9`, `2017-3-2T21:22:7` |
| TestLines.PaddedLineAccepted | src/test/test/mongo/db/MongoLogHandlerTest.java:35 | `isValid` accepts the test's first correct line, as the assertion at line 43 expects |
| TestLines.FitsNothing | src/main/java/mongo/db/MongoLogHandler.java:142-157 | a value that is no IP, number, datetime or URL fits no category |
| TestLines.NothingFitsSecond | src/main/java/mongo/db/MongoLogHandler.java:137-157 | after an IP, a second value fitting no category makes the loop throw |
| TestLines.WordFitsNothing | src/test/test/mongo/db/MongoLogHandlerTest.java:31 | `dfhhjhg` is no IP, number, datetime or URL |
| TestLines.WordLineRejected | src/test/test/mongo/db/MongoLogHandlerTest.java:31 | `isValid` throws "incorrect value" on `111.35.120.105, dfhhjhg, 50.9, 111.35.120.105` |

## Left out

- The MongoDB side is not modelled: the client built in the constructor,
  `insertOne` and the console message in `insertLog`, the `find*` queries
  and the map/reduce aggregations. They are foreign calls into the store.
  The constructor is modelled only for the two fields it initialises.
- Main.java is not modelled: it is a console loop of reads and prints.
- `Float.parseFloat`, `Float.toString`, `new Date(...)` and `Date.toString`
  are not modelled. They are library code with floating point and time
  zones. The text they write into the buffer comes from a `Renderer`, a
  pair of arbitrary functions. A datetime is kept as its six integers.
- The typed read-back in `getMapFromJsonLog` is modelled only where it
  throws. It tries `Float.parseFloat`, then `SimpleDateFormat.parse`, then
  `removeOddQuotes(value)`, and only a lone quote makes the last one throw.
  Otherwise a pair in the model holds the value's text as cut from the
  buffer, not the float, date or stripped string the source stores.
- Shapes.IsDuration: accepts an optional sign and a plain decimal literal
  (digits with at most one point). It is narrower than
  `Integer.parseInt`/`Float.parseFloat`, which also read exponents, `NaN`,
  `Infinity`, hexadecimal floats, type suffixes and surrounding blanks.
- Shapes.ParseInt: reads ASCII digits only; `Integer.parseInt` also reads
  other Unicode decimal digits. `getDateTime` receives only ASCII digits
  from values `isDateTime` accepted.
- Classify.ValueOf: for a datetime `getDateTime` cannot read, writes the
  empty text. `Classify.DateTimeValue` shows this case never occurs.
- Exceptions are modelled as values:
  - `InvalidParameterException` is a `Failure` with its message;
  - inside `getMapFromJsonLog` the `StringIndexOutOfBoundsException` is
    a `false` result, with the pairs put before it kept;
  - `insertLog` passes that exception on as a `Failure` whose message is
    the exception's name, not the JDK's message text.
- The clock read by `isDateTime` (`currentYear`) is never used, so it is
  not modelled.
- Classify.Fits uses the corrected URL test `Shapes.IsUrl`, not the
  pattern as written (see Findings). The two differ only on values with a
  whitespace character right after `www`. So the model refuses a line
  such as `1.2.3.4, 5, 2017-1-1T1:1:1, www x.com`, which the source
  accepts.

## Findings

| source | as written | input that shows it | evidently intended | confidence | as-written member | corrected member |
|---|---|---|---|---|---|---|
| src/main/java/mongo/db/MongoLogHandler.java:196 | the optional prefix `www.` has an unescaped `.`, which matches any character but a line terminator | `www x.com`: `www`, then the space taken by `.`, then the body `x.com` | a literal `www.` prefix, under which a value with whitespace is never a URL | not executed | Shapes.UrlAsWritten, Shapes.UrlWwwSpace | Shapes.IsUrl, Shapes.UrlAsWrittenDiffers |
