# Column files and the kanji hierarchy

This project models two parts of the kanji-quiz program: the column-file
reader, in two revisions, and the kanji class hierarchy.

**Column files.** A column file is a delimiter-separated text file. Its
first line is a header that names the columns. The program reads these
files one row at a time and asks for a value by `Column`.

- A process-wide registry gives every distinct column name a dense number.
- The header must name each declared column exactly once and nothing else.
  It fills a table from column number to header position.
- Each data row must have exactly as many fields as there are columns.
  Empty fields at the end count.
- A value is looked up through the table.

Two revisions are modelled:

- The newer reader (`KtColumnFile`):
  - takes a *set* of columns;
  - closes itself when the data runs out, and refuses to read after that;
  - converts values to unsigned ints and booleans.
- The older reader (`KanjiToolsColumnFile`):
  - takes a *list* of columns;
  - refuses an empty or repeating list as a usage error;
  - answers "no more rows" as often as it is asked.

Both revisions share what is alike: the header check, the row copy, the lookup and
the message format (`ColumnLayout`). They also share the string operations
(`Strings`) and the registry (`Columns`).

**The kanji hierarchy.** Kanji are classified into eight kinds:

- the official Jouyou and Jinmei kanji;
- their linked variants, LinkedJinmei and LinkedOld;
- Extra, Frequency, Kentei and Ucd kanji.

The abstract groups of the source (Loaded, Linked, Numbered, Official,
Other, Standard) become predicates over one immutable datatype (`Kanji`).
Each getter answers what the most specific class on a kind's path defines.
Each kind has a checking constructor that fails with the source's message
(`KanjiKinds`). The enumerations live in `KanjiEnums`.

How each part is modelled:

- A reader is a class. Its header table and row buffer are arrays that its
  methods update in place.
- The file is given as its lines. A cursor `next` stands for the
  underlying reader's position.
- A Java exception becomes an `Err` result carrying the exception's
  message. The older constructor distinguishes `IllegalArgument` from
  `Domain`.
- The registry is a class passed explicitly.
- Header and row checks are specified by pure functions (`HeaderProblem`,
  `RowProblem`, `Overlay`, `Lookup`). The loops that perform them are
  proved against those functions.

## Model

| member | source | states |
|---|---|---|
| Columns.Registry.constructor | src/main/java/com/github/anzumura/kt/utils/ColumnFile.java:20 | the registry starts empty and valid |
| Columns.Registry.Number | src/main/java/com/github/anzumura/kt/utils/ColumnFile.java:74-76 | a known name keeps its number; a new name gets the registry's size as its number, and nothing else changes; every column registered before stays registered with its number |
| Columns.Registry.NewColumn | src/main/java/com/github/anzumura/kt/utils/ColumnFile.java:258-261 | a new column is registered under its name's number, a new name grows the registry by one, and every column registered before stays registered with its number |
| Columns.RegisteredIdentity | src/main/java/com/github/anzumura/kt/utils/ColumnFile.java:271-280 | for registered columns, equal names, equal numbers and equal columns coincide; numbers are below the registry size |
| Columns.RegisteredUnique | src/main/java/com/github/anzumura/kt/utils/ColumnFile.java:176-178 | a set of registered columns never holds two columns with one name, so collecting them by name cannot collide |
| Columns.ByName | src/main/java/com/github/anzumura/kt/utils/ColumnFile.java:177-178 | the name table has exactly the columns' names as keys, maps each column's name to it and has one entry per column |
| Strings.Split | src/main/java/com/github/anzumura/kt/utils/ColumnFile.java:202-203 | the data-row split always gives at least one field |
| Strings.JoinSplit | src/main/java/com/github/anzumura/kt/utils/ColumnFile.java:202-203 | joining the fields with the delimiter gives back the line, so no character is lost |
| Strings.SplitFieldsFree | src/main/java/com/github/anzumura/kt/utils/ColumnFile.java:203 | no field contains the delimiter |
| Strings.SplitDroppingTrailingIsPrefix | src/main/java/com/github/anzumura/kt/utils/ColumnFile.java:181 | the header split is a prefix of the data split and differs only by empty fields at the end; a line without the delimiter is one token |
| Strings.NatToString | src/main/java/com/github/anzumura/kt/utils/ColumnFile.java:242 | a row number prints as a non-empty string of digits |
| Strings.ParseNatToString | src/main/java/com/github/anzumura/kt/utils/ColumnFile.java:221 | parsing a printed number gives the number back |
| Strings.PaddedDigits | src/main/java/com/github/anzumura/kt/utils/ColumnFile.java:221 | every non-empty digit string is its value printed after its leading zeros |
| Strings.SortedSeq | src/main/java/com/github/anzumura/kt/utils/ColumnFile.java:192-193 | the sorted listing is strictly ascending and holds exactly the set's elements, once each |
| Strings.AscendingUnique | src/main/java/com/github/anzumura/kt/utils/ColumnFile.java:192-193 | two ascending listings of one set are equal, so the missing-column message depends only on the missing set |
| ColumnLayout.LocatedReadable | src/main/java/com/github/anzumura/kt/utils/ColumnFile.java:239-244 | a message starts with the problem and the file name and has a row segment exactly when a row has been read; the segment parses back to the row number |
| ColumnLayout.HeaderAccepted | src/main/java/com/github/anzumura/kt/utils/ColumnFile.java:176-194 | the header is accepted exactly when its tokens are distinct and are exactly the declared names |
| ColumnLayout.AcceptedHeaderIsBijection | src/main/java/com/github/anzumura/kt/utils/ColumnFile.java:181-188 | an accepted header has one token per declared column, and each declared name sits at exactly one position below the column count |
| ColumnLayout.FirstProblemReported | src/main/java/com/github/anzumura/kt/utils/ColumnFile.java:181-188 | the first offending token is reported, as a duplicate when it repeats an earlier token and otherwise as unrecognized |
| ColumnLayout.MissingReported | src/main/java/com/github/anzumura/kt/utils/ColumnFile.java:189-193 | a header of distinct declared tokens fails only for the columns it leaves out: one is named alone, several are counted and listed in ascending order |
| ColumnLayout.HeaderOrderIrrelevant | src/main/java/com/github/anzumura/kt/utils/ColumnFile.java:176-194 | reordering the header tokens never changes whether the header is accepted |
| ColumnLayout.ProcessHeaderRow | src/main/java/com/github/anzumura/kt/utils/ColumnFile.java:176-194 | the outcome is the header specification applied to the limit-0 split of the row; on success every token's column maps to its position and every other number stays -1 |
| ColumnLayout.CheckHeader | src/main/java/com/github/anzumura/kt/utils/ColumnFile.java:179-193 | the loop's result equals the header specification, and on success the table positions every token |
| ColumnLayout.ReportMissing | src/main/java/com/github/anzumura/kt/utils/ColumnFile.java:189-193 | the missing-column complaint for the unmatched columns, and none exactly when none are left |
| ColumnLayout.AcceptedPositions | src/main/java/com/github/anzumura/kt/utils/ColumnFile.java:187 | after an accepted header each declared column maps to the index of its name among the tokens, and every entry is -1 or a valid row position |
| ColumnLayout.Overlay | src/main/java/com/github/anzumura/kt/utils/ColumnFile.java:203-206 | the buffer keeps its length; each slot holds the field at its index if there is one, and otherwise its old value |
| ColumnLayout.RowProblem | src/main/java/com/github/anzumura/kt/utils/ColumnFile.java:204-209 | a row is accepted exactly when its field count equals the column count |
| ColumnLayout.FillRow | src/main/java/com/github/anzumura/kt/utils/ColumnFile.java:201-209 | the buffer becomes the overlay of the fields on its old contents, the complaint is the row problem, and an accepted row leaves exactly its fields in the buffer |
| ColumnLayout.Lookup | src/main/java/com/github/anzumura/kt/utils/ColumnFile.java:121-130 | refused before the first row, for a number beyond the table and for a number not in this file, in that order; otherwise the buffer value at the column's position |
| ColumnLayout.LookupPlaced | src/main/java/com/github/anzumura/kt/utils/ColumnFile.java:121-130 | with a table filled from an accepted header, a declared column gives the field under its header token and an undeclared number is refused as invalid |
| KtColumnFile.ParseUnsignedInt | src/main/java/com/github/anzumura/kt/utils/ColumnFile.java:221 | a parsed value is a 32-bit int ending in a digit, and a leading minus sign is refused |
| KtColumnFile.ParseUnsignedIntPrinted | src/main/java/com/github/anzumura/kt/utils/ColumnFile.java:221 | every non-negative int, printed with or without '+', parses back to itself |
| KtColumnFile.ParseUnsignedIntPadded | src/main/java/com/github/anzumura/kt/utils/ColumnFile.java:221 | a value below 2^32 printed after an optional '+' and any leading zeros parses to its 32 bits as an int |
| KtColumnFile.ParseUnsignedIntAccepts | src/main/java/com/github/anzumura/kt/utils/ColumnFile.java:221-224 | a value is accepted exactly when it is some value below 2^32 printed in decimal after an optional '+' and any leading zeros; anything else is refused |
| KtColumnFile.ParseUnsignedIntWraps | src/main/java/com/github/anzumura/kt/utils/ColumnFile.java:221 | values from 2^31 to 2^32-1 parse to the negative int with the same 32 bits |
| KtColumnFile.BooleanValue | src/main/java/com/github/anzumura/kt/utils/ColumnFile.java:161-165 | true exactly for "Y" and "T", and false exactly for "N", "F" and "" |
| KtColumnFile.ColumnFile.constructor | src/main/java/com/github/anzumura/kt/utils/ColumnFile.java:46-50 | a reader over an accepted header is valid, at row 0 and open |
| KtColumnFile.ColumnFile.Open | src/main/java/com/github/anzumura/kt/utils/ColumnFile.java:42-62 | refuses an empty column set, a file without a header line and each header problem with its located message; otherwise a fresh valid reader at row 0 with one value per declared column and a table as long as the registry |
| KtColumnFile.ColumnFile.OpenHeader | src/main/java/com/github/anzumura/kt/utils/ColumnFile.java:48-58 | the header stage: refused exactly when the header specification finds a problem; otherwise a fresh valid reader |
| KtColumnFile.ColumnFile.NumColumns | src/main/java/com/github/anzumura/kt/utils/ColumnFile.java:81-83 | the number of declared columns |
| KtColumnFile.ColumnFile.NextRow | src/main/java/com/github/anzumura/kt/utils/ColumnFile.java:101-113 | fails unchanged once closed; at the end closes exactly once and answers false; otherwise counts the row, overlays its fields and answers the row problem located at the new row |
| KtColumnFile.ColumnFile.ProcessNextRow | src/main/java/com/github/anzumura/kt/utils/ColumnFile.java:196-216 | no line left: false and nothing changes; otherwise the row is counted before its width is checked, and fields that fit stay written even when the row is refused |
| KtColumnFile.ColumnFile.Get | src/main/java/com/github/anzumura/kt/utils/ColumnFile.java:121-130 | before the first row, for a number beyond the table and for an undeclared column, the located error; a declared column gives the field under its header token |
| KtColumnFile.ColumnFile.ProcessUnsignedInt | src/main/java/com/github/anzumura/kt/utils/ColumnFile.java:218-228 | accepted exactly when the value parses and a non-negative max is not below it; each refusal carries its message, column and value |
| KtColumnFile.ColumnFile.GetUnsignedInt | src/main/java/com/github/anzumura/kt/utils/ColumnFile.java:138-152 | passes on the lookup error; otherwise the parsed value, which is at most a non-negative max |
| KtColumnFile.ColumnFile.GetBoolean | src/main/java/com/github/anzumura/kt/utils/ColumnFile.java:159-166 | passes on the lookup error; true exactly for Y/T, false exactly for N/F/empty, and any other value is refused with the column and value |
| KtColumnFile.RowValueUnderHeader | src/main/java/com/github/anzumura/kt/utils/ColumnFile.java:121-130 | after an accepted row, a declared column reads the row's field under that column's header token |
| KtColumnFile.MaxPassesWrappedValues | src/main/java/com/github/anzumura/kt/utils/ColumnFile.java:225 | the text 2147483648 passes any non-negative max and comes back as -2147483648 |
| KtColumnFile.NoMaxValueNoLimit | src/main/java/com/github/anzumura/kt/utils/ColumnFile.java:21 | with NO_MAX_VALUE, a value is accepted exactly when it parses |
| KanjiToolsColumnFile.NameList | src/main/java/kanji_tools/utils/ColumnFile.java:47-48 | the declared columns' names, in list order |
| KanjiToolsColumnFile.CheckColumns | src/main/java/kanji_tools/utils/ColumnFile.java:43-49 | an empty list is refused; otherwise accepted exactly when the names are distinct, giving each name its column; a refusal names the first column whose name was already seen |
| KanjiToolsColumnFile.ColumnFile.constructor | src/main/java/kanji_tools/utils/ColumnFile.java:53-58 | a reader over an accepted header is valid and at row 0 |
| KanjiToolsColumnFile.ColumnFile.Open | src/main/java/kanji_tools/utils/ColumnFile.java:41-65 | usage errors come before data errors: an empty list, then "duplicate column '<name>'" naming the first column whose name was already seen; then no header line and each header problem, located; otherwise a fresh valid reader with one value per declared column |
| KanjiToolsColumnFile.ColumnFile.OpenHeader | src/main/java/kanji_tools/utils/ColumnFile.java:56-64 | the header stage: refused with a data error exactly when the header specification finds a problem |
| KanjiToolsColumnFile.ColumnFile.NumColumns | src/main/java/kanji_tools/utils/ColumnFile.java:83-85 | the number of declared columns |
| KanjiToolsColumnFile.ColumnFile.NextRow | src/main/java/kanji_tools/utils/ColumnFile.java:101-121 | at the end answers false and changes nothing; otherwise counts the row, overlays its fields and answers the row problem located at the new row |
| KanjiToolsColumnFile.ColumnFile.Get | src/main/java/kanji_tools/utils/ColumnFile.java:129-138 | as the newer reader's lookup: the three located errors, or the field under the column's header token |
| KanjiToolsColumnFile.ExhaustedStaysExhausted | src/main/java/kanji_tools/utils/ColumnFile.java:101-121 | once the data has run out, asking twice more answers false both times and leaves the row and the buffer unchanged |
| KanjiEnums.ValuesAreComplete | src/main/java/com/github/anzumura/kt/Kanji.java:120-166 | each value list names every constant exactly once in declaration order, with None last |
| Kanji.LinkedDelegates | src/main/java/com/github/anzumura/kt/Kanji.java:200-236 | a linked kanji shows its link's meaning and reading, names the link as its new name and reads through it; its frequency and kyu are its own; everything official keeps the defaults |
| Kanji.LinksDoNotChain | src/main/java/com/github/anzumura/kt/Kanji.java:202 | a valid link is an official kanji with no link, and meaning and reading come from the kanji or from that link |
| Kanji.OtherNames | src/main/java/com/github/anzumura/kt/Kanji.java:285-299 | link names are old names when the links are old, and otherwise the first is the new name; never both |
| Kanji.NumberedKeepsFields | src/main/java/com/github/anzumura/kt/Kanji.java:244-337 | numbered kinds report their stored kyu, number, meaning and reading, and official kinds their level, frequency and year |
| Kanji.SentinelsMarkKinds | src/main/java/com/github/anzumura/kt/Kanji.java:80-113 | for a valid kanji each sentinel default marks exactly the kinds that do not define the getter |
| Kanji.TypeIdentifiesKind | src/main/java/com/github/anzumura/kt/Kanji.java:11-14 | the type is unique to each kind |
| KanjiKinds.NewJouyouKanji | src/test/java/com/github/anzumura/kt/KanjiTest.java:80-98 | refused exactly when the grade is None, with "JouyouKanji: must have a valid grade"; otherwise a valid Jouyou kanji whose getters report the arguments |
| KanjiKinds.NewJinmeiKanji | src/main/java/com/github/anzumura/kt/JinmeiKanji.java:12-36 | refused exactly for a None reason (checked first) or a zero year, with their messages; otherwise a valid Jinmei kanji reporting the arguments |
| KanjiKinds.NewLinkedJinmeiKanji | src/main/java/com/github/anzumura/kt/LinkedJinmeiKanji.java:16-23 | refused exactly when the link is not a Jouyou or Jinmei kanji; otherwise a valid linked kanji that delegates to the link |
| KanjiKinds.NewLinkedOldKanji | src/main/java/com/github/anzumura/kt/LinkedOldKanji.java:11-18 | refused exactly when the link is not a Jouyou kanji; otherwise a valid linked kanji that delegates to the link |
| KanjiKinds.NewExtraKanji | src/test/java/com/github/anzumura/kt/KanjiTest.java:130-157 | refused exactly for a number that is not positive; an empty new name means none |
| KanjiKinds.NewFrequencyKanji | src/main/java/com/github/anzumura/kt/FrequencyKanji.java:15-35 | refused exactly for a frequency that is not positive; otherwise reports its frequency, kyu and link names |
| KanjiKinds.NewKenteiKanji | src/main/java/com/github/anzumura/kt/KenteiKanji.java:13-22 | refused exactly for a None kyu; otherwise reports its kyu and link names |
| KanjiKinds.NewUcdKanji | src/main/java/com/github/anzumura/kt/UcdKanji.java:14-25 | never refused; no kyu and no frequency; reports its link names |
| KanjiKinds.ValidKanjiAreConstructed | src/main/java/com/github/anzumura/kt/Kanji.java:9 | every valid kanji is what its kind's constructor gives for the values its getters report |
| KanjiKinds.LinkedOldIsStricter | src/main/java/com/github/anzumura/kt/LinkedOldKanji.java:16-17 | any link a LinkedOld kanji accepts, a LinkedJinmei kanji accepts too; a Jinmei link is accepted only by LinkedJinmei |

## Left out

- Files are given as their lines. Opening a path, reading it line by line, and the IOException paths are not modelled. Those paths produce "failed to read header row", "failed to read next row" and "failed to close reader". The ghost `closeCount` stands in for closing the reader.
- The file name is given directly instead of being taken from a `Path` or `File`.
- The delimiter is a regular expression in the source. The model treats it as a non-empty literal string, which is what every caller passes (a tab by default).
- The tab-delimited convenience constructors just pass "\t" and are not modelled separately.
- `currentRow()` is the field `currentRow`.
- Until the first row fills the row buffer, its slots hold Java nulls; the model holds "". The slots stay null only after a first row that was too short, and then three things differ:
  - `get` returns null where the model returns "".
  - `getBoolean` throws a NullPointerException from its `switch` (`src/main/java/com/github/anzumura/kt/utils/ColumnFile.java:160-161`) where `GetBoolean` answers false.
  - `getUnsignedInt` fails with `value: 'null'` where the model reports `value: ''`.
- `Column.equals`, `hashCode` and `toString` are not modelled; a `Column` is a value. A column prints as its name.
- The newer reader takes a `Set<Column>`, but `Column` overrides `equals` without `hashCode`. A hash set could therefore hold two `Column` objects with the same name. Collecting them by name would then throw on the duplicate key before any header is read. Open requires registered columns, which rules this case out.
- Every column must come from the registry passed to `Open`. The source's registry is static, so this always holds there.
- `KtColumnFile.ParseUnsignedInt` accepts only ASCII digits. `Integer.parseUnsignedInt` also accepts other Unicode decimal digits. The optional '+' and the 32-bit wrap are modelled.
- `KtColumnFile.ColumnFile.GetUnsignedInt`: the bound applies to the wrapped `int`, as in the source. A value of 2^31 or more therefore passes any non-negative max (see `MaxPassesWrappedValues`).
- `Strings.SortedSeq` compares characters by their Dafny `char` order, not by UTF-16 code units. The two agree on the Basic Multilingual Plane.
- The order in which the source allocates the buffers and opens the reader before reading the header has no visible effect and is not modelled.
- The base classes `Kanji.Fields`, `LoadedFields`, `NumberedFields`, `OfficialFields`, `OtherFields` and `LinkedFields` are used by the leaf classes but are not defined in the `Kanji.java` that is part of this model. Their shape, and the checks the leaf classes rely on, follow the leaf classes' constructors and `src/test/java/com/github/anzumura/kt/KanjiTest.java`. Where `Kanji.java` differs, the tested behaviour is modelled:
  - a missing Jouyou grade is refused;
  - an Extra number must be positive;
  - linked kanji have linked readings and name their link as their new name.
- Kanji names, radicals and stroke counts are stored and reported as given, without checks.
- `KanjiKinds.NewLinkedJinmeiKanji` and `KanjiKinds.NewLinkedOldKanji` require their link to be a valid kanji. The source's link is always an already constructed kanji.
