# APSIM.Shared core, modelled in Dafny

This project models the core of APSIM.Shared, the utility library shared by the
APSIM crop-simulation tools. It covers these parts:

- **The job manager.** A queue of runnable jobs, dispatched to background
  workers under a cap on computationally heavy jobs (`Utilities/JobManager.cs`).
- **The custom XML reader.** A stack of elements with an attribute cursor
  (`Utilities/XmlReaderCustom.cs`).
- **The APSIM text file reader.** Header constants, headings and units, data
  rows, and dates (`Utilities/ApsimTextFile.cs`).
- **The managed-assembly test.** It reads the PE/COFF header
  (`Utilities/ProcessUtilities.cs`, `isManaged`).
- **The socket server.** Its length-prefixed framing and command dispatch
  (`Utilities/SocketServer.cs`).
- **The soil utilities.** Layer arithmetic, plant-available water, crops and
  predicted crops, unit conversion and re-mapping (`Soils/SoilUtilities.cs`
  and `APSIM.Shared.Soils/SoilUtility.cs`).
- **The initial water profiles** (`Soils/InitialWater.cs`).
- **The soil defaults.** Missing XF, KL and analysis values filled in
  (`Soils/Defaults.cs`).

The two soil utility files share their layer arithmetic and crop logic line for
line, so one Dafny member models both copies. The table cites the
`Soils/SoilUtilities.cs` lines. The same code sits in
`APSIM.Shared.Soils/SoilUtility.cs` at these lines:

| operation | lines |
|---|---|
| `ToXML` | 35-52 |
| `ToMidPoints` | 59-71 |
| `ToCumThickness` | 78-91 |
| `GetCropNames` | 99-109 |
| `Crop` | 114-126 |
| `PredictedCropNames` | 217-227 |
| `PredictedCrop` | 232-310 |
| `PredictedLL` | 333-358 |

Modules, one per source file, plus shared definitions:

- `Wrappers`: `Option` and `Result`. An exception the source throws is a
  `Failure` carrying its message, except for the null references of fields
  that are never null here (see "Left out").
- `Text`: the string operations the source calls from .NET and from
  `StringUtilities`. Case-insensitive comparison here is ASCII case folding.
- `Dates`: `DateTime` as a day count from 1 January of year 1, with the
  proleptic Gregorian calendar.
- `Bytes`: a `byte` newtype and little-endian words.
- `JobManager`: the class `JobManager`. Its queue is a `seq` of entries, and
  a worker is an identifier drawn from a counter.
- `CustomXml`: the class `XmlReaderCustom`.
- `ApsimText`: the class `ApsimTextFile`, with the header scan and the row
  parsing as functions.
- `ProcessUtilities`: `IsManaged` on the bytes of a file.
- `SocketServer`: the classes `StateObject` and `SocketServer`, and the
  client's receive loop, both as written and corrected.
- `SoilData`: `Soil`, `Water` and `Double` (a double that may be NaN), and
  the classes `SoilCrop` and `Analysis`, whose fields the defaults update in
  place.
- `SoilLayers`, `SoilUtilities`, `SoilMapping`: the soil utility functions.
- `InitialWaterModel`: the three profiles `InitialWater.SW` chooses between.
- `SoilDefaults`: `Defaults`, with the protocol KL table.

Methods that loop in the source are methods here too. Each one is proved equal
to a specification function, and the properties the source promises are
lemmas about those functions. Examples are the job queue invariant under
dispatch and removal, the unit-conversion round trip and water conservation in
the top-down fill.

## Model

| member | source | states |
|---|---|---|
| JobManager.ProcessorCap | Utilities/JobManager.cs:92-103 | An explicit cap other than -1 is kept as given; -1 gives the host's processor count, and never less than 1 |
| JobManager.JobManager.constructor | Utilities/JobManager.cs:92-103 | A new manager has an empty queue, no completed jobs, no errors and no scheduler, and its cap is `ProcessorCap` |
| JobManager.JobManager.AddJob | Utilities/JobManager.cs:107-110 | Appends exactly one undispatched entry; the job count grows by one and the queue invariant holds |
| JobManager.JobManager.JobCount | Utilities/JobManager.cs:68-77 | The number of queued entries: zero exactly when the queue is empty, which is when `Run`'s loop stops, and never fewer than the heavy jobs running |
| JobManager.FirstFree | Utilities/JobManager.cs:267-291 | The first undispatched entry: every entry before it has a worker |
| JobManager.NextJobSound | Utilities/JobManager.cs:267-291 | The chosen entry is the first undispatched one, and fewer heavy jobs than the cap run before it; a cap of 0 runs nothing |
| JobManager.NextJobNone | Utilities/JobManager.cs:267-291 | -1 means every entry has a worker, or the heavy jobs running before the first free one already reach the cap |
| JobManager.LightJobsNeverBlock | Utilities/JobManager.cs:267-291 | When no dispatched job is heavy, the next job is the first free entry |
| JobManager.JobManager.GetNextJobToRun | Utilities/JobManager.cs:267-291 | The scan returns `NextJob`: an undispatched entry or -1, and always -1 under a cap of 0 |
| JobManager.DispatchKeepsInvariant | Utilities/JobManager.cs:211-222 | Giving the chosen entry a fresh worker keeps dispatched entries in front, keeps workers distinct and respects the cap |
| JobManager.JobManager.DispatchStep | Utilities/JobManager.cs:211-222 | One pass of the scheduler loop: the entry `NextJob` picks gets the next worker and nothing else changes; -1 changes nothing |
| JobManager.JobManager.GetJob | Utilities/JobManager.cs:254-263 | The first entry run by the worker, or "Cannot find job." exactly when no entry has that worker |
| JobManager.RemoveKeepsInvariant | Utilities/JobManager.cs:233-249 | Removing any entry keeps the queue invariant |
| JobManager.RemoveFrontKeepsInvariant | Utilities/JobManager.cs:144-159 | Removing the front entry keeps the queue invariant |
| JobManager.JobManager.OnJobCompleted | Utilities/JobManager.cs:233-249 | The worker's entry leaves the queue marked completed, is appended to the completed jobs, and an error sets the error flag; an unknown worker fails with "Cannot find job." and changes nothing |
| JobManager.JobManager.Start | Utilities/JobManager.cs:117-134 | Clears the completed jobs and the flags and starts the scheduler with no cancellation pending |
| JobManager.JobManager.OnWorkerCompleted | Utilities/JobManager.cs:186-197 | Raises the all-done notice once and sets the error flag when a completed job carries an error |
| JobManager.MarkCompleted | Utilities/JobManager.cs:166-181 | Marks the first `n` entries completed, keeping their workers and ids, and leaves the rest as they were |
| JobManager.MarkCompletedKeepsInvariant | Utilities/JobManager.cs:166-181 | Marking entries completed keeps the queue invariant |
| JobManager.SameWorkersKeepInvariant | Utilities/JobManager.cs:233-249 | Changing only the completion and error fields of jobs keeps the queue invariant |
| JobManager.JobManager.Stop | Utilities/JobManager.cs:166-181 | Marks entries completed up to and including the first undispatched one; it succeeds, and cancels a running scheduler, only when every entry has a worker, and otherwise fails on the null worker |
| JobManager.JobManager.RunFront | Utilities/JobManager.cs:144-159 | One attempt at the front job: success moves it to the completed jobs, an error keeps it in front and sets the error flag |
| JobManager.JobManager.Run | Utilities/JobManager.cs:138-163 | Runs the queue front to back: the completed jobs are the original queue in order, one per successful attempt, the error flag records any failed attempt, and enough successes empty the queue and raise the all-done notice |
| CustomXml.ColonIndex | Utilities/XmlReaderCustom.cs:235-247 | The position of the first ':' in the key, or -1 exactly when there is none |
| CustomXml.KeySplit | Utilities/XmlReaderCustom.cs:260-272 | A qualified key is its prefix, a ':' and its local name, and the prefix holds no ':' |
| CustomXml.FirstMatch | Utilities/XmlReaderCustom.cs:94-105 | The first attribute whose local key is the name, or -1 exactly when none matches |
| CustomXml.ElementTextEndRestores | Utilities/XmlReaderCustom.cs:58-80 | Reading an element, then its text, then the end of input leaves the stack as it was before the element |
| CustomXml.XmlReaderCustom.constructor | Utilities/XmlReaderCustom.cs:52-54 | A new reader has an empty stack, no attribute cursor and node type None |
| CustomXml.XmlReaderCustom.Read | Utilities/XmlReaderCustom.cs:58-80 | Pops a text node on top, then pushes the next element or pops at the end of input; the node type follows what was read, and the result is whether the stack is non-empty |
| CustomXml.XmlReaderCustom.Depth | Utilities/XmlReaderCustom.cs:287-293 | The number of open elements: zero exactly when there is no current element whose attributes could be read |
| CustomXml.XmlReaderCustom.AttributeCount | Utilities/XmlReaderCustom.cs:83-89 | The number of attributes of the top element; an empty stack fails |
| CustomXml.XmlReaderCustom.GetAttribute | Utilities/XmlReaderCustom.cs:94-105 | The value of the first attribute whose local name matches, or null; an empty stack fails |
| CustomXml.XmlReaderCustom.GetAttributeNs | Utilities/XmlReaderCustom.cs:111-114 | The same lookup with the namespace ignored |
| CustomXml.XmlReaderCustom.GetAttributeAt | Utilities/XmlReaderCustom.cs:119-125 | A value exactly for an index inside the attribute list, and it is that attribute's value |
| CustomXml.XmlReaderCustom.LocalName | Utilities/XmlReaderCustom.cs:235-247 | "" on an empty stack, the element's name off an attribute, otherwise the attribute's key |
| CustomXml.XmlReaderCustom.Prefix | Utilities/XmlReaderCustom.cs:260-272 | "" off an attribute, otherwise the part of the attribute's key before its first ':', which holds no ':' |
| CustomXml.XmlReaderCustom.Value | Utilities/XmlReaderCustom.cs:275-284 | The current attribute's value, or the top element's value off an attribute |
| CustomXml.XmlReaderCustom.MoveToAttribute | Utilities/XmlReaderCustom.cs:130-145 | Succeeds exactly when some attribute's local name matches, moves the cursor to the first such attribute, and its value is then `Value`; otherwise the cursor stays |
| CustomXml.XmlReaderCustom.MoveToAttributeNs | Utilities/XmlReaderCustom.cs:151-154 | The same move with the namespace ignored |
| CustomXml.XmlReaderCustom.MoveToFirstAttribute | Utilities/XmlReaderCustom.cs:158-167 | Succeeds exactly when the top element has an attribute and moves the cursor to the first one |
| CustomXml.XmlReaderCustom.MoveToNextAttribute | Utilities/XmlReaderCustom.cs:171-181 | Succeeds exactly when an attribute follows the cursor and moves the cursor to it |
| CustomXml.XmlReaderCustom.MoveToElement | Utilities/XmlReaderCustom.cs:185-191 | Always true; leaves the attributes, so the local name is the element's again |
| CustomXml.XmlReaderCustom.ReadAttributeValue | Utilities/XmlReaderCustom.cs:195-203 | Toggles between the attribute's text and the attribute, and returns the new state |
| CustomXml.ReadAttributeValueTwice | Utilities/XmlReaderCustom.cs:195-203 | Two calls give opposite results and restore the toggle; the element stack and the attribute cursor are untouched |
| ApsimText.SplitOffAfterDelimiterJoins | Utilities/ApsimTextFile.cs:430-449 | The text before the first delimiter, the delimiter and the rest rejoin into the line |
| ApsimText.SplitOffBracketedValue | Utilities/ApsimTextFile.cs:517-524 | A bracketed value is split off only when both brackets are present; without the opening bracket the text is unchanged |
| ApsimText.FileNameWithoutExtension | Utilities/ApsimTextFile.cs:470-475 | The title taken from the file name holds no directory separator |
| ApsimText.FileNameIsStem | Utilities/ApsimTextFile.cs:470-475 | The file name is the last path component (what follows the last '/' or '\\', which holds neither) without its extension: all of it when it has no '.', else the text before its last '.' |
| ApsimText.LastComponentUnique | Utilities/ApsimTextFile.cs:470-475 | A path has exactly one last component |
| ApsimText.FirstUnitsLine | Utilities/ApsimTextFile.cs:363-393 | The first line that is a units line, or -1 when no line is one |
| ApsimText.ExaminedLines | Utilities/ApsimTextFile.cs:363-393 | The scan reads a prefix of the stream with no units line and never reaches the last line |
| ApsimText.ConstantLinesExact | Utilities/ApsimTextFile.cs:363-393 | A line is collected as a constant exactly when it is in the lines and holds '=' |
| ApsimText.HeadingLinesFound | Utilities/ApsimTextFile.cs:363-393 | Headings and units are found exactly when a units line comes before the last line, and they are that line and the one above it |
| ApsimText.LastLineNeverExamined | Utilities/ApsimTextFile.cs:363-393 | The content of the last line never changes the header scan |
| ApsimText.ScanStopsAt | Utilities/ApsimTextFile.cs:363-393 | The scan stops at the first units line, taking the line above it as the headings |
| ApsimText.ScanRunsOut | Utilities/ApsimTextFile.cs:363-393 | Without a units line, the scan reads every line but the last and finds no headings |
| ApsimText.ReadApsimHeaderLines | Utilities/ApsimTextFile.cs:363-393 | The loop collects exactly the constant lines and the heading pair of the scan |
| ApsimText.ParseConstantLineSome | Utilities/ApsimTextFile.cs:430-449 | A line gives a constant exactly when its text before '!' holds '=', and the text after '!' becomes the comment |
| ApsimText.ConstantLineParts | Utilities/ApsimTextFile.cs:430-449 | `name = value (unit) ! comment` gives the trimmed name ("Title" for any case of "title"), the trimmed value, the trimmed unit and the comment |
| ApsimText.ConstantLineWithoutUnit | Utilities/ApsimTextFile.cs:430-449 | `name = value` without brackets or '!' gives the trimmed name and value, an empty unit and an empty comment |
| ApsimText.TitleNormalised | Utilities/ApsimTextFile.cs:430-449 | A constant named "title" in any case is stored as "Title" |
| ApsimText.TitleIfMissing | Utilities/ApsimTextFile.cs:470-475 | Adds one Title constant exactly when neither the constants nor the headings name a title, so a title is then present |
| ApsimText.ApsimTextFile.constructor | Utilities/ApsimTextFile.cs:67-112 | A reader of the named file, with no headings, units or constants yet |
| ApsimText.ApsimTextFile.Constant | Utilities/ApsimTextFile.cs:249-263 | The first constant whose name matches, ignoring case, or none exactly when no name matches |
| ApsimText.WithValue | Utilities/ApsimTextFile.cs:279-290 | A constant takes the new value exactly when its name matches, ignoring case, and keeps its name, units and comment |
| ApsimText.ApsimTextFile.SetConstant | Utilities/ApsimTextFile.cs:279-290 | Every matching constant takes the new value; nothing else changes |
| ApsimText.ApsimTextFile.AddConstant | Utilities/ApsimTextFile.cs:298-305 | Appends exactly the new constant |
| ApsimText.ApsimTextFile.AddParsedConstants | Utilities/ApsimTextFile.cs:430-449 | Appends the constants the lines give, in order, and reports whether one is the title |
| ApsimText.ApsimTextFile.ReadHeadings | Utilities/ApsimTextFile.cs:450-473 | Sets the headings and units from the pair; a count mismatch fails with the file's name, and the title is looked up among the headings |
| ApsimText.ApsimTextFile.ReadApsimHeader | Utilities/ApsimTextFile.cs:424-476 | Stores the parsed constants, the headings and the units, and adds the file-name title when none is named |
| ApsimText.LineBody | Utilities/ApsimTextFile.cs:564-565 | As written: a prefix of the line, cut one character before the first '!' |
| ApsimText.CommentIgnored | Utilities/ApsimTextFile.cs:564-565 | As written: the comment does not matter, but the character before the '!' is lost with it |
| ApsimText.CutDropsLastValue | Utilities/ApsimTextFile.cs:564-565 | As written, "1 2 3!c" reads as 1 and 2; the corrected cut reads 1, 2 and 3 |
| ApsimText.CorrectedLineBody | Utilities/ApsimTextFile.cs:564-565 | The corrected cut: the text before the first '!', unless the line starts with '!' or has none |
| ApsimText.LineText | Utilities/ApsimTextFile.cs:564-576 | The text a data line's words are split from and a count mismatch names: a prefix of the corrected cut, equal to it outside CSV mode and without trailing commas in CSV mode |
| ApsimText.CsvLineTextDropsCommas | Utilities/ApsimTextFile.cs:568-571 | A CSV line without a comment is named without any of its trailing commas, e.g. "1,2,3,," as "1,2,3" |
| ApsimText.CorrectedCutKeepsValues | Utilities/ApsimTextFile.cs:564-565 | Every value before the comment survives the corrected cut |
| ApsimText.ApsimTextFile.GetNextLine | Utilities/ApsimTextFile.cs:554-582 | An empty line or the end gives no row; otherwise the words of the line, whose number must equal the number of headings, or the count-mismatch error naming the line (in CSV mode after its trailing commas are trimmed) and the file (with the corrected comment cut, see Findings) |
| ApsimText.DateFormat | Utilities/ApsimTextFile.cs:517-524 | A non-empty format without a lower-case 'm'; its rewrite is stated by the lemmas below |
| ApsimText.DateFormatOfParts | Utilities/ApsimTextFile.cs:517-524 | Any bracketed format of day, month and year fields with separators becomes the .NET format: "dd" and "d" become "d", "mm" and "m" become "M", "mmm" becomes "MMM", years and separators are kept |
| ApsimText.SlashedDayMonthYear | Utilities/ApsimTextFile.cs:517-524 | "(dd/mm/yyyy)" asks for "d/M/yyyy" |
| ApsimText.NamedMonthDayMonthYear | Utilities/ApsimTextFile.cs:517-524 | "(dd-mmm-yyyy)" asks for "d-MMM-yyyy" |
| ApsimText.UnbracketedUnitGivesDefault | Utilities/ApsimTextFile.cs:517-524 | A units entry without '(' gives the default date format |
| ApsimText.BlankBracketsGiveDefault | Utilities/ApsimTextFile.cs:517-524 | Brackets holding only blanks, or nothing, give the default date format |
| ApsimText.WordValue | Utilities/ApsimTextFile.cs:508-542 | A missing marker or an untyped column gives a missing value. Otherwise a string column gives the trimmed word, a number column the parsed number, and a date column with its unit the date parsed with that unit's format; a failed parse or a missing unit gives a missing value |
| ApsimText.ApsimTextFile.ConvertWordsToObjects | Utilities/ApsimTextFile.cs:503-545 | One value per word, each the `WordValue` of that word and column |
| ApsimText.RoundHalfEven | Utilities/ApsimTextFile.cs:629-634 | The nearest integer, with halves going to the even one |
| ApsimText.ToInt32 | Utilities/ApsimTextFile.cs:629-634 | A number within the 32-bit range rounds half to even; a missing value or a date is an invalid cast |
| ApsimText.AssembleDate | Utilities/ApsimTextFile.cs:636-646 | No year gives the default date; no day gives the first of the month; otherwise the day count from 1 January, which fails past year 9999 |
| ApsimText.DayCountAgreesWithCalendar | Utilities/ApsimTextFile.cs:636-646 | Counting days from 1 January agrees with the calendar date |
| ApsimText.HeadingAt | Utilities/ApsimTextFile.cs:619-635 | A heading exactly when there are headings and the column is among them |
| ApsimText.ApsimTextFile.ReadDateColumn | Utilities/ApsimTextFile.cs:619-635 | One column of the scan, as `ColumnStep` gives it |
| ApsimText.FoundSticks | Utilities/ApsimTextFile.cs:619-635 | Once a date column decides the date, later columns change nothing |
| ApsimText.DateColumnDecides | Utilities/ApsimTextFile.cs:619-635 | A leading "date" column holding a date decides the row's date, whatever follows |
| ApsimText.EmptyRowHasDefaultDate | Utilities/ApsimTextFile.cs:636-646 | A row without values is dated `new DateTime()` |
| ApsimText.YearDayColumns | Utilities/ApsimTextFile.cs:614-647 | For every calendar date, a row with "Year" and "Day" columns holding its year and its day of the year is dated that date |
| ApsimText.ApsimTextFile.GetDateFromValues | Utilities/ApsimTextFile.cs:614-647 | The scan of the columns followed by the assembly: exactly `DateFromValues` |
| ApsimText.ApsimTextFile.SeekToDate | Utilities/ApsimTextFile.cs:654-667 | A date before the first date fails with the message naming the date and the file; otherwise the row to seek to, one per day, stopping at the end of the file |
| ProcessUtilities.ReadBuffer | Utilities/ProcessUtilities.cs:53-57 | The first 4096 bytes of the file, zero past its end |
| ProcessUtilities.IsManaged | Utilities/ProcessUtilities.cs:49-111 | The classification of the first 4096 bytes; the only exception it lets out is the array index fault, which the lemmas below place exactly |
| ProcessUtilities.UInt16FromBytes | Utilities/ProcessUtilities.cs:125-128 | The little-endian 16-bit word at the offset; it faults exactly when the word runs past the buffer |
| ProcessUtilities.UInt32FromBytes | Utilities/ProcessUtilities.cs:117-120 | The little-endian 32-bit word at the offset; it faults exactly when the word runs past the buffer |
| ProcessUtilities.OrBytes | Utilities/ProcessUtilities.cs:91-99 | The or of the bytes is zero exactly when every byte is zero |
| ProcessUtilities.SignatureBytes | Utilities/ProcessUtilities.cs:76-84 | A word equals a signature exactly when its bytes are the signature's bytes |
| ProcessUtilities.IsManagedUnixImages | Utilities/ProcessUtilities.cs:67-73 | On '/' platforms a "#!" script or an ELF image is native |
| ProcessUtilities.IsManagedNeedsDosSignature | Utilities/ProcessUtilities.cs:76-77 | Without "MZ", and not a script or ELF image on '/' platforms, the file is invalid |
| ProcessUtilities.IsManagedFaults | Utilities/ProcessUtilities.cs:79-111 | With the signatures present, the result is an exception exactly when the header offset puts a field it reads past the buffer |
| ProcessUtilities.ClassifyPeFaults | Utilities/ProcessUtilities.cs:83-111 | From the PE header offset on, the checks fault exactly when the "PE\0\0" signature, or after a matching signature the CLR Runtime Header directory, lies past the 4096-byte buffer |
| ProcessUtilities.IsManagedAssemblies | Utilities/ProcessUtilities.cs:91-106 | An image whose CLR Runtime Header directory is not all zero is an assembly, pure or mixed |
| ProcessUtilities.IsManagedMixed | Utilities/ProcessUtilities.cs:100-106 | Among assemblies, a mixed one is exactly one whose export table is not empty |
| ProcessUtilities.ClassifyPeMixed | Utilities/ProcessUtilities.cs:100-106 | The same, stated for the checks from the PE signature on |
| ProcessUtilities.IsManagedNative | Utilities/ProcessUtilities.cs:83-99 | Off '/' platforms, native means a PE image whose CLR Runtime Header directory is all zero |
| SocketServer.GetBytes | Utilities/SocketServer.cs:243-250 | The four bytes of the length field |
| SocketServer.ToInt32GetBytes | Utilities/SocketServer.cs:314-315 | Reading back the bytes of an integer gives the integer, in either byte order |
| SocketServer.ToInt32Unchecked | Utilities/SocketServer.cs:243-250 | The cast of the stream length keeps any length that fits an `int` |
| SocketServer.EncodeData | Utilities/SocketServer.cs:243-250 | The frame is the four-byte length followed by the payload; `DecodeData` gives the payload back, and the header reads back the length |
| SocketServer.DecodeData | Utilities/SocketServer.cs:255-260 | The payload is what follows the four-byte header (nothing when the stream is shorter) |
| SocketServer.StateObject.constructor | Utilities/SocketServer.cs:265-277 | An empty receive state with a zeroed buffer of 16384 bytes |
| SocketServer.SocketServer.constructor | Utilities/SocketServer.cs:22-28 | No commands, listening, no connections |
| SocketServer.SocketServer.AddCommand | Utilities/SocketServer.cs:65-68 | Registers the handler, which then serves the command; a name already present fails and changes nothing |
| SocketServer.SocketServer.ProcessCommand | Utilities/SocketServer.cs:195-204 | The registered handler gets the command's data; an unknown name fails with its message |
| SocketServer.SocketServer.StartListening | Utilities/SocketServer.cs:72-109 | Raises the listening flag |
| SocketServer.SocketServer.StopListening | Utilities/SocketServer.cs:112-116 | Lowers the listening flag |
| SocketServer.SocketServer.AcceptCallback | Utilities/SocketServer.cs:120-145 | Starts a receive exactly while listening |
| SocketServer.SocketServer.ReadCallback | Utilities/SocketServer.cs:149-190 | Nothing received closes; otherwise the bytes are appended, the first read sets the expected length, and the command runs exactly when the whole frame is in |
| SocketServer.FramedProgress | Utilities/SocketServer.cs:163-183 | On a frame split into chunks, the whole frame is in exactly after the last chunk, and it then decodes to the payload |
| SocketServer.SocketServer.ReceiveMessage | Utilities/SocketServer.cs:149-190 | Read callbacks over the chunks of a frame run the command on exactly the payload after the last chunk |
| SocketServer.ClientAfter | Utilities/SocketServer.cs:303-321 | The client loop as written after some chunks: the bytes received are their concatenation |
| SocketServer.ClientDoneSticks | Utilities/SocketServer.cs:303-321 | Once the loop is done it stays done, so it stops at its first done read |
| SocketServer.SendReceive | Utilities/SocketServer.cs:292-330 | The loop as written stops after the first read that leaves it done and decodes what it has received |
| SocketServer.BareHeaderDone | Utilities/SocketServer.cs:314-317 | As written, a first read of exactly four bytes ends the loop with an empty payload |
| SocketServer.ClientStopsOnBareHeader | Utilities/SocketServer.cs:314-317 | As written, a non-empty reply whose header arrives alone is lost: the client returns the empty payload |
| SocketServer.HeaderThenPayloadFramed | Utilities/SocketServer.cs:243-250 | The header followed by the payload is a valid framing of a non-empty payload |
| SocketServer.CorrectedClientAfter | Utilities/SocketServer.cs:303-321 | The corrected loop knows the expected length exactly when the whole header is in, and it is the header's value |
| SocketServer.CorrectedClientDoneStep | Utilities/SocketServer.cs:316-317 | The corrected loop is done exactly when the whole frame is in |
| SocketServer.CorrectedClientDoneAtEnd | Utilities/SocketServer.cs:316-317 | On a frame, the corrected loop is done exactly after the last chunk |
| SocketServer.SendReceiveCorrected | Utilities/SocketServer.cs:292-330 | The corrected loop stops at its first done read, and on any framing of a payload it returns that payload |
| SocketServer.CorrectedClientReadsFrame | Utilities/SocketServer.cs:292-330 | On a frame, the corrected loop ends after the last chunk and decodes the payload |
| SoilLayers.CumThickness | Soils/SoilUtilities.cs:68-81 | Each layer's bottom depth is the sum of the thicknesses down to it |
| SoilLayers.CumThicknessRecurrence | Soils/SoilUtilities.cs:68-81 | The first bottom is the first thickness, and each later bottom adds its layer's thickness |
| SoilLayers.CumThicknessIncreasing | Soils/SoilUtilities.cs:68-81 | With positive thicknesses the bottoms increase strictly |
| SoilLayers.ToCumThickness | Soils/SoilUtilities.cs:68-81 | The loop computes exactly `CumThickness` |
| SoilLayers.MidPoints | Soils/SoilUtilities.cs:52-64 | Each mid-point is half a thickness above its layer's bottom |
| SoilLayers.MidPointsInsideLayers | Soils/SoilUtilities.cs:52-64 | With positive thicknesses each mid-point lies strictly inside its layer, and the mid-points increase |
| SoilLayers.ToMidPoints | Soils/SoilUtilities.cs:52-64 | The loop computes exactly `MidPoints` |
| SoilUtilities.StripXmlDeclaration | Soils/SoilUtilities.cs:40-47 | Drops everything up to the first newline exactly when the text starts with an XML declaration; otherwise the text is unchanged |
| SoilUtilities.LayerPAWC | Soils/SoilUtilities.cs:136-141 | DUL minus LL, never negative, and zero when either is missing |
| SoilUtilities.PAWCValues | Soils/SoilUtilities.cs:136-149 | The layer capacities, zero from the first zero XF down |
| SoilUtilities.PAWC | Soils/SoilUtilities.cs:128-151 | No LL gives zeros; a length mismatch throws; an XF shorter than the profile with no zero throws an index error; otherwise `PAWCValues` |
| SoilUtilities.GetCropNames | Soils/SoilUtilities.cs:160-170 | The names of the measured crops in order, none without a crop list |
| SoilUtilities.PredictedCropNames | Soils/SoilUtilities.cs:369-379 | Wheat, Sorghum and Cotton for a black or grey vertosol, otherwise none |
| SoilUtilities.PredictedCoefficients | Soils/SoilUtilities.cs:387-465 | No soil type gives none; a prediction comes with one coefficient and one KL per predicted layer |
| SoilUtilities.PredictableCrops | Soils/SoilUtilities.cs:387-465 | A crop is predictable exactly when its soil type's table names it, ignoring case |
| SoilUtilities.ListedCropsArePredictable | Soils/SoilUtilities.cs:369-465 | Every crop `PredictedCropNames` lists can be predicted |
| SoilUtilities.GreyVertosolPredictsUnlistedCrops | Soils/SoilUtilities.cs:369-465 | A grey vertosol predicts barley, which `PredictedCropNames` does not list |
| SoilUtilities.Crop | Soils/SoilUtilities.cs:177-189 | No crop list gives null; a measured crop first, then a predicted one; otherwise the "not found" error naming the crop |
| SoilUtilities.CropNamesFindMeasuredCrop | Soils/SoilUtilities.cs:160-189 | A name found among `GetCropNames` is the measured crop `Crop` returns |
| SoilUtilities.BoundedLL | Soils/SoilUtilities.cs:498-516 | Raised to LL15, then lowered to DUL, so DUL takes priority |
| SoilUtilities.PredictedLL | Soils/SoilUtilities.cs:492-517 | The top three layers are LL15; the others are the regression bounded by LL15 and DUL, never above DUL |
| SoilMapping.ConvertSW | APSIM.Shared.Soils/SoilUtility.cs:132-162 | Same units or no values are returned unchanged; otherwise each layer's content is kept in the new units. Only the divisors the conversion uses must be non-zero |
| SoilMapping.VolumetricContentInjective | APSIM.Shared.Soils/SoilUtility.cs:132-162 | Distinct values in the same units are distinct contents |
| SoilMapping.ConvertSWRoundTrip | APSIM.Shared.Soils/SoilUtility.cs:132-162 | Converting to other units and back gives the original values |
| SoilMapping.StripMissingFromBottom | APSIM.Shared.Soils/SoilUtility.cs:393-394 | Removes exactly the trailing NaN entries |
| SoilMapping.MarkedValues | APSIM.Shared.Soils/SoilUtility.cs:383-392 | NaN in every missing layer, other values unchanged |
| SoilMapping.MarkedThickness | APSIM.Shared.Soils/SoilUtility.cs:383-392 | Extended to the values' length, NaN in every missing layer, other thicknesses unchanged |
| SoilMapping.RemoveMissingLayers | APSIM.Shared.Soils/SoilUtility.cs:383-392 | The clean-up loop computes exactly the marked values and thicknesses |
| SoilMapping.StripSamePattern | APSIM.Shared.Soils/SoilUtility.cs:393-394 | Values with NaN in the same places lose the same number of trailing entries |
| SoilMapping.CleanedLengthsAgree | APSIM.Shared.Soils/SoilUtility.cs:383-400 | After the clean-up the values and the thicknesses have equal lengths, so the length-mismatch branch is never taken after it |
| SoilMapping.ZeroNaN | APSIM.Shared.Soils/SoilUtility.cs:461-463 | No NaN remains and other values are unchanged |
| SoilMapping.ReplaceNaNByZero | APSIM.Shared.Soils/SoilUtility.cs:461-463 | The loop computes exactly `ZeroNaN` |
| SoilMapping.Map | APSIM.Shared.Soils/SoilUtility.cs:368-465 | Null input gives null; cleaned layers equal to the target return the cleaned values; a length mismatch gives null; otherwise the re-mapped values with NaN replaced by 0 |
| InitialWaterModel.EvenlyDistributedProfile | Soils/InitialWater.cs:97-103 | Every layer is filled to the same fraction of its range from LL to DUL |
| InitialWaterModel.EvenlyDistributedWithinLimits | Soils/InitialWater.cs:97-103 | With a fraction between 0 and 1, every layer lies between its LL and DUL |
| InitialWaterModel.SWEvenlyDistributed | Soils/InitialWater.cs:97-103 | The loop computes exactly `EvenlyDistributedProfile` |
| InitialWaterModel.WetLayer | Soils/InitialWater.cs:106-122 | A layer wholly above the wet front is at DUL, one wholly below it is at LL |
| InitialWaterModel.WetLayerWithinLimits | Soils/InitialWater.cs:106-122 | A layer's water stays between LL and DUL for any wet front |
| InitialWaterModel.WetDepthProfile | Soils/InitialWater.cs:106-122 | Each layer's water for the wet front, given the depth of its top |
| InitialWaterModel.WetDepthLayers | Soils/InitialWater.cs:106-122 | Layers above the front are at DUL, layers below it are at LL, and every layer stays within its limits |
| InitialWaterModel.SWDepthWetSoil | Soils/InitialWater.cs:106-122 | The loop computes exactly `WetDepthProfile` |
| InitialWaterModel.FillConserves | Soils/InitialWater.cs:77-92 | The top-down fill places exactly the amount it is given, when that fits the capacities |
| InitialWaterModel.FillFromTop | Soils/InitialWater.cs:77-92 | The loop computes exactly the top-down fill |
| InitialWaterModel.ZeroXFLayers | Soils/InitialWater.cs:79-80 | The layers held at LL as written: those whose own XF is zero |
| InitialWaterModel.BelowZeroXF | Soils/InitialWater.cs:79-80 | The layers held at LL as corrected: at and below the first zero XF |
| InitialWaterModel.PAWCmm | Soils/InitialWater.cs:74 | The `PAWC` capacities times the thicknesses |
| InitialWaterModel.WaterToPlace | Soils/InitialWater.cs:76 | The fraction of the total capacity, never negative, never above it for a fraction up to 1 |
| InitialWaterModel.CapacitiesMm | Soils/InitialWater.cs:74 | Computes exactly `PAWCmm` |
| InitialWaterModel.SWFilledFromTop | Soils/InitialWater.cs:68-94 | As written: zeros on a length mismatch, otherwise the fill holding at LL the layers whose own XF is zero |
| InitialWaterModel.SWFilledFromTopCorrected | Soils/InitialWater.cs:68-94 | Corrected: the same fill, holding at LL every layer at or below the first zero XF |
| InitialWaterModel.FilledFromTopConserves | Soils/InitialWater.cs:74-92 | As written, for a fraction between 0 and 1, non-negative thicknesses and LL ≤ DUL with neither missing, the water placed is the fraction of the total capacity whenever every layer at or below a zero XF has XF zero itself, so that the layers held at LL are the ones `PAWC` gives no capacity |
| InitialWaterModel.FilledFromTopFillsBelowZeroXF | Soils/InitialWater.cs:79-80 | As written, water lands below a zero XF in a layer that `PAWC` gives no capacity |
| InitialWaterModel.FilledFromTopCorrectedConserves | Soils/InitialWater.cs:74-92 | Corrected, for a fraction between 0 and 1, non-negative thicknesses, an XF per layer when there is one, and LL ≤ DUL with neither missing, the water placed is the fraction of the total capacity (a fraction above 1 places at most the total capacity, which this does not cover) |
| InitialWaterModel.HeldLayersAgree | Soils/InitialWater.cs:79-80 | The layers the as-written and corrected fills hold at LL are the same exactly when every layer at or below a zero XF has XF zero itself (the filled values can agree in more cases, e.g. where LL = DUL) |
| InitialWaterModel.Basis | Soils/InitialWater.cs:42-54 | The measured crop's LL and XF when `RelativeTo` names one, otherwise the soil's LL15 and no XF |
| InitialWaterModel.SW | Soils/InitialWater.cs:39-65 | A missing basis throws a null reference; a wet-soil depth that is set gives the wet-front profile; otherwise the fill from the top or the even fill (with the corrected fill, see Findings) |
| SoilDefaults.KLTableIsRectangular | Soils/Defaults.cs:40-64 | 19 crop names, 19 rows of 7 KL values between 0 and 1, and increasing depths |
| SoilDefaults.GetRowOfArray | Soils/Defaults.cs:89-96 | Returns exactly the row |
| SoilDefaults.ReplaceNaN | Soils/Defaults.cs:100-116 | No NaN remains within the layers, every NaN there becomes the fill value, and nothing else changes |
| SoilDefaults.ReplaceNaNIdempotent | Soils/Defaults.cs:100-116 | Replacing a second time changes nothing |
| SoilDefaults.CheckAnalysisForMissingValues | Soils/Defaults.cs:100-116 | CL, EC and ESP get 0 and pH gets 7 in place of NaN within the layers; null arrays stay null |
| SoilDefaults.DefaultKL | Soils/Defaults.cs:68-83 | A KL profile exactly when the crop's name is in the table, ignoring case, with one value per layer |
| SoilDefaults.KLProfile | Soils/Defaults.cs:73-81 | The table row interpolated at each layer's bottom depth |
| SoilDefaults.TableCropsGetKL | Soils/Defaults.cs:68-83 | A table crop gets a KL in every layer |
| SoilDefaults.FillInKLForCrop | Soils/Defaults.cs:68-83 | A table crop gets `DefaultKL`; any other crop keeps its KL |
| SoilDefaults.Filled | Soils/Defaults.cs:24-38 | A missing XF becomes all 1 with "Estimated" metadata, a missing KL the protocol one, and present values are kept |
| SoilDefaults.FilledIdempotent | Soils/Defaults.cs:24-38 | Filling in twice is filling in once |
| SoilDefaults.FillInCrop | Soils/Defaults.cs:30-36 | One crop's defaults become `Filled` |
| SoilDefaults.FillInCrops | Soils/Defaults.cs:28-37 | Every listed crop is filled exactly once, even when it is listed twice |
| SoilDefaults.FillInMissingValues | Soils/Defaults.cs:24-38 | Checks the analysis and fills in every crop; a soil without a crop list throws a null reference |

## Left out

- Threads, events and `BackgroundWorker`s are not modelled. The job manager
  runs one step at a time. Each worker's completion comes in as a call with
  the job's outcome, and `DoWork`'s scheduler loop is `DispatchStep`, repeated.
- JobManager.JobManager.Run: the source retries a failing job forever. Here the
  attempts are a finite list of outcomes, and `Run` stops when they run out.
- JobManager.JobManager.Stop: the source marks the shared job objects through
  the queue. Here jobs are values held in the queue's entries, so the marks
  live in the queue alone. The `CancelAsync` requests to busy workers are not
  modelled.
- JobManager.JobManager.DispatchStep: the choice of the next entry and its
  dispatch are one atomic step. In the source they take the lock separately
  (`GetNextJobToRun` at `Utilities/JobManager.cs:267-291`, then lines 211-222).
  A job completing between the two can shift the queue, so the chosen index
  can then name another entry, possibly one already running, or lie past the
  end. That race is not modelled.
- JobManager.JobManager.Run: the error message a failed attempt leaves on a
  job is not stated in its contract; only `someHadErrors` is.
- JobManager.ProcessorCap: the argument is an integer. The `FormatException`
  of `Convert.ToInt32` on a non-numeric argument is not modelled.
- Sockets, streams and the binary serialiser are not modelled.
  `ReflectionUtilities` is not part of this model. A frame's payload is its
  bytes, and deserialisation is a parameter.
- The server-side `Send` and `SendCallback` of `SocketServer` only write to a
  socket, so they are not modelled.
- SocketServer.SocketServer.StartListening: the accept loop and the socket setup
  are left out. Only the flag it raises is modelled.
- The XML reader's element source, `GetNextElement`, is the argument of
  `Read`. The members that only throw `NotImplementedException` or return
  constants are not modelled.
- `StreamReaderRandomAccess` and file positions are not modelled. A file is a
  sequence of lines, and the header scan, rows and dates are functions of it.
  Also left out: `Open`, `Close`, `ToTable`, `AddConstantsToData`,
  `ConstantAsDouble`, `DetermineColumnTypes`, `LookAheadForNonMissingValue`
  and `GetNextLineOfData`. Column types are given.
- Culture-dependent parsing of dates and numbers is a parameter (`parseDate`,
  `parseNumber`, `parseInt`).
- `StringUtilities` is not part of this model. The `Text` module defines the
  splitting and case-insensitive operations the reader uses, with ASCII case
  folding.
- Text.SplitWords: it splits at every space and tab. The quote handling of
  `SplitStringHonouringQuotes` is not modelled, so a quoted value holding a
  blank, such as `"Wheat crop"`, reads as two words here and as one in the
  source. `Text.Trim` and `Text.IsBlank` cover space and tab only, not every
  white-space character `String.Trim()` removes.
- ApsimText.ApsimTextFile.GetNextLine: it cuts a data line at its '!' (the
  corrected cut, see Findings). The source cuts one character earlier, so
  "1 2 3!c" under three headings fails the column count there and reads as
  1, 2 and 3 here. `ApsimText.LineBody` models the cut as written.
- ApsimText.ApsimTextFile.ConvertWordsToObjects: the source also trims the
  caller's words in place; the words passed in are a value here.
- ApsimText.HeadingAt: a heading index past the end is `IndexOutOfRange`,
  without the message text of the source's exception.
- ApsimText.ApsimTextFile.SeekToDate and ApsimText.ApsimTextFile.GetDateFromValues:
  a `DateTime` is a whole day count here, so the time of day is dropped. A
  "date" column with a time part, and the comparison with the first date in
  `SeekToDate`, lose their sub-day precision.
- SoilMapping.Map: the cleaned thicknesses are compared with exact equality.
  The source calls `Utility.Math.AreEqual`, which is not part of this model and
  may allow a tolerance.
- ProcessUtilities.IsManaged: the exceptions of opening and reading the file
  are not modelled; the file is its bytes.
- `FTPClient` and the process-launching parts of `ProcessUtilities` are not
  modelled: they are network and process I/O.
- Floating point is modelled as exact reals. NaN appears only where the source
  tests `double.IsNaN`, through the `Double` datatype, so rounding is left out.
- `MathUtilities` and `Utility.Math` are not part of this model.
  `MissingValue` is 999999. `LinearInterpReal` is the parameter `interp`, and
  `Map`'s re-layering by mass or concentration is the parameter `remap`.
- The `SoilCrop` class file is not part of this model. Its fields are taken
  from their uses in the utilities.
- Array identity is left out: soil arrays are `seq`s. `Defaults` updates crops
  and the analysis in place, through their classes.
- SoilMapping.ConvertSW: it requires a non-zero thickness and bulk density in
  every layer it divides by. The source would produce infinities there, which
  exact reals do not have.
- InitialWaterModel.SW: it uses the corrected fill from the top (see Findings).
  For three 100 mm layers with XF 1, 0 and 1, LL 0.1, DUL 0.3 and a fraction
  of 0, the source gives 0.1, 0.1 and 0.3 and the model 0.1, 0.1 and 0.1.
  `InitialWaterModel.SWFilledFromTop` models the fill as written.
- InitialWaterModel.SW: requires positive layer thicknesses and, without a
  wet-soil depth, a non-negative fraction. With a zero thickness or capacity
  the source divides by zero and produces NaN or infinity, which exact reals
  do not have.
- InitialWaterModel.SWFilledFromTop and InitialWaterModel.SWFilledFromTopCorrected:
  when the lengths agree, they require a non-negative fraction, non-negative
  thicknesses and an XF per layer. `SW` returns the index error itself for a
  short XF.
- InitialWaterModel.SWDepthWetSoil: requires positive thicknesses, for the
  same reason as `SW`.
- InitialWaterModel.SWEvenlyDistributed: requires a DUL per LL layer. `SW`
  returns the index error itself otherwise.
- SoilDefaults.CheckAnalysisForMissingValues and SoilDefaults.FillInMissingValues:
  require every present analysis array to cover the analysis layers. The index
  error the source throws on a shorter array is not modelled.
- SoilDefaults.FillInMissingValues: the soil's analysis, the analysis
  thicknesses and every crop's thicknesses are never null here, so the null
  reference the source throws when `soil.Analysis` or `Analysis.Thickness` is
  null (`Soils/Defaults.cs:102`), or when a crop without XF has no thicknesses
  (`Soils/Defaults.cs:32`), is not modelled. Only a missing water node or crop
  list fails.
- InitialWaterModel.SW: the water node's `LL15`, `DUL` and `Thickness` are
  never null here, so the null reference the source throws on a null one
  (`Soils/InitialWater.cs:71`, `:99`, `:108`) is not modelled. Only a missing
  water node or a missing crop LL fails.
- SocketServer.SocketServer.ProcessCommand and SocketServer.SocketServer.ReadCallback:
  `deserialise` always gives a `CommandObject`. A payload that deserialises
  to another type makes `obj as CommandObject` null in the source, and the
  null reference at `Utilities/SocketServer.cs:198` is reported as an error;
  that case is not modelled.
- SoilUtilities.Crop: a predicted crop is returned as its coefficients
  (LL, KL and XF for the predicted layers). The `SoilCrop` the source builds
  from them, mapped onto the soil's layers and marked "Estimated", is not
  modelled, since it needs the re-layering `Map` takes as a parameter.
- SoilUtilities.PredictedLL: requires the arrays to cover the predicted
  layers, which they do for every prediction `PredictedCoefficients` makes.
- SocketServer.SocketServer.ReadCallback: requires at most one buffer of bytes
  per call, as a socket receive into that buffer gives.
- JobManager.JobManager.OnWorkerCompleted: requires the scheduler loop to have
  ended, the only point at which the source raises it.
- `ToXML` serialisation is not modelled; only its removal of the XML
  declaration line is.

## Findings

| source | as written | input that shows it | evidently intended | confidence | as-written member | corrected member |
|---|---|---|---|---|---|---|
| Utilities/SocketServer.cs:314-317 | The client reads the expected length from its first read and is done once the bytes received reach it, counting the four header bytes | A reply whose four header bytes arrive in a read of their own, then its non-empty payload | Done only when the header and the whole payload are in, so the reply is the payload | not executed | SocketServer.ClientStopsOnBareHeader | SocketServer.SendReceiveCorrected |
| Utilities/ApsimTextFile.cs:564-565 | A data line is cut at `IndexOf('!') - 1`, one character before the comment mark | The line "1 2 3!c" with three columns reads as 1 and 2 and fails the column count | The line cut at the '!', so it reads 1, 2 and 3 | not executed | ApsimText.CutDropsLastValue | ApsimText.CorrectedCutKeepsValues |
| Soils/InitialWater.cs:79-80 | The fill holds at LL only a layer whose own XF is zero, while `PAWC` gives no capacity to every layer from the first zero XF down | Three 100 mm layers with LL 0.1, DUL 0.3 and XF 1, 0, 1, filled to a fraction of 0: the third layer is set to DUL, holding 20 mm where none was asked for | Hold at LL every layer `PAWC` gives no capacity, so the water placed is the fraction of the total capacity | not executed | InitialWaterModel.FilledFromTopFillsBelowZeroXF | InitialWaterModel.FilledFromTopCorrectedConserves |
