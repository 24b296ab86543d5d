# HeadExtractor in Dafny

HeadExtractor scans Minecraft worlds for player-head textures. A texture is a
base64-encoded JSON profile. The tool looks in region archives (`.mca`),
player data (`.dat`) and data-pack text files (`.json`, `.mcfunction`). It
returns the set of profiles that decode to a skin URL. This project models
the core of `HeadExtractor.java` and proves what it does:

- `Region` covers the region-archive reader `processMCA`. It reads the
  1024-slot location table and the chunk headers from the bytes of the file,
  including the 32-bit offset arithmetic, and separates the three ways the
  loop can end.
- `Tags` and `TagScanner` cover the tag-tree scan `processTag`. The worklist
  loop over a FIFO queue is proved to emit the same candidates (as a
  multiset) as a recursive specification. The `textures` and `properties`
  list rules are stated as lemmas.
- `TextScanner` covers `processString` with `BASE64_PATTERN`. It is a
  declarative reading of the regular expression, plus the leftmost-first,
  non-overlapping enumeration that repeated `Matcher.find` calls perform. The
  loop is proved to produce exactly that enumeration.
- `Validator` covers `validateHead`, a shape check over a parsed JSON tree.
- `Coordinator` covers `extractHeads` with the file selection of
  `gatherMCA`, `gatherPlayerData`, `gatherFromDataPacks` and
  `processDataPack`, run one unit of work after another. The result is shown
  to be independent of task order and of world order. One finding about
  region files that raise unchecked exceptions is proved in both its
  as-written and its corrected form.

Library calls are parameters. `Coordinator.Library` bundles them:

- `readTag` is the chunk decoder (`NBTIO.readTag` after gzip or zlib).
- `readFile` is `NBTIO.readFile`.
- `readString` is `Files.readString`.
- `decode` is Base64 decoding followed by Jackson's `readTree`.

For `readTag`, `readFile` and `readString`, `None` stands for the
`IOException` the call throws, which the surrounding code catches. For
`decode`, `None` stands for any exception: the unchecked
`IllegalArgumentException` of `Base64.getDecoder().decode` as well as
Jackson's checked ones, since `validateHead` catches every `Exception` and
answers false. The file system is given as data: directory listings, file
bytes, data-pack walks and zip roots.

Assumptions about libraries whose code is not part of this model:

- OpenNBT gives list elements the empty name, and a decoded compound has
  unique child names.
- Jackson's `get` on a non-object node answers null.

Behaviours of the code a reader might not expect, which the model keeps:

- A compression byte other than 1 or 2 reads the payload as it is. Nothing is
  skipped or warned about.
- The unpadded token in `say "eyJ0ZXh0dXJlcyI6e319"` is not matched, because
  the pattern demands a final `=` or `==` block (`TextScanner.UnpaddedExample`).
- `processTag` pops from the front of an `ArrayDeque` and appends at the
  back, so the walk is breadth first, not a stack.
- A region file whose reading raises an unchecked exception aborts the whole
  extraction instead of being logged and skipped (see Findings). That happens
  when a location word or chunk header lies outside the file (a zero-byte
  file is the simplest case), when a length word gives a negative length, or
  when a payload runs past the end of the file. A chunk whose decoding
  throws an `IOException` is caught at line 286 and only ends that file:
  `Region.ShortArchiveCaught` shows an eight-byte file that ends this way.

## Model

| member | source | states |
|---|---|---|
| TextScanner.DelimiterAt | src/main/java/me/amberichu/headextractor/HeadExtractor.java:77 | the delimiter `\\?["']` at p ends at j exactly when s[p..j] is a quote or a backslash and a quote (the optional backslash is taken when present) |
| TextScanner.TokenEndAt | src/main/java/me/amberichu/headextractor/HeadExtractor.java:77 | group 1 started at q, when it ends, spans at least one four-character block and stays inside the text |
| TextScanner.MatchAt | src/main/java/me/amberichu/headextractor/HeadExtractor.java:77 | a match tried at p starts at p, has a non-empty delimiter on each side and a group 1 of at least four characters, and lies inside the text |
| TextScanner.TokenEndAtExact | src/main/java/me/amberichu/headextractor/HeadExtractor.java:77 | group 1 started at q ends at b iff s[q..b] is whole base64 blocks whose last block ends in "==" or "=" (both directions) |
| TextScanner.MatchAtExact | src/main/java/me/amberichu/headextractor/HeadExtractor.java:77 | the match the regex engine reports at a start is a match of the pattern, and every match of the pattern is the one reported at its start |
| TextScanner.FindFromCharacterized | src/main/java/me/amberichu/headextractor/HeadExtractor.java:326-331 | repeated `find()` is exactly the leftmost-first enumeration where each search resumes after the previous closing delimiter, and no match lies in a skipped gap (iff) |
| TextScanner.FindFrom | src/main/java/me/amberichu/headextractor/HeadExtractor.java:326-331 | the matches reported from a start lie at or after it and inside the text, do not overlap, and number at most a sixth of the remaining length |
| TextScanner.ScanText | src/main/java/me/amberichu/headextractor/HeadExtractor.java:326-331 | a text of n characters hands at most n/6 candidates to the consumer |
| TextScanner.ScannedTokens | src/main/java/me/amberichu/headextractor/HeadExtractor.java:77 | every emitted token is group 1 of a match (padded base64 blocks between delimiters), and consecutive matches do not overlap |
| TextScanner.UnpaddedTextYieldsNothing | src/main/java/me/amberichu/headextractor/HeadExtractor.java:77 | a text without '=' yields no candidate |
| TextScanner.UnpaddedExample | src/main/java/me/amberichu/headextractor/HeadExtractor.java:77 | `say "eyJ0ZXh0dXJlcyI6e319"` yields nothing |
| TextScanner.PaddedExample | src/main/java/me/amberichu/headextractor/HeadExtractor.java:77 | `\"YWI=\"` (escaped double quotes) yields "YWI=" |
| TextScanner.MixedQuotesExample | src/main/java/me/amberichu/headextractor/HeadExtractor.java:77 | `'YWI="` yields "YWI=": the two delimiters need not match |
| TextScanner.FindFromSkips | src/main/java/me/amberichu/headextractor/HeadExtractor.java:328 | positions where the pattern fails are passed over by the search |
| TextScanner.ProcessString | src/main/java/me/amberichu/headextractor/HeadExtractor.java:326-331 | the `while (m.find())` loop hands the consumer exactly `ScanText(s)`, in order |
| Tags.Get | src/main/java/me/amberichu/headextractor/HeadExtractor.java:306 | the compound child lookup answers a child iff one has that name, and the child answered has that name |
| Tags.SizeOfAppend | src/main/java/me/amberichu/headextractor/HeadExtractor.java:297 | the size of a worklist is additive over concatenation |
| TagScanner.Enqueued | src/main/java/me/amberichu/headextractor/HeadExtractor.java:297 | what a popped tag appends to the worklist is smaller than the tag, so the loop terminates |
| TagScanner.TexturesValue | src/main/java/me/amberichu/headextractor/HeadExtractor.java:304-309 | a `textures` list gives at most one string, and only the String "Value" child of a compound first element |
| TagScanner.PropertiesValue | src/main/java/me/amberichu/headextractor/HeadExtractor.java:310-316 | a `properties` list gives at most one string, and only the String "value" child of a compound first element whose String "name" child is "textures" |
| TagScanner.Emitted | src/main/java/me/amberichu/headextractor/HeadExtractor.java:294-322 | a popped compound or numeric tag hands nothing to the consumer itself, and a popped list at most one string |
| TagScanner.Candidates | src/main/java/me/amberichu/headextractor/HeadExtractor.java:291-324 | the recursive specification of the scan (tied to the loop by `ProcessTag`); numeric and array tags yield nothing |
| TagScanner.Visits | src/main/java/me/amberichu/headextractor/HeadExtractor.java:291-323 | a tag the scan pops lies inside the root, so it is no larger than the root |
| TagScanner.CandidatesUnfold | src/main/java/me/amberichu/headextractor/HeadExtractor.java:294-321 | a tree's candidates are what its root emits followed by the candidates of what the root enqueues |
| TagScanner.WorklistStep | src/main/java/me/amberichu/headextractor/HeadExtractor.java:294-321 | one turn of the loop keeps (emitted + owed) equal to the tree's candidates as a multiset and shrinks the worklist |
| TagScanner.ProcessList | src/main/java/me/amberichu/headextractor/HeadExtractor.java:298-319 | the list arm emits and enqueues what the specification says for that list |
| TagScanner.ProcessPopped | src/main/java/me/amberichu/headextractor/HeadExtractor.java:294-321 | the loop body for one popped tag emits `Emitted(tag)` and enqueues `Enqueued(tag)` |
| TagScanner.ProcessTag | src/main/java/me/amberichu/headextractor/HeadExtractor.java:291-324 | the FIFO worklist loop terminates and emits the multiset of candidates of the recursive specification |
| TagScanner.CandidatesOfElement | src/main/java/me/amberichu/headextractor/HeadExtractor.java:297 | each child's candidates are included (as a multiset) in the candidates of its siblings together |
| TagScanner.VisitedEmissionsIncluded | src/main/java/me/amberichu/headextractor/HeadExtractor.java:291-323 | every tag the scan reaches through compounds and descended lists contributes all it emits; in particular every reachable String tag goes to the text scanner |
| TagScanner.CandidatesComeFromVisits | src/main/java/me/amberichu/headextractor/HeadExtractor.java:291-323 | conversely, every candidate is emitted by some tag the scan reaches |
| TagScanner.CandidateIndex | src/main/java/me/amberichu/headextractor/HeadExtractor.java:297 | a candidate of a list of children comes from one child |
| TagScanner.InertListContributesNothing | src/main/java/me/amberichu/headextractor/HeadExtractor.java:299-303 | a list whose element kind is not String, List or Compound yields nothing and nothing inside it is visited |
| TagScanner.TexturesListRule | src/main/java/me/amberichu/headextractor/HeadExtractor.java:304-309 | a `textures` list yields exactly the first element's String "Value"; nothing else in it is emitted or visited |
| TagScanner.PropertiesListRule | src/main/java/me/amberichu/headextractor/HeadExtractor.java:310-316 | a `properties` list yields the first element's String "value" iff its String "name" is "textures"; it is never descended into |
| TagScanner.LegacyHeadExample | src/main/java/me/amberichu/headextractor/HeadExtractor.java:304-309 | a compound with a `textures` list whose Value is "ABC123==" yields exactly that string |
| TagScanner.PropertiesExample | src/main/java/me/amberichu/headextractor/HeadExtractor.java:310-316 | name "textures" yields the value; any other name yields nothing |
| Region.ToInt | src/main/java/me/amberichu/headextractor/HeadExtractor.java:270 | the Java `int` of x is in the 32-bit range and congruent to x modulo 2^32 |
| Region.Word | src/main/java/me/amberichu/headextractor/HeadExtractor.java:264 | a big-endian word is below 2^32 |
| Region.GetInt | src/main/java/me/amberichu/headextractor/HeadExtractor.java:264 | `getInt` succeeds iff the four bytes lie in the buffer, and then gives the signed 32-bit reading of the big-endian word |
| Region.SectorNumber | src/main/java/me/amberichu/headextractor/HeadExtractor.java:270 | `(location >> 8) & 0xFFFFFF` is below 2^24 and is bits 8-31 of the location's 32-bit pattern, whatever its sign |
| Region.ChunkOffset | src/main/java/me/amberichu/headextractor/HeadExtractor.java:270 | the offset is a Java `int` and always a multiple of 4096, even when the product wraps negative |
| Region.Decompressed | src/main/java/me/amberichu/headextractor/HeadExtractor.java:277-283 | compression 1 selects gzip, 2 selects zlib, any other value the raw payload, and the payload is passed on unchanged |
| Region.SlotAt | src/main/java/me/amberichu/headextractor/HeadExtractor.java:264 | a location word past the end of the file makes the slot throw an unchecked exception |
| Region.ChunkAt | src/main/java/me/amberichu/headextractor/HeadExtractor.java:270-275 | a chunk is never skipped once its location word is non-zero, and a header starting outside the file, or without its compression byte in the file, throws an unchecked exception |
| Region.ReadFrom | src/main/java/me/amberichu/headextractor/HeadExtractor.java:263-285 | the loop from slot i decodes at most one chunk per remaining slot |
| Region.ReadArchive | src/main/java/me/amberichu/headextractor/HeadExtractor.java:259-289 | a file larger than `Integer.MAX_VALUE` bytes, or shorter than one location word, fails with an unchecked exception before any chunk; at most 1024 chunks are read |
| Region.ReadSlot | src/main/java/me/amberichu/headextractor/HeadExtractor.java:264-283 | reading one slot (location word, header, payload, decompressor) gives the slot of the specification |
| Region.ProcessMCA | src/main/java/me/amberichu/headextractor/HeadExtractor.java:259-289 | the 1024-slot loop returns the specification's outcome: all chunks, the chunks before a caught `IOException`, or the chunks before an unchecked exception |
| Region.AbsentIffZero | src/main/java/me/amberichu/headextractor/HeadExtractor.java:264-268 | a slot is skipped exactly when its location word is 0 |
| Region.SectorOfWord | src/main/java/me/amberichu/headextractor/HeadExtractor.java:270 | the shift and mask read bits 8-31 of the unsigned word, whatever its sign as an `int` |
| Region.OffsetOfSector | src/main/java/me/amberichu/headextractor/HeadExtractor.java:270 | the 32-bit product sector x 4096 keeps the sector's low 20 bits and is the plain product below 2^19 |
| Region.OffsetOfWord | src/main/java/me/amberichu/headextractor/HeadExtractor.java:270 | a non-negative offset is (bits 8-31) x 4096 mod 2^32 and a multiple of 4096 |
| Region.ChunkLayout | src/main/java/me/amberichu/headextractor/HeadExtractor.java:271-283 | a present chunk has a length word of at least 1, lies inside the file, and its stream wraps the (length word - 1) bytes after the compression byte |
| Region.PresentLocation | src/main/java/me/amberichu/headextractor/HeadExtractor.java:264-270 | a present slot has a non-zero location word and is the chunk at the offset that word names |
| Region.PresentChunkLayout | src/main/java/me/amberichu/headextractor/HeadExtractor.java:263-283 | a present chunk's offset is (bits 8-31) x 4096 mod 2^32, a non-negative multiple of 4096, with payload of (length word - 1) bytes from offset + 5 and the decompressor chosen by the byte at offset + 4 |
| Region.SectorCountIgnored | src/main/java/me/amberichu/headextractor/HeadExtractor.java:270 | the low byte of the location word (sector count) does not affect the offset |
| Region.OffsetWraps | src/main/java/me/amberichu/headextractor/HeadExtractor.java:270 | sector 2^19 gives offset -2^31 and sector 2^20 gives offset 0 |
| Region.FirstStopDecides | src/main/java/me/amberichu/headextractor/HeadExtractor.java:263-288 | the first slot that throws decides the outcome (crash iff it is an unchecked exception); later slots are never read |
| Region.NoStopCompletes | src/main/java/me/amberichu/headextractor/HeadExtractor.java:263-284 | without a throwing slot every slot is read |
| Region.EmptyArchiveCrashes | src/main/java/me/amberichu/headextractor/HeadExtractor.java:264 | a zero-byte file fails on the first `getInt` with no chunk read |
| Region.ShortArchiveCaught | src/main/java/me/amberichu/headextractor/HeadExtractor.java:264-287 | a file shorter than the location table can still end in a caught `IOException`: slot 0 names sector 0 with an empty payload whose decoding fails |
| Validator.Get | src/main/java/me/amberichu/headextractor/HeadExtractor.java:340 | `get` answers a node iff the node is an object holding that key |
| Validator.IsProfile | src/main/java/me/amberichu/headextractor/HeadExtractor.java:333-355 | the profile shape holds iff the path textures, SKIN, url through `get` reaches a textual node, so `get` answering non-null already implies each object check |
| Validator.ValidateHead | src/main/java/me/amberichu/headextractor/HeadExtractor.java:333-355 | true iff the head decodes and parses to an object whose "textures" is an object whose "SKIN" is an object holding a textual "url" |
| Validator.ProfileExamples | src/main/java/me/amberichu/headextractor/HeadExtractor.java:333-355 | a full profile validates; `{"textures":{}}`, a non-object SKIN and a decode failure do not |
| Coordinator.KeepRegular | src/main/java/me/amberichu/headextractor/HeadExtractor.java:194 | the kept entries are exactly the regular files whose name ends with the bare suffix |
| Coordinator.GatherMCA | src/main/java/me/amberichu/headextractor/HeadExtractor.java:178-196 | the archives are exactly the regular files ending in "mca" in entities/ (if flagged) and region/ (if flagged) |
| Coordinator.GatherPlayerData | src/main/java/me/amberichu/headextractor/HeadExtractor.java:198-211 | the data files are exactly the regular files ending in "dat" in playerdata/ and level.dat |
| Coordinator.TextFiles | src/main/java/me/amberichu/headextractor/HeadExtractor.java:232-249 | the scanned pack files are exactly the regular files ending in "json" or "mcfunction" |
| Coordinator.TextFilesOfRoots | src/main/java/me/amberichu/headextractor/HeadExtractor.java:225 | the files scanned in a zip file system are exactly the text files of some root |
| Coordinator.PackEntryFiles | src/main/java/me/amberichu/headextractor/HeadExtractor.java:221-227 | an entry fails iff it is a regular file ending in "zip" that cannot be opened; otherwise it hands over exactly the text files of a directory's walk or of the zip's roots, and nothing for any other entry |
| Coordinator.PackTextFiles | src/main/java/me/amberichu/headextractor/HeadExtractor.java:213-230 | gathering data packs fails iff some regular file ending in "zip" cannot be opened as a zip file system; otherwise the scanned files are exactly those some entry selects |
| Coordinator.McaJobs | src/main/java/me/amberichu/headextractor/HeadExtractor.java:158-160 | one archive task per gathered file, in order |
| Coordinator.DatJobs | src/main/java/me/amberichu/headextractor/HeadExtractor.java:163-165 | one data-file task per gathered file, in order |
| Coordinator.TextJobs | src/main/java/me/amberichu/headextractor/HeadExtractor.java:235-239 | one read-and-scan per selected pack file, in order |
| Coordinator.JobsMembership | src/main/java/me/amberichu/headextractor/HeadExtractor.java:158-165 | a task list holds exactly one kind of task, for exactly the files it was built from |
| Coordinator.WorldJobs | src/main/java/me/amberichu/headextractor/HeadExtractor.java:156-167 | a world's work fails iff data packs are requested, datapacks/ is a directory and a zip file in it cannot be opened |
| Coordinator.WorldJobsMembership | src/main/java/me/amberichu/headextractor/HeadExtractor.java:156-167 | archive tasks appear only when entity or region files are requested, data-file tasks only when player data is, text tasks only when data packs are, each for exactly the files the matching gather function selects |
| Coordinator.RunJob | src/main/java/me/amberichu/headextractor/HeadExtractor.java:232-257 | only an archive task can let an exception escape; a data file or text file whose read throws `IOException` hands nothing to the consumer |
| Coordinator.AcceptedSameElements | src/main/java/me/amberichu/headextractor/HeadExtractor.java:150-154 | the consumer's verdicts depend only on which candidates arrive, not on order or repetition |
| Coordinator.Consume | src/main/java/me/amberichu/headextractor/HeadExtractor.java:150-154 | the consumer adds exactly the candidates that validate to the shared set |
| Coordinator.ProcessArchive | src/main/java/me/amberichu/headextractor/HeadExtractor.java:259-289 | an archive task adds the validated candidates of every chunk read, and escapes exactly when `processMCA` crashes |
| Coordinator.ProcessJob | src/main/java/me/amberichu/headextractor/HeadExtractor.java:156-167 | one unit of work adds its validated candidates and reports whether an exception escapes it |
| Coordinator.ProcessWork | src/main/java/me/amberichu/headextractor/HeadExtractor.java:156-167 | a world's units of work add the union of their validated candidates |
| Coordinator.UnionAppend | src/main/java/me/amberichu/headextractor/HeadExtractor.java:144 | results of successive batches of work accumulate in one set |
| Coordinator.AllJobsPrefix | src/main/java/me/amberichu/headextractor/HeadExtractor.java:156-168 | once gathering throws for a world, the whole call throws |
| Coordinator.ExtractHeads | src/main/java/me/amberichu/headextractor/HeadExtractor.java:142-176 | the sequentialised `extractHeads` returns the specification's result |
| Coordinator.Extract | src/main/java/me/amberichu/headextractor/HeadExtractor.java:142-176 | as written, the call fails iff some flag is set and either a data-pack zip cannot be opened or some task lets an exception escape; when it returns heads they are those of the corrected specification |
| Coordinator.ExtractScoped | src/main/java/me/amberichu/headextractor/HeadExtractor.java:286 | corrected, the call fails only when a data-pack zip cannot be opened |
| Coordinator.NoFlagsNoHeads | src/main/java/me/amberichu/headextractor/HeadExtractor.java:145 | with every flag off the result is the empty set |
| Coordinator.UnionMembership | src/main/java/me/amberichu/headextractor/HeadExtractor.java:150-154 | a head is in the set iff it validates and some unit of work hands it to the consumer |
| Coordinator.ExtractedHeads | src/main/java/me/amberichu/headextractor/HeadExtractor.java:144-154 | a returned head is exactly a validated candidate of some unit of work of the given worlds; duplicates collapse |
| Coordinator.ScheduleIrrelevant | src/main/java/me/amberichu/headextractor/HeadExtractor.java:147-171 | the result and the failure do not depend on the order the pool runs the tasks |
| Coordinator.AllJobsMembership | src/main/java/me/amberichu/headextractor/HeadExtractor.java:156-168 | the work of the worlds is the work of each world, and gathering fails iff it fails for one world |
| Coordinator.WorldOrderIrrelevant | src/main/java/me/amberichu/headextractor/HeadExtractor.java:142 | any enumeration of the same set of worlds gives the same result |
| Coordinator.EmptyArchiveRun | src/main/java/me/amberichu/headextractor/HeadExtractor.java:264 | a zero-byte archive hands nothing to the consumer and its exception escapes |
| Coordinator.GatherWithEmptyFile | src/main/java/me/amberichu/headextractor/HeadExtractor.java:178-196 | adding a zero-byte "mca" file to region/ adds exactly that file to the gathered archives when region files are requested |
| Coordinator.WorldJobsWithEmptyFile | src/main/java/me/amberichu/headextractor/HeadExtractor.java:178-196 | adding a zero-byte "mca" file to region/ adds exactly one archive task when region files are read, and nothing else |
| Coordinator.EmptyRegionFileAborts | src/main/java/me/amberichu/headextractor/HeadExtractor.java:171 | as written, a zero-byte region file in any world makes the call throw |
| Coordinator.EmptyRegionFileSkipped | src/main/java/me/amberichu/headextractor/HeadExtractor.java:286 | corrected, a zero-byte region file changes nothing in the result |
| Coordinator.ScopedAgrees | src/main/java/me/amberichu/headextractor/HeadExtractor.java:171 | the correction agrees with the code whenever no task throws |

## Left out

- `main` (lines 79-130): flag parsing, usage text and the world-path checks are process glue.
- The thread pool, futures, `join()` and `shutdownNow` are concurrency. `Coordinator.ExtractHeads` runs the units of work one after another, and `Coordinator.ScheduleIrrelevant` shows the order does not matter. Not modelled: the pool size is `availableProcessors() - 1`, so on a single-processor machine the pool cannot be created and the call throws. When `join()` or the data-pack gathering throws, `shutdownNow` is never reached.
- Files are given as data: listings, bytes, walks and zip roots. These are not modelled: errors of `Files.list`, an archive that cannot be opened or mapped (`FileChannel.open`), errors raised while a `Files.walk` stream is consumed, and symbolic links.
- gzip (RFC 1952), zlib (RFC 1950), the NBT decoder, Base64 and Jackson are library calls. They are parameters that either produce a value or report the exception the surrounding code catches. Other unchecked exceptions inside the NBT decoder and the decompressing streams are not modelled.
- Logging: the messages `System.err.println` writes at lines 241, 247, 255 and 287 are output only. The model keeps what each catch does to the result and drops the text.
- A null root: `Option<Tag>` cannot express the null that `NBTIO.readTag` or `NBTIO.readFile` may return (OpenNBT does so for an End tag id). `tags.add(null)` at line 293 then throws `NullPointerException`. That exception escapes `processMCA` or `processDAT` and makes `join()` fail, as `Region.Crash` does for an archive, but the model does not produce it.
- Numeric and array tag payloads (including Float and Double) are never inspected by the scan. They are modelled only by their kind.
- TagScanner.ProcessTag: the ensures is multiset equality with the recursive specification, not sequence equality. The breadth-first emission order differs from the specification's depth-first order, and the consumer only inserts into a set (`Coordinator.AcceptedSameElements`).
- Coordinator.ExtractHeads: it follows the code as written. `Coordinator.ExtractScoped` is the corrected specification from Findings, and `Coordinator.ScopedAgrees` relates the two.

## Findings

| source | as written | input that shows it | evidently intended | confidence | as-written member | corrected member |
|---|---|---|---|---|---|---|
| src/main/java/me/amberichu/headextractor/HeadExtractor.java:264 | a zero-byte region file makes the first `getInt` throw `IndexOutOfBoundsException`; more generally, any unchecked exception while reading a region file (an index outside the file, a negative length) is not caught, because line 286 catches only `IOException`. The task fails, `join()` at line 171 throws, and `extractHeads` returns no heads at all | a world whose region/ holds a zero-byte `r.0.0.mca`, with region files selected | the file is reported and skipped like one whose decoding throws `IOException`, and the other files' heads are still returned | high; not executed | Coordinator.EmptyRegionFileAborts | Coordinator.EmptyRegionFileSkipped |
