# Tor Browser build tools, modelled and proved

The build repository of Tor Browser is mostly plumbing, but some of its scripts hold
self-contained algorithms. This project models six groups of them in Dafny and proves
what they are for.

- **The macOS package reader** (`Streams`, `PbzxContainer`, `PbzxFormat`, `OctalFields`,
  `OctalSpellings`, `Cpio`, `CpioStream`, `CpioReach`, `CpioCuts`, `CpioReader`,
  `UnpackSdk`, `StreamExtraction`, `ExtractionCuts`, `CutEffects`, `ExtractPayload`,
  `HardLinks`, `PackageEndToEnd`, `PackedMembers`, `PlacedMembers`, `DamagedPackages`).
  A stack of byte streams is read by a cpio parser, whose members go through a table of
  hard links into files. A stream is modelled as the stretches that single reads end at,
  so every contract holds for any chunks, empty ones included; the theorems about
  archives say exactly when the stretches matter. The streams, the parser and the
  extractor are classes with the fields of the original; their methods are proved
  against functions (`ItemAt`, `ExtractAt`), and those against functions on plain bytes
  (`ParseArchive`, `Extraction`).
- **The manual rewriter** (`HtmlReading`, `HtmlWriting`, `Manual`, `ManualParser`,
  `ManualEvents`, `ManualSafety`, `ManualLinks`, `ManualAddresses`, `ManualBody`,
  `ManualExamples`, `ManualPackage`, `ManualImages`). `Manual` is the event-driven state
  machine; `ManualParser` is the class that updates its fields and text and is proved to
  follow it; `ManualEvents` says, on the events alone, what each of them leaves in the
  text and which documents are accepted. `HtmlReading` is an independent reader, the
  tokenizer of section 13.2.5 of the WHATWG HTML standard.
- **The profile canonicaliser** (`ByteOrder`, `Profm`, `ProfmCanonical`, `ProfmFiles`).
- **Windows quoting and argument vectors** (`Quoting`, `WordSplitting`,
  `WindresOptions`, `Windres`, `WindresCommandLine`, `WindresCommands`). `Quoting` holds
  the argument rules of the Microsoft C runtime as the reader that quoting is measured
  against.
- **Release selection** (`Scanning`, `Numerals`, `Versions`, `VersionTexts`,
  `VersionOrder`, `Releases`, `ReleaseExamples`, `RbmConf`, `ReleasePreparation`).
- **Two text transformations**: renaming branding ids (`BrandingStrings`,
  `BrandingRenames`, `BrandingKeys`, `BrandingIds`, `BrandingOutput`,
  `PropertiesOutput`) and the changelog (`ChangelogEntries`, `ChangelogText`,
  `ChangelogBuilder`, `ChangelogOrder`).

`Wrappers`, `ByteStrings` and `Sorting` are shared: `Sorting` proves a stable sort once,
over any order.

Compression, URL and path handling, and exit codes of other programs are parameters:
functions about which only what is written down is known.

## Findings

- A read of a PBZX stream ends at an empty decoded chunk still to come, and is
  full-length if and only if it does not have to pass one with data behind it
  (`Streams.Pbzx.Read`, `Streams.Pbzx.ReachesAllIff`). The first chunk may be empty. The
  extraction does not notice such a cut in contents that it copies or skips, unless a
  read of 65536 or of 4096 bytes ends there, and notices it in a header, a name, or
  contents that it takes in one read (`ExtractionCuts.KeepsPaceIff`,
  `DamagedPackages.OneCutIff`). One inside the first header loses everything
  (`PackageEndToEnd.EmptyChunkInHeader`); one that leaves a file short is not reported
  (`DamagedPackages.CutIsSilent`). A consumer that reads each member at once is given
  the archive if and only if no cut stands in it (`CpioReach.SightIff`).
- A cpio trailer may declare a name longer than what is left of the stream; it is still
  accepted (`Cpio.IsTrailer`).
- The last record of a profile may be cut short in its class ids and is accepted; the
  output then reads back if and only if that record also sorts last
  (`ProfmCanonical.OutputReadsBackIff`), and is refused for the payload of
  `ProfmCanonical.CutRecordIsMisread`. Two different records with one key have no
  canonical form (`ProfmCanonical.CanonicalIff`).
- A self-closed body tag leaves the parser's flag set for good, which the final check
  always catches (`ManualSafety.SelfClosedBodyIsRejected`).
- A reference to a heading of the top page loses the page name and so never meets the
  heading's id (`ManualPackage.TopPageHeadingsAreMissed`;
  `ManualPackage.LinkMeetsHeading` says which references do). Unless another element has
  the id that it then names, the final check rejects the document, so no dead link is
  shipped (`ManualLinks.AcceptedLinks`).
- Text in a `style` element is escaped like any other, which browsers do not undo: a
  document reads back if and only if such text needs no escapes
  (`ManualBody.AcceptedBodyReadsBackIff`; `ManualExamples.StyleSheetIsMisread` is an
  accepted document that does not).
- Two spaces in a row in a preprocessor command make an empty word, as two quotes do,
  except that at the end of the command it is dropped (`WordSplitting.EmptyOrLostIff`,
  `WordSplitting.QuotedEmptyWordIsLost`).
- Escaping serves every argument but the program's own name, which reads back if and
  only if it has no quote and does not end in a backslash
  (`Quoting.CommandReadsBackIff`).
- The early end of the tag scan is harmless for two projects, and in general if and only
  if the tags ask for no more than the table holds (`Releases.CompleteIff`); with three
  projects it can lose a release (`ReleaseExamples.ThirdProjectCanBeLost`), and it can
  miss the current version's last build (`ReleaseExamples.LastBuildCanBeMissed`). The
  command line's `--incrementals` is stored under another key than the one read, so N is
  always the default there.
- Major versions are compared as texts: in order for numbers of as many digits
  (`VersionOrder.MajorsInOrder`), but 100.0 would come before 99.0
  (`VersionOrder.HundredComesFirst`).
- Unequal versions can tie in the order (`VersionTexts.UnequalVersionsCanTie`); among
  tidy texts, and no larger set, they cannot (`VersionTexts.TidyIffTiesAreEqual`).
- In properties files a value is renamed as if it were an id if and only if it follows
  its key behind white space alone (`BrandingKeys.FoundAreKeysIff`,
  `BrandingRenames.PropertyValueIsTakenForId`).
- The Go update is counted as one platform though it names three, so the build list can
  repeat a heading (`ChangelogText.GoCanSplitAHeading`).

## Model

| member | source | states |
|---|---|---|
| `Streams.ByteFile.Read` | projects/macosx-toolchain/macpkg.py:59 | A file gives the bytes at its position, fewer only at its end, and moves past them |
| `Streams.ReadConserves` | projects/macosx-toolchain/macpkg.py:142-155 | Whatever the chunks, what a read returns and what is left make up what was there |
| `Streams.ExactReads` | projects/macosx-toolchain/macpkg.py:142-155 | With nothing out of reach, `read(n)` gives exactly min(n, remaining) bytes, `read(None)` everything, and nothing gets out of reach |
| `Streams.FullReadIff` | projects/macosx-toolchain/macpkg.py:142-155 | A read of n bytes is full-length if and only if its stretch is long enough or nothing lies beyond that stretch |
| `Streams.InReachIff` | projects/macosx-toolchain/macpkg.py:152 | Everything is in reach if and only if the chunks still to come are empty only at their end, whatever is at hand |
| `Streams.OpenedConcat` | projects/macosx-toolchain/macpkg.py:100-115 | The stretches of a new reader concatenate to the chunks' bytes |
| `Streams.Pbzx.ReachesAllIff` | projects/macosx-toolchain/macpkg.py:142-155 | For a reader in any state: one read can return every byte left if and only if no data follows an empty chunk still to come |
| `Streams.Pbzx.constructor` | projects/macosx-toolchain/macpkg.py:100-115 | A new reader stands before the concatenation of its chunks, and reaches all of it if and only if, the first chunk aside, chunks are empty only at the end |
| `Streams.Pbzx.InitOneChunk` | projects/macosx-toolchain/macpkg.py:138-140 | The next chunk becomes current and is removed from the source; at the end the chunk is empty |
| `Streams.Pbzx.Read` | projects/macosx-toolchain/macpkg.py:142-155 | For any reader and chunks: the result and what is left are those of one read from the stretches; it is full-length if and only if it ends in the first stretch or no data follows an empty chunk still to come; the recursion ends on the chunks left |
| `Streams.FileObj.Read` | projects/macosx-toolchain/macpkg.py:172 | The same effect whether a window wraps a file or a PBZX stream |
| `Streams.ViewInside` | projects/macosx-toolchain/macpkg.py:167-174 | A read through a window that lies in reach gives the window's front, and moves neither its end nor what is behind it |
| `Streams.Take.Read` | projects/macosx-toolchain/macpkg.py:167-174 | For any stream, what the window gives and leaves is one view of it: never more than `limit` bytes, and what it takes leaves the limit |
| `Streams.ZlibFile.NextOutput` | projects/macosx-toolchain/macpkg.py:31-34 | Feeding the next block moves output from "ahead" to "at hand" without changing their concatenation, even when the output is empty |
| `Streams.ZlibFile.Fill` | projects/macosx-toolchain/macpkg.py:30-37 | One turn of the loop keeps result plus remaining output, and leaves an empty buffer while the request is unmet |
| `Streams.ZlibFile.Read` | projects/macosx-toolchain/macpkg.py:26-38 | Exactly min(n, remaining) bytes of the decompressed stream for any block boundaries; the buffer is empty whenever fewer than n came |
| `PbzxContainer.Source.Read` | projects/macosx-toolchain/macpkg.py:26-38 | A plain or a deflated package member is read exactly |
| `PbzxContainer.Chunker` | projects/macosx-toolchain/macpkg.py:117-127 | The loop yields the chunks the bytes divide into, or the error of a short header |
| `PbzxContainer.Open` | projects/macosx-toolchain/macpkg.py:100-115 | A stream over the decompressed chunks, or the error for wrong magic, short or corrupted payloads |
| `PbzxContainer.SplitPackedChunk` | projects/macosx-toolchain/macpkg.py:119-127 | A packed chunk at the front of any bytes is split off with its sizes and data |
| `PbzxContainer.UnpackPacked` | projects/macosx-toolchain/macpkg.py:129-136 | Every packed list of chunks splits and decompresses to the data it was packed from |
| `PbzxContainer.ContainerRoundTrip` | projects/macosx-toolchain/macpkg.py:100-136 | Any list of chunks, each stored or compressed, reads back unchanged from the container |
| `PbzxFormat.PayloadIff` | projects/macosx-toolchain/macpkg.py:100-136 | Any bytes are accepted, giving certain data, if and only if they are the magic number, eight bytes, and chunks of sizes and data, of which the last may be cut short, that give these data: as they are when the sizes are equal, decompressed to the announced size otherwise |
| `OctalFields.DigitsRead` | projects/macosx-toolchain/macpkg.py:201-206 | A field of octal digits between blanks is read as their number |
| `OctalFields.PackThenParse` | projects/macosx-toolchain/macpkg.py:201-206 | An octal field written with enough digits reads back as its number |
| `OctalFields.ParseThenPack` | projects/macosx-toolchain/macpkg.py:201-206 | A field of octal digits is the field written for its number: of those fields each number has just one per width |
| `OctalSpellings.SpelledIsRead` | projects/macosx-toolchain/macpkg.py:201-206 | A number in octal digits with single underscores between them, behind a sign or none and the prefix `0o` or none, in blanks or not, is read as that number |
| `OctalSpellings.ReadIsSpelled` | projects/macosx-toolchain/macpkg.py:201-206 | Whatever is read is spelled in one of these ways, and is that number |
| `Cpio.ItemShrinks` | projects/macosx-toolchain/macpkg.py:181-213 | Each item consumes bytes, so the loop ends |
| `Cpio.StandardFits` | projects/macosx-toolchain/macpkg.py:201-206 | Every member whose numbers fit has a header of octal digits that is read as those numbers |
| `Cpio.ParseEncodedItem` | projects/macosx-toolchain/macpkg.py:182-221 | Parsing an encoded header and name gives those fields, whatever follows |
| `Cpio.ParseEncodedTrailer` | projects/macosx-toolchain/macpkg.py:211-212 | A trailer ends the archive with what follows it unread |
| `Cpio.ParseEncodedMember` | projects/macosx-toolchain/macpkg.py:182-224 | An encoded member is the first entry, and parsing goes on right behind its data |
| `Cpio.DecodeEncoded` | projects/macosx-toolchain/macpkg.py:180-224 | Every encoded list of members reads back as exactly those members in order, with one leading "." and then "/" dropped, up to the trailer |
| `Cpio.EncodeParsedItem` | projects/macosx-toolchain/macpkg.py:182-221 | Every item that parses, whatever blanks, signs or prefixes its number fields hold, is the encoding of a header with those fields |
| `Cpio.EncodeDecoded` | projects/macosx-toolchain/macpkg.py:180-224 | Conversely every stream read to its trailer is the encoding of members that decode to those it gave |
| `Cpio.NameIsRead` | projects/macosx-toolchain/macpkg.py:209-219 | Every member is read with a name: one written "./" + n or "/" + n is read as n, "." + n with n not beginning with a slash as n, any other as it stands; only "TRAILER!!!" ends the archive |
| `Cpio.NamesDecoded` | projects/macosx-toolchain/macpkg.py:209-219 | So it is for every member of an encoded archive, in order |
| `Cpio.ClimbsUpIff` | projects/macosx-toolchain/macpkg.py:218-219 | A name is refused if and only if `..` stands in it as a part: the whole name, or next to slashes |
| `PackedMembers.KindInTheMode` | projects/macosx-toolchain/macpkg.py:201-206 | A member is a directory, file or link by the octal digits 04, 10 or 12 at two places of its written header |
| `PackedMembers.LinkedInTheCount` | projects/macosx-toolchain/macpkg.py:201-206 | It is one of several links if and only if it is a file and the number in the six characters of the link count is above 1 |
| `PackedMembers.KeyInTheHeader` | projects/macosx-toolchain/macpkg.py:201-206 | Two members have one key if and only if their headers agree in the numbers of the device and inode fields |
| `CpioStream.DrainedShrinks` | projects/macosx-toolchain/macpkg.py:180-224 | On any stretches each turn of the loop leaves less to read, so the loop ends |
| `CpioReader.Uncpio.ReadContent` | projects/macosx-toolchain/macpkg.py:220-223 | Reading a member's contents is a view of its window, on any stretches |
| `CpioReader.Uncpio.Drain` | projects/macosx-toolchain/macpkg.py:223-224 | Reading on until nothing comes leaves the stream where the specification of the draining loop ends |
| `CpioReader.Uncpio.ReadHead` | projects/macosx-toolchain/macpkg.py:182-206 | Magic and header come from two reads, each of which may be short; the header is parsed or is its error |
| `CpioReader.Uncpio.Next` | projects/macosx-toolchain/macpkg.py:181-221 | On any stretches, the next item with a window on its contents, or its error |
| `CpioReader.ReadSome` | projects/macosx-toolchain/macpkg.py:221 | A consumer that makes any reads gets what those views give, one after another |
| `CpioReader.Consume` | projects/macosx-toolchain/macpkg.py:180-224 | For every pattern of reads by the consumer and any chunks, what the class's loop yields is what the specification says is seen |
| `CpioReach.SightInReach` | projects/macosx-toolchain/macpkg.py:180-224 | From a stream with the archive in its first stretch, every consumer gets the archive's members in order up to the trailer or first error, contents whole where it reads without a length |
| `CpioReach.SightIff` | projects/macosx-toolchain/macpkg.py:142-224 | A consumer that reads each member with one unlimited read is given exactly the archive if and only if the first stretch holds it through its trailer's name |
| `ExtractPayload.Extractor.AddLink` | projects/macosx-toolchain/unpack-sdk.py:78-80 | A new two-element list enters the table under its key; other entries are untouched |
| `ExtractPayload.Extractor.UseLink` | projects/macosx-toolchain/unpack-sdk.py:67-76 | The count drops, the entry goes at zero, and the held path replaces buffered data only for a selected member |
| `ExtractPayload.Extractor.RouteLinks` | projects/macosx-toolchain/unpack-sdk.py:65-81 | The in-place table is the routed table, and contents come from the stream, the buffer or a path as routed |
| `ExtractPayload.Extractor.CopyFileObj` | projects/macosx-toolchain/unpack-sdk.py:99 | Copying a buffer at a time takes what the specification of that loop takes of the member |
| `ExtractPayload.Extractor.Create` | projects/macosx-toolchain/unpack-sdk.py:85-101 | Directories, symbolic links, hard links and files are created as specified, with the partial effect of a failure |
| `ExtractPayload.Extractor.Handle` | projects/macosx-toolchain/unpack-sdk.py:49-101 | One turn of the loop is one step of the specification on table and file system together |
| `ExtractPayload.Extractor.Turn` | projects/macosx-toolchain/unpack-sdk.py:49-101 | Fetching and handling the next member is that member's step, or the end of the archive |
| `ExtractPayload.Extractor.Run` | projects/macosx-toolchain/unpack-sdk.py:47-101 | The whole loop on any stretches, up to the first error, leaves the specified table and files |
| `CpioCuts.ExhaustIff` | projects/macosx-toolchain/unpack-sdk.py:99 | Reading a buffer at a time, as copying and draining do, gets all of a window if and only if none of the reads ends where a stretch does and more is wanted |
| `CpioCuts.ItemWhole` | projects/macosx-toolchain/macpkg.py:182-221 | When magic, header and name lie in one stretch, the next item is the archive's own, with a window on its contents |
| `CpioCuts.ItemCut` | projects/macosx-toolchain/macpkg.py:182-221 | When they do not, the reads never find the archive's item: they find another name, an early end, or an error |
| `ExtractionCuts.ExtractionInReach` | projects/macosx-toolchain/unpack-sdk.py:47-101 | With the archive in reach, extracting from the stream is extracting the parsed archive |
| `ExtractionCuts.InReachIsSmooth` | projects/macosx-toolchain/unpack-sdk.py:47-101 | An archive in reach has no cut that its extraction notices |
| `ExtractionCuts.ExtractThrough` | projects/macosx-toolchain/unpack-sdk.py:47-101 | From any state and any stretches, through cuts that are not noticed, the loop does what the archive says, errors included: headers and names, and contents taken in one read, lie in one stretch, and no read of copied or skipped contents ends at a cut |
| `ExtractionCuts.ExtractionThrough` | projects/macosx-toolchain/unpack-sdk.py:47-101 | From the start that is the extraction of the archive |
| `ExtractionCuts.KeepsPaceIff` | projects/macosx-toolchain/unpack-sdk.py:47-101 | For an archive with a trailer and any stretches: each turn of the loop finds the archive's own item, gets all the contents it wants and stops right behind them, if and only if no cut is noticed |
| `CutEffects.OneCut` | projects/macosx-toolchain/unpack-sdk.py:47-101 | What one cut anywhere does to the extraction: nothing; or one member's contents end at the cut; or the named error after the members before; but for a loop that finds the magic of a header where a read was cut |
| `DamagedPackages.OneCutIff` | projects/macosx-toolchain/unpack-sdk.py:47-101 | A package that extracts cleanly is extracted the same with one cut if and only if its reads do not notice it, where the loop is not misled and contents cut short are ones that reach the output directory |
| `DamagedPackages.ShortIsSilent` | projects/macosx-toolchain/unpack-sdk.py:47-101 | With one member's contents short, the extraction succeeds with the short contents in every file of its group |
| `DamagedPackages.CutIsSilent` | projects/macosx-toolchain/unpack-sdk.py:47-101 | A cut that leaves contents short is not reported: the extraction succeeds, and the files hold only what is in front of the cut |
| `StreamExtraction.HeaderCutShort` | projects/macosx-toolchain/macpkg.py:142-187 | An empty chunk anywhere inside a header, and everything behind it: the header counts as too short, nothing is seen and nothing extracted |
| `StreamExtraction.RunStuck` | projects/macosx-toolchain/unpack-sdk.py:101 | After an error no later member has any effect |
| `ExtractPayload.ExtractPayload` | projects/macosx-toolchain/unpack-sdk.py:47-101 | From the container's bytes to files, for any chunks; where no cut is noticed, the extraction of the archive in the concatenated chunks |
| `UnpackSdk.FileSystem.MakeSpotIff` | projects/macosx-toolchain/unpack-sdk.py:86-90 | Making a directory with all those above it succeeds if and only if none of them is a file or link, and then makes exactly those |
| `UnpackSdk.SpellingsOfOnePlace` | projects/macosx-toolchain/unpack-sdk.py:83-90 | Slashes in a row, slashes at the end and `.` parts do not change the place that a path leads to |
| `UnpackSdk.DirnameIsAbove` | projects/macosx-toolchain/unpack-sdk.py:90 | The directory part of a path that does not name a directory leads to the place right above it |
| `UnpackSdk.DestLeads` | projects/macosx-toolchain/unpack-sdk.py:52-55 | The path of a member named prefix + rest leads to the place whose parts are those of the output directory and then those of rest, for any slashes and `.` parts between them |
| `UnpackSdk.DestEnds` | projects/macosx-toolchain/unpack-sdk.py:52-55 | That path is empty if and only if the output directory is and only slashes are left of the name; it is empty or names a directory if and only if what is left of the name is or does |
| `UnpackSdk.OthersLeaveFiles` | projects/macosx-toolchain/unpack-sdk.py:53-84 | A member whose name does not begin with the prefix leaves the file system as it was |
| `PlacedMembers.FileIsWritten` | projects/macosx-toolchain/unpack-sdk.py:85-99 | Whatever is there already: a file is written if and only if no file or link is in its way and no directory or link at its place; one that is there keeps its links, which all get the data, and no other file changes |
| `PlacedMembers.FileIsLinked` | projects/macosx-toolchain/unpack-sdk.py:85-96 | A hard link is made if and only if its source is a file, the way is free and nothing is at its place; then both share one file |
| `PlacedMembers.LinkIsMade` | projects/macosx-toolchain/unpack-sdk.py:85-94 | A symbolic link is made if and only if the way is free and nothing is at its place, with the member's data as its target |
| `HardLinks.Job.JoinsOpen` | projects/macosx-toolchain/unpack-sdk.py:67-69 | A later member of a complete group always finds its group open |
| `HardLinks.Job.OneOpen` | projects/macosx-toolchain/unpack-sdk.py:66 | Two open groups never share a (dev, ino) pair, so a pair can be reused |
| `HardLinks.Job.TableStep` | projects/macosx-toolchain/unpack-sdk.py:65-81 | Each member keeps the table exact: a slot for every open group and for nothing else; a file gets its first member's data |
| `HardLinks.Job.PlaceStep` | projects/macosx-toolchain/unpack-sdk.py:85-101 | Creating a selected member succeeds, and keeps every earlier file's data and sharing |
| `HardLinks.Job.StepKeepsInv` | projects/macosx-toolchain/unpack-sdk.py:49-101 | Every member keeps the invariant of table and file system |
| `HardLinks.Job.RunKeepsInv` | projects/macosx-toolchain/unpack-sdk.py:49-101 | The invariant holds after any number of members |
| `HardLinks.ExtractionCorrect` | projects/macosx-toolchain/unpack-sdk.py:47-101 | With complete groups, and paths that lead to distinct places, however they are spelled, none of them a directory above others, extraction succeeds: every selected file holds the first group member's data even when that member was filtered out, files share an inode exactly when they are of one group, nothing else changes, and the table ends empty |
| `HardLinks.MemberLands` | projects/macosx-toolchain/unpack-sdk.py:52-101 | In such an extraction, a member named prefix + rest is found at the output directory's parts followed by those of rest, counted from the working directory when the output directory is empty, with its kind, data or target; the directories above it exist |
| `PackedMembers.PackedFileLands` | projects/macosx-toolchain/unpack-sdk.py:47-101 | From bytes to files: a member written into a packed archive as "./" + prefix + n is found, after extraction from the package, at n below the output directory, with its data |
| `HardLinks.LiveCounts` | projects/macosx-toolchain/unpack-sdk.py:69-71 | Each live count is the link count minus the members seen, and at least 1 |
| `HardLinks.CountsStayPositive` | projects/macosx-toolchain/unpack-sdk.py:69-71 | On any stream at all no table entry ever has a count below 1 |
| `PackageEndToEnd.PackThenExtract` | projects/macosx-toolchain/unpack-sdk.py:47-101 | Encode any members, cut the archive anywhere, store or compress each chunk: if the extraction notices none of the empty chunks, it creates exactly the selected members |
| `PackageEndToEnd.NonEmptyChunksAreSmooth` | projects/macosx-toolchain/macpkg.py:142-155 | That holds for every cut into chunks that are not empty |
| `PackageEndToEnd.EmptyChunkInHeader` | projects/macosx-toolchain/macpkg.py:142-155 | The same container with an empty chunk inside the first header still holds the archive, and nothing at all is extracted |
| `HtmlWriting.PrintSnoc` | projects/manual/package_marble_build_artifacts.py:149-181 | What is written is appended: the body is the printed pieces in order |
| `HtmlWriting.ReadEscapedText` | projects/manual/package_marble_build_artifacts.py:520-522 | Escaped text is read back character by character up to the next tag |
| `HtmlWriting.ReadQuotedValue` | projects/manual/package_marble_build_artifacts.py:177-179 | Every escaped, quoted attribute value is read back as the value, NUL as the standard replaces it |
| `HtmlWriting.ReadAllAttrs` | projects/manual/package_marble_build_artifacts.py:176-181 | Printed attributes are read back in order with their values, also those whose names begin with an equals sign, unless one of the tag's has no value |
| `HtmlWriting.ReadStartTag` | projects/manual/package_marble_build_artifacts.py:165-181 | A printed start tag is read back with its name, attributes and self-closing flag |
| `HtmlWriting.ReadEndTag` | projects/manual/package_marble_build_artifacts.py:157-163 | A printed end tag is read back as that end tag |
| `HtmlWriting.PrintReadsAs` | projects/manual/package_marble_build_artifacts.py:149-181 | Tokenising the printed body by section 13.2.5 of the WHATWG HTML standard gives the same tags, attributes and text, but for the contents of elements such as `style` and `textarea`, which are given as that standard reads them |
| `HtmlWriting.AsReadIff` | projects/manual/package_marble_build_artifacts.py:520-522 | Escaped text in such an element is read as it was meant if and only if it needs no escapes (where references are read: holds no NUL) |
| `HtmlWriting.PrintReadsBackIff` | projects/manual/package_marble_build_artifacts.py:149-181 | The printed body reads back as what was written if and only if no such contents need escapes; without such elements, always |
| `HtmlWriting.StyleIsMisread` | projects/manual/package_marble_build_artifacts.py:520-522 | A style sheet `a>b` comes back as `a&gt;b` |
| `ManualParser.Parser.constructor` | projects/manual/package_marble_build_artifacts.py:82-123 | A new parser is in the initial state |
| `ManualParser.Parser.AddStartTagToBody` | projects/manual/package_marble_build_artifacts.py:165-181 | Writes one start tag piece: name, attributes in order with escaped values, void tags self-closed |
| `ManualParser.Parser.AddEndTagToBody` | projects/manual/package_marble_build_artifacts.py:157-163 | Writes one end tag piece |
| `ManualParser.Parser.HandleATag` | projects/manual/package_marble_build_artifacts.py:335-383 | An anchor leaves with one of the four outcomes of the specification, and internal references are deferred |
| `ManualParser.Parser.HandleDivTag` | projects/manual/package_marble_build_artifacts.py:385-416 | Heading ids get the page of the nearest ancestor; a page inside a page is refused |
| `ManualParser.Parser.Finish` | projects/manual/package_marble_build_artifacts.py:480-492 | The tag is written in the body and becomes an ancestor unless it is void or closed |
| `ManualParser.Parser.HandleTag` | projects/manual/package_marble_build_artifacts.py:438-492 | A start tag event takes the parser's fields to the specified state, or fails with the specified error |
| `ManualParser.Parser.HandleEndTag` | projects/manual/package_marble_build_artifacts.py:502-514 | The innermost element must match; its end is written in the body, and the flag cleared by body |
| `ManualParser.Parser.HandleData` | projects/manual/package_marble_build_artifacts.py:520-524 | Text is written escaped in the body, or joins the title |
| `ManualParser.Parser.Feed` | projects/manual/package_marble_build_artifacts.py:496-534 | Every event of the underlying parser is one step of the state machine |
| `ManualParser.Parser.ProcessAll` | projects/manual/package_marble_build_artifacts.py:538-587 | A document is accepted exactly when the run and the final checks are, and then the body text and asset table are those of the final state |
| `ManualParser.ErrorStays` | projects/manual/package_marble_build_artifacts.py:546-547 | After the first error the rest of the document has no effect |
| `ManualEvents.EventIsWritten` | projects/manual/package_marble_build_artifacts.py:438-524 | In an accepted document, each event adds exactly its own pieces: a start tag of the body its tag with its attributes in order, but for the id of a repeated toggler, an image's source, a heading's id, and where an anchor leads and how it is opened; a text its own text, an end tag its own end, any other event nothing |
| `ManualEvents.EventIsRecorded` | projects/manual/package_marble_build_artifacts.py:197-281 | Each event records exactly its own: language and direction of the html tag, text of the title, a stylesheet's reference, the element that is opened or closed and the page it opens |
| `ManualEvents.EventRefers` | projects/manual/package_marble_build_artifacts.py:223-256 | Each event adds exactly the reference and the asset it names, and the internal reference of its anchor |
| `ManualEvents.ClassIff` | projects/manual/package_marble_build_artifacts.py:183-195 | An element has a class if and only if the name stands between blanks or ends of its class attribute |
| `ManualEvents.StepOkIff` | projects/manual/package_marble_build_artifacts.py:197-514 | An event is accepted if and only if each of the conditions that its tag is under holds, written out on state and event |
| `ManualEvents.RunOkIff` | projects/manual/package_marble_build_artifacts.py:438-524 | A run is accepted if and only if each of its events is, where it stands |
| `ManualEvents.ProcessOkIff` | projects/manual/package_marble_build_artifacts.py:538-563 | A document is accepted if and only if its run is, everything is closed, and language, direction, title and every internal target were found |
| `ManualSafety.StepKeepsPhase` | projects/manual/package_marble_build_artifacts.py:438-524 | Every event keeps the parser in one of four phases: before, inside, stuck in, or after the body |
| `ManualSafety.RunKeepsPhase` | projects/manual/package_marble_build_artifacts.py:438-524 | So does every run; inside the body the written pieces are balanced up to the ancestor stack, without forbidden tags, and void tags are never ancestors |
| `ManualSafety.AcceptedIsOneBody` | projects/manual/package_marble_build_artifacts.py:549-553 | What an accepted document writes is exactly one balanced body element without forbidden tags inside |
| `ManualSafety.ClosedBodySticks` | projects/manual/package_marble_build_artifacts.py:461-463 | A self-closed body sets the flag with no ancestor that could clear it |
| `ManualSafety.StepStaysStuck` | projects/manual/package_marble_build_artifacts.py:502-514 | No event clears a flag set that way |
| `ManualSafety.SelfClosedBodyIsRejected` | projects/manual/package_marble_build_artifacts.py:549-551 | A document with a self-closed body is rejected whatever comes before and after it |
| `ManualLinks.SaveIdRecords` | projects/manual/package_marble_build_artifacts.py:418-436 | The recorded ids stay distinct and grow by exactly the id that will be written |
| `ManualLinks.SwapAssetSafe` | projects/manual/package_marble_build_artifacts.py:246-256 | Recording an asset keeps every earlier reference leading to its own file |
| `ManualLinks.ConvertedHref` | projects/manual/package_marble_build_artifacts.py:299-333 | A converted reference is internal exactly when it begins with "#", and external otherwise |
| `ManualAddresses.AddressIs` | projects/manual/package_marble_build_artifacts.py:299-333 | A reference to a page by its names, from any number of pages below it and with or without a slash at the end, stays in the manual for the pages that it covers, as `#` and the names joined, and the fragment; any other leads to the support pages, with the locale unless it is English; one with a `.` among the names is refused |
| `ManualAddresses.SomeAddresses` | projects/manual/package_marble_build_artifacts.py:306-333 | Spelled out for the top page, a page two below it, and an English support page |
| `ManualAddresses.AssetNameIs` | projects/manual/package_marble_build_artifacts.py:221-248 | An asset's name is its path character by character: two underscores for a slash, one for any other that is not a letter, digit, underscore, dot or hyphen |
| `ManualAddresses.NearestPageIs` | projects/manual/package_marble_build_artifacts.py:400-408 | A heading's page is that of the innermost element around it that opens one |
| `ManualLinks.AnchorTagSafe` | projects/manual/package_marble_build_artifacts.py:335-383 | Every written anchor has no target, a recorded internal one, or an outside page in a new tab without referrer |
| `ManualLinks.StepKeepsLinks` | projects/manual/package_marble_build_artifacts.py:438-524 | Every event keeps: distinct recorded ids equal to those written, at most one open page, safe anchors, assets under their names |
| `ManualLinks.RunKeepsLinks` | projects/manual/package_marble_build_artifacts.py:335-436 | The same at any point of any run |
| `ManualLinks.NoneDangling` | projects/manual/package_marble_build_artifacts.py:559-563 | The final check passes if and only if every deferred reference names a recorded id |
| `ManualLinks.AcceptedLinks` | projects/manual/package_marble_build_artifacts.py:559-563 | In an accepted document the written ids are distinct, every anchor beginning with "#" names one of them, and images and style sheets are recorded assets |
| `ManualBody.DispatchWritable` | projects/manual/package_marble_build_artifacts.py:450-471 | Every handler leaves attributes with well-formed names, each name once, none of which a reader would take for another's value |
| `ManualBody.RunWritesWell` | projects/manual/package_marble_build_artifacts.py:438-524 | At any point of any run the tags written have well-formed names and no attribute twice |
| `ManualBody.RunStaysInStage` | projects/manual/package_marble_build_artifacts.py:438-524 | At any point of any run, what is written stands inside an element that holds only text exactly when the events do |
| `ManualBody.AcceptedBodyReadsBackIff` | projects/manual/package_marble_build_artifacts.py:438-587 | The body of every accepted run is read as `AsRead` gives it, and as what was written if and only if no `Data` event of the body stands in an element such as `style` with text that needs escapes: conditions on the events alone |
| `ManualBody.RunStaysPlain` | projects/manual/package_marble_build_artifacts.py:438-524 | At any point of any run, what is written in such elements is plain exactly when the events are |
| `ManualExamples.StyleSheetIsMisread` | projects/manual/package_marble_build_artifacts.py:520-522 | In any locale, a document with the style sheet `a>b` in its body is accepted, and what is written is read with `a&gt;b` in it |
| `ManualPackage.LinkMeetsHeading` | projects/manual/package_marble_build_artifacts.py:299-333 | A reference to a heading is rewritten to the id the heading gets if and only if the heading is below the page the reference names |
| `ManualPackage.TopPageHeadingsAreMissed` | projects/manual/package_marble_build_artifacts.py:318-326 | A reference into the top page becomes `#___` and its fragment: no heading whose own id it is gets that id on any page, and another heading only below a page whose name begins with an underscore |
| `ManualPackage.MergeAssets` | projects/manual/package_marble_build_artifacts.py:622-626 | The merged table is the union, and merging fails if and only if a name stands for two files |
| `ManualPackage.PackageManual` | projects/manual/package_marble_build_artifacts.py:613-630 | The pages written are those of the locales up to the first that fails; success gives every locale's page and a table that contains every locale's; failure names a rejected locale or a real clash with one before it |
| `ManualPackage.BlameIsRight` | projects/manual/package_marble_build_artifacts.py:613-626 | Failure is never spurious: what can be packaged has nothing to blame |
| `ManualPackage.CopiesAreTheOriginals` | projects/manual/package_marble_build_artifacts.py:622-639 | For every locale and every rewritten reference, the file copied under that name is the one originally referenced |
| `ManualImages.ImageLeadsToItsFile` | projects/manual/package_marble_build_artifacts.py:283-297 | Every image event in an accepted body is written as it was but for its source, which names the file that its own source located, recorded under that name |
| `ManualImages.ImageIsCopied` | projects/manual/package_marble_build_artifacts.py:622-639 | In a packaged manual, what is copied under the name in an image's source is the file that image named |
| `Profm.Le16RoundTrip` | projects/browser/sort-baseline.py:147 | Two-byte little-endian fields and numbers determine each other |
| `Profm.RecordShrinks` | projects/browser/sort-baseline.py:146-153 | A parsed record is at least ten bytes, and with the rest makes up the data |
| `Profm.ParsedIsData` | projects/browser/sort-baseline.py:143-155 | The parsed profiles concatenate to exactly the decompressed data |
| `Profm.ParseLoop` | projects/browser/sort-baseline.py:145-153 | The loop gives the profiles and rest that the record-by-record parse defines, or its error |
| `Profm.ProfilesFit` | projects/browser/sort-baseline.py:138-155 | Every new index fits two bytes and the sizes fit the header |
| `Profm.RenumberLoop` | projects/browser/sort-baseline.py:156-157 | The join numbers the records from 0 and keeps everything behind the index |
| `Profm.SortProfm002` | projects/browser/sort-baseline.py:137-160 | The payload is the canonical payload of the parsed profiles, or the specified error |
| `Profm.SortBaseline` | projects/browser/sort-baseline.py:123-134 | Only version 002 metadata is sorted, keeping magic and version; everything else is the matching error |
| `ByteOrder.SortSorts` | projects/browser/sort-baseline.py:157 | Sorting gives a sorted permutation |
| `ByteOrder.SortedUnique` | projects/browser/sort-baseline.py:157 | Only one list with given elements is sorted |
| `ByteOrder.AheadByKey` | projects/browser/sort-baseline.py:157 | After sorting, of two keys that begin alike, the one that ends there or goes on with the smaller byte stands in front, whatever follows |
| `ByteOrder.AheadByBytes` | projects/browser/sort-baseline.py:157 | Of the records of one key, the same holds of their bytes |
| `ByteOrder.PartWays` | projects/browser/sort-baseline.py:157 | Any two different byte strings are told apart in that way |
| `ProfmCanonical.ParseFormed` | projects/browser/sort-baseline.py:146-153 | Parsing a record that is followed by other data takes exactly what the record lacks |
| `ProfmCanonical.AllFormed` | projects/browser/sort-baseline.py:145-155 | Parsed records hold their key, and all but the last are whole |
| `ProfmCanonical.ReadBackIff` | projects/browser/sort-baseline.py:145-157 | Renumbered records parse back as themselves if and only if all but the last are whole |
| `ProfmCanonical.SizeIsKept` | projects/browser/sort-baseline.py:156-159 | The header's unchanged size is the size of the new data |
| `ProfmCanonical.SameBodiesSameOrder` | projects/browser/sort-baseline.py:157 | Without clashes the order of the bodies depends neither on input order nor on indices |
| `ProfmCanonical.CanonicalForm` | projects/browser/sort-baseline.py:137-160 | Two payloads with the same records, in any order and with any index fields, give byte-identical output |
| `ProfmCanonical.ClashMatters` | projects/browser/sort-baseline.py:153-157 | With two different bodies under one key, the output depends on the indices they came with |
| `ProfmCanonical.CanonicalIff` | projects/browser/sort-baseline.py:137-160 | Records have a canonical form if and only if no two with one key differ |
| `ProfmCanonical.OutputReadsBackIff` | projects/browser/sort-baseline.py:137-160 | Re-parsing the output gives the key-sorted records numbered from 0 if and only if all but the last sorted record are whole |
| `ProfmFiles.RecordIsRead` | projects/browser/sort-baseline.py:145-153 | A record written as index, key size, key, type flags, class count and class ids, numbers little-endian, is read as itself, whatever stands behind it |
| `ProfmFiles.PayloadIsRead` | projects/browser/sort-baseline.py:137-155 | A payload written of any such records, with their number and the sizes in front, is accepted with those records |
| `ProfmFiles.PayloadIsSorted` | projects/browser/sort-baseline.py:137-160 | What is written for it is the payload of the same records, none behind one whose key, or for one key whose bytes, are ahead, each with the index of its place; only a compressed size that does not fit fails |
| `ProfmCanonical.CutRecordIsMisread` | projects/browser/sort-baseline.py:137-160 | An accepted payload, for any compression, whose last record is cut short and sorts first: its output is refused as truncated |
| `ProfmCanonical.InStepIff` | projects/browser/sort-baseline.py:156-157 | Renumbered records are still sorted if and only if the low bytes of the positions of one key never fall |
| `ProfmCanonical.SortingIsIdempotentIff` | projects/browser/sort-baseline.py:137-160 | For whole records, sorting the output again gives the same output if and only if the order of the positions by key, and within a key by low and then high byte, puts no record in the place of a different one |
| `ProfmCanonical.SecondOrderIs` | projects/browser/sort-baseline.py:156-157 | The second sort takes the renumbered records in that order of positions |
| `Sorting.SortMaps` | projects/browser/sort-baseline.py:157 | Sorting commutes with any renaming that keeps the order |
| `ProfmCanonical.SortingIsIdempotent` | projects/browser/sort-baseline.py:137-160 | When the output reads back, sorting it again gives the same output, if no two records clash or those of one key are in step |
| `Quoting.EscapeRestLength` | projects/mingw-w64-clang/native-wrapper.h:62-84 | Each backslash is written at most twice and each quote as two characters, despite the backward rescans |
| `Quoting.EscapeRestLengthTight` | projects/mingw-w64-clang/native-wrapper.h:62-84 | The bound is met by strings of quotes and backslashes, so the allocation cannot be smaller |
| `Quoting.CopyRun` | projects/mingw-w64-clang/native-wrapper.h:71-72 | The backward scan writes one backslash for each that stands right before the position |
| `Quoting.Escape` | projects/mingw-w64-clang/native-wrapper.h:61-86 | Writes exactly the escaped text and terminator, never past 2 * len + 3 characters |
| `Quoting.ReadEscapeRest` | projects/mingw-w64-clang/native-wrapper.h:61-86 | What is written for the rest of a string reads as that rest, for any backslashes already written |
| `Quoting.EscapedReadsBack` | projects/mingw-w64-clang/native-wrapper.h:61-86 | By the Microsoft C runtime's rules any escaped string is read as exactly that one argument |
| `Quoting.EscapedListReadsBack` | projects/mingw-w64-clang/native-wrapper.h:88-97 | Any list of arguments, escaped and joined with spaces, is read back as that list |
| `Quoting.ProgramReadsBackIff` | projects/mingw-w64-clang/native-wrapper.h:61-86 | By the simpler rules for argument 0, an escaped program name is read as itself if and only if it has no quote and no backslash at its end |
| `Quoting.CommandReadsBackIff` | projects/mingw-w64-clang/native-wrapper.h:88-97 | A whole escaped command line reads back if and only if its program name does so |
| `WordSplitting.UnescapeCpp` | projects/mingw-w64-clang/windres-wrapper.c:59-71 | Drops exactly the backslashes that stand right before a quote |
| `WordSplitting.UnescapeUndoes` | projects/mingw-w64-clang/windres-wrapper.c:55-58 | Undoes the extra level of escaping for every text |
| `WordSplitting.WordsBound` | projects/mingw-w64-clang/windres-wrapper.c:73-122 | A command never splits into more words than it has characters |
| `WordSplitting.Store` | projects/mingw-w64-clang/windres-wrapper.c:96-102 | A word is ended, and stored while there is room, or only counted when there is no vector |
| `WordSplitting.Turn` | projects/mingw-w64-clang/windres-wrapper.c:81-106 | One turn of the loop keeps: the words ended so far, the word in the buffer and the words still to come are those of the command |
| `WordSplitting.SplitArgs` | projects/mingw-w64-clang/windres-wrapper.c:73-122 | The counting pass and the filling pass agree: the vector gets exactly the words counted, none dropped while there is room |
| `WordSplitting.PiecesAreTheCommand` | projects/mingw-w64-clang/windres-wrapper.c:73-122 | Cutting a command at its spaces, but for those in quotes or escaped, loses nothing |
| `WordSplitting.WordsAreMeanings` | projects/mingw-w64-clang/windres-wrapper.c:73-122 | The words still to come are what the pieces still to come mean |
| `WordSplitting.EmptyOrLostIff` | projects/mingw-w64-clang/windres-wrapper.c:93-115 | For any command: the words are what its pieces mean, in order; a word is empty if and only if its piece is only quotes; the last piece, and no other, gives no word if and only if it is blank |
| `WordSplitting.QuotedEmptyWordIsLost` | projects/mingw-w64-clang/windres-wrapper.c:110-115 | An empty word in quotes is kept before a space and lost at the end |
| `WordSplitting.SplitCommand` | projects/mingw-w64-clang/windres-wrapper.c:73-122 | Every list of words, empty ones included, can be written as a command that splits into it |
| `WindresOptions.ClassifyAdvances` | projects/mingw-w64-clang/windres-wrapper.c:247-294 | Each option uses the argument it is found at, and at most the next one |
| `WindresOptions.CountsBounded` | projects/mingw-w64-clang/windres-wrapper.c:247-294 | Includes and preprocessor options together stay below the number of arguments |
| `WindresCommandLine.FourSpellings` | projects/mingw-w64-clang/windres-wrapper.c:223-233 | An option gives a value if and only if it is spelled in one of four ways: letter and value in one, name, equals sign and value in one, or letter or name and then the value |
| `WindresCommandLine.CommandLineSays` | projects/mingw-w64-clang/windres-wrapper.c:202-294 | For any command line: it is accepted if and only if every option is known and complete and every operand is of use, the first that is refused gives the exit code; when accepted, every option of the frontend is what the last argument for it names, lists are what all of them name in order, input and output those of the last option or of the operand taken for them |
| `WindresCommandLine.LastIff` | projects/mingw-w64-clang/windres-wrapper.c:247-294 | What the last one names: an argument that starts an option of that kind, gives the value, and has none of its kind behind it |
| `WindresCommandLine.OptionNamesInput` | projects/mingw-w64-clang/windres-wrapper.c:248 | The last option for the input names it, whatever the operands, unless it names the default |
| `WindresCommandLine.OptionNamesOutput` | projects/mingw-w64-clang/windres-wrapper.c:249 | So does the last option for the output |
| `WindresCommandLine.OperandNamesInput` | projects/mingw-w64-clang/windres-wrapper.c:287-292 | Without an option for it, the input is the first operand |
| `WindresCommandLine.OperandNamesOutput` | projects/mingw-w64-clang/windres-wrapper.c:287-292 | Without options for either, the output is the second operand |
| `Windres.ParseOptions` | projects/mingw-w64-clang/windres-wrapper.c:247-294 | The loop fills vectors of argc elements without overrun, with the options the command line means, or its exit code |
| `Windres.AddIncludes` | projects/mingw-w64-clang/windres-wrapper.c:323-329 | Each include adds one preprocessor option and two resource compiler options, all within their vectors |
| `Windres.UnescapeOptions` | projects/mingw-w64-clang/windres-wrapper.c:331-332 | Every preprocessor option has one escaping level undone, in place |
| `Windres.Finish` | projects/mingw-w64-clang/windres-wrapper.c:187-192 | The argument check never aborts, and the terminator fits |
| `Windres.BuildPreprocess` | projects/mingw-w64-clang/windres-wrapper.c:353-369 | The preprocessor's argument vector, within the size computed by the counting pass |
| `Windres.BuildCompile` | projects/mingw-w64-clang/windres-wrapper.c:382-402 | The resource compiler's argument vector fits |
| `Windres.BuildConvert` | projects/mingw-w64-clang/windres-wrapper.c:420-427 | The converter's argument vector, stored element by element, fits |
| `Windres.Execute` | projects/mingw-w64-clang/windres-wrapper.c:347-462 | Runs the specified commands in order for any exit codes, in one vector that never overflows |
| `Windres.Tmain` | projects/mingw-w64-clang/windres-wrapper.c:194-462 | For every command line, the commands run and the exit code are those of the specification |
| `WindresCommands.CommandLineRuns` | projects/mingw-w64-clang/windres-wrapper.c:247-462 | For any command line and exit codes: the commands that run, each with the files, includes, options, codepage, language and machine that the arguments name, how many of them run, and the exit code |
| `WindresCommands.FilesChain` | projects/mingw-w64-clang/windres-wrapper.c:353-427 | The first command reads the input, each later one the file that the one before it writes, and the last writes the output |
| `WindresCommands.InputDirIs` | projects/mingw-w64-clang/windres-wrapper.c:337-344 | The directory searched for includes is what stands in front of the input's last separator of either kind, or the current one |
| `WindresCommands.MachineIs` | projects/mingw-w64-clang/windres-wrapper.c:306-319 | The machine is that of the architecture in front of the target's first hyphen |
| `WindresCommands.TargetIs` | projects/mingw-w64-clang/windres-wrapper.c:295-304 | A target that is asked for is the one of its architecture, with its machine; any other is refused |
| `Scanning.SpanIs` | tools/relprep.py:31 | A greedy run is the only prefix of its characters that a different one ends |
| `Versions.TagReadsBack` | tools/relprep.py:555-562 | A tag name put together from project, version and build reads back as those, whatever follows them |
| `Versions.TagHasParts` | tools/relprep.py:555-562 | Every tag name that is read is put together so |
| `Versions.LessOrder` | tools/relprep.py:41-44 | The string order on major versions is a strict total order |
| `Versions.BeforeIsWeakOrder` | tools/relprep.py:40-48 | `__lt__` is a strict weak order on versions |
| `Versions.TiesIff` | tools/relprep.py:40-51 | Two versions tie if and only if they agree in major version, alpha mark and minor number |
| `VersionOrder.NewerInFront` | tools/relprep.py:40-48 | In a list of the newest first, of one major version releases stand in front of alphas, and of these higher minor numbers in front of lower ones |
| `VersionOrder.MajorInFront` | tools/relprep.py:41-44 | Of two major versions that begin alike, the one that goes on with the larger character, or goes on at all, stands in front |
| `VersionOrder.MajorsInOrder` | tools/relprep.py:41-44 | Major versions whose numbers have as many digits are ordered by their numbers |
| `VersionOrder.HundredComesFirst` | tools/relprep.py:41-44 | As the comment there expects, 100.0 would come before 99.0 |
| `VersionTexts.PartsRead` | tools/relprep.py:31-38 | A text put together from a major version and a rest that begins with no digit is read as these |
| `VersionTexts.TidyIff` | tools/relprep.py:31-51 | A version has its tidy text if and only if nothing follows its minor digits, they have no leading zero, and a minor 0 is not written |
| `VersionTexts.TidyIffTiesAreEqual` | tools/relprep.py:40-51 | A version is tidy if and only if every tidy version that it ties with is equal to it |
| `VersionTexts.UnequalVersionsCanTie` | tools/relprep.py:40-51 | `__lt__` is not compatible with `__eq__`: "1.0" and "1.0.0" tie |
| `Versions.SortDownSorts` | tools/relprep.py:679 | Reverse sorting gives a permutation with no version before a newer one |
| `Sorting.SortOrders` | tools/relprep.py:679 | Sorting by any strict weak order puts no element before a smaller one |
| `Sorting.SortIsStable` | tools/fetch_changelogs.py:69-71 | Elements that tie stay in the order they came in |
| `Releases.WantedSnoc` | tools/relprep.py:572-594 | One more tag changes only its own key's list, and only when taken |
| `Releases.NewestHas` | tools/relprep.py:576-586 | Dropping repeated builds loses no version |
| `Releases.WantedAreFirsts` | tools/relprep.py:572-594 | Each key's list is the tags at the first positions of its distinct versions other than the current one, in tag order, cut at N |
| `VersionOrder.ListIs` | tools/relprep.py:562-594 | The list of a project and channel: tags of that project, alphas or releases, other than the current version, at ascending positions, each the first of its version; of those the first N |
| `Releases.FoundIsSum` | tools/relprep.py:594 | The counter is the total length of all lists |
| `Releases.StoppingLosesNothingIff` | tools/relprep.py:595-596 | Stopping after k tags gives the table of all tags if and only if nothing is taken after them |
| `Releases.FourKeys` | tools/relprep.py:595 | Tags of two projects never give more than 4N |
| `Releases.EarlyEndIsHarmless` | tools/relprep.py:595-596 | With tags of two projects and N at least 1 the early break never changes the table |
| `Releases.WantedCountIsSum` | tools/relprep.py:594 | What the keys ask for, added up, is the size of the table of all tags |
| `Releases.CompleteIff` | tools/relprep.py:594-596 | A scan that stopped at 4N is complete if and only if the keys of all the tags together ask for at most 4N: each for its distinct versions, up to N |
| `ReleaseExamples.ThirdProjectCanBeLost` | tools/relprep.py:595-596 | Whatever the current version, tag names of three projects with which the break loses a release |
| `Releases.BuildFollowsNewest` | tools/relprep.py:563-571 | The build number is one more than the newest build of the current version, skipping builds numbered 0 |
| `Releases.StoppingKeepsBuildIff` | tools/relprep.py:563-571 | The early break keeps the build number if and only if one of the tags before it is a numbered build of the current version, or none behind it is |
| `ReleaseExamples.LastBuildCanBeMissed` | tools/relprep.py:563-596 | Whatever the current version, tag names with which the break misses its last build, and the build number is given out again |
| `ReleasePreparation.Preparation.Known` | tools/relprep.py:575-584 | Finds whether a version is already listed |
| `ReleasePreparation.Preparation.Consider` | tools/relprep.py:563-594 | One tag takes table and build number to those of one more tag |
| `ReleasePreparation.Preparation.GetLastReleases` | tools/relprep.py:550-596 | The fields are those of the tags seen; the scan fails only at an unreadable name, stops only when 4N are found, and the table is that of all the tags if and only if it saw them all or they ask for at most 4N, as those of two projects always do |
| `RbmConf.OfferedOf` | tools/relprep.py:679-695 | The items of a version render to that version for exactly the browsers that have it |
| `RbmConf.EachBrowserGetsItsOwn` | tools/relprep.py:666-695 | The merged list, rendered for either browser, is that browser's versions, each once, newest first |
| `RbmConf.MergeIsShort` | tools/relprep.py:679-695 | The list has one item for each version, so one that both browsers have is written once |
| `ReleasePreparation.Preparation.Gather` | tools/relprep.py:674-678 | The dictionary holds each version under the browsers that have it, in insertion order |
| `ReleasePreparation.Preparation.ItemsFor` | tools/relprep.py:679-695 | A version both browsers have is written plainly, any other in a template for its browser |
| `ReleasePreparation.Preparation.IncrementalFrom` | tools/relprep.py:666-695 | Fails exactly when a browser has no entry for the channel; otherwise the list serves both browsers |
| `BrandingStrings.ParseIds` | projects/common/rename-branding-strings.py:22-40 | Terminates for every text and either pattern, with the chunks that suffix-by-suffix searching defines |
| `BrandingStrings.ParseIsLossless` | projects/common/rename-branding-strings.py:31-40 | The chunks concatenate to the input, for both file types |
| `BrandingStrings.RenameId` | projects/common/rename-branding-strings.py:84-95 | The first rename id that the part starts with decides |
| `BrandingRenames.RenameIs` | projects/common/rename-branding-strings.py:84-95 | An id that begins with none of the rename ids stays; the first that it begins with takes its place when only the suffix follows, and otherwise the id gets "_UNUSED" behind it |
| `BrandingStrings.FilterFile` | projects/common/rename-branding-strings.py:64-96 | The whole output is the text with each id renamed; other file types fail |
| `BrandingRenames.MatchIsId` | projects/common/rename-branding-strings.py:68 | A match is an id followed by blanks and an equals sign |
| `BrandingRenames.FoundAtLineStarts` | projects/common/rename-branding-strings.py:31-40 | In Fluent files searching ever shorter suffixes finds exactly the ids at the line starts of the original text |
| `BrandingIds.FluentIdsAre` | projects/common/rename-branding-strings.py:22-40 | Character by character: the ids found in a Fluent file are those that start a line and are followed by blanks and an equals sign |
| `BrandingKeys.KeyIsNext` | projects/common/rename-branding-strings.py:78 | The first key behind white space is a line's own, when a line starts in it or in front of it |
| `BrandingKeys.FoundAreKeysIff` | projects/common/rename-branding-strings.py:31-40 | In properties files the ids found are the keys of the lines if and only if no key is followed, on its own line, by white space and a character that could start a key |
| `BrandingIds.LineKeysAre` | projects/common/rename-branding-strings.py:78 | The keys of the lines are the longest runs of key characters behind the white space that a line begins with, unless they begin as a comment does |
| `BrandingRenames.PropertyValueIsTakenForId` | projects/common/rename-branding-strings.py:78 | In `a b` the value is taken for an id |
| `BrandingRenames.OnlyClashesMerge` | projects/common/rename-branding-strings.py:84-95 | Two ids become one only through a clash among the rename ids |
| `BrandingRenames.InjectiveIff` | projects/common/rename-branding-strings.py:84-95 | Renaming is injective if and only if no rename id in use ends in "_UNUSED" behind a retired id |
| `BrandingRenames.PrefixFreeIsSafe` | projects/common/rename-branding-strings.py:84-95 | With prefix-free rename ids nothing clashes, and a rename id appears exactly in place of that id with the suffix |
| `BrandingOutput.FoundAgain` | projects/common/rename-branding-strings.py:33-40 | Replacing an id and changing what follows does not move the first match |
| `BrandingOutput.OutputParsesAsRenamedIff` | projects/common/rename-branding-strings.py:64-96 | For Fluent files: parsing the output again gives the input's chunks with the ids renamed if and only if every id of the file that loses its suffix leaves an id |
| `BrandingOutput.OutputIds` | projects/common/rename-branding-strings.py:64-96 | Then the ids of the output are the renamed ids, and stay distinct when nothing clashes |
| `PropertiesOutput.KeyFoundAgain` | projects/common/rename-branding-strings.py:33-40 | In properties files too, changing the first match's id and what follows does not move it |
| `PropertiesOutput.KeysParseAsRenamedIff` | projects/common/rename-branding-strings.py:64-96 | For properties files: parsing the output again gives the input's chunks with the ids renamed if and only if no id of the file is renamed to nothing |
| `PropertiesOutput.OutputKeys` | projects/common/rename-branding-strings.py:64-96 | Then the ids of the output are the renamed ids, and stay distinct when nothing clashes |
| `ChangelogEntries.NewIssue` | tools/fetch_changelogs.py:106-141 | The platforms and count that the labels mean; an Android-only issue of the browser not on Android is refused |
| `ChangelogEntries.EntriesAreCounted` | tools/fetch_changelogs.py:82-141 | Every entry's count is its number of platforms, except the Go update's, which is a build entry |
| `ChangelogEntries.BeforeIsWeakOrder` | tools/fetch_changelogs.py:63-78 | `__lt__` is a strict weak order on entries that it can compare without an error |
| `ChangelogOrder.SortedInOrder` | tools/fetch_changelogs.py:63-78 | In a sorted list an entry stands in front of those of fewer platforms; of as many, of those that lack the first platform in which they differ; of the same, updates in front of issues; and of issues the lower number of one project, else the project that ranks first, where the browser's own ones come right behind the specifications |
| `ChangelogOrder.LabelsDecide` | tools/fetch_changelogs.py:106-141 | An issue's platforms are those its labels name, or all when they name none or all that the browser has; its fields and list are its own; it is refused if and only if it is of Android only for the browser not on it |
| `ChangelogOrder.ComponentIs` | tools/fetch_changelogs.py:82-97 | Every updated component stands under the heading of its platforms, and its version under its key |
| `ChangelogEntries.SortSorts` | tools/fetch_changelogs.py:321-323 | The lists are sorted |
| `ChangelogEntries.SortIsStable` | tools/fetch_changelogs.py:69-71 | Updates of the same platforms stay in the order they were added |
| `ChangelogEntries.HeadingsSeparate` | tools/fetch_changelogs.py:49-61 | Different sets of platforms have different, non-empty headings |
| `ChangelogText.ItemsStandUnderTheirHeading` | tools/fetch_changelogs.py:226-231 | Whatever the order of a list, every entry is printed under the heading of its platforms |
| `ChangelogText.HeadsDistinctIffContiguous` | tools/fetch_changelogs.py:226-231 | Each heading is printed once if and only if entries of the same platforms are together |
| `ChangelogText.HeadingsOnceIff` | tools/fetch_changelogs.py:226-240 | After sorting, headings are distinct if and only if no entry of other platforms sorts between two of the same |
| `ChangelogText.CountedAreTogether` | tools/fetch_changelogs.py:63-67 | Counted entries are never interrupted that way |
| `ChangelogText.GoCanSplitAHeading` | tools/fetch_changelogs.py:89-91 | In the build list the Go update can repeat a heading |
| `ChangelogBuilder.Builder.AddEntry` | tools/fetch_changelogs.py:287-289 | An entry joins exactly one of the two lists |
| `ChangelogBuilder.LinkedIs` | tools/fetch_changelogs.py:247-274 | Each reference is taken once, and those taken are the ones linked from an included issue and from no excluded one |
| `ChangelogOrder.LinkedIff` | tools/fetch_changelogs.py:247-274 | An issue is taken if and only if the release's own issue or one that is asked for links to it, and none that is to be left out does |
| `ChangelogOrder.IssuesInOrder` | tools/fetch_changelogs.py:273-285 | Each linked issue becomes its entry, in their order, unless one is refused |
| `ChangelogOrder.EnterIs` | tools/fetch_changelogs.py:256-262 | A reference that is known keeps its place and gets the new data; any other goes to the end |
| `ChangelogOrder.WithoutInOrder` | tools/fetch_changelogs.py:270-274 | Leaving out what is excluded keeps the order of the rest |
| `ChangelogOrder.WithoutOne` | tools/fetch_changelogs.py:270-274 | An issue is left out if and only if its reference is excluded |
| `ChangelogBuilder.Builder.Collect` | tools/fetch_changelogs.py:247-274 | The dictionary built and trimmed in place is that of the linked issues |
| `ChangelogBuilder.Builder.FindLinked` | tools/fetch_changelogs.py:243-289 | The lists hold the entries of those issues, or the first refused issue stops it |
| `ChangelogBuilder.Builder.AddUpdates` | tools/fetch_changelogs.py:291-319 | Updates given a version are added in the order of their names |
| `ChangelogOrder.UpdatesInOrder` | tools/fetch_changelogs.py:291-319 | Updates are collected component by component, in their order |
| `ChangelogOrder.UpdateOfOne` | tools/fetch_changelogs.py:317-319 | A component has an update if and only if a version that is not empty is given under its key |
| `ChangelogBuilder.Builder.PrintList` | tools/fetch_changelogs.py:226-231 | The loop prints the grouped lines |
| `ChangelogBuilder.Builder.Create` | tools/fetch_changelogs.py:212-241 | The text is the title, the sorted main list and, if any, the build list; it fails for a refused issue, or for issues that sorting has to compare and cannot |
| `ChangelogOrder.EveryEntryIsPrinted` | tools/fetch_changelogs.py:212-241 | The changelog is its title and every entry once, build entries in the second list and all others in the first, none behind one that it stands in front of |
| `ChangelogOrder.LinesArePrinted` | tools/fetch_changelogs.py:226-240 | Each heading and entry is printed as a line of its own: a bug with its number, title and project, an update with its name and version |
| `ChangelogBuilder.MainListIsWellHeaded` | tools/fetch_changelogs.py:212-231 | For all issues and updates, whenever the main list can be sorted, it prints every heading once with exactly its entries under it |

## Left out

- Streams.Pbzx.constructor: decoded chunks are given as a list; the thread pool, which keeps their order, is not modelled.
- Streams.ZlibFile.constructor: the decompressor is a function whose output only grows with its input; malformed zlib data is not modelled.
- PbzxContainer.Open: a corrupted chunk is reported when the payload is opened rather than when reading reaches it.
- OctalFields.ParseThenPack: stated for fields of octal digits, where it can hold; the blanks, signs, underscores and prefixes that `int(x, 8)` also takes are read, and `Cpio.EncodeDecoded` covers them.
- Cpio.ParseEncodedItem: of the numbers below 0 that `int(x, 8)` can give, the mode and the two sizes are errors, where the code goes on with them.
- CpioReader.Uncpio.Next: at the end of the chunks the code's reader gives an empty text for empty bytes, and a missing header is then reported with another exception.
- HardLinks.ExtractionCorrect: paths are byte strings; decoding, `..` parts, and symbolic links to directories are not modelled.
- Manual events start after Python's HTML tokenizer; URL parsing, form quoting and file lookup are functions of the site, and a file outside the top directory is the same error as a missing one.
- HtmlWriting.PrintReadsBackIff: `plaintext`, `script` and `noscript` are not read, nor elements such as `style` behind the start of an `svg` or `math` element or with tags written inside them, nor names that no tokenizer produces; the standard's normalization of newlines comes before its tokenizer and is not modelled.
- ManualBody.AcceptedBodyReadsBackIff: the same, on the events of the document; Python's tokenizer gives the contents of `style` as text, those of `textarea` or `iframe` possibly as tags.
- The fixed head around the manual's body, the list of locales and the output file names.
- ProfmCanonical.SortingIsIdempotentIff: for whole records; where the last one is cut short, `SortingIsIdempotent` gives a condition that is enough.
- ProfmFiles.PayloadIsSorted: for whole records; `ProfmCanonical.OutputReadsBackIff` covers a last one that is cut short.
- ManualAddresses.AddressIs: for paths of steps upwards and then names with single slashes between them; of other paths only `ManualLinks.ConvertedHref` speaks.
- Handling of zip files, and of compression levels, around the profile sorter.
- Windres.Tmain: lengths are within C's `int`, allocation never fails; diagnostics, removal of temporary files and the splitting of the program's own name are left out, and the return value of `split_args` when it fills a vector, which is always 0 and unused.
- Versions.TagReadsBack: digits and word characters are ASCII ones; Python's patterns also take other scripts'.
- Releases.EarlyEndIsHarmless: N is at least 1, as with the default; with 0 the scan stops at the first tag of another version, and `GetLastReleases` still says what it has then.
- Writing rbm.conf itself, and everything in relprep.py that talks to git or the network.
- BrandingStrings.FilterFile: reading the file's text (newline translation included) and the JSON details are not modelled.
- ChangelogBuilder.Builder.Create: what the server answers is a function of the issue; finding the release preparation issue and its version is not modelled.
- The XAR table of contents (XML) and the download with its retries.
- The scripts for dependency lists, manuals' downloads, triage and protected branches, and `ShellLink.cpp`: plumbing over libraries.
