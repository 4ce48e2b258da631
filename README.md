# MLectureLens retrieval pipeline in Dafny

MLectureLens turns folders of lecture subtitles (SRT and WebVTT files) into a searchable set of
text documents and embeds them. It uses them to ground a chatbot's answers. This project models the four route
handlers that make up that pipeline, and proves properties of the model:

- **upload-folder** (`upload.dfy`, `paths.dfy`, `subtitles.dfy`, `cleaning.dfy`): the per-file loop. It
  covers:
  - the `.srt`/`.vtt` filter;
  - the course/chapter/file split of the relative path;
  - the sanitised document id and the document type;
  - the `processedFiles`, `parsedDocuments` and `courseStructure` accumulators;
  - `parseSubtitleFile`, which includes:
    - the SRT block reader and the VTT line reader with its `inTextBlock` flag;
    - the chain of eleven regular-expression replacements followed by `trim()`, one Dafny
      function per rule.
- **generate-embeddings** (`chunking.dfy`, `embeddings.dfy`):
  - `chunkDocument`;
  - the resume filter on stored ids;
  - the batch, document and chunk loops, with the record built for each chunk;
  - the error responses.

  The embedding provider is an oracle `(call index, text) -> vector or failure`.
- **search** (`search.dfy`):
  - `cosineSimilarity`, with its accumulating loop;
  - the scoring of every stored record;
  - the stable descending sort;
  - `slice(0, limit)`;
  - the projection of each result;
  - the order of the handler's refusals.
- **chat** (`chat.dfy`):
  - the user query taken from the last message;
  - the retrieval step against the search route, with `limit: 3`;
  - the `contextText` and `sources` formatting;
  - the system message put in front of the converted conversation when there is context.

`strings.dfy` holds the string built-ins the routes use (`trim`, `split`, `join`,
`toLowerCase`, `includes`, `startsWith`/`endsWith`), modelled on ASCII. `wrappers.dfy` holds
`Option` and `Result`, and `seqs.dfy` the generic sequence facts the append lemmas share (among them the order-keeping filter-and-map that the upload loop instantiates). `cleaning_example.dfy` and `subtitles_example.dfy` take the
cue `"1\n00:00:01,000 --> 00:00:02,000\nHello world (laughs) [music] 3 times"` and prove the
result is `"Hello world times"`.

The imperative parts are Dafny methods with loops. Each is proved equal to a specification
function, and the properties are proved about that function. These methods are:
- the SRT and VTT readers;
- the upload loop;
- `chunkDocument`;
- the embedding loops;
- `cosineSimilarity`;
- the chat handler's reassigned locals.

The cleaning chain, the ranking and the formatting are pure expression chains in the source, so
they are functions here.

The model follows the code in these places, where a reader might expect other behaviour:
- A missing embeddings artifact is refused with 404 (`search/route.js:43-45`). It is not treated
  as an empty result.
- The resume filter compares document ids with stored record ids. A document cut into several
  chunks is stored only under `id_chunk_k`, so it is embedded again on every run, and its records
  are duplicated (`Embeddings.RerunDuplicatesChunkedDocument`).
- Once the VTT reader has seen a timing line, `inTextBlock` stays set for the rest of the file.
  Every later non-blank line that is not a header, `NOTE` or timing line is collected
  (`Subtitles.VttTextFromFirstTiming`).
- Document ids are not unique: sanitising merges any character outside `[A-Za-z0-9_]` with `_`,
  and `_` also separates the segments (`Paths.IdsCanCollide`, `Paths.IdsCanCollideAcrossSegments`).

## Model

| member | source | states |
|---|---|---|
| Subtitles.FormatOf | src/app/api/upload-folder/route.js:138-155 | The SRT reader is chosen exactly when the lower-cased name ends in `.srt`. The VTT reader is chosen exactly when it does not, but ends in `.vtt`. |
| Subtitles.NonBlankKeepsExactlyTheNonBlank | src/app/api/upload-folder/route.js:140-142 | The block filter keeps exactly the blocks whose trimmed text is non-empty. |
| Subtitles.ReadSrt | src/app/api/upload-folder/route.js:140-154 | The SRT loop builds the text of the non-blank `\n\n` blocks, in order. Each block gives its lines from the third on, joined by spaces and trimmed, then one space; a block with fewer than three lines or empty text gives nothing. |
| Subtitles.SrtBlockOfFewLines | src/app/api/upload-folder/route.js:145-146 | A block of one line, or of two lines, adds nothing. |
| Subtitles.SrtBlockDropsTwoLines | src/app/api/upload-folder/route.js:145-152 | For a counter line, a timing line and the rest, the block adds the rest with line breaks made spaces and trimmed, then one space; a blank rest adds nothing. |
| Subtitles.SrtTextAppend | src/app/api/upload-folder/route.js:144-154 | Blocks are read one after another: the text of two runs of blocks is the text of each, concatenated. |
| Subtitles.FileWithoutBlankLineIsOneBlock | src/app/api/upload-folder/route.js:140-154 | Content with no blank line and not blank is a single block. The numbering and timing lines are dropped only as its first two lines. |
| Subtitles.ReadVtt | src/app/api/upload-folder/route.js:157-182 | The VTT loop's text equals the specification over the `\n`-split lines. It skips header, `NOTE` and blank lines, sets the flag on a `-->` line, and collects trimmed lines plus one space once the flag is set. |
| Subtitles.SeenTimingAppend | src/app/api/upload-folder/route.js:158-176 | After two runs of lines the flag is set exactly when either run contained a timing line. |
| Subtitles.FlagNeverResets | src/app/api/upload-folder/route.js:173-176 | Once set, `inTextBlock` stays set whatever lines follow. |
| Subtitles.VttCollectAppend | src/app/api/upload-folder/route.js:160-182 | Reading `a + b` is reading `a`, then reading `b` with the flag as `a` left it. |
| Subtitles.NothingBeforeFirstTiming | src/app/api/upload-folder/route.js:173-181 | Lines before the first timing line contribute nothing. |
| Subtitles.CollectedOnceInTextBlock | src/app/api/upload-folder/route.js:164-181 | With the flag set, the collected text is every line that is not skipped and holds no `-->`, trimmed and followed by one space, in order. |
| Subtitles.VttTextFromFirstTiming | src/app/api/upload-folder/route.js:157-182 | A file's VTT text is the collectable lines after its first timing line, whatever comes after. Cue identifiers and later note bodies are included. |
| Subtitles.ParseSubtitleFile | src/app/api/upload-folder/route.js:134-198 | `parseSubtitleFile` equals the reader chosen by the extension followed by the cleaning chain. Its result has no whitespace at either end. |
| Subtitles.EmptyOrUnknownYieldsNothing | src/app/api/upload-folder/route.js:134-198 | Empty content, or a name that is neither `.srt` nor `.vtt`, gives `""`. |
| Cleaning.Clean | src/app/api/upload-folder/route.js:186-198 | The whole replacement chain and the final `trim()` leave no whitespace at either end. |
| Cleaning.FindClose | src/app/api/upload-folder/route.js:187-188 | The lazy `.*?` stops at the first closing bracket, and only if no line terminator comes first. Absent means every closing bracket has a line terminator before it. |
| Cleaning.RemoveGroups | src/app/api/upload-folder/route.js:187-188 | Removing `[...]`/`(...)` groups never lengthens the text, and text without the opening bracket is unchanged. |
| Cleaning.RemoveGroupsDropsGroup | src/app/api/upload-folder/route.js:187-188 | A group `open inner close` on one line is removed whole, the text after it left to the rule. |
| Cleaning.RemoveGroupsCopiesPrefix | src/app/api/upload-folder/route.js:187-188 | Text before the first opening bracket is copied unchanged. |
| Cleaning.FindCloseStopsAtFirst | src/app/api/upload-folder/route.js:187-188 | The match ends at the first closing bracket when the text before it has no line terminator. |
| Cleaning.RemoveGroupsAround | src/app/api/upload-folder/route.js:187-188 | Text around one group: the prefix is kept, the group is removed, the rest goes on through the rule. |
| Cleaning.StripBoundaryNumbers | src/app/api/upload-folder/route.js:189 | `\b\d+\s+` removal never lengthens the text, and text without digits is unchanged. |
| Cleaning.StripBoundaryNumbersDropsNumber | src/app/api/upload-folder/route.js:189 | Digits after a non-word character and followed by whitespace are removed with all of that whitespace, whatever comes next. |
| Cleaning.StripBoundaryNumbersKeepsNumber | src/app/api/upload-folder/route.js:189 | Digits not followed by whitespace are kept, and what follows them comes after a word character. |
| Cleaning.StripBoundaryNumbersCopiesHead | src/app/api/upload-folder/route.js:189 | A non-digit is kept, and so is a digit right after a word character, where `\b` fails. |
| Cleaning.StripBoundaryNumbersCopiesPrefix | src/app/api/upload-folder/route.js:189 | A digit-free prefix is copied, and the rule continues with the word boundary its last character decides. |
| Cleaning.StripLineStartNumbers | src/app/api/upload-folder/route.js:190 | `^\d+\s*` (multiline) removal never lengthens the text, and text without digits is unchanged. |
| Cleaning.StripLineStartNumbersDropsNumber | src/app/api/upload-folder/route.js:190 | Digits at a line start are removed with all the whitespace after them; what follows starts a line exactly when that whitespace ends in a line break. |
| Cleaning.StripLineStartNumbersCopiesHead | src/app/api/upload-folder/route.js:190 | Away from a line start, or at a non-digit, the character is kept, and the next position starts a line exactly after a line break. |
| Cleaning.StripInnerNumbers | src/app/api/upload-folder/route.js:191 | `\s+\d+\s+` replaced by one space never lengthens the text, and text without digits is unchanged. |
| Cleaning.StripInnerNumbersCopiesHead | src/app/api/upload-folder/route.js:191 | A character other than whitespace is kept. |
| Cleaning.StripInnerNumbersDropsNumber | src/app/api/upload-folder/route.js:191 | Whitespace, digits and whitespace, each run taken whole, become one space. |
| Cleaning.StripListNumbers | src/app/api/upload-folder/route.js:192 | `\d+\.` removal never lengthens the text, and text without digits is unchanged. |
| Cleaning.StripListNumbersCopiesHead | src/app/api/upload-folder/route.js:192 | A character other than a digit is kept. |
| Cleaning.StripListNumbersKeepsNumber | src/app/api/upload-folder/route.js:192 | Digits not followed by a period are kept. |
| Cleaning.StripListNumbersDropsNumber | src/app/api/upload-folder/route.js:192 | Digits followed by a period are removed together with the period. |
| Cleaning.DigitRun | src/app/api/upload-folder/route.js:189-192 | `\d+` is greedy: the run is all digits and is followed by a non-digit or the end. |
| Cleaning.RunOfDigits | src/app/api/upload-folder/route.js:189-192 | The digit run of `digits + rest` is exactly `digits` when `rest` does not start with a digit. |
| Cleaning.SpaceRun | src/app/api/upload-folder/route.js:189-197 | `\s*` is greedy: the run is all whitespace and is followed by a non-space or the end. |
| Cleaning.RunOfSpaces | src/app/api/upload-folder/route.js:189-197 | The whitespace run of `spaces + rest` is exactly `spaces` when `rest` does not start with whitespace. |
| Cleaning.CollapseSpaces | src/app/api/upload-folder/route.js:193 | After `\s+` to `" "`, every whitespace character is a space and never followed by another. |
| Cleaning.CollapseKeepsSingleSpaces | src/app/api/upload-folder/route.js:193 | Text whose whitespace is already single spaces is unchanged. |
| Cleaning.CollapseRun | src/app/api/upload-folder/route.js:193 | A whitespace run becomes one space. |
| Cleaning.CollapseCopiesPrefix | src/app/api/upload-folder/route.js:193 | A prefix with single spaces, ending in a non-space, is copied. |
| Cleaning.TightenTerminalPunctuation | src/app/api/upload-folder/route.js:194 | Dropping whitespace before `.`, `!`, `?` never lengthens the text, and text without those marks is unchanged. |
| Cleaning.TightenTerminalPunctuationCopiesHead | src/app/api/upload-folder/route.js:194 | A character other than whitespace is kept. |
| Cleaning.TightenTerminalPunctuationDropsSpace | src/app/api/upload-folder/route.js:194 | Whitespace before `.`, `!` or `?` is dropped and the mark kept. |
| Cleaning.SpaceAfterMark | src/app/api/upload-folder/route.js:195-196 | Respacing around `,` and `.` leaves text without the mark unchanged. |
| Cleaning.SpaceAfterMarkCopiesHead | src/app/api/upload-folder/route.js:195-196 | A character that is neither whitespace nor the mark is kept. |
| Cleaning.SpaceAfterMarkRespaces | src/app/api/upload-folder/route.js:195-196 | The mark with any whitespace before and after it becomes the mark and exactly one space. |
| Cleaning.StripEnds | src/app/api/upload-folder/route.js:197 | `^\s+\|\s+$` removal never lengthens the text. |
| Cleaning.StripEndsCopiesHead | src/app/api/upload-folder/route.js:197 | A character other than whitespace is kept, and what follows is no longer at the start. |
| Cleaning.StripEndsDropsLeadingSpace | src/app/api/upload-folder/route.js:197 | Whitespace at the very start of the text is removed. |
| Cleaning.StripEndsKeepsInnerSpace | src/app/api/upload-folder/route.js:197 | Text that does not end in whitespace is unchanged away from the start. |
| Cleaning.StripEndsDropsTrailingSpace | src/app/api/upload-folder/route.js:197 | One trailing space is what the rule removes. |
| Cleaning.InertThroughPunctuation | src/app/api/upload-folder/route.js:187-196 | Text without brackets, digits or punctuation, with single spaces, passes the first ten rules unchanged. |
| Cleaning.ProseIsClean | src/app/api/upload-folder/route.js:186-198 | Already clean prose is a fixed point of the whole chain. |
| Cleaning.ProseWithTrailingSpaceIsClean | src/app/api/upload-folder/route.js:186-198 | Clean prose with the one space the readers append comes out as the prose itself. |
| Cleaning.StripEndsOfProseWithSpace | src/app/api/upload-folder/route.js:197 | The ends rule removes the one trailing space after clean prose and nothing else. |
| Cleaning.ProseWithTrailingSpaceIsInert | src/app/api/upload-folder/route.js:187-196 | Clean prose plus that space has no character the first ten rules react to. |
| CleaningExample.CleanedExample | src/app/api/upload-folder/route.js:186-198 | The chain turns `"Hello world (laughs) [music] 3 times "` into `"Hello world times"`. |
| SubtitleExample.CueNormalized | src/app/api/upload-folder/route.js:134-198 | The SRT cue `1` / timing / `Hello world (laughs) [music] 3 times` in a `.srt` file normalises to `"Hello world times"`. |
| Paths.NonEmptyParts | src/app/api/upload-folder/route.js:52 | The empty-segment filter keeps no empty part and never adds parts. |
| Paths.NonEmptyPartsAppend | src/app/api/upload-folder/route.js:52 | The filter works segment by segment, in order. |
| Paths.NonEmptyKeepsNonEmptyLast | src/app/api/upload-folder/route.js:52-55 | A non-empty last segment stays last after the filter. |
| Paths.Locate | src/app/api/upload-folder/route.js:52-55 | For a subtitle path, course and file name are never empty, so the `"Unknown Course"` fallback is never used. |
| Paths.ExtensionIsSubtitleExtension | src/app/api/upload-folder/route.js:44 | A path that passes the filter ends in a four-character extension that lower-cases to `.srt` or `.vtt`. |
| Paths.ExtensionCharacters | src/app/api/upload-folder/route.js:44 | A four-character extension that lower-cases to `.srt` or `.vtt` starts with the only dot in it and holds no `/`. |
| Paths.SubtitlePathHasSegment | src/app/api/upload-folder/route.js:44-55 | The last non-empty segment of such a path ends with that extension. |
| Paths.OneSegmentPath | src/app/api/upload-folder/route.js:52-55 | A path without `/` is its own course and file name, in `"Unknown Chapter"`. |
| Paths.ThreeSegmentPath | src/app/api/upload-folder/route.js:52-55 | `course/chapter/file` gives exactly those three. |
| Paths.LeadingSlashIgnored | src/app/api/upload-folder/route.js:52-55 | A leading `/` changes neither the filter nor the location. |
| Paths.LeadingSlashKeepsFilter | src/app/api/upload-folder/route.js:44 | A path that passes the subtitle filter still passes it with a leading `/`. |
| Paths.LeadingSlashKeepsParts | src/app/api/upload-folder/route.js:52-53 | A leading `/` does not change the non-empty segments of a path. |
| Paths.Sanitize | src/app/api/upload-folder/route.js:76-79 | The id has the same length, only `[A-Za-z0-9_]`, word characters kept and every other character turned into `_`. |
| Paths.SanitizeMergesWithUnderscore | src/app/api/upload-folder/route.js:76-79 | Sanitising cannot tell a non-word character from `_`. |
| Paths.IdsCanCollide | src/app/api/upload-folder/route.js:76-79 | Two different locations (`Intro AI` and `Intro_AI`) get the same id. |
| Paths.IdsCanCollideAcrossSegments | src/app/api/upload-folder/route.js:76-79 | `("a_b","c")` and `("a","b_c")` get the same id. |
| Paths.LastDot | src/app/api/upload-folder/route.js:89 | None exactly when there is no `.`, else the index of the last `.`. |
| Paths.LastDotPastDotless | src/app/api/upload-folder/route.js:89 | Appending text without `.` does not move the last dot. |
| Paths.ExtName | src/app/api/upload-folder/route.js:89 | `path.extname`: empty, or a proper suffix that starts with `.` and has no other `.`. |
| Paths.SubtitleDocumentType | src/app/api/upload-folder/route.js:89 | A subtitle name's type is its lower-cased extension, or `""` when the name is only the extension. |
| Paths.FileNameType | src/app/api/upload-folder/route.js:89 | The stored type of a subtitle path's file name is the lower-cased extension, or `""` for a bare `.srt`/`.vtt`. |
| Upload.DocumentIsWellFormed | src/app/api/upload-folder/route.js:44-91 | A document comes from a subtitle path and stores it as `originalPath`. Its content is the parsed text, non-empty and trimmed. Its id uses only `[A-Za-z0-9_]` and is as long as `course_chapter_filename`. |
| Upload.UploadFolder | src/app/api/upload-folder/route.js:14-123 | No files gives the 400 error, and only then. Otherwise the summary is the filtered count, the documents in file order, and the structure built from them. |
| Upload.DocumentsOfAppend | src/app/api/upload-folder/route.js:39-104 | Documents keep file order: the documents of `a + b` are those of `a`, then those of `b`. |
| Seqs.FilterMapAppend | src/app/api/upload-folder/route.js:39-104 | A loop that keeps the values it yields, in order, over `a + b` keeps those of `a`, then those of `b`. |
| Upload.DocumentsAtMostProcessed | src/app/api/upload-folder/route.js:74-119 | `documentsGenerated <= filesProcessed`. |
| Upload.DocumentsComeFromFiles | src/app/api/upload-folder/route.js:39-91 | Every document is the document of some uploaded file. |
| Upload.StructureListsFilesUnder | src/app/api/upload-folder/route.js:93-100 | `courseStructure[course][chapter]` exists exactly when some document is filed there, and lists exactly their file names in order. |
| Upload.StructureHasOnlyFiledCourses | src/app/api/upload-folder/route.js:93-100 | A course key exists exactly when some document has that course, and never maps to an empty object. |
| Strings.Trim | src/app/api/upload-folder/route.js:149 | `trim()` gives a result with no whitespace at either end, no longer than the input. |
| Strings.TrimIsSlice | src/app/api/upload-folder/route.js:149 | The trimmed text is the input between its leading and trailing whitespace. |
| Strings.TrimOfTrimmed | src/app/api/upload-folder/route.js:198 | Trimming trimmed text changes nothing. |
| Strings.TrimEmptyIffAllSpace | src/app/api/upload-folder/route.js:142 | A text trims to `""` exactly when it is all whitespace. |
| Strings.Split | src/app/api/upload-folder/route.js:141 | `split` gives at least one part. |
| Strings.JoinSplit | src/app/api/upload-folder/route.js:141 | Joining the parts of a split with its separator gives the input back. |
| Strings.JoinSplitReplaces | src/app/api/upload-folder/route.js:145-149 | Splitting on one character and joining with another replaces every occurrence of the one by the other. |
| Strings.SplitPartsLackSeparator | src/app/api/upload-folder/route.js:145 | No part contains the separator. |
| Strings.SplitSingleIffNoSeparator | src/app/api/upload-folder/route.js:145 | The split is the input alone exactly when the separator does not occur. |
| Strings.SplitAtChar | src/app/api/upload-folder/route.js:52 | Splitting `a + c + b` on `c`, with `c` not in `a`, gives `a` followed by the split of `b`. |
| Strings.SplitLastEndsWith | src/app/api/upload-folder/route.js:52-55 | The last part of a split keeps a suffix that holds no separator. |
| Strings.ToLower | src/app/api/upload-folder/route.js:138 | `toLowerCase` keeps the length and maps `A`-`Z` to `a`-`z` and nothing else. |
| Strings.LowerSuffix | src/app/api/upload-folder/route.js:44 | Lower-casing commutes with taking a suffix, so an extension test on the lower-cased name is a test on the lower-cased extension. |
| Strings.DecimalString | src/app/api/generate-embeddings/route.js:95 | A number prints as a non-empty string of digits. |
| Chunking.Chunks | src/app/api/generate-embeddings/route.js:162-172 | Any content, the empty one included, gives at least one chunk. |
| Chunking.ChunkDocument | src/app/api/generate-embeddings/route.js:162-172 | The stepped loop gives exactly the chunks of the specification. |
| Chunking.ChunksConcatenate | src/app/api/generate-embeddings/route.js:162-172 | The chunks concatenated in order give back the content. |
| Chunking.ShortContentIsOneChunk | src/app/api/generate-embeddings/route.js:163-165 | Content within the limit is one chunk, itself. |
| Chunking.LongContentChunkSizes | src/app/api/generate-embeddings/route.js:167-171 | Longer content gives `ceil(length / max)` chunks, all of length `max` except the last, which has 1 to `max` characters. |
| Embeddings.ChunkId | src/app/api/generate-embeddings/route.js:95 | A chunk of a split document gets an id longer than the document's; an only chunk keeps the document id. |
| Embeddings.EmbedChunks | src/app/api/generate-embeddings/route.js:82-122 | There are at most as many records as remaining chunks, and the call counter never goes back. |
| Embeddings.EmbedChunksIsPrefix | src/app/api/generate-embeddings/route.js:82-122 | Record `j` comes from chunk `k + j` and the `j`-th call's vector. The records stop at the first failed call, or include every chunk. |
| Embeddings.DocumentRecords | src/app/api/generate-embeddings/route.js:80-104 | A document's records have the ids `id_chunk_k` or `id`, the chunk contents, and metadata `isChunk`, `chunkIndex`, `totalChunks`. Each has its call's vector, and there is one record per chunk when every call succeeds. |
| Embeddings.EmbedOneDocument | src/app/api/generate-embeddings/route.js:79-122 | The per-document chunk loop, with its catch, gives the records and the counter of the specification. |
| Embeddings.EmbedAll | src/app/api/generate-embeddings/route.js:68-127 | Batches of five, with documents and chunks in turn, give the same records as embedding the documents one after another. |
| Embeddings.EmbedBatch | src/app/api/generate-embeddings/route.js:77-123 | The loop over one batch gives the records and call count of embedding its documents one after another from the current call index. |
| Embeddings.EmbedDocumentsAppend | src/app/api/generate-embeddings/route.js:68-127 | A failure in one document does not stop the documents after it: two runs of documents give the records of each, in order. |
| Embeddings.EmbedDocumentsCons | src/app/api/generate-embeddings/route.js:77-123 | The first document's records come first, then the rest continue from its counter. |
| Embeddings.OneDocument | src/app/api/generate-embeddings/route.js:77-123 | From any call index, a run over a single document gives that document's records. |
| Embeddings.ToProcess | src/app/api/generate-embeddings/route.js:51-54 | The resume filter never adds documents. |
| Embeddings.ToProcessKeepsUnstored | src/app/api/generate-embeddings/route.js:51-54 | A document is processed exactly when its id is not among the stored records' ids. |
| Embeddings.ToProcessAppend | src/app/api/generate-embeddings/route.js:51-54 | The filter keeps document order. |
| Embeddings.GenerateEmbeddings | src/app/api/generate-embeddings/route.js:15-147 | No session id gives 400, and a missing documents file gives 404, each exactly then. Otherwise the count is the new records, and the saved collection is the stored records followed by the new ones. |
| Embeddings.RunOfUnstoredDocument | src/app/api/generate-embeddings/route.js:51-127 | A document not stored yet is processed alone. |
| Embeddings.ChunkRecordsLackDocumentId | src/app/api/generate-embeddings/route.js:95 | No record of a split document has the document's id. |
| Embeddings.RerunDuplicatesChunkedDocument | src/app/api/generate-embeddings/route.js:51-95 | When every call succeeds, a second run over a split document embeds it again and gives the same records again. |
| Embeddings.RerunSkipsUnchunkedDocument | src/app/api/generate-embeddings/route.js:51-95 | A one-chunk document is stored under its own id and skipped by the next run. |
| Search.CosineSimilarity | src/app/api/search/route.js:87-110 | The loop's sums, square roots, zero check and quotient give exactly the similarity of the specification, the length error included. |
| Search.MismatchedLengthsFail | src/app/api/search/route.js:88-90 | The similarity throws exactly when the lengths differ. |
| Search.DotSymmetric | src/app/api/search/route.js:96-100 | The dot product does not depend on argument order. |
| Search.CosineSymmetric | src/app/api/search/route.js:87-110 | `cos(a, b) == cos(b, a)`. |
| Search.SquaredNormZeroIffZeroVector | src/app/api/search/route.js:96-103 | A squared norm is never negative. It is 0 for the zero vector and positive otherwise. |
| Search.ZeroVectorScoresZero | src/app/api/search/route.js:102-107 | The zero vector scores exactly 0 against any vector of its length, in either position. |
| Search.ScoreOfNonZeroVectors | src/app/api/search/route.js:102-109 | Both norms are non-zero and the score is the quotient exactly when neither vector is zero. |
| Search.ScoredPairsRecords | src/app/api/search/route.js:53-56 | Scoring succeeds exactly when every stored vector has the query's length. It then pairs each record, in order, with its similarity. |
| Search.InsertIsPermutation | src/app/api/search/route.js:59-60 | One insertion step adds exactly the inserted record. |
| Search.InsertKeepsDescending | src/app/api/search/route.js:59-60 | Inserting into a descending run keeps it descending. |
| Search.InsertIsStable | src/app/api/search/route.js:59-60 | An inserted record goes after the ones of equal score. |
| Search.WithScoreAppend | src/app/api/search/route.js:59-60 | The records of one score in `a + b` are those of `a`, then those of `b`. |
| Search.NoneWithScore | src/app/api/search/route.js:59-60 | A descending run whose top is below `v` has no record of score `v`. |
| Search.RankedIsSortedPermutation | src/app/api/search/route.js:59-60 | The sorted results are in non-increasing score order and are a permutation of the scored records. |
| Search.RankedIsStable | src/app/api/search/route.js:59-60 | For every score, records with that score keep their stored order. |
| Search.SliceEnd | src/app/api/search/route.js:61 | `slice(0, limit)` ends at `min(limit, n)` for a non-negative limit, and at `max(n + limit, 0)` for a negative one. |
| Search.Projected | src/app/api/search/route.js:69-74 | One result per record, each `{id, content, metadata, score}` of that record. |
| Search.TopResultsCountAndOrder | src/app/api/search/route.js:59-61 | The count follows the slice rule, and the results are best first. |
| Search.TopResultsComeFromScored | src/app/api/search/route.js:53-74 | Every result is the projection of a scored record. |
| Search.ResultsAreTopRanked | src/app/api/search/route.js:59-61 | No record left out of the results ranks above a returned one. |
| Search.SearchErrors | src/app/api/search/route.js:15-90 | Each refusal happens exactly in its case: an empty query gives 400; a failed query embedding gives 500, even without an artifact; a missing artifact gives 404; a length mismatch gives 500. |
| Search.SearchResults | src/app/api/search/route.js:13-79 | A successful search returns `min(limit, n)` results for a non-negative limit, 5 when absent. The results are best first, and each is a stored record without its vector, scored with its similarity to the query. |
| Strings.JoinPlacesPart | src/app/api/chat/route.js:55-60 | `join` places part `i` at the sum of the earlier parts' and separators' lengths. |
| Strings.JoinPlacesSeparator | src/app/api/chat/route.js:55-60 | Every part but the last is followed by the separator. |
| Strings.JoinLength | src/app/api/chat/route.js:55-60 | The last part ends the joined text. |
| Strings.OccursAfterPrefix | src/app/api/chat/route.js:55-60 | An occurrence moves right by the length of a prefix. |
| Chat.UserQueryOfLastMessage | src/app/api/chat/route.js:22-24 | The query is the last message's non-empty first part text, else its non-empty `content`. It is `""` exactly when neither exists, and earlier messages play no part. |
| Chat.NoMessagesNoQuery | src/app/api/chat/route.js:22-24 | An empty conversation has the query `""`. |
| Chat.ContextBlock | src/app/api/chat/route.js:58 | A result's block starts with `[` and ends with the result's content. |
| Chat.Blocks | src/app/api/chat/route.js:55-59 | One block per result, in order. |
| Chat.Sources | src/app/api/chat/route.js:62-67 | One `{course, chapter, filename, score}` per result, in the same order. |
| Chat.ContextEmptyIffNoResults | src/app/api/chat/route.js:54-60 | The context is `""` exactly when there are no results. |
| Chat.ContextPlacesBlock | src/app/api/chat/route.js:55-60 | Result `i`'s block occurs in the context at the offset of the `i`-th joined part. |
| Chat.ContextSeparatesBlocks | src/app/api/chat/route.js:55-60 | Each block is followed by `"\n\n---\n\n"`, and the next result's block begins right after it: blocks appear in rank order. |
| Chat.NextOffset | src/app/api/chat/route.js:55-60 | The next part starts after this part and one separator. |
| Chat.NoRetrievalWithoutSessionAndQuery | src/app/api/chat/route.js:27-30 | Without a session id or a query there is no context and no source. |
| Chat.RetrievalIffResults | src/app/api/chat/route.js:27-78 | The context is non-empty exactly when retrieval ran and the search route answered ok with results; the context and sources then format those results. Otherwise (thrown, not ok, no results) both are empty. |
| Chat.RetrievalFromSearchRoute | src/app/api/chat/route.js:43-47 | When the reply is the search route's own answer, with `limit: 3`, there are at most three sources, best first. |
| Chat.SystemPromptQuotesContext | src/app/api/chat/route.js:88-95 | The system prompt contains the context verbatim. |
| Chat.SystemMessageIffContext | src/app/api/chat/route.js:81-99 | With context, exactly one system message is put in front: it quotes the context and the converted messages follow it unchanged. Without context, the converted messages pass through unchanged. |
| Chat.HandleChat | src/app/api/chat/route.js:12-106 | A missing API key gives the 500 error, and only then. Otherwise the model receives the converted messages, with the system message exactly when the retrieval found context, and the sources are the retrieval's. |

## Left out

- Network, file system and clock: form-data parsing, the files written under `data/raw`, the JSON
  artifacts, `Date.now()` session ids, `existsSync`, the pacing delays and logging. Artifacts that
  exist or not are `Option` parameters.
- The 500 responses from each route's outer `catch` when reading, writing or parsing an artifact
  fails. The model has no such failure. `parseSubtitleFile`'s own `catch` (lines 199-202) cannot be
  reached, so it is not modelled.
- The embedding provider is an oracle indexed by the count of calls made, failed ones included.
  The LLM call (`streamText`, its options beyond model, temperature and token limit, and the
  choice of response method), `convertToModelMessages`, and the URL of the search `fetch` are
  parameters or left out.
- A Dafny `char` is a Unicode scalar value, where a JavaScript string is a sequence of UTF-16 code
  units. Text is modelled as a sequence of scalar values, and the regular-expression classes are ASCII.
  `\s` is space, tab, line feed, carriage return, vertical tab and form feed; `\d` is `0-9`;
  `\b` uses `[A-Za-z0-9_]`. `toLowerCase` lower-cases `A`-`Z` only.
- StripBoundaryNumbers: the function's own contract states only that the text does not grow and
  that digit-free text is unchanged. `StripBoundaryNumbersDropsNumber`, `StripBoundaryNumbersKeepsNumber`
  and `StripBoundaryNumbersCopiesHead` state the output at every position.
- Cleaning.StripLineStartNumbers, Cleaning.StripInnerNumbers, Cleaning.StripListNumbers,
  Cleaning.TightenTerminalPunctuation, Cleaning.SpaceAfterMark, Cleaning.StripEnds: each function's
  own contract states only that the text does not grow and that text without the pattern is
  unchanged. What each removes and keeps is stated by its `DropsNumber`, `KeepsNumber`,
  `DropsSpace`, `Respaces`, `DropsLeadingSpace` and `CopiesHead` lemmas. For the inner-number,
  terminal-punctuation, mark and ends rules, whitespace that does not begin a match (for example,
  whitespace followed by a letter) is kept, but no lemma states it.
- Chunking.Chunks, Chunking.ChunkDocument, Paths.Sanitize, Paths.DocumentId: lengths, chunk
  boundaries and sanitised ids count scalar values, not UTF-16 code units. A character outside the
  Basic Multilingual Plane counts 2 for JavaScript's `length` and `substring`, so a chunk can end in
  the middle of it, and the sanitising pattern, which has no `u` flag, turns it into `__`, not `_`.
- Floating point: vectors and scores are reals. `Math.sqrt` is a parameter, and the sort comparator
  on NaN is not modelled.
- Search.ScoreOfNonZeroVectors: assumes the square root is zero only at zero, which `Math.sqrt` satisfies on non-negative input.
- Search.ZeroVectorScoresZero: assumes `sqrt(0) == 0`.
- Chunking.ChunkDocument: requires a positive chunk size. The route always passes 25000, and `chunkDocument` would not terminate on 0.
- Request values of other JSON types are not modelled: a `query`, `sessionId` or message text that
  is not a string, and a `limit` that is a fraction, `null` or a string. `!x` on a string is
  modelled as `x == ""`, and an absent value as `""`.
- A `messages` field that is missing makes the chat handler throw (500). Only sequences of
  messages are modelled.
- A course or chapter named like an `Object.prototype` property is looked up on the prototype by
  `courseStructure[course]`. Here `courseStructure` is a plain map.
- `sources` in the chat handler is computed but never sent anywhere. The model returns it beside
  the request so that its contents can be stated.
- The front end (`src/app/page.tsx`) never sends a `sessionId`, so from that page the chat handler
  never retrieves. The page is not part of this model.
