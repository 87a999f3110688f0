# nanocv core, modelled in Dafny

This project models the data-handling core of nanocv, a C++ library for training
convolution networks on image tasks, together with its Python plotting script.
Each module follows one source file:

- **Archive** (`src/common/io_arch.cpp`): how an archive type is chosen from the
  file suffix, the octal size field of a tar header, the tar walk (zero end
  block, long-name `L` headers, directories and other entries skipped, data
  padded to 512-byte blocks), and the per-file decoding dispatch. The walk is
  proved to read back every archive its encoder writes.
- **MemoryStream** (`src/cortex/file/mstream.cpp`): the in-memory input
  stream: `read`, `skip`, `getline`, `eof` and `good`.
- **TextTable** (`src/text/table.cpp`): the text table, its column widths and
  its printed layout with and without row delimiters.
- **Loops** (`src/core/tpool.h`): how `loopit` and `loopi` split `[0, size)`
  into per-thread ranges and chunks. The chunks are proved to partition the
  range in order.
- **TaskGrid** (`src/nanocv/task.cpp`): the sample geometry, and how
  `save_as_images` groups samples into grids of `grows x gcols` cells.
- **MemVision** (`src/tasks/task_mem_vision.h`): the in-memory vision task:
  its colour mode, stored images and `reconfig`.
- **Mnist** (`src/tasks/task_mnist.cpp`): labels, directories, and the checks
  `load_binary` makes on the image and label files.
- **Svhn** (`src/cortex/tasks/task_svhn.cpp`): the label mapping, the pixel
  layout and the dimension and type checks of `decode`, and the sample counts
  checked by `load`.
- **Charset** (`src/cortex/tasks/task_charset.cpp`): character-set class ranges,
  the clamped configuration, and the labels, targets and folds of the generated
  samples.
- **Convolution** (`src/cortex/layers/layer_convolution.cpp`): `resize`, the
  parameter layout of `save_params` and `load_params`, the bias step of `output`,
  and the bias gradient of `gparam`.
- **OpenCL** (`src/opencl/util.cpp`): the error and device-type name tables.
- **Plotter** (`scripts/plotter.py`): which pages the reports contain, with
  which titles, axis labels and curves, and when a report stops early.

Three smaller modules support the rest:

- **Strings**: the string operations the sources use (Python's `find`, `rfind`
  and `replace`, and `to_string`).
- **Arith**: small arithmetic lemmas.
- **Wrappers**: `Option` and `Result`.

Bytes are the integers 0 to 255 (the `byte` type of the Strings module). Unsigned 64-bit arithmetic
appears only in the tar octal decoder, where it is written out as reduction
modulo 2^64. The size field is read as the source reads it: `decode_tar_octal`
is called with the default size 12, so the scan covers the 12 bytes of the size
field and the first byte of the next field.

## Model

| member | source | states |
|---|---|---|
| Archive.DecodeArchiveTypeAsWritten | src/common/io_arch.cpp:24-54 | as written, no path is ever classified bz2; a path is unknown exactly when it ends, ignoring case, with none of `.tar.gz .tgz .tar.bz2 .tbz .tbz2 .tb2 .tar .gz` |
| Archive.DecodeArchiveType | src/common/io_arch.cpp:24-54 | corrected classification: bz2 exactly for paths ending in `.bz2` that would otherwise be unknown; every other path is classified as written |
| Archive.Bz2IsUnknownAsWritten | src/common/io_arch.cpp:24-54 | a path ending in `.bz2` but not `.tar.bz2` is unknown as written and bz2 when corrected |
| Archive.IEndsWithLower | src/common/io_arch.cpp:26-48 | the suffix test gives the same answer for a path and its lower-cased copy |
| Archive.DecodeArchiveTypeCaseInsensitive | src/common/io_arch.cpp:24-54 | lower-casing a path never changes its archive type |
| Archive.FirstTerminator | src/common/io_arch.cpp:72-81 | the scan end: no NUL or space before it, and a NUL or space at it unless the scan ran past the field |
| Archive.TarOctal | src/common/io_arch.cpp:70-92 | the decoded size fits in 64 bits |
| Archive.ScanTerminator | src/common/io_arch.cpp:72-81 | the first loop stops at the first NUL or space, or one past the field |
| Archive.Accumulate | src/common/io_arch.cpp:85-89 | one step of the second loop extends the modulo-2^64 value by one more leading digit and multiplies the multiplier by 8 |
| Archive.AccumulateDigits | src/common/io_arch.cpp:83-91 | the second loop yields the base-8 value of the digits before the terminator, modulo 2^64 |
| Archive.DecodeTarOctal | src/common/io_arch.cpp:70-92 | the decoder returns the base-8 value, modulo 2^64, of the bytes before the first NUL or space |
| Archive.OctalValueBounds | src/common/io_arch.cpp:62-65 | n octal digits have a value below 8^n |
| Archive.TarOctalExact | src/common/io_arch.cpp:70-92 | for octal digits in a field of at most 20 bytes, no wrap-around happens and the result is the exact base-8 value |
| Archive.TarOctalLeadingTerminator | src/common/io_arch.cpp:72-81 | a field that starts with NUL or space decodes to 0 |
| Archive.TarOctalIgnoresTail | src/common/io_arch.cpp:72-89 | the bytes after the first terminator do not affect the value |
| Archive.HeaderLayout | src/common/io_arch.cpp:94-113 | the header fields tile exactly 512 bytes; name at 0 (100 bytes), size at 124 (12), type flag at 156, prefix at 345 (155) |
| Archive.CString | src/common/io_arch.cpp:182-183 | a C string read from a header field: the bytes up to the first NUL, capped at the field length |
| Archive.EntryName | src/common/io_arch.cpp:181-190 | the entry name is the header name, prefixed with the prefix field and a slash when that field is non-empty |
| Archive.Padding | src/common/io_arch.cpp:227-232 | the padding after data is less than one block and ends the data on a 512-byte boundary |
| Archive.DecodeEntry | src/common/io_arch.cpp:120-138 | with the entry's suffix classified as written: a tar or unknown entry keeps its bytes and fails exactly when it is empty; a gzip or `.tar.gz` entry is gunzipped and a `.tar.bz2` entry is bunzipped |
| Archive.LoadFileAgreesWithDecodeEntry | src/common/io_arch.cpp:120-158 | the file form of `io_decode` and the in-memory form agree on every non-empty input; on an empty tar or unknown input the in-memory form fails and the file form hands on the empty bytes |
| Archive.DecodeAs | src/common/io_arch.cpp:255-293 | `io::decode` for a given archive type: a missing or undecodable file fails with no callback; a tarball is walked; a single gzip or bzip2 file calls back once with the decompressed bytes and succeeds; an unknown file calls back with its bytes and fails |
| Archive.Decode | src/common/io_arch.cpp:255-293 | with the path classified as written: a missing file fails with no callback; a `.tar`, `.tar.gz` or `.tar.bz2` file that loads gives exactly the walk of its loaded bytes; a gzip file calls back once with the decompressed bytes and succeeds; an unknown suffix calls back once with the raw bytes and fails |
| Archive.DecodeTarRoundTrip | src/common/io_arch.cpp:255-293 | a `.tar` file holding the encoding of plain entries, or a `.tar.gz` file that decompresses to one, is decoded into exactly those entries, in order, and succeeds |
| Archive.DecodeCorrected | src/common/io_arch.cpp:255-293 | with the corrected classification, a `.bz2` file that decompresses calls back once with the decompressed bytes and succeeds |
| Archive.DecodeCorrectedAgrees | src/common/io_arch.cpp:255-293 | the corrected and as-written `io::decode` differ only on paths the correction classifies as bz2 |
| Archive.Bz2DecodeAsWritten | src/common/io_arch.cpp:255-293 | as written, a `.bz2` file is handed to the callback still compressed and decoding fails; corrected, it is handed on decompressed and decoding succeeds |
| Archive.Walk | src/common/io_arch.cpp:160-253 | the walk of `io_untar`, through the lemmas about it: a zero block ends it, a short header fails it, other entry types are skipped, `L` headers name the next entry, it reports at most one entry per block, and it reads back every encoded list of plain entries |
| Archive.RegularEntry | src/common/io_arch.cpp:206-232 | a regular file entry, through RegularEntryStep and WalkFailsOnEmptyPlainEntry: truncated or undecodable data fails the walk, and a decodable entry is reported before the walk resumes after its padded data |
| Archive.FileSize | src/common/io_arch.cpp:114-117 | the size a header gives is below 2^64, and 0 when the size field starts with NUL or space; a header written for a size reads back that size |
| Archive.WalkStopsAtZeroBlock | src/common/io_arch.cpp:175-179 | an all-zero header ends the walk successfully with no further entries |
| Archive.WalkFailsOnShortHeader | src/common/io_arch.cpp:167-174 | a truncated header fails the walk with no entries |
| Archive.WalkSkipsOtherEntries | src/common/io_arch.cpp:235-248 | a directory or other non-file header is skipped with no callback, and the walk carries on from the next block |
| Archive.WalkFailsOnEmptyPlainEntry | src/common/io_arch.cpp:217-222 | a regular entry of size 0 with a plain name fails the walk before any callback |
| Archive.WalkLongName | src/common/io_arch.cpp:192-204 | after an `L` header, the next header's name bytes become the file name and the header after that gives the size |
| Archive.WalkRegularHeader | src/common/io_arch.cpp:192-199 | a regular header without a pending long name starts an entry named by EntryName |
| Archive.RegularEntryStep | src/common/io_arch.cpp:206-232 | a decodable entry is reported with its decoded bytes, and the walk resumes after the padded data |
| Archive.WalkEntriesBound | src/common/io_arch.cpp:167-249 | the walk reports at most one entry per 512-byte block of input |
| Archive.RegularHeaderDecodes | src/common/io_arch.cpp:114-117 | a header written for a name and size reads back as a regular entry with that name and size |
| Archive.WalkPlainEntry | src/common/io_arch.cpp:192-232 | one encoded plain entry is reported unchanged, and the walk goes on with what follows |
| Archive.UntarRoundTrip | src/common/io_arch.cpp:160-253 | walking the encoding of any list of non-empty plain entries succeeds and reports exactly those entries, in order |
| MemoryStream.Read | src/cortex/file/mstream.cpp:11-30 | a read fails, leaving the stream unchanged, when n is not positive or the stream is at its end; otherwise it delivers the next min(n, remaining) bytes, advances by that many and records the count |
| MemoryStream.GoodIffReadable | src/cortex/file/mstream.cpp:78-91 | a stream is good exactly when a one-byte read succeeds, and at eof exactly when it fails |
| MemoryStream.Eof | src/cortex/file/mstream.cpp:78-81 | through GoodIffReadable: the stream is at eof exactly when a one-byte read fails |
| MemoryStream.Good | src/cortex/file/mstream.cpp:83-91 | through GoodIffReadable: the stream is good exactly when a one-byte read succeeds |
| MemoryStream.ReadConcat | src/cortex/file/mstream.cpp:11-30 | two reads in a row deliver what one read of the total delivers |
| MemoryStream.ReadToEof | src/cortex/file/mstream.cpp:11-30 | reading at least what remains delivers the rest and reaches eof |
| MemoryStream.SkipAsWritten | src/cortex/file/mstream.cpp:49-61 | as written: a skip succeeds whenever the target position does not exceed the size, negative targets included |
| MemoryStream.SkipAsWrittenLeavesBuffer | src/cortex/file/mstream.cpp:49-61 | skipping -1 from the start of "ab" succeeds and leaves the position outside the buffer |
| MemoryStream.Skip | src/cortex/file/mstream.cpp:49-61 | corrected: a skip succeeds exactly when n is not negative and the target stays within the buffer; failure changes nothing |
| MemoryStream.SkipAgreesForward | src/cortex/file/mstream.cpp:49-61 | for non-negative n the corrected skip is the skip as written |
| MemoryStream.SkipThenRead | src/cortex/file/mstream.cpp:11-61 | skipping a bytes and reading b gives the last b bytes of reading a + b |
| MemoryStream.SkipBreaks | src/cortex/file/mstream.cpp:36-38 | the first loop of getline stops at the first character that is not a line break |
| MemoryStream.LineEnd | src/cortex/file/mstream.cpp:40-43 | the second loop stops at the next line break or the end of the data |
| MemoryStream.Getline | src/cortex/file/mstream.cpp:32-47 | getline skips leading line breaks, returns the following characters up to the next break, and succeeds exactly when that line is non-empty |
| MemoryStream.GetlineSplit | src/cortex/file/mstream.cpp:32-47 | the consumed text is a run of line breaks followed by a run of non-break characters |
| TextTable.RowAt | src/text/table.cpp:25-28 | `row(i)` exists exactly for i below the row count, and is the i-th row |
| TextTable.Clear | src/text/table.cpp:40-43 | clearing removes every row and keeps the title and the header |
| TextTable.NameColsize | src/text/table.cpp:45-54 | the name column is as wide as the widest of the title and the row names |
| TextTable.ValueColsizes | src/text/table.cpp:56-75 | each value column is as wide as the widest of its header and its cells |
| TextTable.RowDelim | src/text/table.cpp:77-88 | the delimiter line starts and ends with `\|` and is as wide as a table line |
| TextTable.Line | src/text/table.cpp:102-111 | a table line starts with `\| ` and its first cell, ends with `\|`, and has the table's width |
| TextTable.HeaderLine | src/text/table.cpp:102-111 | the header line has the table's width |
| TextTable.RowLine | src/text/table.cpp:123-128 | each row line has the table's width |
| TextTable.RowLines | src/text/table.cpp:114-129 | one line per row, in row order |
| TextTable.Print | src/text/table.cpp:90-132 | the output starts with delimiter, header and delimiter, and ends with a delimiter |
| TextTable.RowLoopPlain | src/text/table.cpp:114-129 | without row delimiters the row loop prints the rows one after another |
| TextTable.RowLoopSeparated | src/text/table.cpp:114-129 | with row delimiters the row loop puts a dash line before every row but the first |
| TextTable.InterleavedShape | src/text/table.cpp:114-129 | n rows print as n lines, plus n - 1 dash lines with row delimiters |
| TextTable.PrintShape | src/text/table.cpp:90-132 | the full layout: four frame lines around the rows; every line but the dash separators has the table's width |
| TextTable.PrintCleared | src/text/table.cpp:90-132 | a cleared table prints as just delimiter, header, delimiter, delimiter |
| Loops.ThreadChunkIsCeiling | src/core/tpool.h:248-250 | each thread's share is the ceiling of size over workers; it is zero only for an empty range |
| Loops.ThreadChunk | src/core/tpool.h:248-249 | the share of each thread, through ThreadChunkIsCeiling: the ceiling of size over workers, zero only for an empty range |
| Loops.ChunkCalls | src/core/tpool.h:268-271 | the chunks of one thread, through ChunkCallsShape and ChunkCallsTile: they tile the thread's range, all but the last full |
| Loops.ThreadCalls | src/core/tpool.h:253-273 | the chunks from one thread on: each names a thread from there up, and, through ThreadCallsTile, they tile the rest of the range thread by thread |
| Loops.ThreadBeginIsProduct | src/core/tpool.h:255-256 | thread t starts at t times the thread share |
| Loops.ChunkCallsShape | src/core/tpool.h:268-271 | the chunks of one thread lie in its range, are tagged with it, and all but the last are full |
| Loops.LoopIt | src/core/tpool.h:243-276 | an empty range makes no calls; every call names a valid thread |
| Loops.LoopI | src/core/tpool.h:283-291 | `loopi` calls the body on exactly the ranges `loopit` produces |
| Loops.ChunkCallsTile | src/core/tpool.h:268-271 | one thread's chunks tile its range |
| Loops.ThreadCallsTile | src/core/tpool.h:253-273 | the chunks of the remaining threads tile the rest of the range |
| Loops.LoopItTiles | src/core/tpool.h:243-276 | all chunks together tile `[0, size)` in order |
| Loops.LoopItPartition | src/core/tpool.h:243-276 | every chunk is non-empty and in range, chunks come in increasing order, and each index is covered exactly once |
| Loops.ThreadCallsInRange | src/core/tpool.h:253-271 | each chunk lies within its thread's range and is at most min(share, chunk limit) long |
| Loops.ThreadCallsSorted | src/core/tpool.h:253-273 | the chunks come thread by thread |
| Loops.ThreadCallsFullChunks | src/core/tpool.h:257-271 | every chunk but the last of a thread has full length |
| Loops.LoopItThreads | src/core/tpool.h:248-276 | for the whole loop: chunks stay in their thread's range, are at most the chunk size, are full except the last of each thread, and come in thread order |
| TaskGrid.SampleRegionIsMovedSize | src/nanocv/task.cpp:28-36 | a sample's region is the sample size translated to its position |
| TaskGrid.GroupsFlatten | src/nanocv/task.cpp:66-75 | the groups, concatenated, are the samples in order |
| TaskGrid.GroupSizes | src/nanocv/task.cpp:66-75 | every group is non-empty and at most grows x gcols; all but the last are full |
| TaskGrid.GroupCount | src/nanocv/task.cpp:66-75 | the number of groups is the ceiling of the sample count over the group capacity |
| TaskGrid.TakeGroup | src/nanocv/task.cpp:71-75 | selection takes the next min(capacity, remaining) samples |
| TaskGrid.ComposeRow | src/nanocv/task.cpp:80-85 | one grid row places the next gcols samples in that row |
| TaskGrid.Compose | src/nanocv/task.cpp:78-86 | the grid holds the group's samples in row-major order |
| TaskGrid.RowMajorFits | src/nanocv/task.cpp:78-86 | every placed sample lands in a distinct cell inside the grid, and reading the cells gives the group back |
| TaskGrid.GroupPathsDistinct | src/nanocv/task.cpp:89 | different groups are saved under different file names |
| TaskGrid.GroupPath | src/nanocv/task.cpp:89 | the file name of a group, through GroupPathsDistinct: different group numbers give different names |
| TaskGrid.SaveAsImages | src/nanocv/task.cpp:62-93 | no samples save nothing; otherwise grid g holds group g in row-major order and is saved to the path numbered g + 1 |
| TaskGrid.LabelBasePath | src/nanocv/task.cpp:57-58 | the per-label base path is the base path, extended by the label when there is one |
| TaskGrid.SaveLabelsAsImages | src/nanocv/task.cpp:43-60 | one result per label, in label order; a label with no samples saves nothing; otherwise its grid g holds its group g in row-major order and is saved under that label's base path, numbered g + 1 |
| Strings.Find | scripts/plotter.py:10 | `find` gives the first index of the character, and -1 exactly when it is absent |
| Strings.RFind | scripts/plotter.py:9 | `rfind` gives the last index of the character, and -1 exactly when it is absent |
| Strings.RemoveAllAbsent | scripts/plotter.py:9-10 | replacing a text that does not occur leaves the string unchanged |
| Strings.RemoveAllTrailing | scripts/plotter.py:10 | replacing a trailing text whose first character does not occur before it removes exactly that text |
| Strings.NatToStringRoundTrip | src/nanocv/task.cpp:89 | a number's decimal text reads back as the number |
| Strings.NatToStringInjective | src/nanocv/task.cpp:89 | different numbers have different decimal texts |
| MemVision.VisionDims | src/tasks/task_mem_vision.h:80-88 | the input shape carries the requested image rows and columns |
| MemVision.MakeTask | src/tasks/task_mem_vision.h:68-75 | a new task holds no images and no samples |
| MemVision.Reconfig | src/tasks/task_mem_vision.h:118-126 | reconfiguring keeps the stored images and samples |
| MemVision.AddChunk | src/tasks/task_mem_vision.h:93-98 | storing an image leaves the shapes, fold count and samples unchanged |
| MemVision.ChannelsDistinct | src/tasks/task_mem_vision.h:85 | the colour modes use 1, 3 and 4 channels, one count per mode |
| MemVision.ColorOfCases | src/tasks/task_mem_vision.h:103-112 | 4 channels read as rgba, 3 as rgb, and any other count as luma |
| MemVision.ChannelsOfColor | src/tasks/task_mem_vision.h:103-112 | a channel count survives the trip through its colour mode exactly when it is 1, 3 or 4 |
| MemVision.Channels | src/tasks/task_mem_vision.h:85 | a colour mode uses 1, 3 or 4 channels, and `color()` reads that count back as the same mode |
| MemVision.ColorOf | src/tasks/task_mem_vision.h:103-112 | 3 and 4 channels never read as luma |
| MemVision.ColorRoundTrip | src/tasks/task_mem_vision.h:80-112 | a task built for a colour mode reports that mode and the requested size, with no images |
| MemVision.ReconfigLikeConstructor | src/tasks/task_mem_vision.h:118-126 | reconfiguring with a colour mode gives the shapes the constructor would, reports that mode, and keeps the images |
| MemVision.AddChunkImage | src/tasks/task_mem_vision.h:93-98 | a stored image becomes the last image, and the earlier images stay where they were |
| Mnist.LabelsMatchOutputs | src/tasks/task_mnist.cpp:31-56 | both kinds have 10 distinct labels, one per output |
| Mnist.DigitLabels | src/tasks/task_mnist.cpp:31-48 | digit i is labelled "digit" followed by i |
| Mnist.Labels | src/tasks/task_mnist.cpp:31-48 | the label table, through LabelsMatchOutputs and DigitLabels: 10 distinct labels per kind, digit i labelled "digit" followed by i |
| Mnist.NewTask | src/tasks/task_mnist.cpp:51-56 | a new task is luma, holds no images, and its directory ends in the kind's directory name |
| Mnist.FromJson | src/tasks/task_mnist.cpp:58-63 | the directory and fold count are taken from the configuration, the shapes are the fixed 28x28 and 10 outputs, and the stored data is untouched |
| Mnist.FilesDistinct | src/tasks/task_mnist.cpp:74-78 | the four data files of a directory have distinct paths |
| Mnist.BlocksSplit | src/tasks/task_mnist.cpp:110-115 | the image bytes split into whole 784-byte images plus an incomplete tail shorter than one image |
| Mnist.ReadImages | src/tasks/task_mnist.cpp:103-118 | the image file is accepted when it holds the 16-byte header, and its complete images are read in order |
| Mnist.ValidLabelIff | src/tasks/task_mnist.cpp:139-143 | a label byte is accepted exactly when it is below 10 |
| Mnist.ReadLabels | src/tasks/task_mnist.cpp:128-155 | the label file is accepted exactly when it holds the header, only valid labels, and exactly `count` labels, the fixed number the file is expected to hold; the labels are its bytes after the header |
| Mnist.LoadBinary | src/tasks/task_mnist.cpp:84-168 | loading succeeds exactly when both files are present and well formed with matching counts and one sample per image and fold is added; the task after it holds the images read appended in order and the samples added, whether or not it succeeds |
| Mnist.Populate | src/tasks/task_mnist.cpp:71-82 | it succeeds exactly when the training load and then the test load succeed; a failed training load stops before the test files are read; a successful load holds exactly 60000 training and 10000 test images |
| Svhn.MapLabel | src/cortex/tasks/task_svhn.cpp:160-168 | a mapped label is a class below 10 |
| Svhn.MapLabelInverse | src/cortex/tasks/task_svhn.cpp:160-168 | raw labels 1 to 10 are accepted and map back one to one onto the classes 0 to 9; every other raw label is rejected |
| Svhn.ImageAt | src/cortex/tasks/task_svhn.cpp:171-189 | the image the pixel loops write: pixel `q = r * cols + c` of the planes is stored at row `c`, column `r`, giving `cols` rows of `rows` pixels |
| Svhn.ImageAtColumnMajor | src/cortex/tasks/task_svhn.cpp:177-189 | the planes are read in column-major order: pixel `q` lands at row `q % cols`, column `q / cols`, so in a 32x32 image byte 1 is at row 1, column 0 |
| Svhn.OffsetInjective | src/cortex/tasks/task_svhn.cpp:173-183 | each channel and pixel reads its own byte within the image's block |
| Svhn.PositionInjective | src/cortex/tasks/task_svhn.cpp:177-179 | each row and column is its own pixel position |
| Svhn.ImagesDisjoint | src/cortex/tasks/task_svhn.cpp:173-175 | the pixel blocks of different images do not overlap |
| Svhn.AcceptedExactly | src/cortex/tasks/task_svhn.cpp:155-168 | the accepted samples are exactly those with a valid label, in index order, with their mapped classes |
| Svhn.ReadImage | src/cortex/tasks/task_svhn.cpp:171-189 | for a square image, the loops that set pixel `(c, r)` from the running index, starting from a blank image of any fill, build exactly the image ImageAt describes |
| Svhn.Decode | src/cortex/tasks/task_svhn.cpp:99-205 | arrays of the wrong shape or type add nothing; otherwise one image and one sample is appended per accepted label, in order, and the count is returned |
| Svhn.LoadDir | src/cortex/tasks/task_svhn.cpp:18-32 | loading succeeds exactly when train plus extra and test hold the expected sample counts; the test file is read only when the first check passes |
| Charset.CharSetNameRoundTrip | src/cortex/tasks/task_charset.cpp:29-40 | each character set reads back from its name, and only table names read back |
| Charset.CharactersLayout | src/cortex/tasks/task_charset.cpp:141-146 | the character table holds the 10 digits, then the 26 lower-case letters, then the 26 upper-case letters |
| Charset.CharactersDistinct | src/cortex/tasks/task_charset.cpp:141-146 | no character appears twice in the table |
| Charset.ClassRanges | src/cortex/tasks/task_charset.cpp:239-268 | each set's class range lies within the table and covers the characters of that set |
| Charset.OBegin | src/cortex/tasks/task_charset.cpp:244-255 | the first class is not negative and lies below the end of the set's range |
| Charset.OEnd | src/cortex/tasks/task_charset.cpp:257-268 | the end of a set's range lies between 10 and the table size |
| Charset.OSize | src/cortex/tasks/task_charset.cpp:239-242 | a set has between 10 and 62 classes |
| Charset.MakeConfig | src/cortex/tasks/task_charset.cpp:45-54 | image sides are clamped to 16..128 and the sample count to 16..1048576, in-range values are kept, and there is one fold |
| Charset.DefaultConfig | src/cortex/tasks/task_charset.cpp:45-52 | the defaults are digits, 32x32, rgba and 1024 samples |
| Charset.MakeConfigIdempotent | src/cortex/tasks/task_charset.cpp:45-54 | configuring again with the values read back changes nothing |
| Charset.ProtocolSplitAsWritten | src/cortex/tasks/task_charset.cpp:170-182 | as written, only 8 of the 10 draws select training, and draw 9 selects testing |
| Charset.ProtocolSplit | src/cortex/tasks/task_charset.cpp:170-182 | corrected, 9 of the 10 draws select training and only draw 10 selects testing |
| Charset.SampleOf | src/cortex/tasks/task_charset.cpp:170-232 | the target lies below the number of classes; the sample belongs to the fold being generated, and is for training exactly when the protocol draw is below 9, as written |
| Charset.SampleOfCorrected | src/cortex/tasks/task_charset.cpp:170-182 | with the corrected split, the sample is unchanged for every draw but 9, and is for training exactly when the draw is at most 9 |
| Charset.Load | src/cortex/tasks/task_charset.cpp:139-237 | one sample per fold and draw, numbered in generation order, with the label, target and fold its draw selects under the split as written |
| Charset.SampleLabels | src/cortex/tasks/task_charset.cpp:228-232 | a sample is labelled "char" followed by its class's character, so two samples share a label exactly when they share a target |
| Convolution.Resize | src/cortex/layers/layer_convolution.cpp:23-51 | the kernel sizes and output count are clamped; resizing fails with the configuration error exactly when the kernel is larger than the input |
| Convolution.ResizeShapes | src/cortex/layers/layer_convolution.cpp:33-48 | the output is the valid-convolution size (input minus kernel plus one), and the kernel and bias buffers match the input and output counts |
| Convolution.ResizeDeterministic | src/cortex/layers/layer_convolution.cpp:23-51 | resizing with a layer's own in-range settings reproduces that layer |
| Convolution.ResizeDefaults | src/cortex/layers/layer_convolution.cpp:29-31 | with no configuration, `resize` builds 16 output planes of 8x8 kernels, and succeeds exactly on inputs of at least 8x8 |
| Convolution.SaveParams | src/cortex/layers/layer_convolution.cpp:64-67 | the parameters are the kernels followed by the biases |
| Convolution.LoadParams | src/cortex/layers/layer_convolution.cpp:69-72 | loading splits the parameters into kernels, biases and whatever follows |
| Convolution.ParamsRoundTrip | src/cortex/layers/layer_convolution.cpp:64-72 | loading saved parameters gives back the same kernels and biases |
| Convolution.ParamsRoundTripBack | src/cortex/layers/layer_convolution.cpp:64-72 | saving loaded parameters gives back the same parameter vector |
| Convolution.AddBias | src/cortex/layers/layer_convolution.cpp:95-98 | the bias step keeps the shape of the convolution output |
| Convolution.Output | src/cortex/layers/layer_convolution.cpp:74-101 | each output value is the convolution value plus its plane's bias, in the output shape |
| Convolution.GParam | src/cortex/layers/layer_convolution.cpp:125-151 | the gradient holds the kernel gradient and then, per output plane, the sum of that plane |
| Convolution.GParamSlots | src/cortex/layers/layer_convolution.cpp:147-150 | loading the gradient as parameters puts the kernel gradient in the kernel slot and each plane's sum in its bias slot |
| Convolution.GParamOfBiasedOutput | src/cortex/layers/layer_convolution.cpp:147-150 | the bias gradient of a biased output is the plane's convolution sum plus its size times the bias |
| OpenCL.ErrorStringShape | src/opencl/util.cpp:18-99 | codes 0 to -19 name CL statuses, -20 to -29 are empty, -30 to -70 name CL_INVALID errors, and anything else is UNKNOWN |
| OpenCL.ErrorNamesShape | src/opencl/util.cpp:20-93 | the table's entries fall into the same three bands |
| OpenCL.StatusAnchors | src/opencl/util.cpp:22-41 | 0, -1 and -19 give the names the table lists for them |
| OpenCL.InvalidAnchors | src/opencl/util.cpp:52-98 | -30 and -70 give the first and last invalid names; -71 and 1 are unknown |
| OpenCL.DeviceTypeNames | src/opencl/util.cpp:5-16 | exactly the five known device types have names, and each name reads back to its type |
| OpenCL.ErrorString | src/opencl/util.cpp:18-99 | the name of an error code, through ErrorStringShape and the anchor lemmas: CL statuses for 0 to -19, empty for -20 to -29, CL_INVALID names for -30 to -70, UNKNOWN elsewhere |
| OpenCL.DeviceTypeString | src/opencl/util.cpp:5-16 | the name of a device type, through DeviceTypeNames: exactly the five known types are named and each name reads back to its type |
| Plotter.Basename | scripts/plotter.py:9 | the base name is the part of the path after its last slash |
| Plotter.LabelWithoutUnderscore | scripts/plotter.py:9-10 | a stripped name without an underscore is its own label |
| Plotter.LabelDropsRunPrefix | scripts/plotter.py:9-10 | for a stripped name `p_q`, the label drops `p_` |
| Plotter.LabelRemovesRecurringPrefix | scripts/plotter.py:10 | the run prefix is removed wherever it recurs, not only at the front |
| Plotter.Label | scripts/plotter.py:9-10 | the legend label of a file, through the three Label lemmas: the stripped base name with its run prefix up to the first underscore removed wherever it occurs |
| Plotter.GetCsvs | scripts/plotter.py:14-21 | each path gives its label and its loaded table, in input order |
| Plotter.Emit | scripts/plotter.py:23-63 | the saved pages are the successful attempts before the first failure, and the report fails exactly when an attempt fails |
| Plotter.SinglePage | scripts/plotter.py:26-44 | a page exists exactly when the test column exists; it plots train, validation and test against column 0, with the train prefix dropped from the y label |
| Plotter.SingleReport | scripts/plotter.py:26-44 | the number of pages depends on the column count, and the report completes exactly from 20 columns on |
| Plotter.PlotOne | scripts/plotter.py:23-44 | the report is titled by the file's label; each page plots train, validation and test columns 7 apart against column 0, and it completes exactly from 20 columns on |
| Plotter.ComparisonPage | scripts/plotter.py:46-63 | a comparison page exists exactly when all tables have the chosen columns; it plots one curve per file, labelled with the file's label |
| Plotter.ComparisonAttempts | scripts/plotter.py:65-72 | each catalogued column is plotted twice, against column 0 and against column 22 |
| Plotter.PlotManyTables | scripts/plotter.py:65-72 | the report completes with 20 pages exactly when there are files, the first has more than 23 columns and all share the catalogued columns; no files fails at once |
| Plotter.PlotManyOutcome | scripts/plotter.py:46-72 | the same condition, stated for the sequence of attempts |
| Plotter.ComparisonAttemptFails | scripts/plotter.py:46-72 | any failing comparison page makes the report fail |
| Plotter.AllComparisonPagesSucceed | scripts/plotter.py:65-72 | when the columns are shared, every comparison page succeeds |
| Plotter.ComparisonPageContents | scripts/plotter.py:46-72 | page k plots catalogue entry k / 2 against column 0 or 22, with one curve per file |
| Plotter.PlotMany | scripts/plotter.py:65-72 | no files fails at once; a complete report has 20 pages, each with one curve per file labelled by that file |

## Left out

- I/O in general: files, streams, logging, image encoding and saving. File contents are parameters, and a missing file is `None`.
- gzip and bzip2 decompression: these are a parameter of type `Codecs`.
- `io::load_binary`, used by the file form of `io_decode` for tar and unknown files (src/common/io_arch.cpp:155-156), is not part of this model. It is taken to read the whole file and succeed, even on an empty file, so `io::decode` does not reject an empty `.tar` or unknown file at that step; the in-memory form at src/common/io_arch.cpp:134-136 does reject empty data.
- Archive.DecodeCorrected: the corrected bz2 classification is applied to the file's own path only. Entries inside a tarball are decoded with the classification as written.
- Archive.Walk: sizes are unbounded naturals; the `uint64` arithmetic of the size, padding and offset computations is not modelled. The decoded size is below 2^64, so it could only overflow once offsets pass 2^64 bytes.
- Archive.WalkLongName: the source reads the long name with an unbounded `strlen` that may run past the name field. The model reads a C string capped at the 512-byte header.
- Archive.Encode: the encoder is not in the source. It exists only to state the round trip, and covers regular entries with names of at most 100 bytes.
- Loops: threads and the thread pool. `loopit` is modelled as the sequence of calls it makes, ordered by thread. The `size_t` overflow of `begin + thread_chunk` is not modelled.
- Loops.LoopIt: requires a positive chunk limit when the range is non-empty, as the source's assert at src/core/tpool.h:265 does.
- TaskGrid.SaveAsImages: requires a non-empty grid when there are samples, because with `grows * gcols == 0` the source never finishes its loop.
- TaskGrid.SaveLabelsAsImages: requires a non-empty grid only for labels that have samples, for the same reason.
- Image synthesis and transformation: font patches, warping, noise, blending, grid drawing and borders. Images are opaque values.
- Mnist: `load_archive` and the handler's image decoding are replaced by file contents given as parameters. `add_samples` is a parameter, the home directory is a parameter, and `to_json` is left out.
- Svhn: parsing of MAT5 files and their gzip layer (src/cortex/tasks/task_svhn.cpp:34-97). The arrays are given as parsed headers plus byte buffers.
- Svhn.Decode: requires the buffers to cover the arrays whenever the header checks pass. Reads outside the buffer are undefined behaviour in the source.
- Svhn.Decode: also requires square images (`rows == cols`, as in the 32x32 files) whenever the header checks pass. For any other shape `set(c, r, ...)` writes outside the `irows x icols` image, and Svhn.ReadImage carries the same requirement.
- Svhn.ImageAt: `image_t` is not part of this model. Its `set` is taken to take the row and then the column, as its call `grid_image.set(r, c, ...)` at src/nanocv/task.cpp:84 does. The initial pixels of a new image are a parameter, and every one of them is overwritten.
- Charset: random draws are parameters, and configuration strings are typed values. The to_string round trip of the second constructor is taken to be exact.
- MemVision: the generic in-memory task (task_mem.h) is not part of this model. It is taken to start empty, store its shapes on `reconfig`, and append on `add_chunk`.
- Convolution: the 2D convolution and correlation kernels are parameters (the per-plane convolution sums), and `ginput` is not modelled. Scalars are reals, so floating-point rounding is not modelled. Parameter initialisation (`zero_params`, `random_params`) is left out.
- TextTable: `nano::align` is not part of this model. It is taken to pad its text with spaces on the right up to the width.
- Plotter: rendering (matplotlib, PdfPages, `csv2rec`). CSV files are given as tables of column names, and pages record only their title, axis labels and curves.

## Findings

| source | as written | input that shows it | evidently intended | confidence | as-written member | corrected member |
|---|---|---|---|---|---|---|
| src/common/io_arch.cpp:24-54 | `decode_archive_type` has no branch that returns the bz2 type, though `io::decode` has a bz2 case | "data.bz2" is classified unknown, so `io::decode` calls back with the compressed bytes and returns false | a path ending in `.bz2` is decoded as bzip2 | not executed | Archive.DecodeArchiveTypeAsWritten, Archive.Bz2IsUnknownAsWritten, Archive.Bz2DecodeAsWritten | Archive.DecodeArchiveType, Archive.DecodeCorrected |
| src/cortex/file/mstream.cpp:49-61 | `skip` checks only the upper bound, so a negative count succeeds | Open("ab") then skip(-1) succeeds and leaves `tellg` at -1 | a skip stays inside the buffer | not executed | MemoryStream.SkipAsWritten, MemoryStream.SkipAsWrittenLeavesBuffer | MemoryStream.Skip, MemoryStream.SkipAgreesForward |
| src/cortex/tasks/task_charset.cpp:170-182 | the draw from [1, 10] selects training when `< 9`, which is 80% | draw 9 selects testing | 90% training and 10% testing, as the comment at the draw says | not executed | Charset.ProtocolSplitAsWritten | Charset.ProtocolSplit, Charset.SampleOfCorrected |
