# ADIOS arrays, files and indexes, verified

ADIOS writes n-dimensional arrays in blocks, one block per process and time step, into a
self-describing file (the BP format), keeps an index of all blocks at the end of the file, and reads
any box of an array back from whatever blocks hold a part of it. This project models the three cores
of that and proves what they promise.

**Geometry and copying.** `CopySubvolume` is the copy routine with its folding of trailing
contiguous dimensions, its strides, its recursion and its in-place change of the caller's dimension
array. Its specification, `CopySpecs.PointsCopied`, knows none of that: byte by byte, each point of
the box moves from its row-major place in the source to its row-major place in the destination, and
nothing else changes. `Compaction` proves the informal argument in `src/core/adios_subvolume.h`
about copies within one buffer, and `ReadBlocks` builds on both: reading a box block by block
reconstructs the array. `Selections`, `BlockIndex` and `FindBlocks` find the blocks to read.

**The BP format.** Records are laid out as lists of byte chunks (`BpIndex`, `BpVar`, `BpGroup`). The
writers (`BpWriter`, `BpIndexWriter`, `BpVarWriter`, `BpGroupWriter`) fill a growing buffer and
patch lengths in afterwards; each is proved to append exactly the laid-out bytes. The parsers
(`BpParser` to `BpFile`, `BpVarParser` to `BpPayload`) walk a cursor over bytes that a machine of
either byte order has written, and are proved to give back the record, whatever their own byte
order. The size calculator (`BpVarSize`, `BpGroupSize`) is proved against the bytes the writers
produce. `BpDefine` starts at the texts of a definition and says which dimension lists there can be,
and which of them a reader gets back. `BpWhole` puts all of it together: a group is written,
indexed, closed with a footer and opened elsewhere, and the data of a variable is found where the
index says. Names and strings whose length does not fit in 16 bits, complex values, histograms,
headers of 2^16 bytes or more, and numbers that a header gives as global dimension or offset do not
survive; the lemmas ending in `Iff` say exactly when something does.

**Index merge, sort, statistics, cache.** The hash-assisted merge of linked lists refines a linear
scan (`IndexKeys`: by path and name exactly when no two of them have the same joined key), both
sorts are stable sorts on an exact condition (`PgSortRuns` covers the runs that do not end, too),
the one-pass statistics agree with plain definitions over the real numbers, and every slot of the
info cache always agrees with a direct inquiry.

A machine word is its bit pattern (a number below a power of 256), stored by `Bytes.Store` in the
order of the machine. Where the source departs from its intent the model does what the source does;
`Counterexamples` has inputs for such cases, and the exact conditions are proved beside the
operations. Byte-order changes go through the mask-and-shift expressions of
`src/core/adios_endianness.c`.

The buffer of a parser is the ghost argument `cs` (a chunk list) read from chunk `i` on, with `t`
after it: "the buffer holds this record" is the precondition of a parser, since the source checks no
more than a minimal length. Allocation is taken to succeed.

## Model

| member | source | states |
|---|---|---|
| `Endianness.Swap16Reverses` | src/core/adios_endianness.c:24-28 | the mask-and-shift expression is byte reversal of the word, in either byte order |
| `Endianness.Swap32Reverses` | src/core/adios_endianness.c:31-38 | the same for 32 bits |
| `Endianness.Swap64Reverses` | src/core/adios_endianness.c:41-52 | the same for 64 bits |
| `Endianness.SwapPtr16` | src/core/adios_endianness.c:24-28 | exactly the two bytes at the pointer are mirrored in place |
| `Endianness.SwapPtr32` | src/core/adios_endianness.c:31-38 | exactly the four bytes at the pointer are mirrored in place |
| `Endianness.SwapPtr64` | src/core/adios_endianness.c:41-52 | exactly the eight bytes at the pointer are mirrored in place |
| `Endianness.SwapPtr128` | src/core/adios_endianness.c:55-77 | swapping the halves and exchanging them mirrors all sixteen bytes |
| `Endianness.ChangeEndianness` | src/core/util.c:33-110 | every word of every whole element is reversed (both halves of a complex one), all other bytes are untouched |
| `ReadBuffers.SwapPtr` | src/core/adios_endianness.c:124-141 | reversal for the known sizes and for single bytes, nothing for other sizes |
| `Types.TypeSize` | src/core/adios_bp_v1.c:2225-2271 | a size of 1, 2, 4, 8 or 16 bytes for all types but strings |
| `Types.Widths` | src/core/adios_bp_v1.c:2225-2271 | the size of each of the fourteen types, as a number |
| `Types.Codes` | src/public/adios_types.h:16-35 | the code of each of the fourteen types, as a number |
| `Types.StatWidths` | src/core/adios_bp_v1.c:2272-2349 | the size of each statistic, as a number, for complex and for other types |
| `Types.BitsAreSet` | src/core/adios_bp_v1.c:563-652 | the statistics of a bitmap are those whose bits are set, in increasing order (`BitsIncrease`) |
| `Types.TypeCodeIsUnique` | src/public/adios_types.h:16-35 | the code of a type in a file stands for that type only |
| `CopyKernel.CopyBlock` | src/core/adios_subvolume.c:228-232 | a moved block has the source's bytes, with words reversed if asked, and nothing else changes |
| `CopyKernel.CopyHelper` | src/core/adios_subvolume.c:224-270 | the recursion over strides copies every block of the strided family and nothing else, on separate buffers or under the safe-overlap condition |
| `CopyKernel.SafeSlab` | src/core/adios_subvolume.h:6-30 | the inductive step of the overlap argument: nothing a slab has still to read was overwritten by earlier ones, and the condition holds again inside the slab |
| `Geometry.RowMajor` | src/core/adios_subvolume.c:310-328 | in three dimensions: volume, byte strides and number of a point as plain products |
| `BlockCopy.SlabDone` | src/core/adios_subvolume.c:235-242 | copying slab i after the first i slabs amounts to copying the first i + 1 |
| `BlockCopy.Unfold` | src/core/adios_subvolume.c:300-308 | copying contiguous trailing dimensions as one block copies every element they hold: folding changes nothing |
| `BlockCopy.CopiedUnique` | src/core/adios_subvolume.c:224-244 | the copy relation determines the resulting buffer |
| `CopySpecs.BlocksArePoints` | src/core/adios_subvolume.c:272-403 | a strided block copy from the two corners is the point-by-point copy |
| `CopySpecs.PointElement` | src/core/adios_subvolume.c:272-403 | without swapping, each point's element arrives byte for byte at its row-major address |
| `CopySubvolume.LastNoncovering` | src/core/adios_subvolume.c:286-298 | every dimension after the returned one is covered by box, source and destination alike |
| `CopySubvolume.ContiguousVolume` | src/core/adios_subvolume.c:300-308 | the bytes of the dimensions from the first contiguous one on |
| `CopySubvolume.ComputeStrides` | src/core/adios_subvolume.c:310-319 | the accumulated products are the row-major byte strides |
| `CopySubvolume.StartOffset` | src/core/adios_subvolume.c:321-328 | the byte offset of the box's first element |
| `CopySubvolume.CopySubvolumeRaggedOffset` | src/core/adios_subvolume.c:272-403 | refinement: the folded, strided, recursive copy equals the point-by-point copy for every rank, element size, ragged offset and byte-swap flag, and the caller's dimensions are restored even when arrays alias |
| `CopySubvolume.CopyInWidths` | src/core/adios_subvolume.c:272-403 | the same copy with the width of an element and of a swapped word in numbers, type by type |
| `Compaction.CompactionIsSafe` | src/core/adios_subvolume.h:6-30 | compaction always meets the conditions for copying within one buffer |
| `Compaction.CompactSubvolumeRaggedOffset` | src/core/adios_subvolume.c:416-449 | the front of the buffer ends up with the original elements of the box in row-major order |
| `CopySpecOps.IsSubvolumeSrcCovering` | src/core/adios_copyspec.c:173-181 | true exactly when the box is the whole source volume |
| `CopySpecOps.IsSubvolumeDstCovering` | src/core/adios_copyspec.c:183-191 | true exactly when the box is the whole destination volume |
| `CopySpecOps.IsNoop` | src/core/adios_copyspec.c:193-213 | true exactly when the box is the whole of both volumes |
| `CopySpecOps.NoopIsIdentity` | src/core/adios_copyspec.c:193-213 | on nonempty volumes the no-op test holds exactly when the box has all elements of both volumes, and then every point has one element number in box, source and destination |
| `CopySpecOps.CopiesNothingIff` | src/core/adios_copyspec.c:193-213 | copying within one buffer leaves every buffer as it is if and only if every point has the same address on both sides |
| `CopySpecOps.SrcCoveringIsIdentity` | src/core/adios_copyspec.c:173-181 | on a nonempty volume the source is covered exactly when element numbers of the box and of the source are the same and exhaust it |
| `CopySpecOps.DstCoveringIsIdentity` | src/core/adios_copyspec.c:183-191 | the same for the destination |
| `CopySpecOps.NoopCopiesNothing` | src/core/adios_copyspec.c:193-213 | a spec that passes the no-op test leaves a buffer copied onto itself as it is, and leaves no room for a ragged offset |
| `CopySpecOps.CopyFactorsThroughPacked` | src/core/adios_copyspec.c:145-169 | copying into a packed buffer with the destination-shrunk spec and out of it with the source-shrunk one gives the direct copy |
| `Intersection.SegmentsExact` | src/core/adios_subvolume.c:37-68 | below 2^31 the result is the shared segment, and a wrong "intersects" answer is given exactly for an empty segment inside the other |
| `Intersection.SegmentsRightIff` | src/core/adios_subvolume.c:37-68 | for all segments that end before 2^63, on the four numbers: exactly when the result is the shared segment (the smaller end is below 2^31 and the other one is no smaller as an int, or, for segments that share nothing, the ints show it) |
| `Intersection.ServesIffComparable` | src/core/adios_subvolume.c:37-68 | the same for what a box needs, where an empty common stretch is as good as none |
| `Intersection.SegmentsLimit` | src/core/adios_subvolume.c:37-68 | the int temporaries make 2^31 the exact limit: all answers up to B are right if and only if B < 2^31 |
| `Intersection.IntersectVolumes` | src/core/adios_subvolume.c:70-107 | for all coordinates the result is put together from the segments of each dimension, none exactly when a dimension has none; when the sides are comparable (in particular below 2^31) it holds exactly the positions in both volumes, with offsets relative to each |
| `Intersection.InitFromIntersection` | src/core/adios_copyspec.c:54-88 | for all coordinates the spec of that result; when the sides are comparable it fits both volumes and its box is exactly what they share |
| `ReadBlocks.ComputeLinearOffset` | src/core/adios_subvolume.c:405-414 | the loop from the fastest dimension to the slowest gives the row-major number of a point |
| `ReadBlocks.LinearInjective` | src/core/adios_subvolume.c:405-414 | that numbering is one to one on the volume, so no two points share an element |
| `ReadBlocks.PatchData` | src/core/transforms/adios_patchdata.c:44-90 | every shared element takes the global value, all others in the buffer keep theirs, and the returned volume is the number of shared positions; for every pair of ragged offsets with which both buffers hold what the boxes share |
| `ReadBlocks.ReadBox` | src/core/transforms/adios_patchdata.c:44-90 | reading by blocks reconstructs the array: every covered element has its global value whatever the order and overlap of the blocks and whatever the ragged offsets, and a covered box is complete |
| `BlockIndex.AbsoluteIndex` | src/core/adios_read_ext.c:138-161 | the number of a block in the file from step and number in the step, -1 exactly for one that does not exist |
| `BlockIndex.StepOfIndex` | src/core/adios_read_v1.c:399-412 | the subtracting search decodes every valid number, over steps without blocks too, and tells numbers too large |
| `BlockIndex.NumberingIsBijective` | src/core/adios_read_ext.c:138-161 | encoding and decoding are mutually inverse |
| `BlockIndex.BlockRange` | src/core/adios_read_ext.c:115-132 | first and last block number of a range of steps, and exactly when each is left unset |
| `Selections.IntersectBoxPoints` | src/core/adios_selection_util.c:50-95 | the points inside the box in their order, nothing when there are none |
| `Selections.IntersectBox` | src/core/adios_selection_util.c:151-168 | the result stands for exactly the positions in the box and in the other selection: for points with all coordinates, for boxes with comparable sides; for others, what each dimension gives |
| `Selections.IntersectWriteblocks` | src/core/adios_selection_util.c:227-291 | on meanings (block number, element): the result selects exactly the elements both select, for every mix of absolute and relative, whole and part; for valid selections the result is valid, and NULL if and only if there are no common elements |
| `Selections.ValidSelects` | src/core/adios_selection_util.c:227-291 | a valid selection (an existing block, a part with elements) selects something |
| `FindBlocks.FindIntersectingPgs` | src/core/adios_read_ext.c:164-256 | exactly the blocks of the steps that meet the selection, in file order across array growth, each with its exact intersection and running counters |
| `FindInFile.FindPgsInFile` | src/core/adios_read_ext.c:164-256 | the same on an open file: the inquiry is made in the logical view through the info cache, the view is restored, the cache stays coherent |
| `FindBlocks.TagsRightIffNoGap` | src/core/adios_read_ext.c:246-252 | the counters name every block rightly if and only if no empty step comes before a block |
| `FindBlocks.TagAfterGap` | src/core/adios_read_ext.c:246-252 | from the first empty step on the counters stay in that step and count all further blocks there |
| `FindBlocks.Append` | src/core/adios_read_ext.c:221-240 | appending keeps all entries, doubling the array when full |
| `WriteBuffers.WriteBuffer.BufferWrite` | src/core/adios_internals.c:1887-1910 | the growing buffer behaves like an unbounded byte array |
| `WriteBuffers.WriteBuffer.Patch` | src/core/adios_internals.c:1887-1910 | a write at an earlier cursor touches only the bytes there |
| `WriteBuffers.WriteBuffer.Fill` | src/core/adios_internals.c:3575-3575 | a patched prefix and the record behind it are exactly that, nothing before or after changes |
| `WriteBuffers.WriteBuffer.FillTwo` | src/core/adios_internals.c:3580-3581 | the same for a count and a length |
| `BpWriter.WritePg` | src/core/adios_internals.c:3510-3578 | one process group entry, its length prefix being the bytes behind it |
| `BpWriter.WritePgSection` | src/core/adios_internals.c:3505-3581 | the section for any number of groups: count, length without prefixes, entries |
| `BpWriter.WriteStatSet` | src/core/adios_internals.c:3824-3880 | one statistic for each bit of the bitmap, in bit order, histograms included |
| `BpWriter.WriteSet` | src/core/adios_internals.c:3646-3959 | a set of characteristics with its exact count and length in front |
| `BpIndexWriter.WriteEntry` | src/core/adios_internals.c:3589-3964 | a variable or attribute entry, its length prefix being the bytes behind it |
| `BpIndexWriter.WriteEntrySection` | src/core/adios_internals.c:3583-3970 | the section for any number of entries and sets |
| `BpIndexWriter.WriteIndex` | src/core/adios_internals.c:3482-4205 | the whole index as laid out, with the three offsets |
| `BpIndexWriter.WriteVersion` | src/core/adios_internals.c:4207-4258 | the version word in network order with the byte-order bit |
| `BpIndex.Flags` | src/core/adios_bp_v1.h:20-34 | the flag of each kind of characteristic, as a number |
| `ReadBuffers.Mirrored` | src/core/adios_endianness.h:25-31 | a word swapped exactly when the orders differ loads as the number that was stored |
| `ReadBuffers.ReadBuffer.ReadWord` | src/core/adios_bp_v1.c:203-215 | reading a word gives the written number for all four pairs of byte orders and moves the cursor past it |
| `BpParser.ParsePgSection` | src/core/adios_bp_v1.c:187-286 | gives back every process group; error exactly when fewer than 16 bytes are left |
| `BpParser.ParseStatSet` | src/core/adios_bp_v1.c:563-652 | gives back each statistic by its bit; a histogram loses its minimum |
| `BpItemParser.ParseItem` | src/core/adios_bp_v1.c:420-760 | each kind of characteristic is put into its place in the record |
| `BpItemParser.ParseValue` | src/core/adios_bp_v1.c:432-527 | numbers come back, the halves of a complex number unswapped, strings as long as their length says |
| `BpItemParser.ParseText` | src/core/adios_bp_v1.c:437-444 | a string is read as far as its 16-bit length says; of a longer one the rest stays in front of the cursor |
| `BpSetParser.BuildsSet` | src/core/adios_bp_v1.c:402-761 | the characteristics that are written, read one by one into an empty record, rebuild it, the bitmap being there before the statistics |
| `BpSetParser.ParseSet` | src/core/adios_bp_v1.c:402-761 | a set is read back as a record |
| `BpIndexParser.ParseEntry` | src/core/adios_bp_v1.c:328-770 | an entry with all its sets is read back |
| `BpIndexParser.ParseEntrySection` | src/core/adios_bp_v1.c:288-1109 | gives back all entries of a variable or attribute section; error exactly when fewer than 10 bytes are left |
| `BpFooter.ParseVersion` | src/core/adios_bp_v1.c:112-143 | bytes are to be swapped exactly when writer and reader differ in order; the version comes back |
| `BpFooter.ParseIndexOffsets` | src/core/adios_bp_v1.c:146-185 | offsets and sizes of the three sections in 64-bit words; error exactly when fewer than 24 bytes are left |
| `BpFile.SlicesAreSections` | src/core/adios_bp_v1.c:146-185 | the slices cut by the offsets are the sections, the last one with the library version behind it |
| `BpFile.ReadIndex` | src/core/adios_bp_v1.c:2072-2150 | version word, offsets and sections, read one after the other, give the index back |
| `BpRoundTrip.RoundTrip` | src/core/adios_internals.c:3482-4258 | footer round trip: an index written at the end of any file is found and read back by a machine of any byte order, for any number of groups, variables, attributes and sets (strings below 2^16 bytes) |
| `BpRoundTrip.OffsetsLeadToSections` | src/core/adios_internals.c:3583-3584 | the offsets of variables and attributes always lead to their sections |
| `BpRoundTrip.PgOffsetRightIff` | src/core/adios_internals.c:3494-3494 | the offset of the process groups is right if and only if the index is written from the start of the buffer |
| `BpSurvival.IndexSurvivesIff` | src/core/adios_bp_v1.c:187-1109 | an index comes back unchanged if and only if no name and no string is too long, every group has a time index name, every string variable has a value, no array has a histogram, no complex value is spoilt and no set has fields its kind does not write |
| `BpSurvival.SetSurvivesIff` | src/core/adios_bp_v1.c:402-761 | the same for one record |
| `BpSurvival.ValueSurvivesIff` | src/core/adios_bp_v1.c:476-501 | a number survives; a string exactly below 2^16 bytes; a complex number exactly when the orders agree or its bytes are palindromes |
| `BpSurvival.StatsSurviveIff` | src/core/adios_bp_v1.c:598-609 | statistics survive if and only if there is no histogram among them |
| `BpSurvival.AnyOrder` | src/core/adios_bp_v1.c:112-143 | endianness independence: without complex values every writer and reader give the same records |
| `BpSurvival.PgLengthExactIff` | src/core/adios_internals.c:3510-3578 | the 16-bit length of a group entry is right exactly when both names together leave room |
| `BpSurvival.SectionLengthExact` | src/core/adios_internals.c:3583-3970 | the stored section length is the bytes of the section without its header and without 4 bytes per variable or attribute |
| `BpSurvival.PgSectionLengthExact` | src/core/adios_internals.c:3505-3581 | the same for process groups, with 2 bytes for each |
| `BpVarWriter.WriteVarHeader` | src/core/adios_internals.c:5114-5168 | the header as laid out, with the patched length, and the write offset; a number whose time flag is not "no" is written as a reference with id 0 |
| `BpVarWriter.WriteDimsCharacteristic` | src/core/adios_internals.c:4443-4487 | values of all dimensions, with count and length patched in front |
| `BpVarWriter.WriteCharacteristics` | src/core/adios_internals.c:4489-4673 | dimensions, bitmap and statistics of an array, nothing of a scalar or a string, with exact count and length |
| `BpVarWriter.CalcDimensionsSize` | src/core/adios_internals.c:4260-4321 | the loop adds up the announced sizes in 16 bits |
| `BpVarSize.CalcVarOverhead` | src/core/adios_internals.c:1991-2054 | the calculator gives the size of a header in 16 bits, for all three values of the time flag |
| `BpVarSize.CalcCharsOverhead` | src/core/adios_internals.c:1953-1989 | the same for the characteristics |
| `BpVarOverhead.HeaderSizeExact` | src/core/adios_internals.c:1953-2054 | the calculated size is the number of bytes written, for every variable, every time flag and either byte order |
| `BpVarOverhead.DimsSizeExactIff` | src/core/adios_internals.c:4260-4307 | the announced length of the dimensions is right if and only if no local offset is just an attribute with the time flag "no", which no definition produces (BpDefine.DefinedLengthExact) |
| `BpVarParser.ParseDimList` | src/core/adios_bp_v1.c:1310-1425 | the dimension list is read as DimsRead says: flagged numbers and ids come back, id 0 is the time dimension |
| `BpVarParser.TimeIffTime` | src/core/adios_bp_v1.c:1346-1411 | a dimension is read as the time dimension exactly when it is, unless it is a reference with id 0 or a number whose time flag is unknown |
| `BpVarParser.NumberReadIff` | src/core/adios_bp_v1.c:1346-1411 | a number comes back if and only if its time flag is "no" |
| `BpVarParser.DimsReadIff` | src/core/adios_bp_v1.c:1310-1425 | a dimension list comes back as it was meant if and only if every reference has an id and every number is flagged as one |
| `BpDefine.ParsedIsDefinable` | src/core/adios_internals.c:231-600 | what a dimension definition yields: a set flag for the local dimension, an unset or time flag for global dimension and offset, and references to whole numbers only |
| `BpDefine.ReferenceIs` | src/core/adios_internals.c:259-346 | a variable is taken before an attribute of that name, and refused exactly if it is no whole number |
| `BpDefine.LowerLetters` | src/core/adios_internals.c:252-254 | comparison without regard to capital letters |
| `BpDefine.NegativeRank` | src/core/adios_internals.c:355-357 | a negative number as an unsigned word |
| `BpDefine.DefineDimensions` | src/core/adios_internals.c:1754-1829 | all dimensions of a definition with the default "0" for missing bounds, or the error of the first one that is refused |
| `BpDefine.DefinitionSays` | src/core/adios_internals.c:2829-2870 | for whatever is defined, extents and dimension list are what the three texts of each dimension say: a number, the value or the id of what is referred to, 1 for the time dimension |
| `BpDefine.DefinedLengthExact` | src/core/adios_internals.c:4260-4307 | for everything that can be defined the announced length of the dimensions is right |
| `BpDefine.SpaceExactIff` | src/core/adios_internals.c:5306-5442 | the space of an array is the product of its extents if and only if that is 0 or no local dimension refers to something that is no whole number; the time flag of a local dimension is set, as line 251 does |
| `BpDefine.DefinedSpaceExact` | src/core/adios_internals.c:283-346 | a definition refuses such references, so for everything that can be defined the two agree |
| `BpDefine.DefinedReadIff` | src/core/adios_bp_v1.c:1346-1411 | a defined dimension list comes back from the header if and only if no global dimension and no offset is a number, the default "0" included |
| `BpVarCharParser.ParseHeaderStats` | src/core/adios_bp_v1.c:1488-1585 | what the header parser makes of each statistic, swapped by the size of an element |
| `BpVarCharParser.StatsSurviveIff` | src/core/adios_bp_v1.c:1570-1577 | between different orders a kind of statistic survives for all values if and only if it has the size of an element |
| `BpPayload.ParseVarHeader` | src/core/adios_bp_v1.c:1244-1685 | the header comes back, its dimensions as DimsRead says, and the cursor stops on the first byte of the data; error exactly when fewer than 23 bytes are left |
| `BpAgreement.WriteAndParse` | src/core/adios_internals.c:3266-3269 | the writer's and the parser's cursors after the header coincide, for every time flag, and the offset in the index is theirs if and only if the header of the variable as defined is below 2^16 bytes |
| `BpAgreement.IndexOffsetExactIff` | src/core/adios_internals.c:3266-3269 | the same for any write offset and any pair of paths below 2^16 bytes |
| `BpAgreement.PayloadSizeExactIff` | src/core/adios_bp_v1.c:1682-1682 | the parsed data size is that of the variable if and only if the characteristics are below 2^16 bytes |
| `BpGroupWriter.WriteGroupHeader` | src/core/adios_internals.c:2132-2214 | the process group header as laid out, which BpGroupParser.ParseGroupHeader reads back field by field |
| `BpGroupWriter.WriteVarSection` | src/core/adios_internals.c:5255-5279 | variables between open and close: count, length with these two numbers, headers and data; and the recorded offset of each header |
| `BpGroupWriter.WriteAttribute` | src/core/adios_internals.c:5186-5253 | an attribute, its length prefix being the bytes behind it |
| `BpGroupWriter.WriteGroup` | src/core/adios_internals.c:5114-5302 | a whole group, every variable and attribute once, and the recorded offset of each variable |
| `BpGroupParser.ParseGroupHeader` | src/core/adios_bp_v1.c:1111-1211 | language, name, coordination variable, time index name, time index and methods come back, each in its place, between machines of any orders; error exactly when fewer than 24 bytes are left |
| `BpGroupParser.ParseSectionHeader` | src/core/adios_bp_v1.c:1213-1242 | count and length of a section come back; error exactly below 12 bytes for variables and below 10 for attributes |
| `BpGroupParser.ParseAttribute` | src/core/adios_bp_v1.c:1890-1985 | id, name, path and the variable referred to, or type and value, come back; a value that is no string has its bytes reversed between different orders; error exactly when fewer than 15 bytes are left |
| `BpGroupParser.NumberOfAttribute` | src/core/adios_bp_v1.c:1963-1973 | a number that an attribute holds is the same on both machines |
| `BpGroupParser.SwapTypeArray` | src/core/adios_endianness.c:113-122 | every whole element is reversed in place, a partial last one is left alone |
| `BpGroupParser.ParsePayload` | src/core/adios_bp_v1.c:1798-1857 | the data of a variable is skipped, refused, taken, or divides by the length of an empty string, each exactly when; the cursor passes it in every case |
| `BpGroupParser.NumberArrives` | src/core/adios_endianness.c:80-110 | an element of a number type means the same on both machines |
| `BpGroupParser.ComplexArrivesIff` | src/core/adios_endianness.c:80-110 | between different orders the parts of a complex number change places: it arrives as it was if and only if they are the same |
| `BpGroupRead.ParseGroup` | src/write/adios_posix1.c:554-609 | the loops of a reader give back header, every variable with its data, and every attribute, and end behind the group, when all variables have characteristics below 2^16 bytes (exact for each by BpAgreement.PayloadSizeExactIff) |
| `BpGroupRead.WriteAndReadGroup` | src/write/adios_posix1.c:554-609 | any group that is written behind any bytes is read back so by a machine of any byte order |
| `BpGroupSize.CalcOverhead` | src/core/adios_internals.c:2079-2130 | the loops over methods, variables (in 16 bits each) and attributes (in 32 bits each) add up the overhead |
| `BpGroupSize.BytesConserved` | src/core/adios_internals.c:2079-2214 | byte conservation for all groups: bytes written plus what cut names lose equal overhead plus data plus what the 16-bit sums of headers and the 32-bit sums of attributes lose |
| `BpGroupSize.BytesConservedIff` | src/core/adios_internals.c:2079-2214 | a group takes exactly its overhead and its data if and only if what cut names lose equals what the sums of sizes lose; the first is nothing exactly when all names are below 2^16 bytes, the second exactly when every variable header is below 2^16 bytes and every attribute below 2^32 |
| `BpGroupSize.GroupAdvance` | src/core/adios_internals.c:2079-2214 | the same equation for the cursor when a group is written |
| `BpBuild.BuildEntries` | src/core/adios_internals.c:3221-3418 | the variables of any group are merged in one by one; what their records say is BpRecords.RecordBuilt |
| `BpBuild.RecordOfVar` | src/core/adios_internals.c:3221-3418 | the record of every variable is in the entry of its key, behind those of the earlier variables with that key, no matter how many share it |
| `BpRecords.EntryHeads` | src/core/adios_internals.c:3249-3258 | the entry of a key has group, id, name, path and type of the first variable with that key |
| `BpRecords.RecordBuilt` | src/core/adios_internals.c:3259-3418 | the record of each variable, field by field: recorded offset, offset of the data, file, time; dimensions, bitmap and statistics of an array; the value whose bytes a scalar has |
| `BpRecords.RecordReadBack` | src/core/adios_bp_v1.c:402-761 | the same after the index was read on another machine: a histogram without its minimum, a string as far as its length says, the bytes of a complex number unswapped |
| `BpRecords.RecordSaysTexts` | src/core/adios_internals.c:3363-3375 | the dimensions in the index are what the texts of the definition say, numeric global dimensions and offsets included |
| `BpRecords.HeaderSaysTexts` | src/core/adios_internals.c:4443-4487 | so are those in the characteristics of the header, and the dimension list of the header says as much as it keeps |
| `BpWhole.IndexOfFits` | src/core/adios_internals.c:3221-3480 | the built index fits the words of the file when ids, times and offsets do and variables that share an entry have one type |
| `BpWhole.WriteAndFind` | src/core/adios_internals.c:3221-3480 | writer, index builder, footer and reader together, for every group: the offset that another machine reads for a variable is that of its data if and only if the header is below 2^16 bytes, and the bytes there are then the data that was written |
| `IndexMerge.VarIndex.Append` | src/core/adios_internals.c:2235-2331 | one hash lookup under the joined key and the tail pointer do what a linear scan for the key does: links from the root, tail, hash table and allocations stay coherent, and no other node is touched |
| `IndexMerge.VarIndex.LinkLast` | src/core/adios_internals.c:2249-2266 | both branches, empty root and tail, put the new node where a walk from the root ends |
| `IndexMerge.VarIndex.MergeVars` | src/core/adios_internals.c:2404-2436 | following the links of the second list, unlinking and appending each node, refines the linear-scan merge |
| `IndexMerge.MergeKeepsFirstSeenOrder` | src/core/adios_internals.c:2235-2331 | each key (path and name joined) occurs once, in the order of first appearance |
| `IndexMerge.MergeConcatenatesRecords` | src/core/adios_internals.c:2235-2331 | the records of a key are those of all its items in order of arrival |
| `IndexMerge.MergeConservesRecords` | src/core/adios_internals.c:2235-2331 | no record is lost if and only if no key is in two groups |
| `IndexKeys.ByPlaceIff` | src/core/qhashtbl.c:191-207 | the merge gives what a scan by path and name would give if and only if no two different paths and names have one joined key |
| `IndexKeys.PlainNamesDoNotClash` | src/core/qhashtbl.c:191-207 | names without a slash never share a key, whatever the paths, the empty one and "/" included |
| `IndexSort.SortCharacteristics` | src/core/adios_internals.c:2487-2550 | the bubble sort is the stable sort by time of the records, with the ids of overtaken ones cut to 16 bits |
| `IndexSort.WholeRecordsIff` | src/core/adios_internals.c:2500-2500 | whole records are kept if and only if every overtaken one has an id below 2^16 |
| `PgSort.InsertNode` | src/core/adios_internals.c:2460-2480 | one insertion: the new list is the old one with the node in its place, and it has an end if and only if the node is not earlier than the head |
| `PgSort.SortProcessGroups` | src/core/adios_internals.c:2448-2486 | when no later entry is below the first, the relinked list is the stable sort, acyclic and complete |
| `PgSortRuns.SortsIff` | src/core/adios_internals.c:2448-2486 | over all runs, step by step: the sort ends with a null-terminated list if and only if no entry is below the first, and then it is the stable sort of all entries |
| `PgSortRuns.EndsIff` | src/core/adios_internals.c:2448-2486 | the sort ends at all if and only if no entry that is not below the first comes after one that is; otherwise the walk goes round between two nodes for ever |
| `StableSort.StableIsPermutation` | src/core/adios_internals.c:2439-2553 | a stable sort loses and invents nothing |
| `StableSort.StableIsUnique` | src/core/adios_internals.c:2439-2553 | there is only one stable sort, so both results are determined |
| `Statistics.FindBin` | src/core/adios_internals.c:4694-4725 | the binary search finds the bin that holds the number |
| `Statistics.BinUnique` | src/core/adios_internals.c:4694-4725 | there is only one such bin |
| `Statistics.SmallSample` | src/core/adios_internals.c:4727-4788 | 2, something not finite, and 3: sum 5, sum of squares 13 |
| `Statistics.SmallHistogram` | src/core/adios_internals.c:4694-4725 | a number that is a break point belongs to the upper bin |
| `Statistics.ComputeStatistics` | src/core/adios_internals.c:4727-4788 | after one pass minimum, maximum, sum, sum of squares and count are those of the finite elements and each frequency is a plain count |
| `Statistics.FrequenciesAddUp` | src/core/adios_internals.c:4694-4725 | the frequencies sum to the count |
| `Statistics.BreaksFromList` | src/core/adios_internals.c:1588-1609 | break points are accepted exactly when there are some and they increase strictly |
| `Statistics.BreaksFromRange` | src/core/adios_internals.c:1610-1649 | accepted exactly for a nonzero count and an increasing range; from the minimum on, all steps are equal, and `count` of them make up the range, which fixes every break point; strictly increasing, with both ends, if and only if the count is positive |
| `InfoCache.InfoCache.Expand` | src/core/adios_infocache.c:26-48 | all entries survive, new slots are empty, capacity at least doubles |
| `InfoCache.InfoCache.InqVarinfo` | src/core/adios_infocache.c:98-112 | the answer is that of a direct inquiry in the file's view, and the cache stays coherent |
| `InfoCache.InfoCache.InqTransinfo` | src/core/adios_infocache.c:114-131 | the answer is that of a direct inquiry with the physical info, the caller's view is restored, the cache stays coherent |
| `InfoCache.InfoCache.Invalidate` | src/core/adios_infocache.c:77-85 | every slot is emptied when inquiries behave, and otherwise exactly which transform infos stay |
| `Counterexamples.SegmentBeyondInt` | src/core/adios_subvolume.c:37-68 | a concrete pair of segments at 2^31 with a wrong answer |
| `Counterexamples.BlockAfterEmptyStep` | src/core/adios_read_ext.c:246-252 | a concrete block list in which a block is tagged with an empty step |
| `Counterexamples.IdLostInSort` | src/core/adios_internals.c:2500-2500 | a record with id 2^16 that comes out of the sort with id 0 |
| `Counterexamples.SharedKey` | src/core/qhashtbl.c:191-207 | "b/c" under "a" and "c" under "a/b" become one entry, where a scan by path and name keeps two |
| `Counterexamples.GlobalNumberLost` | src/core/adios_internals.c:231-600 | the definition 7, 10, 0 of a dimension: in the list of the header the global dimension 10 and the offset 0 are read back as the time dimension; the characteristics have 7, 10, 0 |
| `Counterexamples.HistogramMinimum` | src/core/adios_bp_v1.c:598-609 | an index with a histogram never comes back as it was written |
| `Counterexamples.ComplexOne` | src/core/adios_bp_v1.c:476-501 | an index with the complex number 1 does not come back from a little-endian to a big-endian machine |
| `Counterexamples.CountInHeader` | src/core/adios_bp_v1.c:1570-1577 | the count of a double variable is lost in the header between different orders, its sum survives |
| `Counterexamples.HeaderTooLong` | src/core/adios_internals.c:1991-2054 | a header of 2^16 bytes whose calculated overhead is 0 |
| `Counterexamples.SortMakesCycle` | src/core/adios_internals.c:2448-2486 | times 5, 3: the sort ends with a cycle |
| `Counterexamples.SortRunsForever` | src/core/adios_internals.c:2448-2486 | times 5, 3, 7: the sort does not end |
| `Layouts.GroupInIndex` | src/core/adios_internals.c:3510-3578 | a group entry of the index, byte by byte |
| `Layouts.VariableInIndex` | src/core/adios_internals.c:3589-3644 | the fields of a variable entry, byte by byte |
| `Layouts.RecordInIndex` | src/core/adios_internals.c:3646-3712 | the beginning of a record, byte by byte |
| `Layouts.DimensionsInIndex` | src/core/adios_internals.c:4443-4487 | the dimensions 7, 10, 0, byte by byte |
| `Layouts.GroupNames` | src/core/adios_internals.c:2132-2175 | the header of a group at time 3 without a coordination variable, byte by byte |
| `Layouts.GroupMethods` | src/core/adios_internals.c:2177-2207 | its list of methods, byte by byte |
| `Layouts.VariableStart` | src/core/adios_internals.c:5125-5150 | the beginning of a variable header, byte by byte |
| `Layouts.DimensionInList` | src/core/adios_internals.c:4324-4417 | a dimension with a number, a reference and the time dimension, byte by byte |
| `Layouts.AttributeOfVariable` | src/core/adios_internals.c:5186-5227 | an attribute that refers to a variable, byte by byte |
| `Layouts.AttributeWithValue` | src/core/adios_internals.c:5228-5242 | type, length and value of an attribute, byte by byte |
| `Layouts.Section` | src/core/adios_internals.c:5269-5279 | a section of two entries, byte by byte |

## Left out

- Transform layer: all variables are untransformed, so no transform characteristics are written or parsed.
- Overflow of 64-bit sizes and offsets, loop counters of type int beyond 2^31, negative values of dimension variables: sizes are unbounded numbers, and records are required to fit the words they are stored in.
- memcpy: a block move is modelled as memmove, as the disabled overlap test in the copy routine would need.
- malloc failure, freeing, leaks and uninitialised memory; the minimum of a parsed histogram, which is such memory, is modelled as absent.
- WriteBuffers.WriteBuffer.Skip: makes room at once, while the source moves the cursor and lets the next write make room.
- IndexMerge.VarIndex.MergeVars: a node that was merged into another one is left as it is, while the source frees it; attribute and process group lists are not merged.
- BpItemParser.ParseItem: flags that the writer never puts into an index of that kind (the minimum and maximum of older files, a bitmap in an attribute, a variable id in a variable) are not modelled.
- BpRoundTrip.RoundTrip: strings of 2^16 bytes and more are written as the source writes them, with a cut length and all their bytes, but reading on behind such a string is not modelled: BpItemParser.ParseText says what is read of it and what is left in front of the cursor.
- BpParser.ParsePgSection: bytes that no writer produces are not modelled; the source reads past the end of the buffer on those.
- BpIndexParser.ParseEntrySection: a section of 10 or 11 bytes, which no writer produces, passes the source's test for 10 bytes and is then read past its end; it is not modelled.
- BpDefine.DefineDimensions: variables and attributes are looked up in maps by the names they are found under; a number beyond the type int as a local dimension, for which atoi is undefined, is taken as it is; that a variable is marked as a dimension is not modelled.
- IndexMerge.VarIndex.Append: the hash table is a map; how it spreads keys over slots is not modelled. Names have no zero bytes.
- BpGroupParser.ParsePayload: the zero that is put behind the data of a string is not modelled.
- BpGroupRead.ParseGroup: only groups that a writer produced, with every variable's characteristics below 2^16 bytes; it goes on after a division by zero, where a process would stop.
- BpGroupParser.ParseSectionHeader: a section of attributes of 10 or 11 bytes, which no writer produces, passes the source's test and is then read past its end; it is not modelled.
- BpGroupParser.ParseGroupHeader: only headers that a writer produced.
- BpBuild.BuildEntries: the attribute entries are taken as given.
- BpPayload.ParseVarHeader: only headers that a writer produced; statistics swapped beyond their own memory are modelled as absent.
- ReadBlocks.PatchData: the sides of the boxes are comparable, the exact condition of Intersection.ServesIffComparable for each side; with a ragged offset both boxes have elements; patching from and to point selections is not modelled.
- ReadBlocks.ReadBox: built on PatchData, with the same conditions.
- Intersection of two point selections, and the dispatch for a point selection and a box, which tests the wrong argument; derelativized selections.
- FindBlocks.FindIntersectingPgs: the sides of the boxes are comparable, the exact condition of Intersection.ServesIffComparable.
- FindInFile.FindPgsInFile: the same.
- Statistics.ComputeStatistics: numbers are reals with a case for "not finite", so rounding is not modelled; complex statistics are left out.
- Selections.IntersectWriteblocks: two partial blocks are comparable, the exact condition of Intersection.ServesIffComparable.
- API wrappers, XML configuration, POSIX and MPI input and output, buffer pool accounting, timing, sockets: no logic of their own, or easy.
