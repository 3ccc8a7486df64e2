# MILO: the decompressor, the 8086 emulator and the FAT boot block

A Dafny model of three parts of the MILO boot loader, with proofs.

**The decompressor** (`zip/`). `HuftCounts`, `HuftSizing`, `HuftTables`, `HuftStore` and `HuftBuild`
model `huft_build` and `huft_free` loop by loop: counting, table sizing, the stack of open tables, the
reverse-carry increment, the list of allocated blocks. `Input` is the buffered input with the bit
buffer, `Window` the circular 32K output window, `Inflate` the block decoders and `inflate`, `Gzip` the
header, the trailer and `uncompress_kernel`. They are proved against two definitions that have no
tables, no bit buffer and no window: `Canonical` (the codes of section 3.2.2 of RFC 1951, decoded bit by
bit) and `Deflate` (sections 3.2.3 to 3.2.7, on the whole stream and the whole output). `HuftWalk` and
`Lookup` connect the tables to the codes. `Preset` says what the old contents of the window can do to
the result. `Encode` and `Streams` are a compressor for the format: literals and matches, stored, fixed
and dynamic blocks with run-length coded code lengths, up to 32 distance lengths, streams of any blocks.
`Parse` goes back: a stream that inflates is one of these. `Format` writes out the numbers of RFC 1951, so
that nothing rests on the tables and lists of `Deflate`: the fixed codes, what each code for a length or
distance stands for, the order of the code length code, the fields of a block. Together (`Parse.InflatesIff`) they say which
streams `Deflate`, and so the program, accepts, and what for; `Limits` has the two ways in which that is
not what section 3.2.7 of RFC 1951 says. `GzipFile` goes all the way round: bytes to a file of RFC 1952,
and through `uncompress_kernel` back.

**The 8086 emulator** (`video/x86/`). `Alu` has addition and subtraction with the flags computed from
carry and borrow chains, comparisons and conditional jumps, and numbers of several words; `Rotate` the
rotations through carry; `Machine` memory, segment selection, the stack, calls and interrupts, and the
repeated string instructions.

**The FAT boot block** (`tools/boot/`). `Fat` has the unpacking of 12-bit entries and the contiguity
check.

How C is rendered. Memory that `kmalloc` returns is a map from addresses to blocks; a read, a write or a
`free` needs the block to be there, and a new block holds arbitrary entries. A code, and a word of the
emulator, is its bits as a sequence. Shifts and masks are functions on numbers (`Shl`, `Shr`, `Low`).
Arrays and variables that C updates are arrays, fields and local variables that the methods update. An
input device is a function from positions to bytes; a stream is what it starts with, and decoding is
specified when the stream is decided: when bit-by-bit decoding ends well or at an error that the program
reports, without running out of bits or into memory the program never set.

What is false of the program, with the exact condition.

- A match that reaches back beyond the start of the output (`dist > |out|`) is not rejected but copied
  from the window's old contents. `Encode.TooFarAccepted` has a stream. `Preset.WindowShows`: for two old
  contents that differ everywhere the delivered bytes are the same if and only if no match of the stream
  does that; `Streams.BlocksRoundTrip` says so of every stream written, token by token.
- A dynamic block may have 32 distance lengths; one that has more than 30 is rejected. `Limits.ManyDistances`
  has, for every list of bytes, streams of 17 to 31 of them: up to 30 they inflate to the bytes, with 31 they
  are error 1. `Streams.BlocksRoundTrip`: a stream of blocks inflates to what they mean if and only if every
  head, up to the end or the first match that is too far, has at most 30, and is error 1 otherwise.
- A head whose code lengths start with code 16, which repeats the length before it, has none to repeat. It is
  accepted, the repeat standing for zeros (`Limits.RepeatIsZeros`). `Limits.LeadingRepeat` has such streams;
  a stream that inflates is one of the format if and only if none of its heads starts so (`Limits.FormatIff`,
  `Parse.InflatesIff`).
- `get_method` takes flag FHCRC for a continuation mark: a header with a checksum of its own is rejected,
  any other accepted (`Gzip.HeaderTheorem`).
- The trailer's length is compared with the whole number of bytes and not, as RFC 1952 has it, modulo
  2^32: of the files whose length field is right those below 2^32 bytes are accepted (`GzipFile.Restore`,
  `Gzip.UncompressKernel`); one of 2^32 bytes is a failing length (`GzipFile.LengthWraps`).
- A file is a series of members (section 2.2 of RFC 1952). Only the first is read: what is delivered is the
  whole data if and only if the other members have none (`GzipFile.RestoreFirst`).
- A segment override is lost when REP, REPNE or LOCK comes between it and the access, and only then
  (`Machine.OverrideUsed`); ES: REP MOVSB reads from DS (`Machine.OverrideLost`, `X86.OverriddenMovs`).
- An operand size prefix is lost in the same way and only so (`Machine.SizeUsed`): 66 F3 AB stores words.
- A REP before an instruction that is no string instruction stays on for a later one; so does REPNE after
  both before a comparison. `Machine.LeavesClear` is the if and only if, `Machine.RepeatLeft` the run of F3 90,
  `X86.LeftoverMovs` a MOVS after it, which repeats CX times.
- The contiguity check takes the mark of a bad cluster (0xFF7, 0xFFF7) for the end of a chain
  (`Fat.BadAccepted`); an accepted chain ends as a file does if and only if the entry of its last cluster
  is not that mark (`Fat.EndsRight`, `Fat.CheckChain`).

## Model

| member | source | states |
|---|---|---|
| Canonical.CanonicalPrefixFree | zip/inflate.c:186-193 | no canonical code starts another's, so decoding is unambiguous |
| Canonical.DecodeLeaf | zip/inflate.c:365-380 | a string that is a code, or past all codes, is exactly what bit-by-bit decoding finds, whatever follows |
| Canonical.CodesIff | zip/inflate.c:206-212 | the codes of a length are an interval of values and name the symbols of that length in order |
| Canonical.CompleteDecodes | zip/inflate.c:365-380 | in a complete set every string that is long enough starts with a code |
| Canonical.IncompleteFails | zip/inflate.c:365-380 | in a set that is not complete the string of ones does not |
| Canonical.AcceptedIncomplete | zip/inflate.c:315-316 | the accepted sets that are not complete are those with no code and those with one code, of one bit |
| Canonical.VerdictIs | zip/inflate.c:315-316 | the code of an accepted, an oversubscribed and an incomplete set |
| HuftCounts.CountLengths | zip/inflate.c:153-159 | c[t] is the number of symbols of each length |
| HuftCounts.Bounds | zip/inflate.c:168-183 | shortest and longest length in use, and the table width clamped between them |
| HuftCounts.CheckLengths | zip/inflate.c:186-193 | fails exactly when the Kraft sum exceeds 1; otherwise y makes the set complete |
| HuftCounts.Offsets | zip/inflate.c:196-203 | start of each length's symbols in the sorted list |
| HuftCounts.SortValues | zip/inflate.c:206-212 | every symbol with a code is at its rank by length, then number |
| HuftCounts.LongCodes | zip/inflate.c:240-252 | codes longer than t fill at most half of a code of length t each |
| HuftSizing.TableBits | zip/inflate.c:239-252 | the new table reaches to the end of its subtree or is l bits wide, and is no wider than l for sets that fit two tables or are complete and small |
| HuftSizing.SubtreeCodes | zip/inflate.c:240-252 | in a complete set a subtree deeper than the table holds too many codes |
| HuftStore.AddTable | zip/inflate.c:254-264 | a new block goes to the end of the list, which holds every block exactly once |
| HuftStore.Connect | zip/inflate.c:267-275 | only the one entry of the table above changes |
| HuftStore.FillEntries | zip/inflate.c:293-296 | exactly the entries whose low bits are the code's change |
| HuftStore.HuftFree | zip/inflate.c:321-338 | each block of the list is freed once and memory is what it was before the build |
| HuftTables.OpenStep | zip/inflate.c:234-276 | opening a table keeps: finished slots right, open tables on the path of the current code |
| HuftTables.FillStep | zip/inflate.c:293-296 | writing a code's entries makes all slots below the next code right |
| HuftTables.PopClosed | zip/inflate.c:303-307 | a table whose bits do not start the next code is finished |
| HuftTables.FreshSubtree | zip/inflate.c:234-276 | where a new table is to hang nothing has been written |
| HuftBuild.ReverseIncrement | zip/inflate.c:298-301 | the reverse-carry increment of the reversed code is the reverse of the next canonical code |
| HuftBuild.MakeEntry | zip/inflate.c:280-291 | the entry is the symbol's with this canonical code; for a code past the last it is marked invalid when no length is zero |
| HuftBuild.BackUp | zip/inflate.c:303-307 | after backing up the stack is that of the next code and every table off it is finished |
| HuftBuild.EnterCode | zip/inflate.c:229-308 | one code: all invariants move on to the next position |
| HuftBuild.GenerateTables | zip/inflate.c:216-311 | all slots of all tables are right, and the tables are the blocks of one list |
| HuftBuild.WidthWithinM | zip/inflate.c:168-183 | a complete set with fewer than 2^m codes gets a table width of at most m, and no table wider |
| HuftBuild.HuftBuild | zip/inflate.c:122-317 | returns 2 exactly for an oversubscribed set, with nothing allocated, 1 exactly for an incomplete one whose longest code is not one bit, otherwise 0; and the tables are finished |
| HuftWalk.TableTheorem | zip/inflate.c:227-311 | walking the tables over any 16 bits finds the symbol whose canonical code starts them and uses as many bits; in a complete set there always is one; when no code starts them and no length is zero, the entry found is marked invalid |
| HuftWalk.AtRoot | zip/inflate.c:240-252 | the first table can be indexed with l bits though it may be larger |
| HuftWalk.WalkStep | zip/inflate.c:365-380 | each entry met is a code's, or leads to the table l bits further down |
| Input.Source.GetByte | zip/gzip.h:75 | the p-th read returns byte p of the file, across block ends |
| Input.Source.FillInbuf | zip/misc.c:123-136 | reads the next block and returns its first byte |
| Input.Source.NeedBits | zip/inflate.c:96 | the buffer holds the next bits of the file, fewer than eight more than asked for |
| Input.BufferByte | zip/inflate.c:96 | the buffer's value is below 2^k and a byte goes on top of it |
| Input.BufferTake | zip/inflate.c:95-97 | the low bits are the next bits of the file, and dropping them moves on |
| Input.Source.Undo | zip/inflate.c:804-810 | gives back at most one byte; the input stands after the byte with the last used bit |
| Window.Output.Flush | zip/misc.c:143-162 | what is in the window is appended, counted and copied once |
| Window.Output.Put | zip/inflate.c:381-386 | a byte goes to the output and the window keeps the last 32768 |
| Window.Output.MemCopy | zip/inflate.c:427-431 | a chunk copied at once is the match copied byte by byte |
| Window.Output.SlowCopy | zip/inflate.c:432-435 | an overlapping chunk copied byte by byte is the match, repeats included |
| Window.Output.CopyChunk | zip/inflate.c:420-440 | a chunk stops at whichever end of the window comes first, flushing when it is full |
| Window.Output.Copy | zip/inflate.c:420-440 | every length, window position and distance from 1 to 32768: the output is the byte-by-byte copy |
| Window.CopyMatchIff | zip/inflate.c:420-440 | the copy is the one list that goes on from the old output with each byte the one `dist` back |
| Window.CopyMatchAdd | zip/inflate.c:420-440 | copying in two parts is copying at once |
| Window.CopyMatchPlain | zip/inflate.c:427-431 | a match no longer than its distance is a slice of the old output |
| Lookup.SearchFinds | zip/inflate.c:365-380 | the program's search through memory ends at the entry bit-by-bit decoding says |
| Lookup.DistanceBound | zip/inflate.c:71-82 | no distance is larger than the window |
| Lookup.OneLevel | zip/inflate.c:635-637 | the code length table is found in one lookup |
| Lookup.BeyondSent | zip/inflate.c:618-619 | code length symbols not sent have length 0 |
| Preset.PresetTheorem | zip/inflate.c:416-427 | decoding after a full window gives the window and then what decoding alone gives, if and only if decoding alone meets no match that reaches back beyond the start |
| Preset.WindowShows | zip/inflate.c:416-427 | after two windows that differ everywhere a stream decodes to the same bit and as many bytes, and to the same bytes if and only if no match reaches back beyond the start |
| Preset.InflateAlike | zip/inflate.c:780-817 | how a stream is decoded depends on the length of what precedes it and not on its bytes |
| Preset.InflateShows | zip/inflate.c:416-427 | from the first match that reaches back too far the outputs differ |
| Preset.Alone | zip/inflate.c:780-817 | a stream that stands on its own gives the same outcome after any window |
| Preset.InflateAfter | zip/inflate.c:780-817 | decoding after X gives X and what decoding alone gives |
| Preset.InflateFull | zip/inflate.c:416-427 | after a full window no match is too far |
| Blocks.FixedLiteralFacts | zip/inflate.c:524-537 | the fixed literal set is complete and is accepted |
| Blocks.FixedDistanceFacts | zip/inflate.c:539-546 | the fixed distance set lacks two codes; the build says so and the block goes on |
| Blocks.MadeTables | zip/inflate.c:687-717 | tables built for a set that is complete and small, or whose longest code fits two tables, can be walked with the width returned |
| Blocks.OlderFirst | zip/inflate.c:723-725 | two sets of tables are disjoint, so the older can be freed first |
| Blocks.FreeBoth | zip/inflate.c:555-557 | memory is what it was before both builds |
| Blocks.FillLengths | zip/inflate.c:648-650 | a run of equal lengths, and no other cell |
| Blocks.SetLengthsDefined | zip/inflate.c:625-717 | a dynamic block reads an entry never set only if one of its three sets has at most one code |
| Blocks.PlainDefined | zip/inflate.c:456-559 | stored and fixed blocks never do |
| Blocks.FixedTables | zip/inflate.c:524-546 | usable tables for the two fixed sets |
| Blocks.DynamicTables | zip/inflate.c:687-717 | usable tables for both sets, or the verdict on the first that is not accepted and no table left |
| Encode.DistanceExact | zip/inflate.c:71-82 | every distance from 1 to 32768 has exactly one code and extra bits |
| Encode.LengthExact | zip/inflate.c:58-69 | every length from 3 to 258 has exactly one code and extra bits, but for 258, which has two |
| Encode.CodeFits | zip/inflate.c:186-193 | in a set that is not oversubscribed every code fits its length |
| Encode.CodeDecodes | zip/inflate.c:365-380 | round trip of one code |
| Encode.WriteRead | zip/inflate.c:361-448 | round trip of a block of literals and matches, for any two sets that can write it and either code for 258 |
| Encode.EveryDataHasStream | zip/inflate.c:780-817 | every list of bytes has a stream that inflates to it |
| Encode.TooFarAccepted | zip/inflate.c:416-427 | a stream that is invalid, and what the program makes of it |
| Streams.LensRead | zip/inflate.c:630-674 | round trip of run-length coded code lengths |
| Streams.LensOverrun | zip/inflate.c:646-666 | a run past the end of the lengths is error 1 |
| Streams.OrderRead | zip/inflate.c:616-619 | round trip of the lengths of the code length code; those left out are zero |
| Streams.HeadRead | zip/inflate.c:594-717 | round trip of the head of a dynamic block: with up to 30 distance lengths the block is decoded in the two sets it was written for, with 31 or 32 it is error 1 |
| Streams.EverySetHasHead | zip/inflate.c:594-717 | every two sets of acceptable lengths have a head |
| Streams.StoredRead | zip/inflate.c:456-505 | round trip of a stored block from any bit position, whatever fills up the byte before it |
| Streams.BodyRead | zip/inflate.c:733-776 | round trip of a block of any kind, or error 1 if its head has too many distance lengths |
| Streams.HeadsFitIff | zip/inflate.c:605-614 | the heads fit if and only if every dynamic block that is reached has at most 30 distance lengths |
| Streams.BlocksRoundTrip | zip/inflate.c:780-817 | round trip of a stream of any blocks the format has, anywhere in the input: it inflates to what the blocks mean, too far exactly if a match of theirs is, if and only if the heads up to the end or that match have at most 30 distance lengths; else it is error 1 |
| Streams.EverySetWrites | zip/inflate.c:563-729 | every list of bytes can be sent in any two sets of acceptable lengths with codes for it, and comes back exactly if there are at most 30 distance lengths |
| Format.FixedLiteralCodes | zip/inflate.c:525-532 | the fixed codes as numbers: 48 + i in 8 bits, 400 + (i - 144) in 9, i - 256 in 7, 192 + (i - 280) in 8 |
| Format.FixedDistanceCodes | zip/inflate.c:539-546 | fixed distance code i is i in 5 bits |
| Format.DistanceCodes | zip/inflate.c:71-82 | both tables in closed form: code m >= 2 starts at 1 + (2 + m % 2) * 2^(m / 2 - 1) and has m / 2 - 1 extra bits |
| Format.DistanceMeans | zip/inflate.c:398-418 | what the decoder makes of a distance code and its extra bits, in those numbers |
| Format.DistanceNumber | zip/inflate.c:71-82 | every distance from 1 to 32768 has exactly one code and one number in its extra bits, in those numbers |
| Format.DistanceWritten | zip/inflate.c:398-418 | the bits a distance is written in, in those numbers |
| Format.LengthCodes | zip/inflate.c:58-69 | both tables in closed form: four codes for each number of extra bits, 258 by itself |
| Format.LengthMeans | zip/inflate.c:393-396 | what the decoder makes of a length code and its extra bits, in those numbers |
| Format.LengthNumber | zip/inflate.c:58-69 | every length from 3 to 257 has exactly one code and one number in its extra bits, in those numbers; 258 has two |
| Format.LengthWritten | zip/inflate.c:393-396 | the bits a length is written in, in those numbers |
| Format.SymbolKinds | zip/inflate.c:364-391 | bytes, the end of the block, and the errors: symbols 286 and 287, distance codes 30 and 31, codes that no symbol has |
| Format.OrderIs | zip/inflate.c:53-56 | the order in closed form: the repeats, 0, then outwards from 8 |
| Format.LengthTokens | zip/inflate.c:641-673 | the codes for code lengths, their extra bits and what they stand for |
| Format.BlockStarts | zip/inflate.c:733-776 | the first three bits of a block: the last flag, then 00, 10 and 01 for stored, fixed and dynamic |
| Format.ReservedKind | zip/inflate.c:774-775 | kind 11 is error 2 |
| Format.StoredFields | zip/inflate.c:456-505 | where a stored block has its length, the complement and each byte |
| Format.HeadFields | zip/inflate.c:594-619 | where the head of a dynamic block has its counts and the length of each code of the code length code |
| Format.TooManyCodes | zip/inflate.c:605-614 | more than 286 literal/length or 30 distance codes are error 1 |
| Format.BytesInNumbers | zip/inflate.c:510-559 | the bits 110, for each byte 48 + b in eight or 256 + b in nine bits, and seven zeros inflate to the bytes, wherever they stand |
| Parse.CodeParsed | zip/inflate.c:365-380 | what has been decoded is the code of a symbol |
| Parse.TurnParsed | zip/inflate.c:361-441 | a turn of the loop that goes on has read a literal or a match as it is written |
| Parse.SymbolsParsed | zip/inflate.c:361-448 | the symbols of a block that ends well are literals and matches as they are written, and the end-of-block code |
| Parse.StoredParsed | zip/inflate.c:456-505 | a stored block that is read well is one that was written |
| Parse.LensParsed | zip/inflate.c:630-674 | code lengths that have been read are run-length coded as they are written |
| Parse.HeadParsed | zip/inflate.c:594-717 | the head of a dynamic block that ends well is one that was written, with at most 30 distance lengths |
| Parse.BodyParsed | zip/inflate.c:733-776 | a block of any kind that ends well is one that was written |
| Parse.StreamParsed | zip/inflate.c:780-817 | a stream that inflates is a stream of blocks |
| Parse.InflatesIff | zip/inflate.c:780-817 | for all bits: they inflate to o, up to bit q, if and only if a stream of blocks stands there, up to q, whose heads have at most 30 distance lengths and that means o |
| Limits.ManyDistances | zip/inflate.c:605-614 | for every list of bytes streams of 17 to 31 distance lengths, which the format has: up to 30 they inflate to the bytes, with 31 they are error 1 |
| Limits.HeadUnique | zip/inflate.c:594-674 | the head of a dynamic block is determined by its bits |
| Limits.RepeatIsZeros | zip/inflate.c:641-653 | a repeat at the start means zeros |
| Limits.StreamUnique | zip/inflate.c:780-817 | the kinds and heads of the blocks of a stream, and where it ends, are determined by its bits |
| Limits.FormatIff | zip/inflate.c:641-653 | a stream of blocks is one of the format if and only if none of its heads starts with a repeat |
| Limits.LeadingRepeat | zip/inflate.c:641-653 | streams where none of the format stands, that are accepted |
| Inflate.Inflater.FollowTables | zip/inflate.c:365-380 | from table to table, as the search goes |
| Inflate.Inflater.DecodeSymbol | zip/inflate.c:365-380 | reads the entry of the symbol that bit-by-bit decoding finds, and stands after its code |
| Inflate.Inflater.ReadDistance | zip/inflate.c:398-418 | the distance of section 3.2.5, or failure for an invalid code |
| Inflate.Inflater.MatchStep | zip/inflate.c:393-440 | a match gives what the reference gives |
| Inflate.Inflater.Step | zip/inflate.c:364-441 | one turn of the loop is one symbol of the reference; at most 15 bits stay in the buffer |
| Inflate.Inflater.InflateCodes | zip/inflate.c:341-450 | a block's output and end are the reference's, or the error is |
| Inflate.Inflater.InflateStored | zip/inflate.c:456-505 | the same for a stored block |
| Inflate.Inflater.InflateFixed | zip/inflate.c:510-559 | the same for a fixed block; memory as before |
| Inflate.Inflater.ReadCodeLengths | zip/inflate.c:616-625 | the code length code, in the order of section 3.2.7 |
| Inflate.Inflater.ReadRun | zip/inflate.c:645-671 | a run of lengths, or failure if it is too long; nothing past the end is written |
| Inflate.Inflater.AddLengths | zip/inflate.c:643-673 | one code length symbol adds what the reference adds |
| Inflate.Inflater.ReadLengths | zip/inflate.c:630-674 | exactly nl + nd lengths, those of the reference, the cells past them unchanged; or failure |
| Inflate.Inflater.ReadSets | zip/inflate.c:625-683 | the same with the building and freeing of the code length table |
| Inflate.Inflater.InflateDynamic | zip/inflate.c:563-729 | a dynamic block is the reference's; memory as before |
| Inflate.Inflater.InflateBlock | zip/inflate.c:733-776 | the last-block flag and the block |
| Inflate.Inflater.InflateBlocks | zip/inflate.c:793-801 | the loop over the blocks ends with the reference's output and end, or its error |
| Inflate.Inflater.Inflate | zip/inflate.c:780-817 | returns 0 exactly with the reference's output flushed, each byte once and in order, no table left, the input just after the last byte used; else the reference's error |
| Gzip.HeaderTheorem | zip/misc.c:60-115 | a header of RFC 1952 is accepted and consumed exactly if it has no checksum of its own, and rejected if it has |
| Gzip.FindsZero | zip/misc.c:102-113 | a name or comment is skipped up to its zero |
| Gzip.ShortDigits | zip/misc.c:94-99 | the length of the extra field is in two bytes, the low one first |
| Gzip.FlagSum | zip/misc.c:73-113 | a flag byte is the sum of the weights of its flags |
| Gzip.HeaderMagic | zip/misc.c:65-70 | the first bytes are 1F 8B or 1F 9E, any others are rejected |
| Gzip.GetMethod | zip/misc.c:60-115 | the method and where the data starts, or -1 |
| Gzip.Unzip | zip/unzip.c:54-130 | decompresses and accepts exactly when the trailer's length is the number of bytes; when it is the number modulo 2^32, exactly below 2^32 |
| Gzip.LongDigits | zip/gzip.h:80-81 | the trailer's numbers are in four bytes, the low one first |
| Gzip.UncompressKernel | zip/misc.c:178-203 | from the first byte of the file to the last of the output |
| Gzip.LengthCompared | zip/unzip.c:120-123 | of the lengths that are right modulo 2^32 those below 2^32 compare equal |
| GzipFile.PackedAt | zip/inflate.c:95-97 | bits packed into bytes are found where they were put |
| GzipFile.LetterA | zip/inflate.c:510-559 | the compressed bytes 73 04 00 are the letter A |
| GzipFile.FileRight | zip/misc.c:60-203 | the file of any member: header, data and trailer are read as they were written, or the data are error 1 if a head has too many distance lengths |
| GzipFile.Restore | zip/misc.c:178-203 | the program on the file of any member delivers its bytes exactly if it has no header checksum and its heads have at most 30 distance lengths, and then accepts it exactly below 2^32 bytes |
| GzipFile.FirstOnly | zip/misc.c:178-203 | the data of the first member are those of a series exactly if the others have none |
| GzipFile.RestoreFirst | zip/misc.c:178-203 | of a series of members the program reads the first, and delivers all the data exactly if the others have none |
| GzipFile.LengthWraps | zip/unzip.c:120-123 | 2^32 bytes have a right file whose length field is 0 |
| Alu.ChainIsCarry | video/x86/x86_prim_ops.c:40-73 | at every width and bit the chain ab + r'(a + b) is the ripple carry |
| Alu.ChainIsBorrow | video/x86/x86_prim_ops.c:74-100 | at every width and bit the chain a'b + r(a' + b) is the ripple borrow |
| Alu.CarryMeans | video/x86/x86_prim_ops.c:40-73 | carry out of k bits: their sum does not fit |
| Alu.BorrowMeans | video/x86/x86_prim_ops.c:74-100 | borrow from k bits: the first is less |
| Alu.OverflowAdd | video/x86/x86_prim_ops.c:153-154 | the last two carries differ exactly on signed overflow |
| Alu.OverflowSub | video/x86/x86_prim_ops.c:301-304 | the last two borrows differ exactly on signed overflow |
| Alu.ParityZeros | video/x86/x86_prim_ops.c:26-35 | PF of zeros is off |
| Alu.ParityFlips | video/x86/x86_prim_ops.c:26-35 | PF changes with every bit |
| Alu.Flags.Add | video/x86/x86_prim_ops.c:190-237 | CF, OF, AF, ZF, SF in terms of the numbers added |
| Alu.Flags.Adc | video/x86/x86_prim_ops.c:136-182 | the same with carry in |
| Alu.Flags.Inc | video/x86/x86_prim_ops.c:401-443 | the same with 1, CF unchanged |
| Alu.Flags.Sub | video/x86/x86_prim_ops.c:1601-1642 | the flags in terms of the numbers subtracted |
| Alu.Flags.Sbb | video/x86/x86_prim_ops.c:1553-1598 | the same with borrow in |
| Alu.Flags.Cmp | video/x86/x86_prim_ops.c:286-328 | the flags of the subtraction, the operand unchanged |
| Alu.Flags.Dec | video/x86/x86_prim_ops.c:352-393 | the same with 1, CF unchanged |
| Alu.AddInNumbers | video/x86/x86_prim_ops.c:136-237 | CF, AF, ZF, SF and OF of an addition at bits 0, 4, 6, 7 and 11, by the two numbers alone |
| Alu.SubInNumbers | video/x86/x86_prim_ops.c:1553-1642 | the same of a subtraction |
| Alu.CmpThenJump | video/x86/x86_ops.c:3473-3822 | after CMP each of ten conditional jumps is taken exactly when the comparison it is named for holds |
| Alu.AddListSums | video/x86/x86_prim_ops.c:160-237 | adding up a list of words with the carries between them is the sum of the long numbers |
| Alu.SubListSubtracts | video/x86/x86_prim_ops.c:1576-1642 | subtracting with the borrows between them is the difference |
| Alu.AddThenSubList | video/x86/x86_prim_ops.c:1576-1642 | the second undoes the first, CF included |
| Alu.AddWords | video/x86/x86_prim_ops.c:136-237 | ADD, then INC and ADC word by word, with CF the only link, is the list addition and the sum of the long numbers |
| Alu.SubWords | video/x86/x86_prim_ops.c:1553-1642 | SUB, then INC and SBB, is the list subtraction and the difference |
| Alu.AddSubWords | video/x86/x86_prim_ops.c:136-237 | one after the other gives the words back, with CF as the addition left it |
| Rotate.Rcl | video/x86/x86_prim_ops.c:635-762 | value and CF are the ring of operand and CF turned one bit at a time, for every count |
| Rotate.Rcr | video/x86/x86_prim_ops.c:788-950 | the same in the other direction |
| Rotate.RclIsUp | video/x86/x86_prim_ops.c:667-700 | the shifts and masks make the turned ring |
| Rotate.RcrIsDown | video/x86/x86_prim_ops.c:825-865 | the same in the other direction |
| Rotate.UpDown | video/x86/x86_prim_ops.c:635-950 | each undoes the other |
| Machine.SelectsRight | video/x86/x86_decode.c:576-640 | along every run an access uses the override pending since the last clearing, else SS for a BP form, else DS; the error case is exactly that of two different overrides |
| Machine.SegmentIs | video/x86/x86_decode.c:576-641 | down to the register: CS, DS, ES or SS for the single override, SS for a BP form without one, else DS; the error for several |
| Machine.SegmentAlong | video/x86/x86_decode.c:576-641 | the same along every run |
| Machine.OverrideUsed | video/x86/x86_ops.c:7845-7870 | the one override of an instruction is used if and only if no REP, REPNE or LOCK comes after it |
| Machine.OverrideLost | video/x86/x86_ops.c:7845-7870 | the run of override, REP uses DS (so ES: REP MOVSB), the run of REP, override the override |
| Machine.RepeatTells | video/x86/x86_ops.c:7845-7870 | the repeat bits at an instruction are those its prefixes ask for, when none was left over |
| Machine.LeavesClear | video/x86/x86_ops.c:5544-5639 | when an instruction leaves a repeat bit to the next |
| Machine.RepeatLeft | video/x86/x86_ops.c:7859-7870 | the run of REP NOP leaves the repeat bit |
| Machine.SizeTells | video/x86/x86_ops.c:3342-3351 | along every run the operand size bit says that a size prefix has come since the last clearing |
| Machine.SizeUsed | video/x86/x86_ops.c:3342-3351 | the size prefix of an instruction is heeded if and only if no REP, REPNE or LOCK comes after it |
| Machine.ModeTells | video/x86/x86_regs.h:208-225 | along every run of prefixes, BP forms and ends the segment bits say which overrides have come, and whether BP was used, since the last clearing; an instruction's end leaves none set |
| Machine.SegmentsOverlap | video/x86/x86_decode.c:587 | segments start 16 bytes apart and overlap |
| Machine.WordBytes | video/x86/x86_decode.c:549-759 | a word is two bytes, the low one first |
| Machine.BaseIs | video/x86/x86_decode.c:374-427 | the eight forms: BX or BP plus SI or DI, or one of the four alone |
| Machine.BpForms | video/x86/x86_decode.c:374-541 | the forms that select SS are exactly those whose offset changes with BP |
| Machine.FlagPlaces | video/x86/x86_regs.h:154-162 | which bit of the flags word is which flag |
| Machine.PushKeeps | video/x86/x86_prim_ops.c:566-578 | a push adds to a list of up to 32768 words, for every SS:SP, wrap included |
| Machine.PopKeeps | video/x86/x86_prim_ops.c:599-610 | a pop takes the first off |
| Machine.X86.Push | video/x86/x86_prim_ops.c:566-578 | the list and SP after a push |
| Machine.X86.Pop | video/x86/x86_prim_ops.c:599-610 | the list, SP and the word after a pop |
| Machine.X86.PushAll | video/x86/x86_ops.c:3260-3294 | the eight words PUSHA leaves |
| Machine.X86.PopAll | video/x86/x86_ops.c:3300-3333 | seven registers restored, SP skipped |
| Machine.X86.PushaPopa | video/x86/x86_ops.c:3260-3333 | together they restore every register |
| Machine.X86.CallsReturn | video/x86/x86_ops.c:5348-5351 | near and far call and return restore CS, IP and SP |
| Machine.X86.IntReturns | video/x86/x86_ops.c:6912-6992 | INT and IRET restore CS, IP, SP and the low 16 flags |
| Machine.X86.Int | video/x86/x86_ops.c:6912-6944 | what INT pushes and clears |
| Machine.X86.DecodeAddress | video/x86/x86_decode.c:374-541 | offset, displacement and the BP bit of the three address modes |
| Machine.X86.StoreData | video/x86/x86_decode.c:873-1048 | the store goes to the selected segment, which register that is included |
| Machine.X86.FetchData | video/x86/x86_decode.c:549-759 | the fetch reads the selected segment, which register that is included |
| Machine.X86.JumpNear | video/x86/x86_ops.c:3473-3822 | IP after a conditional jump |
| Machine.X86.RepeatPrefix | video/x86/x86_ops.c:7845-7870 | REP and REPNE set their bit and clear the segment and size bits |
| Machine.X86.OverriddenMovs | video/x86/x86_ops.c:5520-5592 | override and REP before MOVS, in either order: where the bytes come from |
| Machine.X86.LeftoverMovs | video/x86/x86_ops.c:7859-7870 | REP NOP and then MOVS: CX elements are moved |
| Machine.X86.Movs | video/x86/x86_ops.c:5520-5592 | REP MOVS is CX single moves; SI and DI end CX elements higher, or lower with DF set, at 16 bits, CX at 0; up to 64K every byte of the destination is in place; with two different overrides it moves zeros and halts |
| Machine.StepsAre | video/x86/x86_ops.c:5529-5532 | after n steps an index is n or 2n higher, or lower with DF set, at 16 bits |
| Machine.PlaceIs | video/x86/x86_ops.c:5529-5532 | so each element is at 16 * segment plus that offset |
| Machine.MovsAll | video/x86/x86_ops.c:5520-5592 | REP MOVS by DF, with the places in numbers: each byte of the destination as in `MovsCopies`, and no other byte changed |
| Machine.MovsCopies | video/x86/x86_ops.c:5520-5592 | bytes or words, either direction, wrapping and overlaps of any kind included: each byte of the destination ends as the byte of the source was unless an earlier store touched that, and else as that byte ends |
| Machine.MovsKeeps | video/x86/x86_ops.c:5520-5592 | no byte outside the destination changes |
| Machine.SafeDirection | video/x86/x86_ops.c:5529-5532 | upwards to lower and downwards to higher addresses the copy is that of the whole at once |
| Machine.X86.Stos | video/x86/x86_ops.c:5748-5819 | REP STOS is CX single stores: AL or AX in every element upwards, or downwards with DF set, DI and CX as for MOVS |
| Machine.StosAll | video/x86/x86_ops.c:5748-5819 | REP STOS by DF, with the places in numbers: AL or AX in every element, and no other byte changed |
| Machine.StosFills | video/x86/x86_ops.c:5748-5819 | REP STOS of bytes or words, either direction, wrapping included: every element of the destination is AL or AX |
| Machine.StosKeeps | video/x86/x86_ops.c:5748-5819 | no other byte changes |
| Machine.X86.Compare | video/x86/x86_ops.c:5598-5706 | REPE stops at the first difference, REPNE at the first match, or at CX 0; SI and DI move up by the number compared, or down with DF set, CX down; ZF and CF tell the last |
| Machine.AgreeIs | video/x86/x86_ops.c:5664-5706 | elements agree when the two numbers at those places do |
| Machine.LastCompared | video/x86/x86_ops.c:5664-5706 | ZF and CF say whether the last two are equal, and whether the first is less |
| Machine.X86.CompareElements | video/x86/x86_ops.c:5598-5706 | CMPS and SCAS up to the end of the instruction |
| Machine.X86.CompareRepeat | video/x86/x86_ops.c:5890-5937 | the loop of the repeated comparisons |
| Fat.GetIsEntry | tools/boot/srmbootfat.c:53-66 | the entry out of 32-bit words is the entry of the bytes, for every table and index |
| Fat.EntryBits | tools/boot/srmbootfat.c:57-63 | it is the 12 bits from bit 12 * entry on, or the 16 from bit 16 * entry on |
| Fat.FatEnds | tools/boot/srmbootfat.c:186 | the first value that is no next cluster is 0xFF7 or 0xFFF7 |
| Fat.CheckChain | tools/boot/srmbootfat.c:184-197 | ends, and accepts exactly the chains that are finite by the program's mark, contiguous and of the length the size asks for; when their last entry is a true end mark |
| Fat.EndsRight | tools/boot/srmbootfat.c:184-194 | a chain that passes is one that ends as a file does if and only if the entry of its last cluster is not the bad mark |
| Fat.FileIsChain | tools/boot/srmbootfat.c:184-194 | every chain that ends as a file does is taken for one |
| Fat.BadAccepted | tools/boot/srmbootfat.c:184-197 | a table that passes with a bad cluster's mark at the end |
| Fat.BootBlockRight | tools/boot/srmbootfat.c:177-182 | sector k of an accepted file is disk sector srm.start + k |

## Left out

- Inflate.Inflater.Inflate: says nothing of a stream that uses a code no symbol has, in a set where some length is zero, because the program then reads entries of `v` or a table it never set (lines 160-164, 206-212 and 285-290 of zip/inflate.c); that takes an accepted set with at most one code (`Blocks.SetLengthsDefined`).
- HuftBuild.MakeEntry: for the same reason says nothing of the entry of a code past the last when some length is zero.
- HuftWalk.TableTheorem: likewise of the entry found there.
- Blocks.DynamicTables: on an incomplete set the program prints a message and halts; here the verdict is returned and no table left.
- Inflate.Inflater.InflateDynamic: on an incomplete set the program prints a message and halts before it frees and returns; here it frees and returns, and `Unzip` halts on the code.
- Gzip.UncompressKernel: says nothing of a file that ends inside its header, data or trailer.
- Machine.X86.PushAll: only without the data prefix, with which the source pushes 32-bit registers; so for PopAll and PushaPopa.
- Machine.X86.Compare: SCAS of 32 bits (the data prefix) is not modelled.
- Machine.X86.Stos: nor is STOS of 32 bits.
- Alu.Flags.Add: PF is stated as the source's table has it, the exclusive or of the bits, not as the 8086's even parity; so for the other operations.
- Fat.EntryBits: a shift of the second word by 32, undefined in C, is taken to give 0, as on the Alpha the function is compiled for.
- `memcpy` is taken to read everything before it writes.
- Running out of memory: the source does not check what `kmalloc` returns.
- `hufts`, the memory statistic, which is only computed.
- CRC: this version does not compute it. The branches of `unzip` for PKZIP files, which nothing selects.
- Machine integers: the 32-bit numbers of the decompressor stay far below 2^32, except the masked window position, which is modelled with its wrap-around; the byte count `bytes_out` is an `unsigned long`, 64 bits on the Alpha, and does not wrap here.
- Bodies of `sys_rd*` and `sys_wr*`, ports, and the emulator's own BIOS handlers: memory is an array, an interrupt whose vector is the emulator's own segment is not modelled.
- Rotations without carry and of 32 bits, shifts, multiplication, division, decimal adjustment, 32-bit PUSHA and POPA, data accesses of 32 bits, pending interrupts, the dispatch of opcodes.
- Directory lookup, checksum and file access of `srmbootfat`, and what its start sector is when the first cluster is below 2.
- `tools/sysgen`, `tools/data`, `tools/arc`, `miloctl`, file systems, consoles, kernel stubs and PALcode: they would add easy members or need the hardware.
