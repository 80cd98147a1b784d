# DFCI verification

A Dafny model of the logic that DFCI (the Device Firmware Configuration Interface) relies on, with proofs.

- **Compressor.** The LZ77 and Huffman compressor of `EnrollInDfci`, from the sliding window to the bytes in the
  destination, layer by layer: `SuffixTree`, `HashChains`, `StringLog`, `SearchSteps`, `MatchFinder` (the search for
  matches); `SlidingWindow`, `Lz77`, `Compressor` (window, parse and main loop); `Staging`, `Blocks`,
  `BlockEncoder` (staging buffer and blocks); `HuffmanHeap`, `HuffmanTree`, `CodeLengths`, `MakeTree`, `CanonicalCode`
  (trees, length limit, codes) with `Exchange`, `PrefixCodes`, `Optimality`, `TreeDepth`, `CutTree` (whether the codes
  are the best ones); `TableCoding`, `Tables`, `TableWriter` (transmitted tables); `Bits`, `BitWriter` (bits and bytes).
  The repository has no decompressor, so the decoder of section 19.4 of the UEFI Specification 2.10 is written as
  functions (`TableCoding`, `Tokens`, `Stream`, `Decompressor`), and it is proved to undo the compressor (`Extension`,
  `ZeroFill`, `Incompressible`, `EndToEnd`). The searches are part of the run: `Compress` takes a source and nothing
  else, and the matches it finds (`SearchSteps.MatchesOf`) are proved to be real and the longest.
- **Permission store.** What a signed packet may change and what it must leave alone (`Permissions`, `PermissionStore`),
  the groups of settings (`Groups`), and the variable with its older formats (`PermissionImage`, `PermissionFlash`,
  `OlderFormats`).
- **Certificates and mailboxes.** The certificate table and its variable (`Certificates`, `CertStore`), the transaction over
  both stores (`Mailbox`, `Manager`), what an enrollment leaves (`Enrollment`), what the signers of the packets can and
  cannot change over whole runs and any number of boots (`Signers`), and the lowest supported versions over whole runs
  (`Versions`, `SettingsVersions`).

Code that works in place is modelled by classes and methods with loops. Each method is proved against a function on values,
and the properties are proved about those functions for all inputs.

Six properties one might expect hold only under a condition. Each has its condition and a failing case:

- The image of the compressor gives the source back if and only if the sizes of the source and of the compressed data fit the
  32-bit fields of its header, whether the decompressor stops at the end of the data (`EndToEnd.DecodesExactly`) or goes on
  with zero bits (`ZeroFill.FilledExactly`); that is so for sources of up to 1.5 GiB (`EndToEnd.CompressInverts`), not for
  all sources below 4 GiB (`EndToEnd.SomePayloadWraps`) and never from 4 GiB on (`EndToEnd.WrappedSizeLoses`).
- No prefix code takes fewer bits than the code lengths of a block, if no leaf of its tree is deeper than the 16 bits a code
  may have (`Optimality.CodeLensOptimal`), which is so for every table with a total below 4181 (`TreeDepth.SmallIsUncut`);
  a deeper tree is cut, and that can cost bits (`CutTree.CutIsWorse`).
- A signer can change whether an identity may write a setting if and only if it holds a group of the setting, or the setting
  itself where no group decides, and no other group forbids it (`Groups.ChangeableExactly`); that the setting is not delegated
  to it is not enough to keep it out (`Groups.GroupOverrides`).
- The certificate table survives packing and unpacking unless it holds user keys without an owner key
  (`Certificates.CertsRoundTrip`, `Certificates.OrphanIsLost`).
- A mailbox run commits all or nothing unless the new permission store is too big for its variable: then the save is
  refused, its status is not looked at, and the certificates are committed alone (`Mailbox.Atomicity`, `Mailbox.TornRun`).
- Packets that had to wait for the user are committed by the run at the end of the driver phase only if the packet that
  waited was the first one (`Mailbox.Rerun`, `Mailbox.DeferredAtomicity`): a packet that was applied before is not present
  any more, which that run takes for a failure (`Mailbox.WaitLoses`).

A reload restores the certificate slots but only adds to the mask of populated identities, so claims about a restore speak of
the slots. An enrollment edits the permission store without marking it as modified, so claims about a transaction speak of
the variables.

Ids are sequences of non-zero bytes, masks are `bv8`, and sizes, versions and frequencies are unbounded numbers whose 16-bit
and 32-bit truncation is written out where it can happen. The frequencies of a block add up to less than 65536, so their
16-bit counters do not wrap.

## Model

| member | source | states |
|---|---|---|
| `EndToEnd.DecodesExactly` | DfciPkg/Application/EnrollInDfci/Compress.c:1343-1411 | for every source and every genuine matcher, a decompressor after section 19.4 of the UEFI Specification 2.10 that refuses to read past the end of the data turns the image of `Compress` back into exactly the source if and only if the sizes of the source and of the compressed data fit their 32-bit fields |
| `ZeroFill.FilledExactly` | DfciPkg/Application/EnrollInDfci/Compress.c:1343-1411 | the same for the decompressor that goes on with zero bits behind the data, however many, if the matches are the longest ones, as those of `Compress` are |
| `EndToEnd.CompressInverts` | DfciPkg/Application/EnrollInDfci/Compress.c:1343-1411 | the condition a caller can check: every source of up to 1.5 GiB comes back, and the returned size has not wrapped |
| `EndToEnd.WrappedSizeLoses` | DfciPkg/Application/EnrollInDfci/Compress.c:1397-1399 | a source of 4 GiB or more does not come back: its size field has wrapped |
| `EndToEnd.WrappedPayloadLoses` | DfciPkg/Application/EnrollInDfci/Compress.c:1397-1399 | a smaller source whose compressed data takes 4 GiB or more gives an image that does not decompress at all: the size field has wrapped and the data is cut short |
| `EndToEnd.SomePayloadWraps` | DfciPkg/Application/EnrollInDfci/Compress.c:1397-1399 | there are such sources, whatever matches are found: one of 4 GiB less one byte is lost, for both decompressors |
| `EndToEnd.SomeSourceWraps` | DfciPkg/Application/EnrollInDfci/Compress.c:1397-1399 | a source below 4 GiB with compressed data of 4 GiB and more exists |
| `Incompressible.SomeDoNotShrink` | DfciPkg/Application/EnrollInDfci/Compress.c:1257-1329 | whatever matches are found, of every size there is a source whose compressed data is no shorter: different sources of one size have different payloads, and there are fewer shorter strings |
| `ZeroFill.CutFilled` | DfciPkg/Application/EnrollInDfci/Compress.c:1257-1329 | a payload that lacks its last 4 GiB does not decompress to its source, however many zero bits follow |
| `ZeroFill.Follow` | DfciPkg/Application/EnrollInDfci/Compress.c:1103-1249 | up to the cut the decoder reads the tokens of the parse; behind it there are only zero bytes but for 16 MiB, and what was cut off are the tokens for them |
| `ZeroFill.ZeroTail` | DfciPkg/Application/EnrollInDfci/Compress.c:1103-1172 | on zero bits, a decoder gives zero bytes from the end of its current block on |
| `ZeroFill.TokensOfZeros` | DfciPkg/Application/EnrollInDfci/Compress.c:1285-1323 | a tail of zero bytes takes one token for 256 bytes and at most two more |
| `ZeroFill.LeftAtMost` | DfciPkg/Application/EnrollInDfci/Compress.c:1199-1249 | what is left of the stream at any token costs at most 48 bits for each token and one set of tables |
| `Decompressor.DecompressSize` | DfciPkg/Application/EnrollInDfci/Compress.c:1397-1399 | the decompressor appends to what it has and returns exactly as many bytes as the original-size field says |
| `EndToEnd.CutImage` | DfciPkg/Application/EnrollInDfci/Compress.c:1404-1410 | the part of the image that the returned size covers decompresses to the source if and only if the whole image is smaller than 4 GiB and so is the source |
| `EndToEnd.CutImageFilled` | DfciPkg/Application/EnrollInDfci/Compress.c:1404-1410 | so it does for the decompressor that goes on with zero bits |
| `Decompressor.CutPayload` | DfciPkg/Application/EnrollInDfci/Compress.c:1257-1329 | a payload that lacks two bytes or more at its end does not decompress |
| `Extension.NextUses` | DfciPkg/Application/EnrollInDfci/Compress.c:1103-1172 | the next token, with the block header it may need, takes some bits from the front and is read the same whatever follows them |
| `Extension.NextFewer` | DfciPkg/Application/EnrollInDfci/Compress.c:1103-1172 | a token that leaves all the bits appended to a stream can be read without them |
| `Extension.DecodeUses` | DfciPkg/Application/EnrollInDfci/Compress.c:763-781 | a symbol takes exactly its code and is decoded from it whatever follows |
| `Decompressor.DecodeCompressed` | DfciPkg/Application/EnrollInDfci/Compress.c:1343-1411 | the image decompresses to the source whenever both sizes fit their 32-bit fields |
| `Decompressor.DecompressPayload` | DfciPkg/Application/EnrollInDfci/Compress.c:1257-1329 | the bit stream with its padding and null byte decompresses to the source, also for the empty source |
| `Decompressor.DecompressTokens` | DfciPkg/Application/EnrollInDfci/Compress.c:1199-1249 | reading tokens one by one and expanding them stops at the original size with exactly the bytes the tokens stand for |
| `PayloadSize.PayloadBound` | DfciPkg/Application/EnrollInDfci/Compress.c:1103-1172 | the payload takes at most 20 bits per source byte plus one set of tables |
| `PayloadSize.FullCost` | DfciPkg/Application/EnrollInDfci/Compress.c:1199-1232 | the tables of a block that was sent because the buffer was full cost less than four bits per byte |
| `Compressor.Compress` | DfciPkg/Application/EnrollInDfci/Compress.c:1343-1411 | for every source, with the matches that the searches in the sliding window find, which are real and the longest: the destination becomes the image as far as it fits and is otherwise unchanged, the returned size is that of the whole image and does not depend on the destination, and the status is right for that size |
| `EndToEnd.CompressToFit` | DfciPkg/Application/EnrollInDfci/EnrollInDfci.c:436-456 | both statuses and sizes of the two calls for every source: the first call is refused for want of room and the second succeeds with the same size unless the size has wrapped to zero; what both decompressors make of the image; every source of up to 1.5 GiB comes back |
| `Compressor.Encode` | DfciPkg/Application/EnrollInDfci/Compress.c:1257-1329 | the loop ends, everything emitted is the packed bits of the blocks of the parse with the matches that its own searches find, all of them are real ones and the longest in the window, and the original size is counted in 32 bits |
| `Compressor.EncodeToken` | DfciPkg/Application/EnrollInDfci/Compress.c:1285-1323 | one turn outputs exactly the token of the lazy rule and moves behind it, across any slide of the window |
| `Compressor.ChooseToken` | DfciPkg/Application/EnrollInDfci/Compress.c:1285-1309 | the search at the next position decides between literal and pointer, with the character or length and the masked position to output and the number of positions to pass |
| `Compressor.SkipMatch` | DfciPkg/Application/EnrollInDfci/Compress.c:1311-1322 | the positions of a pointer are searched for one by one, and only the match behind it is cut at the end of the source |
| `Compressor.LedParse` | DfciPkg/Application/EnrollInDfci/Compress.c:1285-1323 | the tokens output up to a position are the beginning of the parse |
| `Compressor.MaskedPosition` | DfciPkg/Application/EnrollInDfci/Compress.c:1303-1313 | the masked position is the distance less one even if the window slid between match and output |
| `Compressor.Clamp` | DfciPkg/Application/EnrollInDfci/Compress.c:1281-1283 | the clamp by what the window holds equals the clamp by the end of the source |
| `Compressor.PutSizes` | DfciPkg/Application/EnrollInDfci/Compress.c:151-171 | both size fields are stored as little endian numbers as far as the limit allows |
| `Lz77.ParseExpands` | DfciPkg/Application/EnrollInDfci/Compress.c:1257-1329 | expanding the tokens of the parse reproduces the source byte for byte |
| `Lz77.TokenExpands` | DfciPkg/Application/EnrollInDfci/Compress.c:1292-1320 | the token chosen at a position expands to the source bytes there, also when a copy overlaps itself |
| `Lz77.ExpandedSize` | DfciPkg/Application/EnrollInDfci/Compress.c:1285-1323 | the lengths of the tokens add up to the source size |
| `Lz77.ParseExactly` | DfciPkg/Application/EnrollInDfci/Compress.c:1285-1323 | every token of the run: with `b` bytes before it, it is a pointer if and only if the match there, cut at the end of the source, has three bytes or more and the one a byte further is no longer; the pointer is that match, any other token the byte itself |
| `SlidingWindow.Window.constructor` | DfciPkg/Application/EnrollInDfci/Compress.c:1273-1280 | the first fill puts the source behind an empty half window, and the first position has been searched for |
| `SlidingWindow.Window.Fread` | DfciPkg/Application/EnrollInDfci/Compress.c:585-608 | as many bytes as there are, up to the number asked for, are appended to the window and counted |
| `SlidingWindow.Window.Slide` | DfciPkg/Application/EnrollInDfci/Compress.c:628-639 | after a slide the window still mirrors the source around the same position and holds a longest match ahead, or the source is used up; what is behind the end of the source is what was there 8192 positions before |
| `SlidingWindow.Window.GetNextMatch` | DfciPkg/Application/EnrollInDfci/Compress.c:617-645 | the position advances by one source byte, the window stays a mirror of the source, and `DeleteNode` and `InsertNode` have found, in the window, a real match of the new position than which none is longer |
| `MatchFinder.Finder.Search` | DfciPkg/Application/EnrollInDfci/Compress.c:641-643 | the position that leaves the window leaves the log, the new one joins it, its match is real and the longest, and log and match are functions of what they were and of the text |
| `MatchFinder.Finder.InsertNode` | DfciPkg/Application/EnrollInDfci/Compress.c:364-484 | the position joins the log, its match is the longest in the window, and its offset is that of the match |
| `MatchFinder.Finder.CommonLength` | DfciPkg/Application/EnrollInDfci/Compress.c:443-454 | the comparison in the buffer finds how far two strings agree |
| `MatchFinder.Finder.DeleteNode` | DfciPkg/Application/EnrollInDfci/Compress.c:492-575 | the position that leaves the window leaves the log, and no node refers to it any more |
| `MatchFinder.Finder.Split` | DfciPkg/Application/EnrollInDfci/Compress.c:335-357 | the new node holds what both strings have in common, and no position of the window agrees any further |
| `MatchFinder.Finder.Child` | DfciPkg/Application/EnrollInDfci/Compress.c:285-299 | the walk along the hash chain ends and finds the child of the node for the character if there is one |
| `MatchFinder.Finder.EnterLong` | DfciPkg/Application/EnrollInDfci/Compress.c:379-408 | after a match of four and more the search enters the tree below the next position of that match |
| `MatchFinder.Finder.TellParents` | DfciPkg/Application/EnrollInDfci/Compress.c:533-557 | the news of a position goes up to the first node without a flag, kept as the later of two offsets, and the tree is up to date again |
| `MatchFinder.Finder.Announce` | DfciPkg/Application/EnrollInDfci/Compress.c:400-408 | the nodes above the point of entry are told of the newest position |
| `MatchFinder.Finder.Collapse` | DfciPkg/Application/EnrollInDfci/Compress.c:525-574 | a node with one child tells the nodes above it, and the child, found by the character behind the node, takes its place |
| `SuffixTree.NodeRecent` | DfciPkg/Application/EnrollInDfci/Compress.c:531-557 | if the leaves are in the window so is every inner node: one of its children has told it no more than it has told its own parent |
| `SuffixTree.LearnUpdates` | DfciPkg/Application/EnrollInDfci/Compress.c:533-557 | a node that learns of a position keeps what it owes its parent: two updates at most are pending between them |
| `SuffixTree.FindsWay` | DfciPkg/Application/EnrollInDfci/Compress.c:430-469 | a leaf whose string leads to a node is below that node |
| `SuffixTree.NotBelowFork` | DfciPkg/Application/EnrollInDfci/Compress.c:445-449 | where a string parts from a node no leaf agrees with it any further |
| `StringLog.LastChild` | DfciPkg/Application/EnrollInDfci/Compress.c:560 | the beginning of a node with one child left is still in the window, and the character behind it leads to that child |
| `StringLog.SomeSpare` | DfciPkg/Application/EnrollInDfci/Compress.c:343-344 | whenever a leaf is free there is a free inner node |
| `StringLog.CountedDrop` | DfciPkg/Application/EnrollInDfci/Compress.c:520-523 | the number of children, kept in a byte, is exact again when a child goes, although 256 children wrap it |
| `StringLog.OffsetRecovers` | DfciPkg/Application/EnrollInDfci/Compress.c:436-441 | the offset kept for a position in the window gives the position back at every later one until it leaves |
| `MatchFinder.OffsetOf` | DfciPkg/Application/EnrollInDfci/Compress.c:431-441 | what `mPosition` holds for a position of the window, less the window size if it is not before `mPos`, is the offset of the position in the text |
| `HashChains.NothingBetween` | DfciPkg/Application/EnrollInDfci/Compress.c:285-299 | behind a node of a chain comes every node with a lower rank, so a walk misses none |
| `HashChains.SwapOk` | DfciPkg/Application/EnrollInDfci/Compress.c:346-351 | a node that takes the place of another in a chain leaves all chains whole |
| `Blocks.ReadBlocks` | DfciPkg/Application/EnrollInDfci/Compress.c:1103-1249 | whatever the tokens and however many blocks they fill, the bits of the blocks are read back as exactly these tokens, whatever bits follow, and exactly those are left |
| `Blocks.BlocksGood` | DfciPkg/Application/EnrollInDfci/Compress.c:1199-1249 | the blocks hold the tokens in order, every block size fits 16 bits, and no block is empty unless there are no tokens |
| `Blocks.BlocksExactly` | DfciPkg/Application/EnrollInDfci/Compress.c:1199-1249 | where every block ends: each but the last is the shortest run of whole groups of eight tokens that takes 16360 bytes or more of the buffer, and the last one has no such run before its last token |
| `Blocks.RoomForToken` | DfciPkg/Application/EnrollInDfci/Compress.c:1207-1231 | the staging buffer is never overrun: there is room for every token and its flag |
| `Blocks.EnqueueKeeps` | DfciPkg/Application/EnrollInDfci/Compress.c:1199-1232 | a call neither loses, duplicates nor reorders tokens between the buffer and the sent blocks |
| `Stream.ReadStream` | DfciPkg/Application/EnrollInDfci/Compress.c:1103-1172 | any sequence of non-empty blocks is read back, whatever the tables of earlier blocks were |
| `Stream.ReadBlock` | DfciPkg/Application/EnrollInDfci/Compress.c:1103-1172 | a block is read back with its own tables, also when a table has only one symbol or none |
| `Stream.OpenBlockBits` | DfciPkg/Application/EnrollInDfci/Compress.c:1124-1150 | the decoder opens a block with its size and exactly the three tables of its symbol counts |
| `Stream.BlockTables` | DfciPkg/Application/EnrollInDfci/Compress.c:1124-1150 | the tables made from the symbol counts have a code for every token of the block |
| `BlockEncoder.Encoder.CompressOutput` | DfciPkg/Application/EnrollInDfci/Compress.c:1199-1232 | the token joins the staged tokens, after a new block was sent if and only if a group is full and another might not fit |
| `BlockEncoder.Encoder.SendBlock` | DfciPkg/Application/EnrollInDfci/Compress.c:1103-1172 | the staged tokens are appended to the bit stream as one block, and the buffer and the frequencies start again |
| `BlockEncoder.Encoder.SendHeader` | DfciPkg/Application/EnrollInDfci/Compress.c:1124-1150 | size, Extra and Char&Len tables and Position table are written, and the code arrays are ready for the tokens |
| `BlockEncoder.Encoder.SendTokens` | DfciPkg/Application/EnrollInDfci/Compress.c:1152-1168 | the tokens found in the buffer are written with their codes, in order |
| `BlockEncoder.Encoder.HufEncodeEnd` | DfciPkg/Application/EnrollInDfci/Compress.c:1238-1249 | everything staged is sent, and the emitted bytes are exactly the packed bits |
| `BlockEncoder.Encoder.constructor` | DfciPkg/Application/EnrollInDfci/Compress.c:1178-1190 | the encoder starts with no bits, no blocks and no staged tokens |
| `BlockEncoder.Stage.PutToken` | DfciPkg/Application/EnrollInDfci/Compress.c:1217-1231 | the staged bytes, flags and both frequency arrays stay those of the staged tokens |
| `BlockEncoder.Stage.StartGroup` | DfciPkg/Application/EnrollInDfci/Compress.c:1207-1215 | a group starts with a clear flag byte behind the bytes in use |
| `BlockEncoder.ReadStaged` | DfciPkg/Application/EnrollInDfci/Compress.c:1154-1167 | the reader recovers each staged token from flags and bytes |
| `BlockEncoder.EncodeP` | DfciPkg/Application/EnrollInDfci/Compress.c:927-947 | a position is written as the code of its size and the bits below the leading one |
| `BlockEncoder.MakeTable` | DfciPkg/Application/EnrollInDfci/Compress.c:793-868 | `MakeTree` leaves arrays that write exactly the table of the frequencies |
| `Staging.StagedSnoc` | DfciPkg/Application/EnrollInDfci/Compress.c:1217-1231 | adding a token keeps every earlier token and flag of the buffer |
| `Staging.SetFlag` | DfciPkg/Application/EnrollInDfci/Compress.c:1220-1221 | or-ing the mask sets one flag and no other |
| `Tokens.ReadTokenBits` | DfciPkg/Application/EnrollInDfci/Compress.c:914-947 | a token written with the tables of its block is read back and nothing more is consumed |
| `Tokens.ReadPosBits` | DfciPkg/Application/EnrollInDfci/Compress.c:927-947 | a position is read back from its size code and its low bits |
| `Tables.ReadCTableBits` | DfciPkg/Application/EnrollInDfci/Compress.c:1127-1143 | the Extra and Char&Len tables are read back, also for a block with a single character |
| `Tables.ReadPTTable` | DfciPkg/Application/EnrollInDfci/Compress.c:1129-1135 | a Position or Extra table is read back, as lengths or as its only symbol |
| `Tables.ExtraTable` | DfciPkg/Application/EnrollInDfci/Compress.c:953-1000 | the Extra set has a code for every item the length table is sent as |
| `Tables.TallyTable` | DfciPkg/Application/EnrollInDfci/Compress.c:1217-1231 | the table of symbol counts has a code for every symbol counted, and the counts add up to the number of symbols |
| `TableCoding.ReadCBits` | DfciPkg/Application/EnrollInDfci/Compress.c:1048-1097 | the Char&Len lengths come back from their run-length coded form, read with the field sizes of section 19.4, which the decoder does not share with the encoder |
| `TableCoding.ReadItemTakes` | DfciPkg/Application/EnrollInDfci/Compress.c:1048-1097 | how many bits the decoder takes for an item and what it stands for, as section 19.4 has it: symbol 0 is one zero, symbol 1 takes four bits for 3 to 18 zeros, symbol 2 nine bits for 20 to 531, and every other symbol is the length it stands for |
| `TableCoding.ItemsMeaning` | DfciPkg/Application/EnrollInDfci/Compress.c:1064-1096 | the items, with runs of 1-2, 3-18, 19 and 20 and more zeros, stand for exactly the lengths |
| `TableCoding.ReadPTBits` | DfciPkg/Application/EnrollInDfci/Compress.c:1010-1043 | the lengths come back from their three bit and unary forms and the skip after the third |
| `TableCoding.ReadSymbolBits` | DfciPkg/Application/EnrollInDfci/Compress.c:914-919 | a symbol is read back with its table; the only symbol of a table costs no bits |
| `TableWriter.CountTFreq` | DfciPkg/Application/EnrollInDfci/Compress.c:953-1000 | the frequencies are the counts of exactly the items that are written |
| `TableWriter.WriteCLen` | DfciPkg/Application/EnrollInDfci/Compress.c:1048-1097 | the bits appended are the length of the table and its items in the Extra code; `ReadCBits` reads them back |
| `TableWriter.WritePTLen` | DfciPkg/Application/EnrollInDfci/Compress.c:1010-1043 | the bits appended are those of the trimmed length table with the special skip |
| `TableWriter.TrimmedLength` | DfciPkg/Application/EnrollInDfci/Compress.c:973-976 | the table without its trailing zeros |
| `MakeTree.TreeBuilder.Build` | DfciPkg/Application/EnrollInDfci/Compress.c:793-868 | root, lengths and codes are those of the specification for any number of symbols, the frequencies are kept, and the root has their total |
| `MakeTree.TreeBuilder.MergeTurn` | DfciPkg/Application/EnrollInDfci/Compress.c:839-858 | one turn joins the two rarest nodes and notes the leaves in the code array |
| `MakeTree.LimitLengths` | DfciPkg/Application/EnrollInDfci/Compress.c:708-743 | the counts of the tree's depths are repaired to a complete code of at most 16 bits without any count going below zero |
| `MakeTree.CountLen` | DfciPkg/Application/EnrollInDfci/Compress.c:688-701 | the leaves below a node are counted by depth, 16 standing for all deeper ones |
| `MakeTree.AssignLengths` | DfciPkg/Application/EnrollInDfci/Compress.c:745-753 | the sorted symbols get the lengths, longest first |
| `CodeLengths.CodeLensGood` | DfciPkg/Application/EnrollInDfci/Compress.c:708-754 | for every frequency table with two symbols and more: used symbols get 1 to 16 bits, unused ones none, the Kraft sum is exactly one, and no symbol is longer than a rarer one |
| `Optimality.CodeLensOptimal` | DfciPkg/Application/EnrollInDfci/Compress.c:708-858 | the lengths are optimal: for every frequency table with two symbols and more whose tree has no leaf deeper than 16, no prefix code for the used symbols, of whatever lengths, takes fewer bits in all |
| `TreeDepth.SmallIsUncut` | DfciPkg/Application/EnrollInDfci/Compress.c:688-701 | a frequency table with a total below 4181 has no leaf deeper than 16, so its lengths are optimal |
| `TreeDepth.TallIsHeavy` | DfciPkg/Application/EnrollInDfci/Compress.c:839-858 | a node with a leaf `h` levels below it has at least the weight of the Fibonacci number of `h` |
| `CutTree.CutIsWorse` | DfciPkg/Application/EnrollInDfci/Compress.c:708-743 | the limit can cost bits: eighteen Fibonacci numbers give a tree with a leaf at depth 17, and a prefix code takes two bits fewer than the repaired lengths |
| `Optimality.TreeCheapest` | DfciPkg/Application/EnrollInDfci/Compress.c:839-858 | the paths of the finished tree cost no more than any lengths that satisfy Kraft's inequality |
| `Optimality.LengthsCheap` | DfciPkg/Application/EnrollInDfci/Compress.c:745-753 | handing the lengths out longest first to the rarest symbols costs no more than the paths of the tree |
| `Exchange.TurnPays` | DfciPkg/Application/EnrollInDfci/Compress.c:839-858 | whatever lengths the nodes have, joining the two rarest takes their combined weight off the cost and keeps Kraft's inequality |
| `PrefixCodes.Kraft` | DfciPkg/Application/EnrollInDfci/Compress.c:763-781 | prefix codes of any lengths satisfy Kraft's inequality |
| `CodeLengths.TreeKraft` | DfciPkg/Application/EnrollInDfci/Compress.c:688-735 | cutting the depths of a full binary tree at 16 lets the Kraft sum exceed one by less than the number of leaves counted at 16 |
| `CodeLengths.RepairStepKeeps` | DfciPkg/Application/EnrollInDfci/Compress.c:736-744 | a repair step lowers the surplus by one, keeps the number of codes and never finds a count too small |
| `CodeLengths.RepairTakes` | DfciPkg/Application/EnrollInDfci/Compress.c:736-744 | what a repair step does: a code of length 16 goes, and the longest of the others becomes two that are one bit longer |
| `CodeLengths.GrowRepairable` | DfciPkg/Application/EnrollInDfci/Compress.c:708-735 | every tree that `MakeTree` builds meets the condition of the repair loop |
| `HuffmanTree.GrowGood` | DfciPkg/Application/EnrollInDfci/Compress.c:793-858 | the tree has a leaf for every used symbol, its root has the total frequency, and the leaves were popped in ascending order of frequency |
| `HuffmanTree.MergeGood` | DfciPkg/Application/EnrollInDfci/Compress.c:839-858 | joining the two rarest nodes keeps total, leaves, partition and order |
| `HuffmanHeap.SiftOrders` | DfciPkg/Application/EnrollInDfci/Compress.c:652-681 | sifting down restores the heap order |
| `HuffmanHeap.SiftPermutes` | DfciPkg/Application/EnrollInDfci/Compress.c:652-681 | sifting down keeps the nodes of the heap |
| `HuffmanHeap.DownHeap` | DfciPkg/Application/EnrollInDfci/Compress.c:652-681 | the array is sifted in place |
| `CanonicalCode.DecodeCode` | DfciPkg/Application/EnrollInDfci/Compress.c:763-781 | the canonical decoder reads each code back whatever follows it |
| `CanonicalCode.PrefixFree` | DfciPkg/Application/EnrollInDfci/Compress.c:763-781 | no code is a prefix of another |
| `CanonicalCode.ExactlyOneCode` | DfciPkg/Application/EnrollInDfci/Compress.c:763-781 | every bit string of at least 16 bits starts with exactly one code |
| `CanonicalCode.CodeBound` | DfciPkg/Application/EnrollInDfci/Compress.c:763-781 | every code is below two to its length |
| `CanonicalCode.CodesAscend` | DfciPkg/Application/EnrollInDfci/Compress.c:763-781 | the codes ascend with length and symbol: a symbol with a shorter code, or one as long and a smaller number, has the smaller code, and no two share a beginning |
| `CanonicalCode.MakeCode` | DfciPkg/Application/EnrollInDfci/Compress.c:763-781 | the codes in the array are the canonical ones although they are computed in 16 bits |
| `BitWriter.Writer.PutBits` | DfciPkg/Application/EnrollInDfci/Compress.c:876-907 | emitted bytes and pending bits are the concatenation of all fields, most significant bit first |
| `BitWriter.Writer.Flush` | DfciPkg/Application/EnrollInDfci/Compress.c:1246-1248 | the seven bit flush leaves exactly the packed bits |
| `BitWriter.Sink.PutByte` | DfciPkg/Application/EnrollInDfci/Compress.c:887-893 | every byte is counted and stored only below the limit |
| `BitWriter.PutDword` | DfciPkg/Application/EnrollInDfci/Compress.c:151-171 | four bytes are stored little endian as far as the limit allows |
| `BitWriter.OverlayPatch` | DfciPkg/Application/EnrollInDfci/Compress.c:1389-1399 | rewriting the header afterwards gives the destination the whole image as far as it fits |
| `Bits.UnpackPack` | DfciPkg/Application/EnrollInDfci/Compress.c:876-907 | unpacking packed bits gives the bits back followed only by padding |
| `Bits.LittleEndian` | DfciPkg/Application/EnrollInDfci/Compress.c:151-171 | the least significant byte of a number comes first, and the others are those of the number without it |
| `Permissions.NonInterference` | DfciPkg/Library/DfciSettingPermissionLib/DfciSettingPermissionProvisionXml.c:413-526 | after any accepted packet the entry and the permission of every id that is not delegated to the signer are what they were |
| `Permissions.UndelegatedSurvives` | DfciPkg/Library/DfciSettingPermissionLib/DfciSettingPermissionProvisionXml.c:413-526 | every entry that is not delegated to the signer is unchanged and still present |
| `Permissions.BeforeSweepEvolves` | DfciPkg/Library/DfciSettingPermissionLib/DfciSettingPermissionProvisionXml.c:413-526 | old entries keep their places and ids, only delegated ones change, new ones come behind, and without delegation of the defaults nothing is added and the defaults stay |
| `Permissions.ReplaceExact` | DfciPkg/Library/DfciSettingPermissionLib/DfciSettingPermissionProvisionXml.c:413-526 | a replacing packet leaves of the signer's own entries exactly those it names and all others, in order, then exactly the new ids it names, in order of first mention, if the default is delegated to the signer; every entry has the masks that the packet's entries for its id make of the old one, so what is not named is unchanged; no mark is left and ids are still unique |
| `Permissions.ReplaceMembers` | DfciPkg/Library/DfciSettingPermissionLib/DfciSettingPermissionProvisionXml.c:413-526 | which entries there are after a replacing packet of a user: an old entry stays if and only if the packet names it or the signer is not the highest user it is delegated to; a new id is there if and only if the packet names it, the new default is delegated to the signer and it is no number |
| `Permissions.AppendExact` | DfciPkg/Library/DfciSettingPermissionLib/DfciSettingPermissionProvisionXml.c:413-526 | an appending packet keeps all old entries in order, then come exactly the new ids it names; every entry has the masks that the packet's entries for its id make of the old one |
| `Permissions.HighestUser` | DfciPkg/Library/DfciSettingPermissionLib/PermissionStoreSupport.c:230-255 | the highest user of a delegation mask is one of its users, and none of them is higher |
| `Permissions.OwnsExactly` | DfciPkg/Library/DfciSettingPermissionLib/PermissionStoreSupport.c:230-255 | a user owns exactly the entries of which it is the highest user; who is no user owns none |
| `Permissions.HeadExactly` | DfciPkg/Library/DfciSettingPermissionLib/DfciSettingPermissionProvisionXml.c:340-456 | after an accepted packet the version is the packet's, the LSV the later of the store's and the packet's, and the defaults are the packet's if it gives any and they are delegated to the signer |
| `Permissions.AcceptedExactly` | DfciPkg/Library/DfciSettingPermissionLib/DfciSettingPermissionProvisionXml.c:340-505 | a packet is accepted if and only if its versions are in order and not older than the LSV, it does not append in the first packet version, no part of it is malformed, and no id is too long to be added while the new default is delegated to the signer |
| `Permissions.InputsSettle` | DfciPkg/Library/DfciSettingPermissionLib/DfciSettingPermissionProvisionXml.c:458-505 | what holds for an id after a packet depends on its old entry and the packet's entries for it, one after the other, and on nothing else |
| `Permissions.TakesEffect` | DfciPkg/Library/DfciSettingPermissionLib/DfciSettingPermissionProvisionXml.c:470-505 | an id that is delegated to the signer has afterwards exactly the masks that its one entry in the packet gives, the old delegation or one to the signer where it gives none |
| `Permissions.NumbersDropped` | DfciPkg/Library/DfciSettingPermissionLib/PermissionStoreSupport.c:199-203 | an id that begins with a digit never gets an entry |
| `Permissions.SweepFirst` | DfciPkg/Library/DfciSettingPermissionLib/PermissionStoreSupport.c:257-280 | the sweep keeps the first unmarked entry with an id the first one |
| `PermissionStore.PermStore.ApplyPacket` | DfciPkg/Library/DfciSettingPermissionLib/DfciSettingPermissionProvisionXml.c:340-526 | the store becomes what the packet makes of it, or the packet is refused: when is said by `AcceptedExactly`, and what it becomes by `HeadExactly`, `ReplaceExact` and `AppendExact` |
| `PermissionStore.PermStore.ApplyEntry` | DfciPkg/Library/DfciSettingPermissionLib/DfciSettingPermissionProvisionXml.c:458-505 | one entry updates, adds, is ignored or ends the packet |
| `PermissionStore.PermStore.MarkEntries` | DfciPkg/Library/DfciSettingPermissionLib/PermissionStoreSupport.c:230-255 | exactly the entries whose highest delegated user is the signer get a mark (`OwnsExactly`) |
| `PermissionStore.PermStore.DeleteMarked` | DfciPkg/Library/DfciSettingPermissionLib/PermissionStoreSupport.c:257-280 | exactly the marked entries go, the others keep their order |
| `PermissionStore.PermStore.FindEntry` | DfciPkg/Library/DfciSettingPermissionLib/PermissionStoreSupport.c:287-324 | the first entry with the id is found, and ids of more than 96 characters never are |
| `PermissionStore.PermStore.AddEntry` | DfciPkg/Library/DfciSettingPermissionLib/PermissionStoreSupport.c:177-228 | an entry is appended; a number is dropped without an error and a too long id is refused |
| `PermissionStore.PermStore.AddRequiredEntry` | DfciPkg/Library/DfciSettingPermissionLib/PermissionStoreSupport.c:13-38 | the entry has both masks, added if it was missing |
| `PermissionStore.PermStore.DeleteEntry` | DfciPkg/Library/DfciSettingPermissionLib/PermissionStoreSupport.c:331-372 | the first entry with the id goes |
| `PermissionStore.PermStore.CountEntries` | DfciPkg/Library/DfciSettingPermissionLib/PermissionStoreSupport.c:137-169 | the number of entries and the size of their ids with terminators |
| `PermissionStore.PermStore.QueryPermission` | DfciPkg/Library/DfciSettingPermissionLib/DfciSettingPermission.c:241-276 | the mask of the first entry with the id, or the default |
| `Groups.GroupList.HasWritePermissions` | DfciPkg/Library/DfciSettingPermissionLib/DfciSettingPermission.c:134-180 | the result is the declarative rule: if some group of the setting has an entry all such groups must allow the identity, otherwise the setting's own entry or the default decides |
| `Groups.ChangeableExactly` | DfciPkg/Library/DfciSettingPermissionLib/DfciSettingPermission.c:134-180 | exactly when a signer can change whether an identity may write a setting: if and only if it holds a group of the setting (one whose entry is delegated to it, or one without an entry whose id can be entered while the default is delegated to it), or the setting itself and no group of it has an entry, and no other group with an entry forbids the identity |
| `Groups.ChangeMade` | DfciPkg/Library/DfciSettingPermissionLib/DfciSettingPermission.c:134-180 | the packet that makes the change: it gives all groups the signer holds, or the setting or the default, no one or everyone |
| `Groups.WritesUnchanged` | DfciPkg/Library/DfciSettingPermissionLib/DfciSettingPermission.c:134-180 | no packet changes who may write a setting if neither the setting nor any group it is in is delegated to the signer |
| `Groups.GroupOverrides` | DfciPkg/Library/DfciSettingPermissionLib/DfciSettingPermission.c:134-164 | the groups matter: with the default delegated to the signer, a packet that adds an entry for the only group of a setting decides alone who may write the setting, whatever its own entry says |
| `Groups.GroupList.HasUnenrollPermission` | DfciPkg/Library/DfciSettingPermissionLib/DfciSettingPermission.c:192-239 | one of the three ids may be written |
| `Groups.GroupList.FindGroupIdBySetting` | DfciPkg/Library/DfciSettingPermissionLib/GroupSupport.c:204-245 | the next group of the setting behind the one the key names |
| `Groups.WalkVisitsAll` | DfciPkg/Library/DfciSettingPermissionLib/GroupSupport.c:204-245 | following the cursor visits every group of the setting exactly once, in order, and ends |
| `Groups.GroupList.FindGroup` | DfciPkg/Library/DfciSettingPermissionLib/GroupSupport.c:172-191 | the first group with the id, compared up to 96 characters |
| `Groups.SameExactly` | DfciPkg/Library/DfciSettingPermissionLib/GroupSupport.c:172-191 | group and member names are the same if and only if they are equal, or both have 96 characters and more and the first 96 agree |
| `Groups.GroupList.RegisterSetting` | DfciPkg/Library/DfciSettingPermissionLib/GroupSupport.c:67-136 | the setting joins the groups of the table that list it, and is refused if a group has its name |
| `Groups.RegisteredExactly` | DfciPkg/Library/DfciSettingPermissionLib/GroupSupport.c:67-136 | a registered setting is in exactly the groups that the table puts it into, and each group exists once |
| `PermissionImage.ImageRoundTrip` | DfciPkg/Library/DfciSettingPermissionLib/DfciSettingPermissionProvisioned.c:423-488 | packing and unpacking gives the same entries in order and the same masks, version and LSV |
| `PermissionImage.CutImageRefused` | DfciPkg/Library/DfciSettingPermissionLib/DfciSettingPermissionProvisioned.c:231-276 | an image that lacks its end, by however little, is refused |
| `PermissionImage.ParseRefuses` | DfciPkg/Library/DfciSettingPermissionLib/DfciSettingPermissionProvisioned.c:278-365 | an image of a wrong size, without the signature, of an unknown format or with an LSV above the version is refused |
| `PermissionImage.EntriesSize` | DfciPkg/Library/DfciSettingPermissionLib/DfciSettingPermissionProvisioned.c:448-478 | an image of at most 2048 bytes has an entry count that fits 16 bits |
| `PermissionFlash.SaveThenParse` | DfciPkg/Library/DfciSettingPermissionLib/DfciSettingPermissionProvisioned.c:423-535 | after a save that fits, the variable holds the store, also if only the times would have differed |
| `PermissionFlash.SaveThenLoad` | DfciPkg/Library/DfciSettingPermissionLib/DfciSettingPermissionProvisioned.c:278-415 | what was saved is what is loaded, without a migration and unmodified |
| `PermissionFlash.SaveTwice` | DfciPkg/Library/DfciSettingPermissionLib/DfciSettingPermissionProvisioned.c:496-511 | a store that is saved again, at any time, is not written again; it only stays marked as modified |
| `PermissionFlash.MigratedReloads` | DfciPkg/Library/DfciSettingPermissionLib/DfciSettingPermissionProvisioned.c:90-223 | a store migrated from an older format loads again as what the migration made of it, even if it was too big to be saved |
| `OlderFormats.OldImageLoads` | DfciPkg/Library/DfciSettingPermissionLib/DfciSettingPermissionProvisioned.c:90-223 | an image of format 2, 3 or 4, packed by functions of its own, loads as the store it stands for, now and at every later load: format 2 gives its entries in order, all delegated to the owner like the default, and format 3 without a default delegation gets one to all users; the variable is in the current format afterwards if that has room |
| `OlderFormats.OldImageParses` | DfciPkg/Library/DfciSettingPermissionLib/DfciSettingPermissionProvisioned.c:146-200 | a format 2 image holds its entries in order, the default permission, the version and the LSV, delegated to the owner |
| `OlderFormats.FirstFormatParses` | DfciPkg/Library/DfciSettingPermissionLib/DfciSettingPermissionProvisioned.c:90-137 | a format 1 image can be loaded if and only if it has no entries, and then holds the default permission, the version and the LSV |
| `PermissionFlash.ParseAgree` | DfciPkg/Library/DfciSettingPermissionLib/DfciSettingPermissionProvisioned.c:496-511 | images that differ only in their times load as the same store |
| `PermissionFlash.ParseStorable` | DfciPkg/Library/DfciSettingPermissionLib/DfciSettingPermissionProvisioned.c:231-276 | a loaded store has only entries that could be added, and its LSV is at most its version |
| `PermissionFlash.Flash.SaveToFlash` | DfciPkg/Library/DfciSettingPermissionLib/DfciSettingPermissionProvisioned.c:423-535 | result, variable and modified flag for an unmodified, a too big, an unchanged and a changed store |
| `PermissionFlash.Flash.LoadFromFlash` | DfciPkg/Library/DfciSettingPermissionLib/DfciSettingPermissionProvisioned.c:278-415 | the store of the variable, migrated and saved if it is of an older format, or nothing |
| `PermissionFlash.ReadTable` | DfciPkg/Library/DfciSettingPermissionLib/DfciSettingPermissionProvisioned.c:245-272 | the walk over the table of entries, with the errors of a table that is too short |
| `Certificates.CertsRoundTrip` | DfciPkg/IdentityAndAuthManager/AuthManagerProvisionedData.c:226-286 | packing and unpacking returns all slots and both versions if and only if there is no user key, or an owner key in the image or still marked in memory |
| `Certificates.OrphanIsLost` | DfciPkg/IdentityAndAuthManager/AuthManagerProvisionedData.c:270-286 | a table with a user key and no owner loses the key, and its size is left behind |
| `Certificates.OrphanLoads` | DfciPkg/IdentityAndAuthManager/AuthManagerProvisionedData.c:264-286 | what is left of any table that breaks the rule: no user key, everything else, and no versions if there was a user key |
| `Certificates.LoadRefuses` | DfciPkg/IdentityAndAuthManager/AuthManagerProvisionedData.c:163-220 | an image without the signature, of an unknown format or with another number of slots is refused, and the table keeps its slots |
| `Certificates.CutImageRefused` | DfciPkg/IdentityAndAuthManager/AuthManagerProvisionedData.c:226-262 | an image that lacks its end, by however little, is refused |
| `Certificates.WalkWhole` | DfciPkg/IdentityAndAuthManager/AuthManagerProvisionedData.c:226-262 | unpacking ends exactly at the end of the image, so no byte is left over |
| `Certificates.WalkTable` | DfciPkg/IdentityAndAuthManager/AuthManagerProvisionedData.c:226-262 | unpacking an image with a table of up to seven slots gives these slots and their identities, and ends exactly at the end of the image |
| `Certificates.FirstImageLoads` | DfciPkg/IdentityAndAuthManager/AuthManagerProvisionedData.c:180-286 | an image of the first format gives the slots of the users and the owner, leaves the others alone and clears both versions, if and only if it has no user key, or an owner key, or memory still has one marked |
| `Enrollment.IndexExactly` | DfciPkg/IdentityAndAuthManager/AuthManagerProvisionedData.c:474-521 | the slot of an identity is the one that says so: USER, USER1, USER2, OWNER and ZTD have the first five, in this order, and no other identity has one |
| `CertStore.Store.Save` | DfciPkg/IdentityAndAuthManager/AuthManagerProvisionedData.c:299-347 | the variable becomes the image of the table |
| `CertStore.Store.Load` | DfciPkg/IdentityAndAuthManager/AuthManagerProvisionedData.c:136-294 | status and table for a missing variable and for both formats, with the errors and the rule about user keys |
| `Certificates.LoadWhole` | DfciPkg/IdentityAndAuthManager/AuthManagerProvisionedData.c:226-286 | whatever is loaded, no certificate and its size disagree |
| `CertStore.Store.UnpackSlots` | DfciPkg/IdentityAndAuthManager/AuthManagerProvisionedData.c:226-262 | sizes, certificates and identities of the slots, up to the first that does not fit |
| `CertStore.Store.DropUserKeys` | DfciPkg/IdentityAndAuthManager/AuthManagerProvisionedData.c:274-285 | user keys are dropped together with the versions |
| `Mailbox.Atomicity` | DfciPkg/DfciManager/DfciManager.c:856-931 | a run with a packet that fails or waits leaves both variables as they were; a run in which all succeed commits everything if and only if the permission store, when a permission packet was applied, fits its variable or is already there; every load and save of the run has its own time |
| `Mailbox.Rerun` | DfciPkg/DfciManager/DfciManager.c:109-138 | the run at the end of the driver phase, over packets that had to wait: if the packet that waited was the first one, it is as if nothing had been done before; if one was applied before it, that one is not present any more, so the run fails and both variables are as they were before the first run |
| `Mailbox.DeferredAtomicity` | DfciPkg/DfciManager/DfciManager.c:866-903 | over both runs the variables end as they were before the first, or committed under the same condition as in one run; after a wait the second run succeeds if and only if the packet that waited was the first one and the packets then succeed |
| `Mailbox.WaitLoses` | DfciPkg/IdentityAndAuthManager/AuthManagerProvision.c:555-559 | two user keys of which the second needs an answer from the user: the first is applied, the run waits, and the second run takes the first back although the user approves |
| `Mailbox.CompletedOnce` | DfciPkg/DfciManager/DfciManager.c:933-963 | a run that comes after a completed one, because an unenrolling packet waits, changes neither store and neither variable |
| `Mailbox.NothingWaits` | DfciPkg/IdentityAndAuthManager/AuthManagerProvision.c:595-602 | with a user interface no packet waits |
| `Mailbox.TornRun` | DfciPkg/DfciManager/DfciManager.c:917-931 | a run in which every packet succeeds but only the certificates are committed: the permission image is one byte too big |
| `Mailbox.RestoreSlots` | DfciPkg/IdentityAndAuthManager/AuthManagerProvision.c:732-745 | a restore returns the slots to the last saved table whatever was applied since, unless that table has user keys and no owner |
| `Mailbox.ProcessKeeps` | DfciPkg/DfciManager/DfciManager.c:866-915 | processing changes neither variable, and if it succeeds packets leave something to complete exactly if they are there |
| `Mailbox.PermissionsOutcome` | DfciPkg/Library/DfciSettingPermissionLib/DfciSettingPermissionProvisionXml.c:686-750 | whichever permission packet of the pair commits first, the variable ends with the store in memory if it fits and unchanged otherwise |
| `Mailbox.IdentitiesOutcome` | DfciPkg/IdentityAndAuthManager/AuthManagerProvision.c:714-778 | a commit of either identity packet leaves the image of the table, a restore leaves the variable alone |
| `Mailbox.ApplyStorable` | DfciPkg/Library/DfciSettingPermissionLib/DfciSettingPermissionProvisionXml.c:413-526 | a store that can be saved is turned into one that can be saved |
| `Mailbox.ChangeAdded` | DfciPkg/Library/DfciSettingPermissionLib/DfciSettingPermission.c:288-353 | an enrollment leaves only entries that could be added, and both versions as they were |
| `Enrollment.EnrolledLoads` | DfciPkg/IdentityAndAuthManager/AuthManagerProvision.c:390-439 | over a whole run in which all packets succeed: a later boot loads, in every slot, the certificate of the last packet for its identity and the old one where there was none, and both versions, if and only if the new table has no user key, or an owner key, or one is still marked in memory |
| `Enrollment.EnrollExactly` | DfciPkg/Library/DfciSettingPermissionLib/DfciSettingPermission.c:288-353 | what an enrollment leaves for every id: for an owner the ZTD key without permissions, for a ZTD signer its recovery and unenroll entries permitted to ZTD alone and a recovery entry without permissions, everything else as it was, and the default permission unless a forbidding list resets it |
| `Enrollment.UnsignedRemoved` | DfciPkg/Library/DfciSettingPermissionLib/DfciSettingPermissionProvisionXml.c:59-177 | when the first owner comes the entries of the unsigned list go |
| `Enrollment.RemoveExactly` | DfciPkg/Library/DfciSettingPermissionLib/DfciSettingPermissionProvisionXml.c:59-177 | a list is worked through if and only if all its ids differ and have entries, and then none of them has one |
| `Enrollment.ChangeSucceeds` | DfciPkg/Library/DfciSettingPermissionLib/DfciSettingPermission.c:325-352 | an enrollment succeeds if and only if the signer is ZTD, or it does not bring the first owner, or there is no unsigned list, or the list can be read to its end and names entries that are there, each once |
| `Signers.RunLeaves` | DfciPkg/Library/DfciSettingPermissionLib/DfciSettingPermissionProvisionXml.c:798-848 | one run, whatever its outcome: what holds for an id that is not delegated to the signer of either permission packet is the same in the variable afterwards, as is the answer to a query if nothing is enrolled; enrollments must not be about the id |
| `Signers.UndelegatedForever` | DfciPkg/Library/DfciSettingPermissionLib/DfciSettingPermissionProvisionXml.c:798-848 | the same over any number of boots, each with the packets of its own signers, waiting runs included: as long as no packet is signed by who may change an id, the variable holds the same entry for it, delegated to the same signers |
| `Signers.FirstTakesEffect` | DfciPkg/Library/DfciSettingPermissionLib/DfciSettingPermissionProvisionXml.c:798-848 | over a run that succeeds and writes the store, an id that the first permission packet names once has exactly that packet's masks if it is delegated to the packet's own signer and what it makes of it is not delegated to the second's |
| `Signers.SecondTakesEffect` | DfciPkg/Library/DfciSettingPermissionLib/DfciSettingPermissionProvisionXml.c:798-848 | the same for the second permission packet, if the first one's signer has no say about the id |
| `Signers.RunStores` | DfciPkg/DfciManager/DfciManager.c:866-915 | the store that a run writes is made by its packets in order, each for its own signer |
| `Signers.SucceedsExactly` | DfciPkg/DfciManager/DfciManager.c:866-915 | a run succeeds if and only if every packet does, on the stores that those before it have made: it decodes, is still present and authentic, and an identity packet is approved if the user has to be asked, has a slot and is taken by the permission store, while a permission packet is accepted |
| `Signers.IdentityVerdict` | DfciPkg/IdentityAndAuthManager/AuthManagerProvision.c:555-700 | an identity packet waits if and only if it could be applied but for the user, who cannot be asked |
| `Manager.DfciManager.ProcessMailBoxes` | DfciPkg/DfciManager/DfciManager.c:856-931 | the run is processing in order up to the first packet that does not succeed and, unless that one waits, completion of permissions before identities; what is not present any more stays so |
| `Manager.DfciManager.EndOfDxe` | DfciPkg/DfciManager/DfciManager.c:109-138 | with a user interface the packets are processed once more, without one nothing is done |
| `Manager.DfciManager.ProcessPackets` | DfciPkg/DfciManager/DfciManager.c:866-915 | the four packets in order, up to the first that does not succeed |
| `Manager.DfciManager.CompletePackets` | DfciPkg/DfciManager/DfciManager.c:917-931 | what is to complete is completed, both permission packets before both identity packets |
| `Manager.DfciManager.ProcessIdentityPacket` | DfciPkg/IdentityAndAuthManager/AuthManagerProvision.c:555-700 | a packet that is still present: the slot of the identity (`IndexExactly`) takes the certificate and the permission store is told, or the packet fails or waits and nothing changes; one that is not present any more fails |
| `Manager.DfciManager.ProcessPermissionsPacket` | DfciPkg/Library/DfciSettingPermissionLib/DfciSettingPermissionProvisionXml.c:798-848 | a packet that is still present is applied for its own signer (`RunStores`) and the store marked as modified, or the store is reloaded; one that is not present any more fails |
| `Manager.DfciManager.CompletePermissionsPacket` | DfciPkg/Library/DfciSettingPermissionLib/DfciSettingPermissionProvisionXml.c:686-750 | commit with fall back to the variable, or restore, only if there is something to complete |
| `Manager.DfciManager.CompleteIdentityPacket` | DfciPkg/IdentityAndAuthManager/AuthManagerProvision.c:714-778 | commit or restore of the table, only if there is something to complete |
| `Manager.DfciManager.ChangeIdentity` | DfciPkg/Library/DfciSettingPermissionLib/DfciSettingPermission.c:288-353 | the required entries and the removal of the unsigned ones for an enrollment |
| `Manager.DfciManager.RemoveUnsignedEntries` | DfciPkg/Library/DfciSettingPermissionLib/DfciSettingPermissionProvisionXml.c:60-177 | the entries of the unsigned list go, up to the first that is missing, and a list that forbids resets the default mask |
| `Versions.AcceptedIsRecent` | DfciPkg/Library/DfciSettingPermissionLib/DfciSettingPermissionProvisionXml.c:340-375 | over every run, with any times and the two kinds of packets and completions in any order, an accepted packet has at least the LSV of every packet committed before it and every LSV persisted before it |
| `Versions.RecentIsAccepted` | DfciPkg/Library/DfciSettingPermissionLib/DfciSettingPermissionProvisionXml.c:340-375 | over every run, a packet with nothing wrong in itself is accepted if its version is at least the LSV the store had at first and the LSV of every packet accepted since |
| `Versions.StepLsv` | DfciPkg/Library/DfciSettingPermissionLib/DfciSettingPermissionProvisionXml.c:425-426 | the LSV in memory stays, is read from the variable or is that of the packet just accepted; the persisted one stays or becomes the one in memory |
| `Versions.PersistedLsvGrows` | DfciPkg/Library/DfciSettingPermissionLib/DfciSettingPermissionProvisionXml.c:425-426 | over every run of packets, enrollments, commits and restores the persisted LSV never decreases |
| `Versions.StepValid` | DfciPkg/Library/DfciSettingPermissionLib/DfciSettingPermissionProvisioned.c:335-345 | every event keeps the LSV at most the version, and the LSV in memory at least the persisted one |
| `SettingsVersions.AcceptedIsRecent` | DfciPkg/SettingsManager/SettingsManagerTransportXml.c:166-212 | over every run, with any times, an accepted settings packet has at least the LSV of every packet accepted before it |
| `SettingsVersions.RecentIsAccepted` | DfciPkg/SettingsManager/SettingsManagerTransportXml.c:166-212 | over every run, an authentic and complete settings packet whose LSV is at most its version is accepted if its version is at least the first LSV and that of every packet accepted before it |
| `SettingsVersions.PersistedLsvGrows` | DfciPkg/SettingsManager/SettingsManagerProvisionedData.c:221-279 | over every run of settings packets the persisted LSV never decreases |
| `SettingsVersions.ReceiveKeeps` | DfciPkg/SettingsManager/SettingsManagerTransportXml.c:369-375 | a packet keeps the LSV at most the version; one that is not accepted changes nothing, and one that is makes the LSV the later of both |
| `SettingsVersions.InternalRoundTrip` | DfciPkg/SettingsManager/SettingsManagerProvisionedData.c:174-271 | version and LSV come back from the variable |
| `SettingsVersions.InternalFields` | DfciPkg/SettingsManager/SettingsManagerProvisionedData.c:221-279 | where the fields of the image are |
| `SettingsVersions.OnlyAccepted` | DfciPkg/SettingsManager/SettingsManagerTransportXml.c:488-557 | only an authentic packet whose settings can all be worked through and whose versions are in order changes the variable |
| `SettingsVersions.ReceiveTwice` | DfciPkg/SettingsManager/SettingsManagerProvisionedData.c:221-279 | a packet that arrives again is accepted again and writes nothing |
| `SettingsVersions.FirstAccepted` | DfciPkg/SettingsManager/SettingsManagerProvisionedData.c:37-60 | without a variable a packet is accepted if and only if it is authentic and complete and its versions are in order |
| `SettingsVersions.SettingsManager.ApplyPacket` | DfciPkg/SettingsManager/SettingsManagerTransportXml.c:488-557 | the packet is accepted or refused by its versions, and only then saved |
| `SettingsVersions.SettingsManager.Start` | DfciPkg/SettingsManager/SettingsManagerProvisionedData.c:37-219 | the data of the variable, or the initial data if it cannot be loaded |
| `SettingsVersions.SettingsManager.Save` | DfciPkg/SettingsManager/SettingsManagerProvisionedData.c:221-279 | the variable is written exactly if the data was modified |

## Left out

- The three uses of `mNext` (chains, superseded leaves, free nodes) are three fields of `MatchFinder.Finder`.
- ZeroFill.FilledExactly: is stated for the longest matches, which those of `Compress` are; a pointer that reaches back before the first byte and a symbol that is no token are errors to both decompressors.
- The CRC: `FreadCrc` updates it, and it is never output.
- Allocation failure in the compressor, and with it the smaller staging buffers that `AllocateMemory` tries.
- `mHuffmanDepth` is a parameter of `MakeTree.CountLen` instead of a global counter.
- XML parsing and printing, the result documents and the per-entry status codes: a packet is modelled as parsed, with its malformed parts marked as such.
- Signatures, certificates, authentication tokens, user prompts: a packet carries the signer it was authenticated for, or is refused.
- Images too short for their header: the source reads behind their end, the model refuses them; a string without its null byte ends with the image.
- PermissionFlash.Flash.LoadFromFlash: reads images of format 1 with the `DfciV1TranslateEnum` of this repository, which translates no id; a platform's own translation is not part of this model.
- Optimality.CodeLensOptimal: goes one way; the lengths of a tree that the limit cuts can still be optimal when frequencies are equal to sums of others, and for such trees only `CodeLengths.CodeLensGood` and `CodeLengths.RepairTakes` say what the lengths are.
- Enrollment.EnrolledLoads: is stated for certificates of less than 64 KiB, whose size fits its field.
- Signers.UndelegatedForever: a boot begins with what both variables hold; the initialization after a variable that cannot be loaded is not part of this model.
- Failing variable writes, except the refusal of an image that is too big; failing clocks.
- Mailbox.Atomicity: is stated for a permission variable that can be loaded and is of the current format, and for certificate writes that succeed.
- Manager.DfciManager.ProcessMailBoxes: ends before the settings packets, unenrolling, `ClearDFCI` and resets; whether a packet is authentic and what the user answers are parameters of each run.
- `InitPermStore` and the parsing of the unsigned permission list: what the list says is a parameter.
- The settings themselves, their providers and the result variables: only versions and LSVs of settings packets are modelled.
- The tables `mCrcTable`, debug output, memory release, event and protocol registration.
