# Verified model of the ostrya cores

This project models the parts of ostrya that carry the most state and arithmetic, and
proves what they promise. `dafny verify dfyconfig.toml` checks all of it.

- **The composefs image writer** (`Tree`, `Xattrs`, `DirPack`, `Inodes`, `Collect`, `Share`,
  `Image`, `Writer`, `Compose`). It walks a tree breadth-first into an inode list, moves repeated
  attributes to a shared table, packs directory entries into blocks, and runs one layout program
  twice: once to note offsets, once to emit bytes that name those offsets.
  `Reader`, `Readback`, `Plain`, `Shown`, `Places`, `NameFilter` and `Whole` define an independent
  reader of the bytes by the on-disk rules of the kernel EROFS documentation, and prove that this
  reader finds in the written bytes exactly the tree that went in.
- **The fs-verity hasher** (`FsVerity`): a base-128 counter of partial Merkle layers, against the
  recursive tree of the kernel fs-verity documentation.
- **The admission gate** (`Gate`, module `Admission`): the steps under the lock, and all runs of
  any number of futures and permits.
- **The key file** (`Escapes`, `KeyFile`): parser, printer, setters, removals, the group index and
  two layers of escapes.
- **The DEFLATE sink and reader** (`Deflate`): resumable loops over any deterministic compressor and
  any pattern of waiting, short writes and failures.
- **Smaller cores**: ref patterns (`RefPattern`), JSON (`Json`), dates (`Civil`), and the varint,
  size-entry, base64 and checksum codecs (`Varint`, `Sizes`, `Base64`, `Checksum`).

`Bytes` and `Order` hold byte fields, alignment, sorting and the byte order of names.

Code that updates fields or arrays in the source is a class or a method with loops here, proved
against a function of the inputs; the laws are lemmas about those functions. SHA-256 and xxHash32 are
parameters (any function), and so are the compressor step, the script of the inner writer and of the
source, and the number of bytes that the image sink takes before it fails. `usize`, `u32` and `u16` values are unbounded
naturals; where the source casts, the model writes the low bytes (`Le`, `%`), and `Shown.Bounded` is
the size bound under which no cast loses anything.

## Model

| member | source | states |
|---|---|---|
| `Whole.WriteTree` | crates/ostrya-composefs/src/writer.rs:1101-1183 | End to end, for every valid root directory: which trees are refused, which panic (an attribute that is too long, an area that is too large), for which sinks the write fails, and that a written image within the field widths shows the tree, from the root node of the superblock on, if and only if no name that ends a directory block has a zero byte. |
| `Whole.LoseName` | crates/ostrya-composefs/src/writer.rs:788-809 | The writer accepts one concrete tree (an empty file whose name is the bytes 255, 0) and writes an image that does not show it. |
| `Shown.ImageShowsTree` | crates/ostrya-composefs/src/writer.rs:1101-1183 | For every accepted plan: the reader, following directory entries, finds every node with its mode, owner, time, link count, attributes and data, `.` and the true parent, one entry for each child, and the root stubs no child replaces, exactly if the names are plain. |
| `Shown.NulFreeTreeIsShown` | crates/ostrya-composefs/src/writer.rs:636-694 | Every accepted tree with no zero byte in a name is shown. |
| `Shown.NoOtherEntry` | crates/ostrya-composefs/src/writer.rs:514-530 | A directory that is shown has no entry beside itself, its parent, its children and the stubs. |
| `Plain.PackedPlain` | crates/ostrya-composefs/src/writer.rs:283-318 | Which names end a block follows from the sorted name lengths alone: the packing of a list is readable exactly if those names have no zero byte. |
| `Places.TreePlacement` | crates/ostrya-composefs/src/writer.rs:382-459 | For every node of every accepted tree: header on a 32-byte slot, directory tail in one block, symlink header, attributes and target in one block, chunk index of a file of up to 2^43 bytes in one block, and of a larger file exactly if it fits beside the overhang. |
| `Places.LargeIndexIsSplit` | crates/ostrya-composefs/src/writer.rs:107-130 | A file of 1025 chunks has an index that no block holds. |
| `Inodes.OneChunk` | crates/ostrya-composefs/src/writer.rs:107-130 | One chunk covers every file of 1 to 2^43 bytes. |
| `NameFilter.FilterIsExact` | crates/ostrya-composefs/src/writer.rs:183-214 | In the image, the inverted filter word rules out a hash bit exactly if no attribute of that inode, local or shared, has the bit; so it hides none. |
| `Compose.MakePlan` | crates/ostrya-composefs/src/writer.rs:1101-1135 | The plan is the tree node by node, its time is the least one. There is a plan exactly if every name and every attribute fits; else the walk stops at the first fault, with a refusal for a name and a panic for an attribute. A symlink or an area that does not fit is told exactly, and the noted layout and size are those of the plan. |
| `Compose.WriteImage` | crates/ostrya-composefs/src/writer.rs:1139-1183 | A written image is the image of the plan with the fs-verity digest of its bytes; the write fails exactly if the sink takes fewer bytes than the image has, and the sink then keeps that many of the first bytes; nothing is written for a tree that is refused or panics. |
| `Compose.SharePlan` | crates/ostrya-composefs/src/writer.rs:1101-1125 | The flag tells of an ACL that was there before the sharing, and the sharing keeps the names and values of every inode. |
| `Compose.CheckSymlinks` | crates/ostrya-composefs/src/writer.rs:816-835 | Accepts exactly the plans in which every symlink leaves a byte of its block free. |
| `Writer.WriteErofs` | crates/ostrya-composefs/src/writer.rs:1034-1084 | On either output the program gives the same image function of plan and references, and the sizing output notes exactly the layout of the plan. |
| `Writer.SizePlan` | crates/ostrya-composefs/src/writer.rs:1117-1134 | The sizing pass returns the place of every inode, shared entry and block run, and the image length. |
| `Writer.EmitPlan` | crates/ostrya-composefs/src/writer.rs:1146-1183 | The length check cannot fail, every layout lookup is in range, sink and hasher both receive the final image. It fails exactly if the sink takes fewer bytes than the image has; the sink keeps those, also part of one write. |
| `Writer.WriteInode` | crates/ostrya-composefs/src/writer.rs:382-459 | Padding, header, attributes and inline data of one inode, with the header noted where it is written. |
| `Writer.WriteXattrs` | crates/ostrya-composefs/src/writer.rs:243-264 | The bytes of an attribute area: filter, count, references and padded local entries. |
| `Writer.WriteDirBlock` | crates/ostrya-composefs/src/writer.rs:488-500 | The heads with their name offsets, then the names. |
| `Image.PassesAgree` | crates/ostrya-composefs/src/writer.rs:1034-1084 | At every inode, shared entry and block run the two passes are at the same offset, whatever the references are. The induction is in the postconditions of `Image.InodesTo`, `Image.XattrsTo` and `Image.BlocksTo`, which the lemma compares. |
| `Readback.InodeReads` | crates/ostrya-composefs/src/writer.rs:382-459 | The node id times 32 is the place of the header; every header field reads back, and the count field recovers the exact attribute area. |
| `Readback.RefIsPlace` | crates/ostrya-composefs/src/writer.rs:865-878 | Block address of the table times 4096 plus 4 times the reference is the place of the entry. |
| `Readback.XattrsRead` | crates/ostrya-composefs/src/writer.rs:243-264 | The attributes of an inode read back: the shared ones its references resolve to, then its own. |
| `Readback.DirReads` | crates/ostrya-composefs/src/writer.rs:478-500 | The blocks at the block address and the inline tail read back as the entry list, exactly if no last name of a block has a zero byte. |
| `Readback.SuperReads` | crates/ostrya-composefs/src/writer.rs:1012-1032 | The superblock reads back with the exact root, counts, time and table block. |
| `Readback.Placement` | crates/ostrya-composefs/src/writer.rs:382-459 | The placement of one inode of any plan, with the exact condition for a chunk index. |
| `Reader.DirBlockReads` | crates/ostrya-composefs/src/writer.rs:488-500 | A written block decodes by its name offsets to the same names, node ids and types exactly if its last name has no zero byte. |
| `Collect.CollectInodes` | crates/ostrya-composefs/src/writer.rs:636-694 | The walk ends on every tree; it fails exactly if some name is refused or some attribute is too long, at the first directory in walk order with such a fault, names before attributes; otherwise each node has one inode, and each directory the packed, sorted entry list of its children with the true parent. |
| `Collect.OneEntry` | crates/ostrya-composefs/src/writer.rs:636-694 | Every inode but the root is named by exactly one entry, in the directory of its parent. |
| `Collect.MergedHolds` | crates/ostrya-composefs/src/writer.rs:514-530 | The merged list is strictly sorted and holds exactly the children and the stubs that no child replaces. |
| `Collect.MergedChildren` | crates/ostrya-composefs/src/writer.rs:514-530 | The loop computes the merged list. |
| `Share.ShareXattrs` | crates/ostrya-composefs/src/writer.rs:707-775 | No attribute is lost or invented; at most 128 references, the lowest repeated keys first; the table holds exactly the keys that occur more than once, in descending order. |
| `Share.SharedByInodes` | crates/ostrya-composefs/src/writer.rs:697-775 | The table holds a key exactly if two or more inodes hold it, if and only if it is not a key that one inode alone holds, twice or more. |
| `Share.TotalOfHolders` | crates/ostrya-composefs/src/writer.rs:707-775 | A key occurs more often than it has holders exactly if some inode holds it twice. |
| `Share.ShareOne` | crates/ostrya-composefs/src/writer.rs:697-775 | One inode with one attribute twice: the attribute goes to the table, though it has one holder. |
| `Compose.SharedIsFiltered` | crates/ostrya-composefs/src/writer.rs:707-775 | After the sharing the filter is still exactly the bits of all attributes of the inode. |
| `DirPack.FromEntries` | crates/ostrya-composefs/src/writer.rs:283-318 | Blocks then tail are the input in order; every block is non-empty, at most 4096 bytes and greedily full; the tail is at most 2048 bytes; size and link count match. |
| `Xattrs.Add` | crates/ostrya-composefs/src/writer.rs:183-214 | The prefix is the greatest index that starts the name, so name and value determine the attribute. |
| `Xattrs.SplitIsUnique` | crates/ostrya-composefs/src/writer.rs:183-214 | An attribute is determined by its full name and its value. |
| `Xattrs.AddAllHolds` | crates/ostrya-composefs/src/writer.rs:625-634 | Adding a list gives a set with exactly those names and values, in order. |
| `Xattrs.IcountRecoversSize` | crates/ostrya-composefs/src/writer.rs:218-241 | The count field recovers the exact size of the area. |
| `FsVerity.FsVerityHasher.Update` | crates/ostrya-composefs/src/fsverity.rs:120-132 | In any chunks, the hasher has received the concatenation, and its layers count the whole blocks. |
| `FsVerity.FsVerityHasher.AddBlock` | crates/ostrya-composefs/src/fsverity.rs:156-183 | One more block advances the counter of layers by one leaf. |
| `FsVerity.FsVerityHasher.RootHash` | crates/ostrya-composefs/src/fsverity.rs:185-202 | The root of the counter is the recursive Merkle root, unless a zero carry is lost. |
| `FsVerity.FsVerityHasher.Finalize` | crates/ostrya-composefs/src/fsverity.rs:134-154 | For all data in any chunks: the digest is the hash of the descriptor of the recursive Merkle root, unless a zero carry is lost. |
| `FsVerity.LayersHoldDigits` | crates/ostrya-composefs/src/fsverity.rs:156-183 | Layer k holds as many hashes as digit k of the block count in base 128. |
| `FsVerity.CarryIsTracked` | crates/ostrya-composefs/src/fsverity.rs:185-202 | The value carried from layer to layer is the carry of the Merkle tree at every layer, if and only if no carry of 32 zero bytes meets an empty layer (or a zero block hashes to zero bytes). |
| `FsVerity.NonzeroHashKeepsCarry` | crates/ostrya-composefs/src/fsverity.rs:185-202 | A hash that never gives 32 zero bytes loses no carry. |
| `FsVerity.ZeroCarryIsLost` | crates/ostrya-composefs/src/fsverity.rs:185-202 | With a hash that gives zero bytes once, 16385 equal leaves make a wrong root. |
| `Admission.RunInv` | crates/ostrya-fetch/src/gate.rs:48-60 | Over every interleaving: free, given and held permits add up to the limit, a free permit means an empty queue, and each queued key is in exactly one place with exactly one future. |
| `Admission.FreshInv` | crates/ostrya-fetch/src/gate.rs:72-81 | A new gate meets the invariant, so every run from it does. |
| `Admission.NoOvertaking` | crates/ostrya-fetch/src/gate.rs:28-60 | Over every run in which a waiter keeps waiting, permits go only to waiters before it, no newcomer takes one, and the permits given up are bounded by the waiters ahead of it. |
| `Admission.GivenUpGoesOn` | crates/ostrya-fetch/src/gate.rs:162-180 | A permit given up, also by a dropped waiter, goes to the first waiter of that moment, and to the free count only if nobody waits. |
| `Admission.GrantWakes` | crates/ostrya-fetch/src/gate.rs:48-60 | A waiter that is given a permit is woken by the waker of its last poll. |
| `Admission.GrantSurvives` | crates/ostrya-fetch/src/gate.rs:121-160 | Over every run, a given permit stays with its waiter until that waiter polls, and the poll then succeeds. |
| `Admission.Gate.FindFirst` | crates/ostrya-fetch/src/gate.rs:48-60 | The least key of the ordered queue. |
| `Admission.Gate.TakeHandOff` | crates/ostrya-fetch/src/gate.rs:48-60 | The hand-off step of the transition system. |
| `Admission.Acquire.Poll` | crates/ostrya-fetch/src/gate.rs:121-160 | The poll step of the transition system. |
| `Admission.Acquire.Drop` | crates/ostrya-fetch/src/gate.rs:162-180 | The abandon step of the transition system. |
| `KeyFiles.ParsePrint` | crates/ostrya-core/src/keyfile.rs:545-558 | Parsing the printed text of every reachable file succeeds and gives it without the carriage returns that end values; so it gives an equal file if and only if no value ends in one. |
| `KeyFiles.CrIsLost` | crates/ostrya-core/src/keyfile.rs:134-138 | The parser makes such values, and printing loses the byte. |
| `KeyFiles.Parse` | crates/ostrya-core/src/keyfile.rs:124-196 | The line loop with its keys map gives the file or the first error with its line, and a file whose index is exact. |
| `KeyFiles.ToText` | crates/ostrya-core/src/keyfile.rs:545-558 | The printed text of the file. |
| `KeyFiles.ParsedIsWellFormed` | crates/ostrya-core/src/keyfile.rs:124-196 | Every parsed file has unique groups, unique keys, and names, keys and values that print on one line. |
| `KeyFiles.StringSurvives` | crates/ostrya-core/src/keyfile.rs:400-402 | For every text, `get_string` undoes `set_string`, directly and after print and parse, and the escaped value passes the check. |
| `KeyFiles.ListSurvives` | crates/ostrya-core/src/keyfile.rs:420-441 | The same for every list of texts. |
| `KeyFiles.LookupAfterPut` | crates/ostrya-core/src/keyfile.rs:365-376 | A set value is found and every other lookup stays. |
| `KeyFiles.LookupAfterDropKey` | crates/ostrya-core/src/keyfile.rs:448-457 | A removed key is gone and every other lookup stays. |
| `KeyFiles.LookupAfterDropGroup` | crates/ostrya-core/src/keyfile.rs:463-474 | A removed group is gone and every lookup in another group stays. |
| `KeyFiles.KeyFile.SetValue` | crates/ostrya-core/src/keyfile.rs:365-376 | Refuses exactly the names, keys and values that the checks refuse, with no change; otherwise puts the entry; the index stays exact and no value gains a carriage return at its end. |
| `KeyFiles.KeyFile.SetStringList` | crates/ostrya-core/src/keyfile.rs:420-441 | Fails only for the name or the key, since the escaped list always passes. |
| `KeyFiles.KeyFile.SetString` | crates/ostrya-core/src/keyfile.rs:400-402 | Fails only for the name or the key, since the escaped text always passes. |
| `KeyFiles.KeyFile.GetString` | crates/ostrya-core/src/keyfile.rs:270-272 | The text of the value, or the error of its first bad escape. |
| `KeyFiles.KeyFile.RemoveKey` | crates/ostrya-core/src/keyfile.rs:448-457 | Removes one entry, keeps the group and the index. |
| `KeyFiles.KeyFile.RemoveGroup` | crates/ostrya-core/src/keyfile.rs:463-474 | Removes the group and shifts the index so that it stays a bijection onto the positions. |
| `KeyFiles.KeyFile.GetStringList` | crates/ostrya-core/src/keyfile.rs:332-337 | The items of the value, or the error of the first bad escape. |
| `Escapes.UnescapeEscape` | crates/ostrya-core/src/keyfile.rs:572-620 | Reading undoes the escapes of every text. |
| `Escapes.EscapedIsValue` | crates/ostrya-core/src/keyfile.rs:526-538 | Every escaped text passes the check of a value. |
| `Escapes.ListRoundTrip` | crates/ostrya-core/src/keyfile.rs:622-647 | Splitting the text of any list, with empty items, separators and backslashes, gives the list. |
| `Escapes.Escape` | crates/ostrya-core/src/keyfile.rs:572-598 | The loop with its `leading` flag computes the escaped text. |
| `Escapes.SplitList` | crates/ostrya-core/src/keyfile.rs:622-647 | The loop computes the items or the first error. |
| `Deflate.DeflateSink.PollDrain` | crates/ostrya-core/src/deflate.rs:105-122 | What the inner writer took and what the buffer holds is always all output in order. |
| `Deflate.DeflateSink.PollWrite` | crates/ostrya-core/src/deflate.rs:193-218 | Takes a prefix of the buffer, keeps the output conserved, and keeps to the calls that encode the chunks, over any waiting. |
| `Deflate.DeflateSink.PollFlush` | crates/ostrya-core/src/deflate.rs:220-239 | When ready, the inner writer has the whole output and the last block has exactly one sync step, also if the flush was interrupted or abandoned before. |
| `Deflate.DeflateSink.PollClose` | crates/ostrya-core/src/deflate.rs:241-251 | When ready, the stream ended and the inner writer has the whole output. |
| `Deflate.CloseReturns` | crates/ostrya-core/src/deflate.rs:241-251 | The close loop returns for every writer if and only if no state that the finish steps reach is silent for ever. |
| `Deflate.MuteNeverCloses` | crates/ostrya-core/src/deflate.rs:241-251 | On a compressor that neither ends nor produces, the close loop never returns. |
| `Deflate.WriteAll` | crates/ostrya-core/src/deflate.rs:193-251 | A caller that writes all chunks and closes makes exactly the calls that encode the chunks. |
| `Deflate.DeflateReader.Fill` | crates/ostrya-core/src/deflate.rs:358-398 | Ends with unread output or at the end of the stream, over any waiting; the calls are those that encode the chunks read so far. |
| `Deflate.DeflateReader.PollRead` | crates/ostrya-core/src/deflate.rs:415-430 | Delivers the output in order, and no bytes only at the end, when all output was delivered. |
| `Deflate.DeflateReader.Consume` | crates/ostrya-core/src/deflate.rs:408-411 | Skips no more than the buffer holds, and the skipped bytes count as delivered in order. |
| `Deflate.SinkIsReader` | crates/ostrya-core/src/deflate.rs:193-430 | A sink that was written the chunks of a reader and closed made the same compressor calls and gave the same bytes. |
| `Deflate.MoreChunks` | crates/ostrya-core/src/deflate.rs:358-398 | A chunk that arrives later does not change the calls made before. |
| `RefPatterns.TableIsMeaning` | crates/ostrya-core/src/refpattern.rs:168-190 | The table recurrence is the meaning: the name is cut into one run for each part, and each part covers its run. |
| `RefPatterns.MatchParts` | crates/ostrya-core/src/refpattern.rs:168-190 | The two-row loop answers the meaning in pattern parts times name parts steps, or none for a short name. |
| `RefPatterns.MatchFlat` | crates/ostrya-core/src/refpattern.rs:196-220 | The flat loop answers the meaning whenever `**` is absent or only last. |
| `RefPatterns.Matches` | crates/ostrya-core/src/refpattern.rs:121-132 | The dispatch answers the meaning for every pattern and name. |
| `RefPatterns.ParseShow` | crates/ostrya-core/src/refpattern.rs:136-163 | A text parses to the parts exactly if it is their text and they are valid. |
| `RefPatterns.SelectorHolds` | crates/ostrya-core/src/refpattern.rs:242-252 | A list parses exactly if each entry does, and the selector holds the patterns of the set of entries. |
| `RefPatterns.OrderHasNoEffect` | crates/ostrya-core/src/refpattern.rs:242-260 | Lists with the same entries, in any order and with repeats, select the same names. |
| `RefPatterns.ParseSelector` | crates/ostrya-core/src/refpattern.rs:242-252 | The loop computes the selector or the first refusal. |
| `RefPatterns.SelectorMatches` | crates/ostrya-core/src/refpattern.rs:257-260 | Selected by some positive pattern, or by none given, and by no negative one. |
| `JsonText.ParseRender` | crates/ostrya-conformance/src/json.rs:168-179 | Reading the rendered text of any value (any nesting, any text, any 64-bit integer, repeated names) gives that value. |
| `JsonText.ParseDocument` | crates/ostrya-conformance/src/json.rs:168-179 | The recursive cursor computes the reading function. |
| `JsonText.RenderDocument` | crates/ostrya-conformance/src/json.rs:77-83 | The appending printer computes the rendered text. |
| `JsonText.Cursor.Value` | crates/ostrya-conformance/src/json.rs:216-231 | One value, with the cursor after it, or the error. |
| `JsonText.CodeIsRead` | crates/ostrya-conformance/src/json.rs:274-284 | A `\u` escape is read exactly if four hexadecimal digits follow, or a plus sign and three; so it keeps the documented rule if and only if no plus sign with three digits follows. |
| `JsonText.PlusIsRead` | crates/ostrya-conformance/src/json.rs:274-284 | The text `u+041` after a backslash reads as the letter A, and its four characters are not all digits. |
| `Civil.FollowsCalendar` | crates/ostrya-conformance/src/lib.rs:125-141 | Every day number gives a valid date, and the next number the next date of the calendar. |
| `Civil.Bijection` | crates/ostrya-conformance/src/lib.rs:125-141 | Day numbers and dates are in bijection. |
| `Civil.StartsAtEpoch` | crates/ostrya-conformance/src/lib.rs:125-141 | Day 0 is 1970-01-01. |
| `Varint.Canonical` | crates/ostrya-core/src/varint.rs:43-61 | The decoder takes a prefix exactly when it is the encoding of a 64-bit value, and gives that value. |
| `Varint.Encode` | crates/ostrya-core/src/varint.rs:11-21 | The loop appends the encoding. |
| `Varint.Decode` | crates/ostrya-core/src/varint.rs:43-61 | The shift loop computes the decoding, with its three errors. |
| `Sizes.UnpackIsPack` | crates/ostrya-core/src/sizes.rs:60-85 | A buffer unpacks to an entry exactly when it is the packing of that entry. |
| `Sizes.UnpackEntry` | crates/ostrya-core/src/sizes.rs:60-85 | The positions advance as the unpacking demands; the first error in field order. |
| `Sizes.PackSizes` | crates/ostrya-core/src/sizes.rs:88-99 | One element for each entry, in checksum order, each of which unpacks to its entry. |
| `Sizes.PackEntry` | crates/ostrya-core/src/sizes.rs:38-45 | Appends the packing of an entry. |
| `Base64.Canonical` | crates/ostrya-core/src/base64.rs:11-100 | A text is the characters of the bytes exactly when it decodes to them with zero unused bits. |
| `Base64.DecodeEncode` | crates/ostrya-core/src/base64.rs:53-88 | The decoder undoes the encoder, with padding or without. |
| `Base64.CleanDecode` | crates/ostrya-core/src/base64.rs:53-88 | The lenient decoder takes other texts only by their padding and their unused bits. |
| `Base64.Encode` | crates/ostrya-core/src/base64.rs:11-36 | The loop computes the encoding. |
| `Base64.Decode` | crates/ostrya-core/src/base64.rs:53-88 | The loop computes the decoding or the error. |
| `Checksums.Base64IsOne` | crates/ostrya-core/src/checksum.rs:248-281 | Each checksum has exactly one accepted spelling in each form: the one that the encoder writes. |
| `Checksums.HexRoundTrip` | crates/ostrya-core/src/checksum.rs:97-120 | A text is read as a checksum exactly if, lowered, it is its hexadecimal text. |
| `Checksums.HexLowerIsOne` | crates/ostrya-core/src/checksum.rs:78-83 | The strict reader takes one spelling of each checksum. |
| `Checksums.OrderIsHexOrder` | crates/ostrya-core/src/checksum.rs:97-120 | Checksums compare as their hexadecimal texts do. |
| `Checksums.ToHex` | crates/ostrya-core/src/checksum.rs:112-120 | The loop computes the lower-case text. |
| `Checksums.FromHex` | crates/ostrya-core/src/checksum.rs:97-109 | The loop computes the reading in either case, with its two errors. |
| `Checksums.FromBase64` | crates/ostrya-core/src/checksum.rs:248-281 | The group loop and the last short group compute the strict reading, with its errors. |

## Findings

Where the code does not keep a law on all its inputs, the law is proved with its exact condition, and
one input outside the condition is given.

- A child name may hold a zero byte (`check_name` does not refuse it). A reader finds the end of the
  last name of a directory block by the first zero byte, so the image shows the tree exactly if no name
  that ends a block has one (`Shown.ImageShowsTree`); `Whole.LoseName` is a tree that fails.
- `root_hash` takes 32 zero bytes for "no carry". The loss shows only where such a carry meets an empty
  layer (`FsVerity.CarryIsTracked`); `FsVerity.ZeroCarryIsLost` is an instance with 16385 leaves. Above
  that layer a wrong value can meet the right one again only by a coincidence of hash values, which an
  arbitrary hash function may have, so the digest is stated one way.
- A parsed value can end in a carriage return, and printing then parsing drops it
  (`KeyFiles.ParsePrint`, `KeyFiles.CrIsLost`). No setter makes such a value and every operation keeps
  their absence.
- `poll_close` has no check for a compressor that makes no progress, unlike the reader. It returns for
  every writer exactly if no state it reaches is silent for ever (`Deflate.CloseReturns`);
  `Deflate.MuteNeverCloses` is a compressor on which it does not return.
- The chunk index of a file above 2^43 bytes lies in one block exactly if it fits beside the end of the
  attributes (`Places.TreePlacement`); `Places.LargeIndexIsSplit` is a size for which none does. The
  source says that it does not support such files.
- The JSON reader promises an error for a `\u` escape without four hexadecimal digits
  (crates/ostrya-conformance/src/json.rs:162-163). The integer parser under it also takes a plus sign in
  place of the first digit. The promise holds exactly if no plus sign with three digits follows
  (`JsonText.CodeIsRead`); `JsonText.PlusIsRead` is a text that is read and not refused.
- The comment on `share_xattrs` (crates/ostrya-composefs/src/writer.rs:697) says that an attribute goes to
  the table if two or more inodes hold it; the code counts occurrences, and the attribute list of a node
  may repeat a pair (crates/ostrya-composefs/src/tree.rs:45). The comment is right of a key exactly if it is
  not held by one inode alone, twice or more (`Share.SharedByInodes`); `Share.ShareOne` is an inode for
  which it is wrong.

## Left out

- FsVerity.FsVerityHasher.Finalize: the digest is stated to be right if no zero carry is lost, and not only if, because an arbitrary hash function can restore the root by coincidence; `FsVerity.CarryIsTracked` is the if-and-only-if, layer by layer.
- FsVerity.FsVerityHasher.RootHash: one way, for the same reason.
- DirPack.FromEntries: takes names of at most 255 bytes, which the check of the names ensures.
- The flush of the image sink after the last write, and the unhashed variant of the writer: one more failure and one call less.
- SHA-256, xxHash32 and the compressor itself: parameters, so that the results hold for every such function.
- Wakers beyond which one is woken, the poisoning of the lock, and the wrap of the 64-bit arrival counter.
- The boolean and integer getters of the key file, the iterators over groups and keys, and all error texts: they would only add easy members.
- UTF-8: texts are sequences of characters; the JSON cursor and the base64 and checksum readers of the source go by bytes.
- The GVariant objects, the SOCKS and TLS code, the rest of the conformance harness and the command line: their framing code or foreign libraries are not part of this model.
- Object types, repository modes, loose paths and the table of ref-name characters: finite tables; the ref patterns take the non-ASCII part of that table as a parameter.
