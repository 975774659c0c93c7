# A model of the HFS+ and DMG library

This project models the parts of the library that change data structures step by step, and proves
what they promise about them.

* **The on-disk B-tree** (`hfs/btree.c`). `BTree.dfy` holds a class with the tree file's header fields,
  node bitmap and nodes, whose methods search, insert with splits and root growth, remove with index-key
  repair, and allocate and free nodes. `Valid()` is what `debugBTree` looks for: sorted keys,
  index key equal to the first key of its child, equal heights, both links of every level, exact counts,
  and as allocated nodes exactly the header and the nodes of the tree. The bindings are an abstract map.
  `BTreeModel`, `BTreeInsert`, `BTreeRemove`, `BTreeMap` and `BTreeScan` hold the proofs. `NodeLayout.dfy`
  is the layer below: one node as bytes, with records growing up and 16-bit offsets growing down, seen as
  a sequence of records of any lengths. `NodePages.dfy` joins the two: the class keeps the bytes of every node,
  `Valid()` says that they hold it, and each change of a node is made on its bytes by the layer below, for
  keys of one size in any format that keeps their order, such as that of the extents file (`ExtentPages.dfy`).
* **The parallel DMG writer and its readers** (`dmg/io.c`, `dmg/dmgfile.c`). Any number of worker threads
  read, compress and queue blocks; each critical section is one step and the scheduler is arbitrary. Every
  run ends, and ends with what one worker would have written. `extractBLKX` undoes the writer, and the one-run
  cache shows what it made wherever the packed blocks fit their sectors.
* **Attribution** (`dmg/attribution.c`). The CRC-32 of RFC 1952, section 8, is defined bit by bit and its
  combination law is proved, so that editing the raw window and combining three checksums gives the
  checksums of the edited image and the edited data fork. `AttributedDmg.dfy` puts the whole run together: build
  with a sentinel, observe, make the resource, attribute.
* **The extent allocator and fork input and output** (`hfs/rawfile.c`), with its bitmap, its rotating
  cursor (`Cursor.dfy` says which blocks it takes), and the extent records. `ForkRuns.dfy` runs any sequence
  of calls on any number of forks against strings of bytes that share a count of free blocks.
* **The catalog** (`hfs/catalog.c`) over an abstract sorted map, the **compressed-file cache**
  (`hfs/hfscompress.c`), **streaming checksums** (`dmg/checksum.c`), **base64** (`common/base64.c`) and the
  **key comparators** (`hfs/catalog.c`, `hfs/xattr.c`, `hfs/fastunicodecompare.c`, `hfs/extents.c`), whose orders
  are those of the integers that the tree model keys by.

Objects that the C code updates are classes here, its loops are loops, and each method is proved against a
function or predicate whose properties are lemmas. A member with a `ghost` argument takes only what its
proof needs. A failed `ASSERT`, which ends the process, is a `None`, a `false` or an outcome of its own.
`dafny verify dfyconfig.toml` checks everything.

Where the code does not meet what it is for, the model keeps the code and a lemma or contract says exactly
when it does:

* `newFile` and `newFolder` with a name that is taken, and `move` to a taken name, within one folder, or of
  a folder into itself or below itself, leave an inconsistent catalog; in all other cases it stays sound.
* `move` leaves the folder counts of both parents as they were, so they are exact afterwards just when a file moved.
* More than eight extents are read back exactly when every overflow group starts at a device block that has
  the number of the file block it holds.
* The one-run cache reads a compressed run into a buffer of the run's sectors, so it shows what the writer made
  exactly when every block not stored raw packs to no more than its sectors; blocks of 15 sectors and more always do.
* `convertBase64` writes past its buffer exactly when there is data and the tabs fill one of the buffer's sizes.
* `SHA1Update` loses count for some chunks of 2^29 bytes and more, and says which.
* `getFolderContents` steps over its start key without checking that it is there: without the folder's thread it
  misses the first child, unless there is none or the step falls off the leaf.
* Closing a compressed file writes past the block of its attribute exactly when the contents go inline and pack to
  more bytes than the attribute held at opening; a file without an attribute always has room, and one whose
  attribute has no data, as closing into the resource fork leaves it, never has. Nor is the file cut:
  `writeToHFSFile` leaves the end of longer old contents behind the input.
* Removal of an absent key goes astray exactly when the search ends behind the last record of a leaf.

A small run that fails stands beside each condition (`BTreeExamples.dfy`, `CatalogExamples.dfy`, `SectorBursts`,
`NinthIsLost`, `HundredTabs`, `HalfGigabyte`, `OutgrownAttribute`); the constructors show that the invariants can be met.

## Model

| member | source | states |
|---|---|---|
| BTreeModel.Geometry.SplitTestIsFull | hfs/btree.c:1171-1173 | with fixed-size records the free-space test of insertion asks for a split exactly when the node holds as many records as fit |
| BTreeModel.ChainGains | hfs/btree.c:960-980 | splitting a node puts the new number behind it in the doubly linked chain of its level and leaves the other levels' chains |
| BTreeModel.ChainLoses | hfs/btree.c:888-910 | unlinking a node takes exactly its number out of the doubly linked chain |
| BTreeInsert.LeafTwo | hfs/btree.c:1171-1181 | a full leaf becomes two that hold its bindings and the new one, in order, with chain, bitmap and frame as they must be |
| BTreeInsert.IndexTwo | hfs/btree.c:1231-1247 | a full index node becomes two that hold all child records, each keyed by its child's first key |
| BTreeInsert.IndexBack | hfs/btree.c:1188-1230 | after the child was inserted into, this node's contents gained the binding, and its records miss at most the new child's |
| BTreeInsert.RootUp | hfs/btree.c:1259-1320 | a new root over the old root and its split-off node holds both trees one level higher |
| BTreeInsert.SearchPicks | hfs/btree.c:1149-1169 | the search loop of an index node picks the child whose key range the key belongs to |
| BTreeRemove.LeafGone | hfs/btree.c:1414-1433 | a leaf that loses its only record is freed and leaves every chain |
| BTreeRemove.IndexGone | hfs/btree.c:1467-1507 | an index node that loses its last child is freed in turn |
| BTreeRemove.NotThere | hfs/btree.c:1439-1447 | where removal gives up, the key is not in the subtree |
| BTreeMap.MapOfInsert | hfs/btree.c:1322-1372 | a binding put into its gap in the sorted sequence is an update of the map |
| BTreeMap.MapOfRemove | hfs/btree.c:1542-1556 | a binding taken out of the sorted sequence is a removal from the map |
| BTreeInsert.ChildBack | hfs/btree.c:1188-1230 | going down leaves a node whose records miss at most the one of a child that was split off |
| BTreeFile.BTree.GetFreeSpace | hfs/btree.c:142-163 | the gap read from the node's bytes is the one its number of records leaves |
| BTreeFile.BTree.SetKey | hfs/btree.c:1203-1219 | one index key changes, in the node and in its bytes |
| BTreeFile.BTree.TakeRecord | hfs/btree.c:1414-1423 | one record goes, from the node and from its bytes |
| BTreeFile.BTree.UnlinkNode | hfs/btree.c:888-910 | the neighbours are linked to each other, in the nodes and in their bytes |
| BTreeFile.BTree.LowerKey | hfs/btree.c:1188-1219 | only a key below all others changes the node, whose first key it becomes |
| BTreeFile.BTree.FindFree | hfs/btree.c:676-722 | takes the first clear bit of the header's map, and keeps freeNodes equal to the clear bits |
| BTreeFile.BTree.GetNewNode | hfs/btree.c:839-845 | hands out a node that was free and marks it used |
| BTreeFile.BTree.SplitNode | hfs/btree.c:916-996 | the second half of the records moves to a new node linked behind, and so do their bytes; the last-leaf field follows |
| BTreeFile.BTree.DoAddRecord | hfs/btree.c:1043-1121 | the record goes before the first one that is not smaller, unless that has the same key, in the node and in its bytes; leafRecords counts it at height 1 |
| BTreeFile.BTree.SplitAndAdd | hfs/btree.c:1172-1181 | a full node is split and the record lands in the half that keeps both sorted |
| BTreeFile.BTree.AddToLeaf | hfs/btree.c:1171-1187 | the leaf, or the two it became, holds the old bindings and the new one |
| BTreeFile.BTree.AddRecord | hfs/btree.c:1123-1257 | the subtree gains an absent key's binding and stays well formed; a present key changes nothing |
| BTreeFile.BTree.AddBelow | hfs/btree.c:1188-1226 | a new minimum rewrites the first index key on the way down, and the child gains the binding |
| BTreeFile.BTree.AddToIndex | hfs/btree.c:1188-1256 | a child that split is entered in this node, which splits if it is full |
| BTreeFile.BTree.AddChild | hfs/btree.c:1231-1255 | the new child's record goes behind its sibling's, and index keys stay the first keys of the children |
| BTreeFile.BTree.IncreaseHeight | hfs/btree.c:1259-1320 | the new root points at the old one and at the node split off it |
| BTreeFile.BTree.AddToBTree | hfs/btree.c:1322-1372 | insertion keeps the whole file valid, down to the bytes of every node; the map gains exactly an absent key's binding and a present key changes nothing |
| BTreeFile.BTree.AddFirstLeaf | hfs/btree.c:1337-1369 | the first insertion into an empty tree makes one leaf |
| BTreeFile.BTree.AddBelowRoot | hfs/btree.c:1329-1336 | insertion into a tree that is not empty, with a root split growing the tree |
| BTreeFile.BTree.RemoveNode | hfs/btree.c:847-914 | the bit is cleared, freeNodes counts it, the neighbours are linked, and root, first and last leaf stop naming the node |
| BTreeFile.BTree.RemoveFromLeaf | hfs/btree.c:1409-1433 | the leaf loses exactly the record found, or is freed |
| BTreeFile.BTree.RemoveRecord | hfs/btree.c:1374-1540 | the subtree loses exactly the key, index keys are repaired on the way up, emptied nodes are freed; what an absent key does |
| BTreeFile.BTree.RemoveBelow | hfs/btree.c:1457-1507 | a child that is gone loses its record here; a first key that changed is repaired here |
| BTreeFile.BTree.RemoveFromBTree | hfs/btree.c:1542-1556 | removal keeps the whole file valid, down to the bytes of every node, and the map loses exactly a present key; an absent key goes astray exactly past the last record of a leaf |
| BTreeExamples.StrayRemoval | hfs/btree.c:1409-1433 | with one record in the tree, removal of a larger key goes astray |
| BTreeFile.BTree.SearchNode | hfs/btree.c:177-261 | reports the landing leaf, the insertion position, and exact if and only if the key is there |
| BTreeFile.BTree.Search | hfs/btree.c:263-265 | exact if and only if the key is in the map, with its data; panics if and only if the key is below all keys |
| BTreeFile.BTree.GetAllExtendedAttributes | hfs/xattr.c:299-369 | lists exactly the bindings whose key has this file, each once and in key order; panics exactly when no record is at or before the file's first key |
| BTreeFile.BTree.GetFolderContents | hfs/catalog.c:346-433 | with the folder's thread in the tree, lists exactly the other bindings whose key has this parent, each once and in key order; without it, exactly when it still does |
| BTreeFile.BTree.Start | hfs/btree.c:233-260 | the search for an owner's first key leads into the chain of leaves at the owner's first binding |
| BTreeExamples.LostChild | hfs/catalog.c:367-433 | a folder with one child and no thread is listed without the child |
| BTreeScan.ReportsBindings | hfs/btree.c:177-265 | what the search reports at a leaf, said of all the bindings |
| BTreeScan.LeavesAreContents | hfs/btree.c:267-527 | the records along the leaf chain are the tree's bindings in key order |
| BTreeScan.ScanLeaves | hfs/catalog.c:384-433 | from a record of a leaf along the forward links, the list is the stretch of the bindings from there up to the first key of another owner |
| BTreeScan.SearchPosition | hfs/btree.c:233-260 | the leaf and record number of a search are a position in the chain of leaves and in the bindings |
| BTreeScan.OwnedTogether | hfs/catalog.c:367-433 | in key order an owner's bindings lie together, the thread first |
| BTreeScan.ListedIsOwned | hfs/xattr.c:333-352 | testing the owner of each key is testing whether its rank lies between two ranks |
| BTreeScan.ScansList | hfs/catalog.c:367-433 | the scan from the search position lists the owner's bindings, and from the record behind it all but the thread; without a thread it loses the first, unless there is none or the step falls off the leaf |
| NodeLayout.NodeBytes.GetRecordOffset | hfs/btree.c:125-140 | the decoded 16-bit word is where the record starts |
| NodeLayout.NodeBytes.GetFreeSpace | hfs/btree.c:142-163 | the result is exactly the gap between the records and the offset table |
| NodeLayout.NodeBytes.MoveRecordsDown | hfs/btree.c:998-1041 | the bytes of the later records move by the length and their offsets by the length and by one entry up, down or none |
| NodeLayout.MovedBytes | hfs/btree.c:1009-1035 | the reads, the shifted offsets and the two writes, on the node's bytes |
| NodeLayout.ShiftTable | hfs/btree.c:1021-1025 | decoding, moving and encoding each word of a stretch of the table shifts the offsets it holds |
| NodeLayout.NodeBytes.FindPlace | hfs/btree.c:1062-1082 | the loop stops at the first record whose key is not lower, and tells whether it is equal |
| NodeLayout.NodeBytes.AddRecord | hfs/btree.c:1043-1121 | on bytes, insertion of a record of any length is insertion into the sequence of records at the key's place; an equal key changes no byte |
| NodeLayout.NodeBytes.RemoveRecord | hfs/btree.c:1414-1423 | on bytes, removal is deletion from the sequence of records, the last record without a write |
| NodeLayout.NodeBytes.ReplaceKey | hfs/btree.c:1203-1219 | resizing an index key in place changes that one record's key and keeps its pointer |
| NodeLayout.NodeBytes.SplitNode | hfs/btree.c:936-986 | the old node holds the first half of the records without a byte changed, the new one the rest with offsets of its own |
| NodeLayout.Inserted | hfs/btree.c:1085-1096 | moving the later records down, then writing record and offset, lays out the sequence with the record inserted |
| NodeLayout.Appended | hfs/btree.c:1098-1107 | writing record and free offset at the end lays out the sequence with the record appended |
| NodeLayout.Removed | hfs/btree.c:1414-1418 | moving the later records up over the record lays out the sequence without it |
| NodeLayout.Resized | hfs/btree.c:1206-1219 | moving the later records by the difference and writing the record lays out the updated sequence |
| NodeLayout.SplitLeft | hfs/btree.c:982-986 | the offset of the first record that went is the free offset of those that stay |
| NodeLayout.SplitRight | hfs/btree.c:938-984 | the moved bytes with offsets counted from byte 14 lay out the second half |
| NodeLayout.OffsetWord | hfs/btree.c:125-140 | every entry of the table decodes to the start of its record |
| NodeLayout.RecordsUnique | hfs/btree.c:125-140 | the bytes and the record count determine the records |
| NodeLayout.OffsetsRise | hfs/btree.c:125-163 | offsets of records that are not empty rise strictly and end before the table |
| NodeLayout.WordsRise | hfs/btree.c:125-140 | the two bytes of a smaller number come lexicographically first |
| NodePages.PageAdd | hfs/btree.c:1043-1121 | on the bytes of a node that holds these records and is not full, insertion gives the bytes of the node with the record at its number's place, or no change for a number that is there |
| NodePages.PageRemove | hfs/btree.c:1414-1423 | removal gives the bytes of the node without the record |
| NodePages.PageSetKey | hfs/btree.c:1203-1219 | rewriting an index key gives the bytes of the node with that key and the same child |
| NodePages.PageSplit | hfs/btree.c:936-986 | splitting gives the bytes of both halves |
| NodePages.PageFreeSpace | hfs/btree.c:142-163 | what the last offset leaves is what the number of records leaves |
| NodePages.AddPages | hfs/btree.c:1085-1118 | records, table and descriptor are those of the file's nodes with the record inserted |
| NodePages.RemovePages | hfs/btree.c:1414-1423 | the same with the record removed |
| NodePages.SetKeyPages | hfs/btree.c:1203-1219 | the same with the index key rewritten |
| NodePages.SplitPages | hfs/btree.c:916-996 | the same of both halves and of the neighbour whose link changes |
| NodePages.LinkPages | hfs/btree.c:888-910 | a descriptor with other links leaves the records |
| NodePages.NewOk | hfs/btree.c:1277-1316 | a node laid out anew fits its page when it has no more records than its capacity, and holds them |
| NodePages.PageUnique | hfs/btree.c:4-17 | the bytes of a leaf or index node determine its kind, links, height and records |
| NodePages.FoursRise | hfs/btree.c:4-17 | so do the four bytes of a smaller number |
| NodePages.KindOnPage | hfs/btree.c:4-17 | byte 8 of a page is 0xFF on a leaf and 0 on an index node |
| NodePages.DescriptorBytes | hfs/btree.c:4-17 | every field is cut to its bytes |
| NodePages.PagesUnique | hfs/btree.c:4-17 | the bytes of a file determine its leaves and index nodes |
| ExtentPages.KeyReadBack | hfs/extents.c:60-94 | an extent key that is written is read back |
| ExtentPages.HasRank | hfs/extents.c:60-94 | every key of the code's length is the key of a number that the format has |
| ExtentPages.CompareRanks | hfs/extents.c:24-58 | the comparison of two written keys is that of their numbers |
| ExtentPages.ExtentFormatOk | hfs/extents.c:24-94 | extent keys have one size, begin with their length, and are in the order of the integers that the tree is keyed by |
| KeyOrder.LexTotal | hfs/catalog.c:128-182 | the comparison result is antisymmetric, between -1 and 1, and zero only for equal sequences |
| KeyOrder.LexTransitive | hfs/catalog.c:128-182 | the comparison is transitive |
| KeyOrder.ExtentCompare | hfs/extents.c:24-58 | the comparison of extent keys is lexicographic in fork type, file, start block and, last, key length |
| KeyOrder.RankIsOrder | hfs/extents.c:24-58 | extent keys of one length are ordered as the integers the tree model uses; of different lengths they are exactly when the other fields differ |
| KeyOrder.CatalogCompare | hfs/catalog.c:128-182 | the case-insensitive comparison's result is that of comparing parent and slashed name lexicographically |
| KeyOrder.AttrCompare | hfs/xattr.c:20-66 | the result is that of comparing file and attribute name lexicographically |
| KeyOrder.NextChar | hfs/fastunicodecompare.c:391-402 | the inner loop yields the next character that does not fold to nothing, and zero exactly at the end |
| KeyOrder.FastUnicodeCompare | hfs/fastunicodecompare.c:379-418 | for every case table the result is the lexicographic comparison of the folded strings without ignorable characters, with colons as slashes |
| KeyOrder.CatalogCompareCS | hfs/catalog.c:184-198 | the result is that of comparing parent and folded name lexicographically |
| KeyOrder.OneKey | hfs/catalog.c:128-198 | two names compare equal exactly when owner and folded, slashed or plain name agree |
| KeyOrder.SameUnits | hfs/catalog.c:128-182 | names compare equal exactly when they are as long and agree unit by unit, colon and slash being one |
| KeyOrder.PageFolds | hfs/fastunicodecompare.c:391-402 | a page of the case table that is zero leaves its units; another takes unit k of the page to entry k from its start |
| KeyOrder.NameRankIsOrder | hfs/catalog.c:128-182 | names of at most 255 units are ordered as the numerals the tree model ranks them by |
| KeyOrder.NamesAreRanked | hfs/catalog.c:128-198 | all three comparisons of owner and name are integer order of the ranks |
| KeyOrder.OwnersRange | hfs/xattr.c:20-66 | one owner's keys are exactly those from its key with the empty name up to the next owner's |
| DmgFormat.PlanIsChunks | dmg/io.c:82-132 | reading to the end or a number of bytes that are there takes exactly those bytes in full blocks; asking for more is a short read |
| DmgFormat.ChunksAreData | dmg/io.c:128-147 | the blocks together are the input |
| DmgFormat.PadLeast | dmg/io.c:131-138 | padded bytes are the bytes and then zeros, in the fewest sectors of 512 that hold them |
| DmgWriter.StoredRawIff | dmg/io.c:177-191 | with the unsigned wrap of the sector count less 15, exactly which blocks are stored raw |
| DmgWriter.ThreadData.constructor | dmg/io.c:254-314 | room for two runs, one block read ahead, nothing pending |
| DmgWriter.ThreadData.ReadNext | dmg/io.c:94-101 | the next block is read in advance |
| DmgWriter.ThreadData.BlockRead | dmg/io.c:108-175 | hands out block after block with its index, sectors and raw flag, none after the last; a short read is the failed assertion |
| DmgWriter.ThreadData.DoubleRuns | dmg/io.c:205-208 | twice the room, the entries kept |
| DmgWriter.ThreadData.BlockWrite | dmg/io.c:193-211 | the next block in order extends output, run table, both tokens and the observed pieces as the sequential writer does, inside the table |
| DmgWriter.ThreadData.BlockQueue | dmg/io.c:213-220 | the block goes to its place in the ordered list |
| DmgWriter.ThreadData.BlockWriteAll | dmg/io.c:222-229 | every block that has become due is written, none is lost |
| DmgWriter.ThreadData.BlockQueueAndWrite | dmg/io.c:231-236 | queueing and flushing keep the list and the output in order |
| DmgWriter.StepRead | dmg/io.c:238-246 | a thread's read step keeps the invariant of all threads and decreases the work left |
| DmgWriter.StepCompress | dmg/io.c:247-247 | the same of its compress step |
| DmgWriter.StepWrite | dmg/io.c:248-248 | the same of its write step |
| DmgWriter.NothingLeft | dmg/io.c:326-330 | when all threads have returned nothing waits and nothing was lost |
| DmgWriter.InsertBLKX | dmg/io.c:254-343 | for any number of threads and any schedule the run ends, with bytes, run table and tokens of one sequential worker, unless input is short or a block cannot be compressed |
| DmgWriter.BufferLeast | dmg/io.c:271-275 | the table asks for the least number of sectors that is at least 0x208 and at least the compressor's own |
| DmgReader.CopyPages | dmg/io.c:391-405 | page by page, all bytes of the run or the failed assertion |
| DmgReader.ExtractRun | dmg/io.c:367-432 | for every run: succeeds exactly when it has a content (none without bytes or of the types that leave a hole; raw bytes that are there; packed bytes that are there, fit the buffer and decode); then that content starts at the run's sector, the output reaches the end of the run's sectors with a zero for its last byte unless the content covers it, bytes in between stay, and new ones are zero |
| DmgReader.ExtractBLKX | dmg/io.c:347-435 | for every table: succeeds exactly when all runs up to the terminator have a content, and then all of them have landed in order |
| DmgReader.ExtractWritten | dmg/io.c:347-435 | on a table the writer made, whose compressed runs fit the buffer it asks for, the output is overwritten with the padded blocks |
| DmgReader.ExtractFree | dmg/partition.c:803-844 | the free partition's table, extracted into an empty file, gives exactly the zeros of its sectors |
| DmgReader.TypesByNumber | dmg/io.c:384-431 | what a run of type 0, 1, 2, 0x7FFFFFFE and 0xFFFFFFFF extracts to and reads as |
| DmgReader.RunHolds | dmg/io.c:177-211 | run i of the writer's table decodes to the padded block i and starts at its sector |
| DmgReader.PadsAreInput | dmg/io.c:131-138 | only the end of the input is padded, so the padded blocks are the padded input |
| DmgReader.RoundTrip | dmg/io.c:347-435 | what the writer made extracts to the input padded to whole sectors, for every bytes count that is there |
| DmgReader.WriterShows | dmg/dmgfile.c:13-112 | the writer's table covers the padded input, and shows it through the cache if and only if every block not stored raw packs to no more than its sectors |
| DmgReader.LongBlocksFit | dmg/io.c:181-186 | from 15 sectors up, a block not stored raw packs to less than its sectors |
| DmgReader.SectorBursts | dmg/dmgfile.c:22-50 | one sector that does not compress is stored in 612 bytes with a codec that is undone, and the cache has room for 512 |
| DmgReader.ReadWritten | dmg/dmgfile.c:80-194 | what the writer made, opened and read anywhere, is that stretch of the padded input when all packed blocks fit their sectors |
| DmgReader.FreeShows | dmg/dmgfile.c:13-59 | the free partition's table shows zeros |
| DmgReader.ReadFree | dmg/dmgfile.c:80-112 | read anywhere through the cache, the free partition is zeros |
| DmgReader.DMG.constructor | dmg/dmgfile.c:138-194 | an opened image has nothing cached |
| DmgReader.DMG.CacheRun | dmg/dmgfile.c:13-59 | the cache holds the decoded run and its bounds; fails exactly where the code exits or would write past a buffer of the run's sectors |
| DmgReader.DMG.CacheOffset | dmg/dmgfile.c:61-78 | for a covered sector of runs that fit and decode, the cache holds bytes of the image around the location |
| DmgReader.DMG.ReadOnce | dmg/dmgfile.c:92-105 | where the tables show an image, one pass returns a stretch of it that is not empty |
| DmgReader.DMG.Read | dmg/dmgfile.c:80-112 | where the tables show an image, any sequence of reads of covered ranges returns those ranges of it |
| Crc32.RegisterLinear | dmg/checksum.c:66-69 | the CRC register is linear in its starting value |
| Crc32.ExtendConcat | dmg/checksum.c:66-69 | a token extended piece by piece is the checksum of the whole |
| Crc32.CombineLaw | dmg/attribution.c:152-163 | combining two checksums with the second length gives the checksum of the concatenation |
| Crc32.CombineThree | dmg/attribution.c:319-332 | the same for the three pieces before, in and after the raw window |
| Crc32.Residue | dmg/checksum.c:66-69 | data followed by its own checksum, lowest byte first, has the checksum 0x2144DF1C |
| Crc32.NineDigits | dmg/checksum.c:66-69 | the checksum of the nine digits 1 to 9 is 0xCBF43926 |
| SentinelSearch.FindStrInBuf | dmg/attribution.c:28-43 | finds the first occurrence across zero bytes, and nothing exactly when there is none |
| SentinelSearch.SentinelShouldKeepRaw | dmg/attribution.c:45-62 | the verdict for a block and the one read ahead |
| SentinelSearch.KeepStates | dmg/io.c:150-170 | the state stays at none until the first verdict, then goes once through one or two raw blocks |
| SentinelSearch.VerdictMeans | dmg/attribution.c:45-62 | what each verdict says about occurrences in the stream |
| SentinelSearch.RawBlocks | dmg/io.c:150-170 | the raw blocks are none, one or two consecutive ones, some exactly if the sentinel occurs, and they hold its first occurrence whole |
| SentinelSearch.PadOccurs | dmg/io.c:131-138 | padding a block adds no occurrence |
| Attributing.SentinelData.constructor | dmg/attribution.c:186-205 | no piece has been seen |
| Attributing.SentinelData.BeforeMainBlkx | dmg/attribution.c:64-69 | the data fork written so far lies before the raw window |
| Attributing.SentinelData.ObserveBuffers | dmg/attribution.c:71-128 | checksums and lengths stay those of the pieces before, in and after the raw window |
| Attributing.SentinelData.AfterMainBlkx | dmg/attribution.c:130-184 | the resource holds the pieces' checksums, lengths and the raw position |
| Attributing.ObservedIs | dmg/attribution.c:71-128 | after any number of blocks the pieces are both streams cut at the raw blocks, and the raw piece is the same in both |
| Attributing.TokensAreChecksums | dmg/io.c:193-199 | the writer's two tokens are the checksums of the padded input and of the data fork |
| Attributing.SentinelKeepsRaw | dmg/io.c:150-170 | with the sentinel's attribution the writer keeps raw exactly the blocks around the first occurrence |
| Attributing.EditBuffer | dmg/attribution.c:277-283 | the text at the anchor is zeroed up to its NUL and the new data put there |
| Attributing.CopyFile | dmg/attribution.c:251-261 | the copy has the bytes of the input |
| Attributing.UpdateAttribution | dmg/attribution.c:209-354 | succeeds exactly when the anchor is in the raw window and the data fits behind its first place; then the edited file, the new raw checksum and the two combined checksums |
| Attributing.EditedChecksums | dmg/attribution.c:319-332 | what is combined are the CRC-32 of the edited image and of the edited data fork, and the raw position is the raw run's offset |
| Attributing.EditedRuns | dmg/attribution.c:263-287 | after the edit every run decodes to its part of the edited image |
| AttributedDmg.JobBlocks | dmg/io.c:82-147 | the blocks that are read are full up to the last, and together are the input |
| AttributedDmg.ObserveAll | dmg/io.c:199-200 | the blocks handed over one by one leave the pieces of the whole partition |
| AttributedDmg.BuildMain | dmg/dmglib.c:153-172 | for any schedule, the resource is that of the pieces cut at the raw blocks, and the tokens are the checksums of padded input and data fork |
| AttributedDmg.SentinelInWindow | dmg/attribution.c:45-62 | the sentinel's first occurrence in the input lies whole in the raw window |
| AttributedDmg.Attest | dmg/attribution.c:209-354 | a resource of the build and an edited file attest to the edited image: window, runs and all three checksums |
| AttributedDmg.BuildAndAttribute | dmg/dmglib.c:153-172 | built and then attributed: succeeds exactly when the anchor is in the raw window with room behind it (with the sentinel as anchor and no longer data, exactly when the input has the sentinel); then the raw position is a raw run's offset, every run decodes to its part of the edited image, and the combined values are the CRC-32 of edited image and edited data fork |
| Bitmap.SetBitIs | hfs/rawfile.c:15-27 | setting or clearing a bit changes that bit and no other |
| Bitmap.ByteOfBits | hfs/rawfile.c:7-27 | a byte of the map is the number its eight blocks spell, the first block highest |
| Cursors.FromCursorIs | hfs/rawfile.c:72-82 | the search along the cursor finds the first free block in cyclic order from it |
| Cursors.NextIsFromCursor | hfs/rawfile.c:72-82 | there is only one such block |
| Cursors.StartsAtCursor | hfs/rawfile.c:62-103 | a fork without extents starts at the first free block in cyclic order from the cursor |
| Cursors.GrowsBehind | hfs/rawfile.c:62-103 | where the blocks behind the last extent are free, only that extent grows and the cursor stays |
| Cursors.GrowsInPlace | hfs/rawfile.c:83-102 | up to the first used block, the last extent takes the blocks behind it |
| Cursors.StartsAnew | hfs/rawfile.c:73-87 | at a used block a new extent starts at the first free block in cyclic order from the cursor, which then stands behind it |
| RawFiles.BlocksForLeast | hfs/rawfile.c:44-44 | the blocks asked for are the least number that holds the size |
| RawFiles.RawFile.TakeBlocks | hfs/rawfile.c:72-103 | the loop ends whenever enough blocks are free, and the fork gains that many zeroed blocks that nobody owned: those that the search along the cursor takes, and only their bits are set |
| RawFiles.RawFile.Grow | hfs/rawfile.c:46-105 | fails exactly when too few blocks are free, without a change; else the new extents and the cursor are those of the search that begins behind the last extent, or at the cursor if there is none |
| RawFiles.RawFile.Shrink | hfs/rawfile.c:106-147 | the list is cut after exactly the first blocks it keeps, and the bits of the rest, and no others, are clear again |
| RawFiles.KeptIsFirst | hfs/rawfile.c:106-127 | whole extents and the cut one hold the first blocks of the fork |
| RawFiles.RawFile.DropTail | hfs/rawfile.c:129-146 | the tail of one extent and all later extents are given back |
| RawFiles.RawFile.Allocate | hfs/rawfile.c:29-161 | keeps for all forks together: free count equals clear bits, block counts equal extent sums, owned blocks marked used and owned once, no empty extent, last block untouched; which blocks are taken, along the cursor, and which are given back, and that no other bit changes; truncates or adds zeros; other forks keep their bytes |
| RawFiles.RawFile.Locate | hfs/rawfile.c:180-194 | the extent and place in it that hold a location |
| RawFiles.RawFile.Read | hfs/rawfile.c:163-216 | returns the slice of the fork's bytes, and fails exactly when it is not allocated |
| RawFiles.RawFile.Write | hfs/rawfile.c:218-272 | overwrites the slice across extents, growing the fork when it must; other forks keep their bytes |
| RawFiles.RawFile.WriteParts | hfs/rawfile.c:236-269 | extent by extent, the buffer lands at its place |
| RawFiles.ReadBack | hfs/rawfile.c:163-272 | what was written is read back and disjoint ranges read as before |
| ForkRuns.Do | hfs/rawfile.c:29-272 | one allocation or write on one of any number of forks does what it does to strings of bytes over one count of free blocks, and keeps all forks in order together |
| ForkRuns.Run | hfs/rawfile.c:29-272 | the same for any sequence of calls on any of the forks, up to a write that ends the process |
| ForkRuns.BlocksConserved | hfs/rawfile.c:29-161 | through any sequence of calls the free blocks and the blocks of all forks are as many as before |
| ForkRuns.OthersStay | hfs/rawfile.c:29-272 | a fork that no call names keeps its size and bytes |
| ExtentRecords.WriteExtents | hfs/rawfile.c:353-404 | eight extents in the fork record, groups of eight behind them under the device block they start at |
| ExtentRecords.WriteOverflow | hfs/rawfile.c:374-401 | the overflow groups, the last one with what the group before it left behind the last extent |
| ExtentRecords.ReadExtents | hfs/rawfile.c:406-477 | of what record and overflow groups, looked up by file block, stand for: ends with a list if and only if it is that list; a group is missing (hfs_panic) if and only if the list stops short of the total; the count of blocks left wraps if and only if it passes the total; and it reads for ever if and only if no number of extents is enough |
| ExtentRecords.RestoredIff | hfs/rawfile.c:353-477 | the written list is read back if and only if each group's keys agree; with at most eight extents they do |
| ExtentRecords.WriteThenRead | hfs/rawfile.c:353-477 | extents written and read again come back if and only if each group's keys agree |
| ExtentRecords.OkIsDistinct | hfs/rawfile.c:353-404 | the lists the allocator makes start at different blocks, as writing them asks |
| ExtentRecords.NinthIsLost | hfs/rawfile.c:387-446 | nine extents whose ninth is not found again |
| Catalogs.Catalog.GetRecordByCNID | hfs/catalog.c:312-344 | returns the record with this number through its thread, and nothing exactly when there is none |
| Catalogs.Catalog.UpdateCatalog | hfs/catalog.c:633-680 | the record that the thread leads to is replaced under its key; when the code would read a wrong kind of record |
| Catalogs.Catalog.NewFolder | hfs/catalog.c:927-1019 | adds record, thread and counts, and leaves the catalog sound if and only if the name was free, and then every folderCount the number of the folder's subfolders; refuses exactly without a parent folder |
| Catalogs.Catalog.NewFile | hfs/catalog.c:1021-1114 | the same for a file |
| Catalogs.Catalog.RemoveFile | hfs/catalog.c:807-894 | keeps the catalog sound, and every folderCount exact; removes exactly files and empty folders, with thread, valence and counts |
| Catalogs.Catalog.Move | hfs/catalog.c:682-805 | leaves the catalog sound if and only if the new name was free, the folder is another one, and no folder goes into itself or below itself; then folder counts stay exact if and only if a file was moved; only a folder moved into itself makes the code take one kind of record for another |
| Catalogs.Catalog.UpdateBoth | hfs/catalog.c:792-796 | the copies of both parents read before the move are written back after it |
| Catalogs.EntrySound | hfs/catalog.c:1003-1011 | the record, the thread and the parent together keep links, valences, counts and the way to the root exactly when the key was free |
| Catalogs.TakenKeeps | hfs/catalog.c:1003-1011 | under a taken key the record that was there stays |
| Catalogs.ShrunkSound | hfs/catalog.c:832-882 | a file or empty folder gone with its thread keeps all of them |
| Catalogs.RelocatedSound | hfs/catalog.c:740-796 | a record under a free key keeps all of them exactly when it leaves its folder and does not enter itself |
| Catalogs.RootedWhen | hfs/catalog.c:740-790 | all folders still climb to the root exactly when the target is not the folder or below it |
| Catalogs.TakenMove | hfs/catalog.c:767-790 | where another record holds the target's key, two threads lead to one record |
| Catalogs.UndefinedWhen | hfs/catalog.c:792-796 | both parents' records can be written back whenever the folder moved is not the target itself |
| Catalogs.CountsGrown | hfs/catalog.c:1003-1011 | a new record under a free key, with its parent's counts one up, keeps every folderCount the number of the folder's subfolders |
| Catalogs.CountsShrunk | hfs/catalog.c:832-882 | a record gone, with its parent's counts one down, keeps them |
| Catalogs.CountsMoved | hfs/catalog.c:792-796 | a sound move, which leaves the parents' folder counts alone, keeps them exactly when a file moved |
| CatalogExamples.TakenName | hfs/catalog.c:1003-1011 | a second file or folder under a taken name leaves the catalog unsound |
| CatalogExamples.Renamed | hfs/catalog.c:767-796 | a file renamed in its own folder does |
| CatalogExamples.MovedOnto | hfs/catalog.c:767-796 | a file moved onto another does |
| CatalogExamples.MovedInside | hfs/catalog.c:767-796 | a folder moved into itself does |
| CatalogExamples.MovedFolder | hfs/catalog.c:792-796 | a folder moved into another leaves the catalog sound and a folder count wrong |
| HfsCompress.CompressedFile.constructor | hfs/hfscompress.c:224-300 | opening what is stored, inline or in blocks, gives a file with those contents |
| HfsCompress.ReadTable | hfs/hfscompress.c:275-296 | the block table decodes to the entries that were written |
| HfsCompress.CompressedFile.Read | hfs/hfscompress.c:39-85 | reads through the cache agree with the plain bytes, and end |
| HfsCompress.CompressedFile.LoadBlock | hfs/hfscompress.c:60-81 | the cache holds the block of the location |
| HfsCompress.CompressedFile.Write | hfs/hfscompress.c:87-112 | the whole file is cached and then overwritten or extended |
| HfsCompress.CompressedFile.Close | hfs/hfscompress.c:114-222 | succeeds exactly when packed data that go inline are no longer than the attribute's data at opening, or there was no attribute; then what is stored opens to the contents, inline exactly when they are one small block, else with every block behind the table at its offset |
| HfsCompress.Pack | hfs/hfscompress.c:124-203 | block after block, then header, table and end mark, none over another; fails exactly when an inline block is longer than the attribute's room |
| HfsCompress.FinishedStored | hfs/hfscompress.c:176-203 | the fork as closing leaves it decodes, through its header and table, to the contents |
| HfsCompress.FinishedSizes | hfs/hfscompress.c:131-203 | header, table and end mark as places in the fork: sizes that count from the end of the last block, and an end mark behind it |
| HfsCompress.StoredRaw | hfs/hfscompress.c:73-75 | a block behind 0xff reads as its bytes |
| HfsCompress.BlocksLeast | hfs/hfscompress.c:128-128 | the blocks are the least number of 64 KiB that holds the contents |
| HfsCompress.HighRises | hfs/hfscompress.c:8-27 | of two numbers the four bytes of the smaller come first, highest byte leading |
| HfsCompress.LowIsTurned | hfs/hfscompress.c:8-27 | the other byte order is that one turned round |
| HfsCompress.ReadBack | hfs/hfscompress.c:39-300 | close, open and any read succeed exactly when closing stays inside the attribute's block, and then return the contents |
| HfsCompress.WriteToHFSFile | hfs/hfslib.c:80-132 | open, write in pieces and close store the input over the old contents, exactly when the result is not inline, the file had no attribute, or the result packs to no more than its data; from the resource fork, exactly when it is not inline; what is stored is the input exactly when the old contents were not longer |
| HfsCompress.OutgrownAttribute | hfs/hfscompress.c:151-155 | one byte inline, overwritten with a hundred bytes that pack to 101, is written past the attribute's block |
| Checksums.MKBlockChecksum | dmg/checksum.c:45-64 | the checksum of the whole words, of a length masked to 32 bits; in numbers, token times 2^n and the i-th of n words times 2^(n-i) added up, whenever that is below 2^32 |
| Checksums.SumIsWeighted | dmg/checksum.c:56-60 | the same sum for any words whose weighted sum does not overflow |
| Checksums.MixedValue | dmg/checksum.c:56-58 | each word is added, modulo 2^32, to the token doubled with its highest bit brought round |
| Checksums.TurnsRound | dmg/checksum.c:58-58 | a zero word takes a token c of 2^31 and more to 2c - 2^32 + 1 |
| Checksums.WholeLast | dmg/checksum.c:55-55 | the loop's bound is the last multiple of four up to the length modulo 2^32 |
| Checksums.BlockChecksumInParts | dmg/checksum.c:45-64 | feeding parts of whole words one after the other is feeding the whole |
| Checksums.Sha1.constructor | dmg/checksum.c:166-175 | the initial state, nothing fed |
| Checksums.Sha1.SHA1Update | dmg/checksum.c:179-196 | the state is that of one pass over the blocks of all bytes fed, the rest is in the buffer, and exactly when the 64-bit count stays right |
| Checksums.CountBits | dmg/checksum.c:183-185 | the two words count the bits, with a carry too many exactly for some chunks of 2^29 bytes and more |
| Checksums.HalfGigabyte | dmg/checksum.c:183-185 | a first chunk of 2^29 bytes is miscounted |
| Checksums.TakeData | dmg/checksum.c:183-195 | the buffer is filled, whole blocks are absorbed, the rest is kept |
| Checksums.Sha1.SHA1Final | dmg/checksum.c:200-229 | the digest is that of the padded message of section 5.1.1 of FIPS 180-4; the context is wiped |
| Checksums.FinalCount | dmg/checksum.c:205-208 | the bit count as eight bytes, the highest first |
| Checksums.PaddedCount | dmg/checksum.c:205-212 | the last eight bytes that are absorbed are the message's bits modulo 2^64, as two numbers |
| Checksums.Digest | dmg/checksum.c:214-217 | the state as twenty bytes |
| Checksums.DigestWord | dmg/checksum.c:214-217 | four bytes of the digest, as a number, are a word of the state |
| Checksums.NothingTransformed | dmg/checksum.c:166-217 | with a compression function that changes nothing, every message's digest is the twenty bytes of the initial state |
| Checksums.HashInChunks | dmg/checksum.c:17-23 | any split of a message into chunks under 2^29 bytes has the digest of the message |
| Base64.Converter.constructor | common/base64.c:137-145 | the first line's tabs, inside the buffer, which they may just fill |
| Base64.Converter.PutSymbol | common/base64.c:106-124 | a symbol and the end of its line, with room after it unless a write went past the end |
| Base64.Converter.EndLine | common/base64.c:114-120 | the end of a line and the tabs of the next, which stay inside if the line did |
| Base64.Converter.PutTabs | common/base64.c:113-117 | the tabs of the next line, each inside the buffer |
| Base64.PutRest | common/base64.c:158-174 | one or two bytes left over become their symbols and padding up to the last |
| Base64.ConvertBase64 | common/base64.c:126-183 | the wrapped text of section 4 of RFC 4648, and exactly when a write passes the end of the buffer |
| Base64.LineHolds | common/base64.c:109-123 | each line holds width + 1 symbols between its tabs and its end |
| Base64.Capitals | common/base64.c:127-127 | values 0 to 25 are the capital letters in order |
| Base64.SmallLetters | common/base64.c:127-127 | 26 to 51 are the small ones |
| Base64.DigitsAndSigns | common/base64.c:127-127 | 52 to 63 are the digits, plus and slash |
| Base64.GroupNumber | common/base64.c:147-163 | three bytes and the four values they become are one number; one or two bytes are filled up with zeros |
| Base64.BytesNumber | common/base64.c:66-75 | four values and the three bytes they become are one number |
| Base64.ReadChar | common/base64.c:28-65 | a character adds its value to the values read, and a full buffer its three bytes, with room left over |
| Base64.PutLast | common/base64.c:77-94 | an unfinished group gives as many bytes as the padding leaves |
| Base64.DecodeBase64 | common/base64.c:8-97 | the bytes of the groups of four values and of the padding, every write inside the buffer |
| Base64.TextReads | common/base64.c:28-65 | wrapping, indentation and padding are passed over by the decoder |
| Base64.DecodedBack | common/base64.c:66-94 | the values of some data, with their padding, decode to the data, whatever the buffer held |
| Base64.ThereAndBack | common/base64.c:8-183 | decoding what was converted gives the data, for all data, tabs and widths for which the conversion stays inside its buffer |
| Base64.HundredTabs | common/base64.c:126-183 | with a hundred tabs and one byte a symbol is written past the buffer |

## Left out

- Growing the tree file, map nodes behind the header node, and the second pass that variable key lengths can ask for: a caller has to see to free nodes, and the map fits the header node.
- Search, scan and removal on a tree without a root: the code would read the header node as an index node.
- BTreeFile.BTree.RemoveFromBTree: what the code does once it has gone astray is not modelled; the flag says when.
- BTreeFile.BTree.AddToBTree: keys of one size and data of one size per kind of node; keys of several sizes, as in the catalog, are modelled in one node at a time (NodeLayout) and, in the tree, by their numbers.
- BTreeFile.BTree.PutNode: the records and offsets of a first leaf or a new root are laid down at once; the descriptor's reserved word and the bytes of the header node with its map are left out.
- NodePages.PageUnique: numbers wider than the descriptor's fields are cut as the code cuts them; nodes are read back when theirs fit.
- NodeLayout.NodeBytes.AddRecord: keys are compared by any function of their bytes; only the extents file's keys are written and read as fields.
- Byte order elsewhere, timestamps, permissions and the remaining header fields.
- DmgWriter.InsertBLKX: the two locks are atomic steps, compression is any function with an inverse that keeps to the room it is given, the buffers it asks for hold a run, and sizes do not reach the width of the counters (in particular the doubling of the run table).
- DmgReader.DMG.CacheRun: what the code does after writing a run past the end of its buffer is not modelled; the result says when.
- DmgReader.ExtractRun: the same for a compressed run longer than the buffer that the table asks for.
- BTreeFile.BTree.GetFolderContents: the hard link files that the code follows to their inodes are listed as they are.
- ExtentRecords.ReadExtents: what the code does once the count of blocks left has wrapped is not modelled; the outcome says when.
- Opening an image: the plist, the partition names and the trailer are taken as already parsed.
- Attributing.UpdateAttribution: the rewriting of the resource plist and the master checksum are left out; the bytes behind a searched buffer are taken to be zero, and a sentinel to be a string without NUL that is no longer than a run.
- RawFiles.RawFile.Allocate: the fork record and catalog updates after it, and that the bitmap is itself stored in a fork, are left out; volumes stay below 2^32 bytes and their last block is in use, as growing a volume leaves them.
- RawFiles.RawFile.Write: a write into a fork without extents that does not lengthen it is left out; the code follows a null pointer there.
- Removing a fork's overflow records before they are written again.
- Catalogs.Catalog.NewFolder: path strings, symbolic and hard links are left out; a parent is given by number and a name by the class of names that compare equal to it.
- Catalogs.Catalog.RemoveFile: giving back the file's blocks and attributes, and a path that names the root, are left out.
- Catalogs.Catalog.Move: folder counts are an invariant of their own beside soundness, since moving a folder does not keep them.
- HfsCompress.CompressedFile.Write: a write that leaves a gap behind the end, whose bytes would be arbitrary, is left out.
- HfsCompress.CompressedFile.Read: contents stay below 4 GiB, from where the 32-bit bounds of the cache wrap.
- HfsCompress.CompressedFile.Close: closing an empty file after a write is left out, since no fork is open then; block offsets fit 32 bits; what the code does after writing past the attribute's block is not modelled, the result says when.
- Checksums.Sha1.SHA1Update: the compression function is any function; `size_t` has 64 bits and a chunk is shorter than 2^61 bytes.
- Base64.ConvertBase64: what a write past the end of the buffer does to other memory; sizes do not reach the width of the counters.
- ADC decoding, abstract files, partition tables, the command-line tools and the directory walkers.
