# Quantica in Dafny

Quantica is a database for objects, written in C. This project models the parts of
it that must not lose or mix up data, and proves what they are for. Every
statement holds for all inputs and all reachable states; nothing here executes the
C program.

| part | files | what is proved |
|---|---|---|
| secondary index, a B-tree on disk | Order, OrderedTree, SearchTree, BTreeNode, BTreeSpec, BTreeInsertion, BTreeOrder, BTreeDeletion, BTreeDrop, BTreeLookup, BTreeFound, BTreeRuns, BTree | insertion and deletion are those of a map, through splits, borrowing, merging and a shrinking root; the tree stays balanced and filled; node offsets are partitioned between tree and free list |
| key engine | EngineTable, EngineSpec, EngineTree, EngineMarks, EngineHeap, EngineStore, EngineUpdate, Engine, Ownership | the engine is a map from key to bytes; which key has which metadata after every operation; no byte on disk has two owners; the table cache is invisible |
| pager | Pager | ranges never overlap and never cross a page |
| trees as text | Dict, DictSpans, Marshal, DictPrinted, DictMarshall, DictRescan, DictCanonical, DictDerived, DictMeaning | decoding a text of the JSON grammar, blanks and escapes included, gives the tree of its derivation; decoding the printed text of a tree gives the tree back; nested containers are decoded from pieces that always tokenize |
| JSON checker | JsonCheck, JsonStack, JsonGrammar, JsonRuns, JsonDerivation, JsonValidity, JsonAgreement, JsonTokens | the table-driven checker accepts exactly the texts of a grammar; what it accepts the tokenizer tokenizes and the decoder decodes |
| trees as records | SlayRow, SlayMarshall, SlayTheory, SlayLaws, SlayStore | loading what was stored gives the tree back, if and only if the tree is loadable |
| CRC-64 | CrcAlgebra, Crc, CrcSlicing, Crc64, CrcCombine, Polynomials, CrcPolynomial | the fast forms and the combination of checksums agree with the bit-at-a-time definition, which is division by the generator polynomial |
| SHA-2 and HMAC | Bytes, Sha256Functions, Sha512Functions, Sha256, Sha512, Sha2, Sha2Stream, Hmac, Primes, Sha2Constants, Sha256Example, Sha512Example, Sha2Example | digests do not depend on how a message is cut, and are those of FIPS 180-4 and RFC 2104; the constants are roots of primes; the published digests of abc |
| AES-128 | AesTables, AesField, AesOctet, Aes, AesState, AesBuffer, AesGalois, AesSubstitution, AesExample | decryption undoes encryption, also chained over any number of blocks; tables and columns are those of the field of FIPS 197, and so is its example |

Code that works in place is modelled in place: node and table arrays, the table
cache, the token array, the checker's stack, the hash contexts, the cipher state,
rows and buffers are arrays or fields that methods change, and each method is
proved against a function of the old state. The properties are then proved of
those functions. Disks are maps from offset to node, table or bytes.

## Properties that do not hold

Where the code does not do what one would expect, the code was kept, and the exact
condition is proved.

* **Search order with equal keys.** With uniqueness off, `btree_insert` searches
  again for the item that came up from a split (src/btree.c:239) and may find
  another place than the one the insertion went down. `BTree.Index.Insert` states
  that an index in search order stays in it if and only if `BTree.Index.Loses` does
  not hold of the old index and the new item, a condition on the nodes the search
  for the key visits. It cannot hold unless some smaller key is
  already there four times (`BTreeOrder.FourCopies`), a shaped index in which it
  does is given (`BTreeOrder.CrowdedLosesOrder`), and insertions alone never lead
  there (`BTree.CreateIndex`): the code needs deletions to lose its order.
* **Deletion with equal keys.** `btree_delete` writes the predecessor over the item
  it finds and the key, but not the value, over the predecessor's place, and then
  deletes the key below (src/btree.c:371-394). With equal items in the left
  subtree the second deletion may meet another one of them. One key goes in any
  case and the order is kept (`BTree.Index.Delete`, `BTreeDrop.DroppedShifts`), but
  exactly one item goes if and only if the search does not stop above the leaves
  right of two equal items or more (`BTreeDrop.TakesOneIff`). Three equal items
  suffice (`BTreeDrop.MuddledThree`, `BTreeDrop.ThreeAlike`), and five insertions of
  one key into a new index always lead there (`BTreeRuns.DeletionMuddles`);
  src/index.c:171 deletes from such indexes.
* **Lookup with equal keys.** `btree_get` follows one path. It finds a key if and
  only if it is there, but of equal items it passes by those in children right of
  that path: the two add up to all items with the key (`BTreeFound.FoundAndPassed`),
  and nothing is passed by if and only if no child right of the path holds the key
  (`BTreeFound.FindsAllIff`). Two equal items can suffice (`BTreeFound.TwoAlike`), and
  five insertions of one key always do (`BTreeRuns.SearchMisses`).
* **Purging an absent or locked key takes another one.** `delete_table` removes
  the next larger key when the search ends without a match (src/engine.c:603-606).
  `Engine.Engine.Purge` says which key goes in each case.
* **A refused purge can leave the top table empty.** It returns before `table_join`
  (src/engine.c:843-851). No table is ever empty but for that: insertions, updates
  and successful purges keep or restore it, and a refused purge breaks it if and only
  if the key it takes is the only one of the top table, which lacks a child on one
  side (`Engine.Engine.Purge`, `EngineTree.TopEmptied`).
* **Metadata does not stay with its key.** A key that comes up from a table that is
  split is given the metadata of the key being inserted (src/engine.c:554, 648), and
  one that takes the slot of a removed key over keeps the metadata it finds there
  (src/engine.c:477-480). `Engine.Engine.Insert` states for every key which metadata
  it has: those in `EngineMarks.Raised` the one that is given, all others their own.
  That is only the new key where its table has room (`EngineMarks.RoomBelow`), and
  another one, too, when a single full table is split (`EngineMarks.FullTop`).
  `Engine.Engine.Purge` states the same for removal, where only the next smaller or
  larger key can inherit. Updates change no metadata.
* **So a key with data can be answered as one without.** `engine_get_force` tests the
  mark of the slot (src/engine.c:837-838). `Engine.Engine.Fetch` finds the bytes if
  and only if the slot is not so marked; a key that has just been inserted is found if
  and only if it has data and was not so marked itself (`Engine.Engine.InsertAndFetch`).
* **Requests larger than a page.** `pager_alloc` grants them, over the end of the new
  page; the promises about all ranges are lost exactly then (`Pages.Pager.Alloc`).
* **Lengths of 2^29 bytes and more.** The SHA-2 padding holds the length in bits in
  32 bits (src/sha2.c:371). It is the standard padding if and only if the message is
  shorter than 2^29 bytes (`Sha2.PaddingStandard`). An update of more than 2^31 bytes
  of whole blocks behind the first is undefined: their offsets are signed ints
  (src/sha2.c:196, 403). Short of that, an update loses data if and only if the
  32-bit sum of its length and the bytes waiting overflows
  (`Sha2Stream.Context.Update`).
* **The checker is not RFC 4627.** The accepted language lets the digits after a
  decimal point be missing and gives a lone 0 no exponent (`JsonGrammar`), with at
  most depth - 1 containers open (`JsonDerivation.AcceptsGrammar`).
* **Trees that do not come back from their records.** A tree that `slay_put` accepts
  comes back if and only if it is `Loadable` (`SlayTheory.LoadsIff`): no leaf is itself
  a key, since loading follows every key (`SlayLaws.NeverAKey`); no array child has a
  name, which would be written through a null pointer; every child of a set has one,
  or it is dropped; and in an object no unnamed child stands behind a named one, or
  the name is freed twice (src/slay_marshall.c:289-324,
  `SlayLaws.UnnamedBehindNamed`). Names at the top and bytes of typeless leaves are
  lost in any case (`SlayLaws.EqualIff`).
* **Trees that do not come back from their text.** Of the conditions of `Printable`
  those on types, on bytes and on names in arrays are necessary
  (`DictCanonical.ComesBackCanonical`), and so is that the tree is not empty
  (`DictCanonical.EmptyIsLost`). Those on characters are sufficient only: a named text
  is printed as it is, so properly escaped characters in it do come back.

## Model

| member | source | states |
|---|---|---|
| BTreeNode.Get | src/btree.c:154-172 | the binary search returns the first of n items not below the key: the lower bound, whenever the items are sorted, with or without equal keys |
| BTreeNode.NodeBuf.InsertAt | src/btree.c:239-248 | shifting and storing: the new item and its right child stand at i, everything else keeps its order |
| BTreeNode.NodeBuf.InsertFull | src/btree.c:264-283 | into a full node: the five items and six children are those of the node with the new one at i, the last of each handed out |
| BTreeNode.NodeBuf.Halve | src/btree.c:284-298 | the lower half stays, the upper half is in a new node, the middle item is handed up |
| BTreeNode.NodeBuf.RemoveAt | src/btree.c:352-361 | item i and its right child are gone, nothing else moved out of order; i == cnt drops the last of both |
| BTreeNode.RotateIntoRight | src/btree.c:427-437 | borrowing from the left in the three node arrays: the last item of the left node goes up, the separator goes down, one child changes sides |
| BTreeNode.RotateIntoLeft | src/btree.c:443-455 | borrowing from the right, likewise |
| BTreeNode.JoinInto | src/btree.c:463-476 | merging: the left node is left items, separator, right items; the parent loses the separator and the right pointer |
| SearchTree.PutIsUpdate | src/btree.c:203-328 | inserting at its rank into a sorted item sequence is map update; the meaning behind insertion |
| SearchTree.DelIsRemoval | src/btree.c:330-496 | deleting at its rank from a sorted item sequence is map removal; the meaning behind deletion |
| SearchTree.Descend | src/btree.c:185-195 | in a sorted tree only the child at the lower bound, or the item there, can hold the key |
| BTree.Index.constructor | src/btree.c:130-139 | a new index is empty, unique, in order and well formed; its super block says so |
| BTree.Index.Open | src/btree.c:141-148 | opening what was closed gives the same contents, store, free list and uniqueness |
| BTree.Index.Close | src/btree.c:150-152 | the super block records root, free list and uniqueness; writing the cached root back changes no node |
| BTree.Index.SetUnique | src/btree.c:126-128 | only the uniqueness flag changes |
| BTree.Index.GetNode | src/btree.c:21-36 | the cached root is read in place of the stored one, and they agree |
| BTree.Index.AllocNode | src/btree.c:53-68 | the offset handed out was neither live nor free before; live nodes are untouched; every offset is still live or free, once; nodes do not overlap |
| BTree.Index.FreeNode | src/btree.c:70-78 | the node is chained in front of the free list, live nodes are untouched |
| BTree.Index.Insert | src/btree.c:307-328 | unique keys: DUPLICATEKEY exactly for a present key, with nothing changed; otherwise the map gains exactly key -> value. In any case: the multiset of items gains exactly the new one, and all B-tree and free-list invariants hold. Equal keys: search order is kept exactly when Loses does not hold of the old index, and always from an index without crowds of equal items |
| BTree.Index.InsertRec | src/btree.c:203-305 | the recursion: the subtree, or its two halves and the item between them, hold the old items and the new one, in place; shape and offsets kept; order as the tree functions predict |
| BTreeInsertion.InsertMeaning | src/btree.c:307-328 | what the in-order sequence after insertion means for the key -> value map and for DUPLICATEKEY |
| BTreeOrder.ResearchAgreesIff | src/btree.c:239 | searching again for the item that came up finds the place the insertion went down, if and only if that item differs from the one left of that place |
| BTreeOrder.OrderTaken | src/btree.c:237-252 | a node that takes in what came up from a child stays in search order if and only if the second search found the same place |
| BTreeOrder.OrderSplit | src/btree.c:253-304 | splitting a full node always keeps search order |
| BTreeOrder.FourCopies | src/btree.c:237-252 | search order can only be lost in an index that already holds some smaller key four times |
| BTreeOrder.LightSplit | src/btree.c:253-304 | splitting leaves no node with more than two items equal to the one left of it; with LightTaken, this is why insertions alone never lose search order |
| BTreeOrder.LightTaken | src/btree.c:237-252 | a node that takes in what came up has no more than two items equal to the one left of it either, and is not out of order |
| BTreeOrder.CrowdedLosesOrder | src/btree.c:239 | a concrete well-shaped index in search order in which the next insertion loses it |
| BTree.CreateIndex | src/index.c:31-63 | an index with uniqueness off, filled by insertions only, holds exactly the rows and is in search order, whatever repeats |
| BTree.Index.Delete | src/btree.c:483-496 | unique keys: NOTFOUND exactly for an absent key, with nothing changed; otherwise exactly that key leaves the map; sorted, balanced, two to four items in every node but the root, offsets partitioned between tree and free list. Equal keys: in search order exactly the items of Dropped are left, one key less, and search order and the items of all other keys are kept |
| BTree.Index.DeleteRec | src/btree.c:330-481 | the recursion: removal, or an underfull top node, or nothing to remove, with the store accounted for |
| BTree.Index.Swap | src/btree.c:371-391 | exchange with the predecessor on disk; the key is copied by the key_size of the item it replaces |
| BTree.Index.Rebalance | src/btree.c:398-480 | borrowing left or right or merging repairs a child that is one item short, keeps the in-order sequence, and says whether this node is now short itself |
| BTreeDeletion.SwappedDeleted | src/btree.c:371-391 | swapping with the predecessor and deleting below leaves the items of Dropped, whenever the key is copied whole |
| BTreeDeletion.MergeAfterRotation | src/btree.c:427-480 | merging after the rotation that the borrow-left branch has already done in memory gives the node that merging straight away gives |
| BTreeDrop.DeleteMeaning | src/btree.c:483-496 | what the outcome of the recursion means for the key -> value map, and for an index with equal keys |
| BTreeDrop.DroppedShifts | src/btree.c:330-481 | a deletion takes one key out of the run of its equal keys, keeps the order, and touches no item of another key |
| BTreeDrop.ShiftedSorted | src/btree.c:330-481 | with unique keys the item with the key is the one that goes |
| BTreeDrop.TakesOneIff | src/btree.c:371-394 | with equal keys, and items that differ, exactly one item goes if and only if the search stops in a leaf or right of at most one equal item; otherwise two go and one is doubled |
| BTreeDrop.MuddledThree | src/btree.c:371-394 | that takes three items with the key |
| BTreeDrop.ThreeAlike | src/btree.c:371-394 | a concrete well-shaped index in which a deletion loses two items and doubles a third |
| BTree.Index.Search | src/btree.c:174-201 | unique keys: the value of the key, or NOTFOUND exactly for an absent key. Equal keys: in search order NOTFOUND exactly for an absent key, and otherwise exactly what lies on the path, Found |
| BTreeFound.FoundAndPassed | src/btree.c:174-197 | in search order the values stored under a key are those the search finds and those in the children right of its path, each as often as stored |
| BTreeFound.FindsAllIff | src/btree.c:174-197 | the search finds every item with the key if and only if no child right of its path holds the key |
| BTreeFound.FoundUnlessAbsent | src/btree.c:174-197 | the search finds something exactly if the key is there |
| BTreeFound.TwoAlike | src/btree.c:174-197 | a concrete well-shaped index in which the search finds one of two equal items |
| BTreeRuns.SearchMisses | src/index.c:31-63 | a run: of five rows under one key, inserted into a new index, the search does not find all |
| BTreeRuns.DeletionMuddles | src/index.c:171 | a run: of five rows under one key, inserted into a new index, a deletion does not take out just one |
| BTree.Index.Traverse | src/btree.c:498-517 | every item of the subtree, each as often as it is stored |
| BTree.Index.GetAll | src/btree.c:519-525 | every item of the index, each as often as it is stored |
| Pages.Pager.Alloc | src/pager.c:147-169 | the range handed out is behind all earlier ones; it is in one existing page, clear of its header, and stays so for all later ones, if and only if header and bytes fit in a page; a page is added exactly when the bytes do not fit in the present one |
| Pages.Pager.GetFd | src/pager.c:171-178 | the page index is one of the existing pages, and page and remainder give the offset back |
| Pages.Pager.GrantedByte | src/pager.c:171-178 | every byte ever handed out passes the assertion on the page index, lies in the page of its range, and is no byte of a page header |
| EngineTable.TableBuf.Find | src/engine.c:738-760 | the binary search each routine repeats: the lower bound, and whether the key is there |
| EngineTable.TableBuf.Insert | src/engine.c:543-559 | slot i opens between its two children; all other keys and children keep their order |
| EngineTable.TableBuf.Remove | src/engine.c:482-494 | slot i closes, one child stays where there were two |
| EngineTable.TableBuf.Halve | src/engine.c:390-409 | everything above the pivot is in a new table, the pivot is in neither |
| EngineStore.TableStore.GetTable | src/engine.c:82-111 | the table handed out is the stored one, despite colliding cache slots, and belongs to the caller alone |
| EngineStore.TableStore.PutTable | src/engine.c:114-124 | the cache takes the table over and evicts another; no stored table changes |
| EngineStore.TableStore.FlushTable | src/engine.c:127-140 | the table is on disk and the cache agrees with the disk, within the first page |
| EngineStore.TableStore.AllocTableChunk | src/engine.c:216-231 | the chunk was free or is new; the free list stays acyclic, of the recorded length and apart from live tables |
| EngineStore.TableStore.FreeIndexChunk | src/engine.c:258-273 | the table is chained in front of the free list, which grows by one |
| EngineHeap.Heap.TakeFreed | src/engine.c:234-247 | a freed block is reused only if it is large enough and at least three quarters used, and is withdrawn from the reuse cache |
| EngineHeap.Heap.InsertData | src/engine.c:356-386 | the bytes are stored in a block not in use before; no other block changes; no data takes no block |
| EngineHeap.Heap.FreeDbChunk | src/engine.c:275-316 | the block is free and offered once for reuse, or not at all when larger ones fill the cache; its bytes and all other blocks stay |
| EngineHeap.Heap.GetData | src/engine.c:768-799 | the bytes stored at an offset |
| Engine.Engine.constructor | src/engine.c:178-189 | an empty engine; the super blocks take their space |
| Engine.Engine.InsertToplevel | src/engine.c:616-657 | for a present key nothing changes and its offset is returned; for an absent key the map gains exactly quid -> new offset, through any cascade of splits; exactly the keys of Raised have the metadata given, all others their own; when no table was empty (1 to 126 keys each), none is afterwards |
| Engine.Engine.InsertTable | src/engine.c:501-560 | the recursion: the key is in, at its place, and the top table may be full for the caller to split; what was handed up to tables of the subtree has the metadata given, every other slot keeps its own |
| Engine.Engine.SplitTable | src/engine.c:390-409 | two tables on disk that hold the old one, the pivot, its middle key, between them; every other slot keeps its metadata |
| Engine.InsertMeaning | src/engine.c:616-657 | what the tree outcome means for the maps from quid to offset and to bytes |
| Engine.Engine.Insert | src/engine.c:668-731 | a new key maps to exactly the bytes given; it has the metadata given, as have exactly the other keys of Raised; a present key is refused and neither disk nor tree changes |
| Engine.Engine.InsertAndFetch | src/engine.c:668-838 | a key that has just been inserted is found if and only if it has data and was not marked as one without, and its bytes are those given |
| EngineMarks.MarkedFound | src/engine.c:733-766 | in a sorted tree the search for a key ends at the slot with its metadata, wherever that is |
| EngineMarks.QuidRaised | src/engine.c:501-560 | the key that is inserted is one of those that get the metadata given |
| EngineMarks.RoomBelow | src/engine.c:501-560 | where the table has room it is the only one |
| EngineMarks.FullTop | src/engine.c:616-657 | a single table of 126 keys gives another one the metadata of the key being inserted: its middle one |
| Engine.Engine.DeleteTable | src/engine.c:567-614 | exactly the item named by Removes is gone; the store is accounted for; behind a locked key it is the next separator on the search path; all slots keep their metadata, but for a neighbour that takes over that of the removed key |
| Engine.Engine.RemoveTable | src/engine.c:465-497 | key i leaves, replaced by a neighbour from either side, whichever is chosen; only that neighbour has other metadata, those of key i |
| Engine.Engine.TakeLargest | src/engine.c:446-461 | the largest item leaves the subtree, the rest stays in order and keeps its metadata |
| Engine.Engine.TakeSmallest | src/engine.c:427-442 | the smallest item leaves the subtree, the rest stays in order and keeps its metadata |
| Engine.Engine.TableJoin | src/engine.c:412-423 | an empty table is freed and its only child stands for it; no metadata changes |
| EngineTree.DeleteNext | src/engine.c:603-606 | when nothing was removed below, the next larger item of this table is the one that goes |
| Engine.Engine.Purge | src/engine.c:843-857 | code 0 exactly for a present, unlocked key: it leaves both maps, alone, its block is freed, and no table is empty, not even the top one. Otherwise -1; exactly which other key goes then: for an absent key the next larger one, if any; for a locked key the next separator on its search path, if any; and exactly when that leaves the top table empty. Every key left has its own metadata, but for at most one direct neighbour, which has that of the removed key |
| EngineTree.TopEmptied | src/engine.c:567-614 | taking out an item leaves the top table empty if and only if that is its only key and it lacks a child on one side |
| Engine.PurgeMeaning | src/engine.c:843-857 | what the outcome of delete_table means for the map from quid to data offset |
| Engine.Engine.LookupKey | src/engine.c:733-766 | by force, the answer of the map; otherwise recycled keys are hidden |
| Engine.Engine.SetMeta | src/engine.c:859-888 | the metadata of one key changes to those given, no other, and no key, offset or byte does |
| Engine.Engine.Recycle | src/engine.c:900-917 | of a visible, unlocked key only the lifecycle changes; it keeps its place and its bytes |
| Engine.Engine.UpdateData | src/engine.c:984-1022 | the key maps to exactly the new bytes, every other key to what it did, even when its own old block is reused; no key changes its metadata |
| Engine.UpdateMeaning | src/engine.c:984-1022 | updating is removing and inserting again, on both maps |
| Engine.Engine.Fetch | src/engine.c:733-799 | looking a key up by force and reading its block gives its bytes, unless the slot the key is in is marked as one without data |
| Engine.Engine.NoByteTwice | src/engine.c:216-386 | between operations no byte belongs to two tables, two data blocks, live or freed, or one of each; all lie below what the pager has handed out |
| EngineSpec.FindSlotFinds | src/engine.c:733-766 | the descent finds exactly the keys the tree holds |
| Crc.Init | src/crc64.c:26-46 | row k of the table holds, for each byte, the register after it and k zero bytes |
| Crc.Chaining | src/crc64.c:167-171 | a call that starts with the checksum of a prefix gives the checksum of the concatenation |
| CrcPolynomial.ChecksumIsRemainder | src/crc64.c:12-128 | for every buffer and start value: the complement of the checksum is the remainder, over GF(2), of the message followed by 64 zeros, its first 64 bits changed by the complement of the start value, on division by the generator polynomial |
| CrcPolynomial.CheckValue | src/crc64.c:102-128 | the checksum of 123456789 is 0x995dc9bbdf1939fa |
| Polynomials.TimesCoef | src/crc64.c:30-35 | the product of polynomials over GF(2) is the convolution of their coefficients |
| Polynomials.RemainderUnique | src/crc64.c:30-35 | there is one remainder only |
| CrcSlicing.FeedWord | src/crc64.c:113-122 | taking in a little-endian word at once is taking in its eight bytes bit by bit |
| CrcSlicing.LoadsAgree | src/crc64.c:140-150 | the same eight bytes loaded in the other order give the byte-reversed register |
| Crc64.Tables.Little | src/crc64.c:102-128 | for every buffer, start value and alignment, the bit-at-a-time checksum, which CrcPolynomial.ChecksumIsRemainder and CheckValue pin down |
| Crc64.Tables.Big | src/crc64.c:132-159 | for every buffer, start value and alignment, the same checksum from big-endian loads |
| Crc64.Tables.BigInit | src/crc64.c:67-75 | the big-endian table is the little-endian one with each entry reversed |
| CrcSlicing.RevRev | src/crc64.c:55-63 | reversing the bytes of a word twice gives it back |
| Crc64.Tables.Crc64 | src/crc64.c:167-171 | on a machine of either byte order, the bit-at-a-time checksum |
| CrcCombine.TimesIsBits | src/crc64.c:173-184 | multiplying by the matrix for n zero bits feeds n zero bits |
| CrcCombine.MatrixSquare | src/crc64.c:186-191 | the square of the matrix for n zero bits is that for 2n |
| CrcCombine.Combine | src/crc64.c:196-245 | the loop over the bits of the length applies exactly 8 times as many zero bits as the second block has bytes |
| CrcCombine.CombineBlocks | src/crc64.c:196-245 | the checksums of two blocks give the checksum of their concatenation |
| Crc.Combining | src/crc64.c:196-245 | the law behind it: checksum of a concatenation from those of its parts |
| Dict.Parser.Parse | src/dict.c:143-288 | the loop with its in-place tokens computes the outcome of the step function, for every text and every number of tokens; DictDerived.ParseDerived says what that is on every text of the grammar |
| DictSpans.ParseNested | src/dict.c:143-288 | whenever a text is tokenized at all, every token is closed inside the text and any two are apart or one inside the other |
| DictPrinted.ParsePrinted | src/dict.c:143-288 | tokenizing the text of a tree gives exactly the tokens of the tree: spans, kinds, and numbers of direct children |
| DictDerived.ParseDerived | src/dict.c:143-288 | tokenizing a text of the grammar gives exactly the tokens of its derivation, spans, kinds and numbers of direct children, wherever it has blanks |
| DictMarshall.LevelCountIs | src/dict.c:303-327 | dict_levelcount is the exact number of tokens of a printed subtree |
| DictMeaning.LevelCountDerived | src/dict.c:303-327 | dict_levelcount is the exact number of tokens of every value of a derivation |
| Marshal.Serialize | src/dict_marshall.c:181-382 | the printer writes exactly the text of the tree, and never past the buffer it has sized |
| Marshal.StrescMeans | src/stresc.c:5-77 | what stresc writes stands for the string it was given, for every string |
| DictMarshall.MarshallDecode | src/dict_marshall.c:15-176 | the decoder loop with its skipping computes the decoding function; counting on to tokens that were never written is Broken; DictMeaning.DecodesGrammar says what it gives on every text of the grammar |
| DictMeaning.DecodesGrammar | src/dict_marshall.c:15-176 | for every text of the grammar: the decoder gives the tree of its derivation, defined on the derivation alone |
| DictMeaning.NumberTag | src/dict_marshall.c:44-56 | a number is taken for a float if and only if it has a decimal point and no exponent |
| DictRescan.ParsePiece | src/dict_marshall.c:66-90 | every container of a tokenized text is tokenized again from its own piece of the text, and starts with a container of the same kind |
| DictRescan.NoNullChild | src/dict_marshall.c:66-90 | so a nested container never decodes to a null pointer |
| DictMarshall.PrintedComesBack | src/dict_marshall.c:15-382 | decoding the printed text of a printable tree gives the tree back |
| DictMarshall.PrintAndDecode | src/dict_marshall.c:15-382 | the same of the two loops run one after the other |
| DictCanonical.DecodedCanonical | src/dict_marshall.c:15-176 | every decoded tree is canonical: leaves of the type their text has, no bytes where a type holds none, no names in arrays |
| DictCanonical.ComesBackCanonical | src/dict_marshall.c:15-382 | a tree that comes back from its own text is canonical |
| DictCanonical.EmptyIsLost | src/dict_marshall.c:255-270 | an empty container does not come back |
| JsonCheck.Checker.Char | src/json_check.c:170-264 | one character moves the state and the in-place stack as the transition function says, or rejects |
| JsonValidity.JsonValid | src/json_check.c:272-287 | true exactly for the texts of the grammar with at most 14 containers open at once, up to a terminating zero or a negative char |
| JsonValidity.ValidDecodes | src/json_check.c:272-287 | every text that is valid has a derivation, and the decoder gives its tree |
| JsonStack.ReachableFits | src/json_check.c:170-264 | in every reachable state the stack is MODE_DONE and the brackets open outside strings, and the state says what its top is |
| JsonStack.AcceptedBalanced | src/json_check.c:266-270 | accepted texts have all brackets closed and end outside strings |
| JsonRuns.DerivedAccepted | src/json_check.c:98-287 | every text of the grammar with at most depth - 1 containers open at once is accepted |
| JsonDerivation.AcceptsGrammar | src/json_check.c:98-287 | the checker accepts a text if and only if the grammar derives it with at most depth - 1 containers open at once |
| JsonTokens.ValidTokenizes | src/json_check.c:272-287 | every ASCII text the checker accepts is tokenized, with as many tokens as characters; the tokens are closed and nested |
| JsonAgreement.Simulates | src/dict.c:143-288 | from related states on, what the checker accepts the tokenizer tokenizes |
| Sha256.Transf | src/sha2.c:183-295 | for up to 2^31 bytes of blocks, the loops over schedule and registers compute the compression of section 6.2.2 of FIPS 180-4, block after block |
| Sha512.Transf | src/sha2.c:394-486 | for up to 2^31 bytes of blocks, the loops over schedule and registers compute the compression of section 6.4.2 of FIPS 180-4, block after block |
| Sha256Functions.ChIs | src/sha2.c:10 | where the bits of the first word are set CH is the second, elsewhere the third |
| Sha256Functions.MajIs | src/sha2.c:11 | where two words agree MAJ is what they are, elsewhere the third |
| Sha256Functions.F1At | src/sha2.c:13 | bit by bit: the sum of three bits, rotated by 2, 13 and 22 |
| Sha256Functions.F2At | src/sha2.c:14 | likewise by 6, 11 and 25 |
| Sha256Functions.F3At | src/sha2.c:15 | likewise by 7 and 18, and shifted by 3 |
| Sha256Functions.F4At | src/sha2.c:16 | likewise by 17 and 19, and shifted by 10 |
| Sha512Functions.ChIs | src/sha2.c:10 | the same of 64-bit words |
| Sha512Functions.MajIs | src/sha2.c:11 | the same of 64-bit words |
| Sha512Functions.F1At | src/sha2.c:18 | bit by bit: the sum of three bits, rotated by 28, 34 and 39 |
| Sha512Functions.F2At | src/sha2.c:19 | likewise by 14, 18 and 41 |
| Sha512Functions.F3At | src/sha2.c:20 | likewise by 1 and 8, and shifted by 7 |
| Sha512Functions.F4At | src/sha2.c:21 | likewise by 19 and 61, and shifted by 6 |
| Sha2Constants.KeysAre | src/sha2.c:119-136 | sha256_k: the first 32 bits of the fractional parts of the cube roots of the first 64 primes |
| Sha2Constants.LongKeysAre | src/sha2.c:138-180 | sha512_k: the first 64 bits of those of the first 80 primes |
| Sha2Constants.StartIs | src/sha2.c:100-117 | sha256_h0 and sha512_h0: the first 32 and 64 bits of those of the square roots of the first eight primes |
| Sha2Constants.ShortStartIs | src/sha2.c:95-110 | sha384_h0: those of the next eight primes; sha224_h0: the lower halves of sha384_h0 |
| Primes.FirstPrimes | src/sha2.c:119-180 | the table of primes begins with two and leaves none out |
| Sha2Example.AbcDigest | src/sha2.c:297-486 | the digest of abc is the published one, for all four algorithms, with the padding of the code and with that of the standard |
| Sha2Stream.Context.Init | src/sha2.c:305-320 | an empty context |
| Sha2Stream.Context.Update | src/sha2.c:322-353 | where the block offsets stay in a signed int, what was fed grows by the message if and only if the 32-bit sum of lengths does not overflow |
| Sha2Stream.Context.Final | src/sha2.c:355-390 | the digest of everything fed, however it was cut into updates |
| Sha2.PaddingStandard | src/sha2.c:355-390 | the padding is that of section 5.1 of FIPS 180-4 if and only if the message is shorter than 2^29 bytes |
| Sha2.DigestIsStandard | src/sha2.c:297-390 | below 2^29 bytes the digest is the one with the standard padding, for all four algorithms; Sha2Example.AbcDigest, Sha2Constants and the lemmas on bits pin the compression down |
| Hmac.HashPieces | src/sha2.c:297-390 | any run of updates that neither overflow nor reach too far, then final: the digest of the concatenation, the standard one below 2^29 bytes |
| Hmac.Pads | src/hmac.c:88-119 | the two pads are the block-sized key with every byte masked, for every key length |
| Hmac.Hmac.constructor | src/hmac.c:88-132 | both contexts and the copies kept aside hold the masked key |
| Hmac.Hmac.Update | src/hmac.c:141-144 | the text grows by the message |
| Hmac.Hmac.Final | src/hmac.c:146-155 | the first bytes of the keyed digest of all the text |
| Hmac.Hmac.Reinit | src/hmac.c:134-139 | the context starts again under the same key |
| Hmac.HmacOf | src/hmac.c:157-165 | the keyed digest of section 2 of RFC 2104, for keys and texts below 2^29 bytes; in general that with the digests of this code |
| AesTables.SboxInverse | src/aes.c:40-88 | the two substitution tables undo each other |
| AesSubstitution.SboxIs | src/aes.c:40-60 | sbox of every byte is the affine map of its inverse in the field |
| AesField.UnmixMix | src/aes.c:177-212 | one byte of inv_mix_columns after mix_columns is the byte there was |
| AesGalois.ProductIs | src/aes.c:12-18 | the product in the field is what is left of that of the polynomials on division by x^8 + x^4 + x^3 + x + 1 |
| AesGalois.ProductUnique | src/aes.c:12-18 | and nothing else is |
| AesGalois.XtimeIs | src/aes.c:90-92 | xtime is multiplication by x in the field |
| AesGalois.MultiplesAre | src/aes.c:12-18 | the sums of terms in inv_mix_columns are multiplications in the field by {09} and {0b} |
| AesGalois.MoreMultiples | src/aes.c:12-18 | likewise by {0d} and {0e} |
| AesGalois.MixIs | src/aes.c:177-196 | a mixed column is its product with {03}x^3 + {01}x^2 + {01}x + {02} modulo x^4 + 1 |
| AesGalois.UnmixIs | src/aes.c:198-212 | an unmixed one that with {0b}x^3 + {0d}x^2 + {09}x + {0e} |
| AesGalois.AffineAt | src/aes.c:40-60 | the affine map, bit by bit |
| AesBuffer.KeyExpansion | src/aes.c:94-133 | the loop computes the key schedule, word by word from four words back |
| AesState.CipherOf | src/aes.c:135-261 | the rounds in the 4 by 4 state compute the cipher of the block |
| AesState.InvCipherOf | src/aes.c:198-277 | likewise the inverse cipher |
| Aes.CipherUndone | src/aes.c:247-277 | decryption undoes encryption, for every key schedule and block |
| AesExample.Example | src/aes.c:94-301 | the example of appendix C.1 of FIPS 197: key schedule, rounds and the ciphertext 69c4e0d86a7b0430d8cdb78070b4c55a |
| AesBuffer.Aes128.EcbEncrypt | src/aes.c:293-301 | the output block is the cipher of the input under the expanded key; AesExample.Example gives its value on the example of FIPS 197 |
| AesBuffer.Aes128.EcbDecrypt | src/aes.c:303-311 | the output block is the inverse cipher of the input under the expanded key |
| AesBuffer.Aes128.CbcEncryptBuffer | src/aes.c:313-345 | the output is the chained encryption (section 6.2 of NIST SP 800-38A) of what the input was; the input is overwritten, as the code does |
| AesBuffer.Aes128.CbcDecryptBuffer | src/aes.c:347-379 | the output is the chained decryption of the input, which stays |
| Aes.CbcUndone | src/aes.c:313-379 | chained decryption undoes chained encryption, for any number of blocks |
| Aes.CbcChains | src/aes.c:313-345 | block n of the chained encryption is the cipher of block n together with block n - 1 of the encryption, or the start block |
| AesBuffer.Aes128.CbcThereAndBack | src/aes.c:313-379 | running the two on three buffers gives the first contents back |
| SlayRow.SlayWrap | src/slay_marshall.c:52-71 | a value is written behind those before it, and what follows stays zero |
| SlayRow.UnwrapWrapped | src/slay_marshall.c:52-98 | reading a value at the start of any bytes that begin with it gives it, and its size |
| SlayStore.SlayPut | src/slay_marshall.c:100-174 | the advancing pointer and the recursion write exactly the row and the records of the storing function, also when a key is refused |
| SlayStore.SlayGet | src/slay_marshall.c:202-395 | the reading loops compute the loading function, for every row and record, sound or not |
| SlayTheory.PutGrows | src/slay_marshall.c:134-164 | storing only adds records, under keys made on the way, one key for every container below the top |
| SlayTheory.RowsCounted | src/slay_marshall.c:134-164 | with fresh keys every container below the top has a record of its own |
| SlayTheory.KidsFit | src/slay_marshall.c:116-133 | values never run over the room computed for them, whatever keys are refused |
| SlayTheory.KidsFill | src/slay_marshall.c:116-133 | with fresh keys they fill it exactly, if and only if no child carries bytes that its type does not hold |
| SlayTheory.PutGet | src/slay_marshall.c:100-395 | for every tree that slay_put accepts: a loadable one comes back, names of children and all, from any set of records that contains what storing it added; from another one comes no tree, or one of another form |
| SlayTheory.LoadsIff | src/slay_marshall.c:100-395 | with fresh keys a tree comes back if and only if it is loadable: no leaf is itself a key, no name in arrays, one for every child of a set, and in objects no unnamed child behind a named one |
| SlayStore.PutAndGet | src/slay_marshall.c:100-395 | the two methods run one after the other: the tree comes back if and only if it is loadable, whatever was stored before |
| SlayLaws.BothComeBack | src/slay_marshall.c:100-395 | of two trees stored one after the other each comes back if and only if it is loadable |
| SlayLaws.MarshallEqual | src/marshall.c:535-580 | the loops compute equality as the code has it: names of containers do not matter, texts end at a zero |
| SlayLaws.EqualSight | src/marshall.c:535-580 | two trees are equal if and only if they have one shape, the same types everywhere and the same names and data at the leaves up to the first zero |
| SlayLaws.CStringIs | src/marshall.c:535-580 | a text ends at its first zero and nowhere else |
| SlayLaws.EqualBack | src/marshall.c:535-580 | a loadable tree and what it comes back as are marshall_equal, if and only if it is a container or has no name, and no leaf carries bytes for nothing |
| SlayLaws.EqualIff | src/marshall.c:535-580 | for every tree that slay_put accepts: what comes back is marshall_equal to it, if and only if it is loadable, a container or without a name, and no leaf carries bytes for nothing |
| SlayLaws.NeverAKey | src/slay_marshall.c:202-395 | loading with descent never gives a tree that holds a key, whatever is stored |
| SlayLaws.UnnamedBehindNamed | src/slay_marshall.c:287-322 | the object of a named and then an unnamed null does not come back: the name is freed twice |
| SlayLaws.GetShallow | src/slay_marshall.c:202-395 | without descent the leaves come back, keys among them, and for each container the key it is stored under, if and only if the names at the top can be read |
| SlayLaws.QuidLeaf | src/slay_marshall.c:217-227 | a leaf at the top that is itself a key becomes what is stored under that key, or nothing |
| SlayLaws.TypeComesBack | src/slay_marshall.c:397-431 | slay_get_type of a row is the type of the tree stored |

## Left out

- BTree.Index.Insert: requires keys shorter than 64 characters with key_size equal to the length, as `char key[64]` and `strlcpy` do; every operation in search order keeps that of every item. On an index that has lost its search order only the balance, the occupancy, the store and the multiset of items are promised, and not after a deletion from it, which may leave an item with another key_size.
- BTree.Index.Delete: on an index that has lost its search order only the balance, the occupancy and the store are promised.
- BTree.Index.Search: on an index that has lost its search order nothing is promised about the result.
- Engine.Engine.Purge: keys without data (a zero offset) are left out where delete_table may take them: it reads 0 as failure and goes on to other keys, and free_dbchunk is then called on offset 0, the super block.
- Engine.Engine.UpdateData: likewise, a present key without data is left out: free_dbchunk would be called on the super block (src/engine.c:1002-1003).
- Engine.Engine.SetMeta: of the metadata only the bits that the engine itself looks at are modelled.
- Engine claims about the cache and the reuse of blocks hold within the first page, because `flush_table` and `free_dbchunk` use an offset that `pager_get_fd` has already reduced (src/engine.c:130-139, 278-292).
- EngineHeap.Heap.TakeFreed: the quotient of two sizes is compared as a fraction of integers, not as a float.
- Dict.Parser.Parse: the mode that only counts (a null token array) is not modelled; reads of the token before the first one give the outcome OUTSIDE; `count` is the number of tokens.
- DictMarshall.MarshallDecode: what the source leaves undefined (a value without a key, tokens before the first one or behind the last) gives the outcome Broken; a null child would too, but there is none (DictRescan.NoNullChild).
- Marshal.Serialize: an empty name and a missing one are the same.
- JsonValidity.JsonValid: chars are signed, so the loop ends at the first one above 127 as it does at a zero.
- SlayStore.SlayGet: what the source leaves undefined (reading past a row, null children, a freed name used again) gives the outcome Broken; rows that lead to rows without end are cut off at a depth the caller gives, where the source runs out of stack.
- SlayTheory.PutGet: keys are identified with their written form in braces, so upper and lower case differ; keys are fresh by assumption, since time and randomness make them; rows have the layout of a 64-bit little-endian machine.
- AesBuffer.Aes128.CbcEncryptBuffer: lengths are multiples of 16, key and start block are given, buffers are apart; the cipher state is copied from and to the buffer where the code casts a pointer.
- Sha2Stream.Context.Update: requires that the offsets of the blocks stay in a signed int, as C does; the loops unrolled under UNROLL_LOOPS, which the build does not define, are not modelled.
- BTreeOrder.CrowdedLosesOrder: the tree is given, not a run of operations that builds it; such a run needs deletions.
- DictMarshall.PrintedComesBack: escaped characters in the names and texts of the tree are left out; the decoder keeps escapes as they stand, so such a tree comes back with its text escaped.
- DictMeaning.DecodesGrammar: the texts are those of the grammar; of others that are tokenized DictCanonical and DictRescan say what holds.
- Sha2Example.AbcDigest: of the published examples only the one-block message; no example of a keyed digest.
- CrcCombine.CombineBlocks: `crc_file` is left out, since it hashes a whole buffer whatever was read.
- Failures of reading, writing and allocating, and the conversion of byte order on disk.
- The lock flag, super block of the engine and history; `zmalloc`, aliases, index lists.
- SQL, HTTP, the host and the helpers for strings, Base64, vectors and stacks.
