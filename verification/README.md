# Verified model of the Gunrock distributed file system

Gunrock is a small web server whose `/ds3/` service stores files. This project models three of its parts in Dafny
and proves what they promise.

1. **The file system**: a block device with an undo log, the on-disk file system built on it (bitmaps, inode table,
   packed directories, files of up to 30 direct blocks), the tool that formats an image, and the service that walks
   request paths over the file system calls.
2. **The HTTP parser**: a resumable state machine over bytes, with marks into the current buffer, and the callbacks
   that put a request together.
3. **Two codecs**: Base64, and dictionaries encoded as forms.

## How the model is built

The file system has four layers, each with the proof that it carries the one above.

- `Disk.dfy`, `LocalFileSystem.dfy`, `DistributedFileSystemService.dfy` and `Mkfs.dfy` follow the code's form: classes
  and methods with its loops over blocks, bytes, bits and directory entries, its buffers and its transactions. A block
  is seen through the member of the C union that the code uses for it: bytes (bitmaps and file data), 32 inodes, 128
  directory entries, or the superblock.
- `Volume.dfy` reads an image as one inode bitmap, one data bitmap, one inode table and one array of data blocks.
- `Storage.dfy`, `Objects.dfy`, `Namespace.dfy` and `Consistency.dfy` say when a volume is consistent and which
  namespace (files with bytes, directories with a parent and entries, by inode number) it stands for. `CreateSpec.dfy`,
  `WriteSpec.dfy`, `UnlinkSpec.dfy`, `LookupScan.dfy` and `ReadSpec.dfy` give each call as a function on volumes and
  prove what it does to the namespace. Every method is proved equal to its function.
- `Paths.dfy`, `Growth.dfy`, `PathText.dfy`, `ServiceSpec.dfy`, `ServiceTheorems.dfy`, `PutPlan.dfy`, `DeleteSpec.dfy`,
  `ServiceRuns.dfy` and `ServiceCalls.dfy` are about paths and requests; `Runs.dfy`, `Fsck.dfy`, `Accounting.dfy`,
  `Budget.dfy`, `Tables.dfy`, `ListingOrder.dfy` and `Inverse.dfy` about runs of calls, the checks of a file system
  checker, space, what a call needs, the inode table and the bitmaps, the order of entries, and undoing.

The parser has a reference (`HttpParser.dfy`, `HttpCallbacks.dfy`, `HttpSession.dfy`) that takes one byte at a time and
hands every byte over at once. `HttpExecute.dfy` is the parser as the code runs it, with marks, bulk copies of bodies
and flushing at the end of a buffer; it is proved to do exactly what the reference does. `HttpRequests.dfy` is the loop
that reads a connection piece by piece into the parser until a request is complete, and `HttpReading.dfy` says what
that comes to. `HttpSanity.dfy` and `HttpCompletion.dfy` prove invariants of all reachable states, `HttpRefusals.dfy`
which bytes are taken in each of them, `HttpMethods.dfy` for which input a method's name is compared beyond its end,
`HttpWords.dfy`, `HttpLines.dfy`, `HttpTargets.dfy` and `HttpVersions.dfy` what words, header lines, targets and versions
come to, and `HttpRequestText.dfy` and `HttpChunks.dfy` that written requests and chunked bodies are delivered as
written.

Where the code and its documentation differ, the model follows the code:

- `write` stores all of the buffer or nothing (gunrock_web/LocalFileSystem.cpp:725-728); the repository README asks for as many
  bytes as fit.
- `unlink` of a name that is not there is an error (gunrock_web/LocalFileSystem.cpp:823-828); the header says it is not.
- PUT is not one transaction (gunrock_web/DistributedFileSystemService.cpp:73-126), although the repository README asks that
  failing requests leave the disk as it was. `ServiceTheorems.PutIsNotAtomic` shows a request for which they do not,
  and `PutPlan.PutAtomicIff` says for which they do.
- GET lists a directory in the order of its entries, not sorted (gunrock_web/DistributedFileSystemService.cpp:49-66).
  `ServiceCalls.NotSorted` shows requests for which that is not the order of the names, and
  `ServiceCalls.ListedAsCreated` says which order it is.
- GET of an empty file fails inside the server, because its read of zero bytes returns an error code that is then used
  as a length (gunrock_web/DistributedFileSystemService.cpp:68-69); the reply `LengthError` stands for that.
  `ServiceTheorems.GetFailsIff` says when, and `ServiceTheorems.EmptyPut` how such a file comes about.
- DELETE of "." or ".." answers that storage is insufficient (`DeleteSpec.DotsAnswer`).
- A Base64 text with one of its two padding characters is accepted, and the last byte of the array returned for it is
  never written (`Base64Model.Base64ToBytes`).
- The parser lets any letter pass behind the first letter of CONNECT and MKCOL, in the hope of another method, and
  compares a word that is none of them beyond the end of the name (gunrock_web/http_parser.c:636-662).
  `HttpMethods.NoMethodReadsBeyond` shows an input, and `HttpMethods.ReadsBeyondIff` says for which ones that happens.
- A blank belongs to a header's name (gunrock_web/http_parser.c:153), although the comment above the table lists it among
  the separators; so "Content-Length : 5" announces a body like "Content-Length: 5" (`HttpLines.NameMeans`).
- A header line without a colon is not refused; it becomes the start of the next line's name (`HttpLines.NamesJoined`).
- A Content-Length may hold blanks and characters that the parser's table does not know between its digits, and one that
  starts with such a character is ignored (`HttpLines.LineRead`, `HttpLines.LengthRefused`).
- In the scheme of a URL a carriage return passes for a hyphen, and ten other control characters for digits, because a bit
  is set before the comparison (gunrock_web/http_parser.c:686-692); see `HttpRefusals.TakenIff`.
- The value of a header is compared without the characters that the parser's table does not know, so that some values
  that are not spelled like "chunked" count as it: `HttpLines.TabPassedOver` shows one, and `HttpLines.Conclusion` says
  which ones do.

## Model

| member | source | states |
|---|---|---|
| DiskModel.UndoRestores | gunrock_web/Disk.cpp:86-92 | for any writes in a transaction, repeated blocks included, replaying the log front to back over the resulting image gives what it would have given before them |
| DiskModel.LastWriteStays | gunrock_web/Disk.cpp:80-132 | a committed transaction keeps the last write to every block that it wrote |
| DiskModel.UnwrittenStays | gunrock_web/Disk.cpp:80-115 | a block that no write names keeps its data |
| DiskModel.Disk.WriteBlock | gunrock_web/Disk.cpp:80-115 | one block changes, its old data goes to the front of the log inside a transaction, and the image a rollback would restore stays the same |
| DiskModel.Disk.BeginTransaction | gunrock_web/Disk.cpp:117-123 | from then on a rollback would restore the current image |
| DiskModel.Disk.Commit | gunrock_web/Disk.cpp:125-132 | the image stays and the log is dropped |
| DiskModel.Disk.Rollback | gunrock_web/Disk.cpp:134-142 | the loop of writes restores the image that the transaction started from |
| Layout.MkfsLayoutIsGood | gunrock_web/mkfs.c:65-95 | the regions follow each other without gap or overlap and are large enough, and their sizes add up to the total that is formatted |
| Layout.RegionsPartition | gunrock_web/mkfs.c:72-95 | every block below the total lies in exactly one region |
| Layout.AddressesStayInRegion | gunrock_web/LocalFileSystem.cpp:119-130 | every address computed from a valid number falls in the region meant for it, so block 0 is never written, and distinct inodes never share a slot or a bit |
| Mkfs.Format | gunrock_web/mkfs.c:97-183 | the image has the computed layout, exactly inode 0 and data block 0 are in use, inode 0 is the root directory with one pointer and 29 that are -1, and all other blocks are zero, whatever the memory held that is written out uninitialised |
| Mkfs.OnlyRootConsistent | gunrock_web/mkfs.c:122-183 | such a volume is consistent, and its namespace is an empty root |
| Bits.WithBitIs | gunrock_web/LocalFileSystem.cpp:254-258 | setting or clearing a bit of a byte changes that bit and no other |
| Volume.BitsAfterWrite | gunrock_web/LocalFileSystem.cpp:702-741 | the division and mask code that sets or clears bit n of a bitmap of several blocks changes bit n of the whole bitmap and no other |
| Volume.ViewInode | gunrock_web/LocalFileSystem.cpp:132-156 | the bit and the slot that `stat` reads are bit and element n of the flattened bitmap and table |
| LocalFileSystemModel.LocalFileSystem.Stat | gunrock_web/LocalFileSystem.cpp:132-156 | succeeds exactly on allocated inodes, and then returns the inode |
| LocalFileSystemModel.LocalFileSystem.Lookup | gunrock_web/LocalFileSystem.cpp:90-117 | the scan of whole blocks, which ignores the size, returns what the name means in the directory, dots included |
| LocalFileSystemModel.LocalFileSystem.Read | gunrock_web/LocalFileSystem.cpp:158-197 | returns the least of the size asked for and the object's size, with the first bytes of the file, or entries of the directory |
| LocalFileSystemModel.LocalFileSystem.TakeLowestBit | gunrock_web/LocalFileSystem.cpp:271-292 | the nested loops find the lowest clear bit of the whole bitmap, set only that bit, and fail exactly if all are set |
| LocalFileSystemModel.LocalFileSystem.Create | gunrock_web/LocalFileSystem.cpp:199-415 | image and result are those of the function `Create`, of which `Budget.CreateAnswers` and `Budget.CreateBudget` say what it answers and does; the transaction is closed; on an error every block is as at entry |
| LocalFileSystemModel.LocalFileSystem.Write | gunrock_web/LocalFileSystem.cpp:665-772 | image and result are those of the function `Write`, of which `Budget.WriteAnswers` and `WriteSpec.WriteRefines` say what it answers and does; the transaction is closed; on an error every block is as at entry |
| LocalFileSystemModel.LocalFileSystem.Unlink | gunrock_web/LocalFileSystem.cpp:775-918 | image and result are those of the function `Unlink`, of which `UnlinkSpec.UnlinkAnswers` and `UnlinkSpec.UnlinkRefines` say what it answers and does; the transaction is closed; on an error every block is as at entry |
| LocalFileSystemModel.LocalFileSystem.PlaceEntry | gunrock_web/LocalFileSystem.cpp:316-338 | the scan for a free place stops right behind the last entry, and misses exactly if the directory's blocks are full |
| LocalFileSystemModel.LocalFileSystem.GrowBlocks | gunrock_web/LocalFileSystem.cpp:697-731 | takes the lowest clear bits one after the other, and fails exactly if fewer bits below the number of data blocks are clear than it needs |
| LocalFileSystemModel.LocalFileSystem.ShrinkBlocks | gunrock_web/LocalFileSystem.cpp:732-743 | clears exactly the bits of the blocks behind the new size |
| LocalFileSystemModel.LocalFileSystem.RemoveFromDirectory | gunrock_web/LocalFileSystem.cpp:866-896 | moving the entries down, writing the blocks back and freeing the last one removes exactly one entry |
| LocalFileSystemModel.LocalFileSystem.HasEntries | gunrock_web/LocalFileSystem.cpp:836-858 | tells a directory with entries other than the dots from an empty one |
| CreateSpec.CreateRefines | gunrock_web/LocalFileSystem.cpp:199-415 | an error changes nothing, an existing object of the right type is returned unchanged, and otherwise exactly one empty object is added under exactly the name; the volume stays consistent |
| CreateSpec.CreateNewRefines | gunrock_web/LocalFileSystem.cpp:239-414 | a new object takes the lowest free inode and is entered last into its parent, whether or not that needs a new block |
| WriteSpec.WriteRefines | gunrock_web/LocalFileSystem.cpp:665-772 | an error changes nothing, and otherwise the file's content is the buffer and no other object changes; the volume stays consistent |
| WriteSpec.WriteReusesBlocks | gunrock_web/LocalFileSystem.cpp:696-743 | growing, shrinking or not, a written file has just as many blocks as it needs, and its leading ones are its old ones |
| CreateSpec.CreateSucceedsIff | gunrock_web/LocalFileSystem.cpp:199-415 | creating an absent name succeeds exactly if the name is a good one, an inode is free, a data block for a directory and one more for a parent whose blocks are full, and such a parent has a pointer left |
| WriteSpec.WriteSucceedsIff | gunrock_web/LocalFileSystem.cpp:672-731 | a write succeeds exactly for one to 30 blocks of bytes, into a file, with as many data blocks free as the file lacks |
| Tables.CreateTables | gunrock_web/LocalFileSystem.cpp:241-414 | creating an absent name sets the bits of the lowest free inode and of the lowest free blocks that it needs, and of the inode table it changes exactly the new inode, which keeps its stale pointers, and the parent's size and, if the parent was full, its next pointer |
| Tables.WriteTables | gunrock_web/LocalFileSystem.cpp:696-768 | a write sets and clears exactly the bits of the blocks that the file gains and loses, and changes its inode alone, pointers to freed blocks becoming -1 |
| Tables.UnlinkTables | gunrock_web/LocalFileSystem.cpp:866-914 | a removal clears the bits of the inode, of its blocks and of an emptied directory block, whose pointer becomes -1, and leaves the removed inode as it is |
| WriteSpec.TakeClearFits | gunrock_web/LocalFileSystem.cpp:697-731 | so many bits can be taken below a limit exactly if so many are clear there |
| WriteSpec.TakeClearFresh | gunrock_web/LocalFileSystem.cpp:697-731 | the blocks that are taken were free, and none is taken twice |
| WriteSpec.TakeClearLowest | gunrock_web/LocalFileSystem.cpp:702-729 | every bit below one that is taken was set, or is taken earlier in the same call |
| UnlinkSpec.UnlinkRefines | gunrock_web/LocalFileSystem.cpp:775-918 | an error changes nothing, and otherwise exactly the entry and its object, a file or an empty directory, are gone; the volume stays consistent |
| UnlinkSpec.UnlinkAnswers | gunrock_web/LocalFileSystem.cpp:775-858 | which answer `unlink` gives, for every name and number: what a dot, an empty or absent name, a directory that is none, and one with entries are answered, and that all else succeeds |
| Objects.AddEntryGood | gunrock_web/LocalFileSystem.cpp:316-397 | the directory's entry list gets the entry at its end, and all places past its size stay unused |
| Objects.RemoveEntryGood | gunrock_web/LocalFileSystem.cpp:866-882 | the entry list loses the entry, the rest keep their order across blocks, and all places past the size are unused |
| Objects.FileBlocksHold | gunrock_web/LocalFileSystem.cpp:750-768 | the blocks that are written hold the buffer, whatever follows it in the last block |
| LookupScan.ScansAgree | gunrock_web/LocalFileSystem.cpp:813-821 | the scan that stops at the size finds, for every name, what the directory's entry list says |
| LookupScan.ScanFound | gunrock_web/LocalFileSystem.cpp:104-114 | the first match in whole blocks is what the name means, so stale entries past the size never match |
| LookupScan.ScanMissed | gunrock_web/LocalFileSystem.cpp:104-116 | without a match in whole blocks the name is absent |
| ReadSpec.ReadAfterWrite | gunrock_web/LocalFileSystem.cpp:158-197 | after a successful write a read returns the first bytes of the buffer, and of every other object what it would have returned before |
| ReadSpec.ReadAnswers | gunrock_web/LocalFileSystem.cpp:158-197 | which answer `read` gives, said of the namespace: the two errors, and otherwise how many bytes of which content, the dots included |
| Namespace.LookupIn | gunrock_web/LocalFileSystem.cpp:90-117 | a lookup ends at an object, or is an invalid inode exactly if it is not made in a directory, or "not found"; dots are always found |
| Namespace.EnteredNamed | gunrock_web/LocalFileSystem.cpp:316-411 | entering a new object under an absent name keeps names unique, every object named once, and the names a tree |
| Namespace.RemovedNamed | gunrock_web/LocalFileSystem.cpp:866-914 | so does removing a file or an empty directory, although later entries change their places |
| Runs.StepRefines | gunrock_web/LocalFileSystem.cpp:199-918 | every call, successful or not, keeps the volume consistent and does to the namespace what the plain operation does |
| Runs.RunRefines | gunrock_web/LocalFileSystem.cpp:199-918 | the namespace after any run of calls is the plain operations' |
| Runs.ReachableConsistent | gunrock_web/mkfs.c:59-183 | in every state reachable from a fresh image by any calls the volume is consistent, and its namespace is what the same calls make of an empty root |
| Fsck.OwnedIffPasses | gunrock_web/LocalFileSystem.cpp:299-411 | the storage half of consistency holds exactly if a data bit is set if and only if exactly one live pointer names the block |
| Fsck.InodeBitsMatchNames | gunrock_web/LocalFileSystem.cpp:294-338 | an inode bit is set exactly if the inode is the root or some entry names it, and then only one does |
| Fsck.DirectoriesStartWithDots | gunrock_web/LocalFileSystem.cpp:299-314 | every directory starts with "." naming itself and ".." naming the directory that holds its name |
| Accounting.DataBitsConserved | gunrock_web/LocalFileSystem.cpp:696-743 | the number of set data bits is the sum of the blocks of all objects |
| Accounting.InodeBitsConserved | gunrock_web/LocalFileSystem.cpp:271-338 | the number of set inode bits is one plus the number of entries other than the dots |
| Accounting.SpaceLeft | gunrock_web/LocalFileSystem.cpp:241-297 | what is free for the allocators is what the objects leave |
| Accounting.WriteShare | gunrock_web/LocalFileSystem.cpp:696-743 | a write takes or gives back exactly the difference in blocks, and no inode |
| Accounting.CreateShare | gunrock_web/LocalFileSystem.cpp:241-371 | a creation takes one inode, one block for a directory and one more exactly if its parent's blocks were full |
| Accounting.UnlinkShare | gunrock_web/LocalFileSystem.cpp:884-914 | a removal gives back one inode, the object's blocks and one of its directory's exactly if that block is empty now |
| Budget.CreateBudget | gunrock_web/LocalFileSystem.cpp:199-415 | creating an absent name succeeds exactly if its directory can take it and the volume has room for the namespace that comes of it, which is then the namespace |
| Budget.CreateAnswers | gunrock_web/LocalFileSystem.cpp:199-415 | which answer `create` gives: an invalid name exactly for none, dots and more than 27 characters, an invalid inode exactly outside a directory, an existing object's number or an invalid type exactly as it is what is asked for, and otherwise the lowest number that is free exactly if there is room |
| Budget.WriteAnswers | gunrock_web/LocalFileSystem.cpp:665-731 | which answer `write` gives: its errors by length, number, kind and room, in this order, and otherwise the length |
| Inverse.CreateThenUnlink | gunrock_web/LocalFileSystem.cpp:775-918 | creating an absent name and removing it restores both bitmaps bit for bit and the whole namespace, also if the entry needed a new block |
| Paths.OnePath | gunrock_web/DistributedFileSystemService.cpp:27-39 | in a consistent namespace every object has exactly one path of plain names |
| Paths.CreatedAtPath | gunrock_web/LocalFileSystem.cpp:199-415 | creating an object adds exactly its path, and its name at the end of its directory's list |
| Paths.WrittenAtPath | gunrock_web/LocalFileSystem.cpp:665-772 | writing a file changes what is found at its path, and nothing else |
| Paths.RemovedAtPath | gunrock_web/LocalFileSystem.cpp:775-918 | removing an object removes exactly its path, and its name from its directory's list, in place |
| PathText.JoinCut | gunrock_web/DistributedFileSystemService.cpp:78-101 | cutting a path at its slashes loses nothing |
| PathText.NamesHaveNoSlash | gunrock_web/DistributedFileSystemService.cpp:78-101 | none of the names it is cut into holds a slash |
| Growth.WalkAfterRemoval | gunrock_web/DistributedFileSystemService.cpp:27-39 | after an object is removed exactly the walks, dots included, that came by it fail; all others lead where they led |
| Paths.WalkEnds | gunrock_web/DistributedFileSystemService.cpp:27-39 | a walk fails exactly if it comes to a file with names left, or to a directory without the next name, and which of the two its result tells |
| DistributedFileSystemServiceModel.DistributedFileSystemService.Get | gunrock_web/DistributedFileSystemService.cpp:23-71 | the answer is the file's bytes, the directory's listing, or "not found", as the path's walk through the namespace says |
| DistributedFileSystemServiceModel.DistributedFileSystemService.ListEntries | gunrock_web/DistributedFileSystemService.cpp:50-66 | the loop lists all entries but the dots, in their order, directories with a slash |
| DistributedFileSystemServiceModel.DistributedFileSystemService.Put | gunrock_web/DistributedFileSystemService.cpp:73-126 | volume and answer are those of the function `Put`, of which `PutPlan.PutAnswers` and `PutPlan.PutSucceedsIff` say what it answers and does |
| DistributedFileSystemServiceModel.DistributedFileSystemService.Del | gunrock_web/DistributedFileSystemService.cpp:128-174 | volume and answer are those of the function `Delete`, of which `DeleteSpec.DeleteAnswers` and `DeleteSpec.DeleteEffect` say what it answers and does; a request that is refused leaves every block as it was |
| ServiceTheorems.PutEffect | gunrock_web/DistributedFileSystemService.cpp:73-126 | a successful PUT makes the path lead to a file with exactly the content and keeps every other object; a failing one loses nothing and adds only directories on the way and at most an empty file at its end |
| ServiceTheorems.PutThenGet | gunrock_web/DistributedFileSystemService.cpp:23-126 | after a successful PUT, GET of the path answers the content, and GET of any path that led to another file answers as before |
| ServiceTheorems.PutIsNotAtomic | gunrock_web/DistributedFileSystemService.cpp:89-105 | on a fresh volume PUT of a name with a slash behind it is refused, and yet leaves a new directory |
| ServiceTheorems.GetFailsIff | gunrock_web/DistributedFileSystemService.cpp:67-70 | GET fails inside the server exactly for a path that leads to an empty file |
| ServiceTheorems.EmptyPut | gunrock_web/DistributedFileSystemService.cpp:111-122 | on a fresh volume PUT of a good name without content is refused for lack of storage, and yet leaves an empty file, for which GET fails |
| ServiceTheorems.GetAnswers | gunrock_web/DistributedFileSystemService.cpp:23-71 | which answer GET gives: 404 exactly if the walk meets a file or misses a name, a file's bytes, and for a directory one line for each entry in order, with a slash behind exactly the names of directories |
| PutPlan.PutSucceedsIff | gunrock_web/DistributedFileSystemService.cpp:73-126 | PUT succeeds exactly if its names can be planned, room not being asked for, and the volume has room for all missing directories, the file and its content; and then the namespace is the planned one |
| PutPlan.PutNewPathIff | gunrock_web/DistributedFileSystemService.cpp:73-126 | PUT of a path that is missing from some name on succeeds exactly if its names are good, the last directory there can take one more entry, and there are as many free inodes and data blocks as new directories, the file, its content and a full directory need |
| PutPlan.PutAtomicIff | gunrock_web/DistributedFileSystemService.cpp:73-126 | PUT succeeds or leaves the volume as it was exactly if there is room for all that it comes by, or the first thing missing on its way cannot be named or has no room, or nothing is missing |
| PutPlan.PutAnswers | gunrock_web/DistributedFileSystemService.cpp:73-126 | which answer PUT gives: 400 exactly unless the directories on the way can be planned, find room and end in a directory, for a last name that is not empty; then 507 exactly unless the file can be named, is one, and finds room with its content |
| DeleteSpec.DeleteEffect | gunrock_web/DistributedFileSystemService.cpp:128-174 | DELETE succeeds exactly if the path names, without dots, a file or an empty directory, and otherwise changes nothing |
| DeleteSpec.DeleteAnswers | gunrock_web/DistributedFileSystemService.cpp:128-174 | which answer DELETE gives: 400 exactly for a file on the way or an empty last name, 404 exactly for a missing name, 403 exactly for a directory with entries, 507 exactly for dots |
| DeleteSpec.DeleteThenGet | gunrock_web/DistributedFileSystemService.cpp:23-174 | after a successful DELETE, GET of the path is "not found", as is GET of every path whose walk came by the object; all other files answer as before |
| DeleteSpec.DotsAnswer | gunrock_web/DistributedFileSystemService.cpp:157-170 | exactly a DELETE by dots in an existing directory is answered as if storage were insufficient |
| ListingOrder.CreatedInOrder | gunrock_web/LocalFileSystem.cpp:199-918 | after any run of calls from a fresh image, every directory has its entries in the order in which what they name was last created |
| ServiceCalls.RequestsAreCalls | gunrock_web/DistributedFileSystemService.cpp:23-174 | the volume after any requests is the volume after the calls that they make |
| ServiceCalls.ListedAsCreated | gunrock_web/DistributedFileSystemService.cpp:49-66 | after any requests to a fresh volume, GET lists a directory's names in the order in which they were last created |
| ServiceCalls.NotSorted | gunrock_web/DistributedFileSystemService.cpp:49-66 | PUT of "b" and then of "a" on a fresh volume is listed as "b" and "a" |
| ServiceRuns.FilesPersist | gunrock_web/DistributedFileSystemService.cpp:23-174 | a stored file reads the same after any requests under other plain names, successful or not |
| ServiceRuns.LastPutWins | gunrock_web/DistributedFileSystemService.cpp:23-174 | from a fresh volume, after any requests, a successful PUT and any requests under other plain names, GET answers what was put |
| HttpSession.FeedConcat | gunrock_web/http_parser.c:400-1581 | feeding two texts one after the other is feeding them together, up to the position of a byte that is not taken |
| HttpReading.CutsUnobservable | gunrock_web/http_parser.c:376-398 | cut anywhere into any number of pieces, the input ends, complete, short or bad, as it does when it is read at once, with the same parser and the same request, unless a piece follows the one that completes the request |
| HttpReading.ReadStops | gunrock_web/HTTPRequest.cpp:85-96 | as soon as the request is complete, and not before, reading stops, and the pieces behind are not touched |
| HttpReading.EmptyPieceFails | gunrock_web/HTTPRequest.cpp:98-103 | a piece without bytes before that fails |
| HttpRequests.HTTPRequest.OnRead | gunrock_web/HTTPRequest.cpp:98-123 | a piece is read exactly if it is not empty, the request is not yet complete, and its bytes, one by one, are taken; giving the parser once more what it left never helps |
| HttpRequests.HTTPRequest.ReadRequest | gunrock_web/HTTPRequest.cpp:85-96 | the loop of calls ends as the pieces, taken byte by byte, say, with the parser and the request that they make, and leaves exactly the pieces behind |
| HttpSanity.SaneStep | gunrock_web/http_parser.c:400-1566 | every byte keeps an invariant under which no assertion of the parser fails, the index fits its byte, and no method but CONNECT and MKCOL has its name compared beyond its end |
| HttpSanity.SaneFeed | gunrock_web/http_parser.c:400-1566 | for any input the invariant is kept as far as bytes are taken, and no assertion of the parser fails |
| HttpRefusals.TakenIff | gunrock_web/http_parser.c:400-1566 | in every reachable state a byte is taken exactly if it is one of those that are listed for it, state by state, and the head is not at its limit |
| HttpMethods.ReadsBeyondIff | gunrock_web/http_parser.c:604-663 | a method's name is compared beyond its end exactly if the input, behind any line ends, starts with a word that goes on past CONNECT or MKCOL without a blank at the name's end and without a letter that tells another method from it, for two bytes more than the name, none of them NUL; and where |
| HttpMethods.NoMethodReadsBeyond | gunrock_web/http_parser.c:636-662 | a word of seven letters for which that happens |
| HttpMethods.MethodsStayWithin | gunrock_web/http_parser.c:604-663 | for every method that is written in full it does not |
| HttpMarks.FlushedAtEntry | gunrock_web/http_parser.c:383-398 | the marks set on entry stand for no text that is not handed over yet |
| HttpMarks.Inside | gunrock_web/http_parser.c:764-1351 | one more byte inside a token extends what its mark stands for by that byte |
| HttpBulk.BulkIdentity | gunrock_web/http_parser.c:1450-1461 | copying many bytes of a body of known length at once is taking them one by one, its completion included |
| HttpBulk.BulkChunk | gunrock_web/http_parser.c:1532-1549 | copying many bytes of a chunk at once is taking them one by one |
| HttpExecute.HTTP.Execute | gunrock_web/http_parser.c:352-1586 | with marks, bulk copies and the final flush, a call takes its whole buffer exactly if the bytes, one by one, are taken and no assertion fails; then parser and request are theirs; and a call that stops on bad input stops at the byte that is not taken |
| HttpExecute.HTTP.AddData | gunrock_web/HTTP.cpp:186-195 | a finished request takes no more data, any other is parsed further |
| HttpCompletion.CompleteMeans | gunrock_web/HTTP.cpp:78-135 | whatever the input, a request that a new parser calls complete has a finished head with at least one header, and one of the six methods GET, HEAD, POST, PUT, DELETE and MOVE |
| HttpCompletion.HeadIsBounded | gunrock_web/http_parser.c:401-407 | whatever the input, a head of more than 81920 bytes is not taken |
| HttpCallbacks.FieldInPieces | gunrock_web/HTTP.cpp:371-381 | a name that is handed over in two pieces is the name that is handed over at once |
| HttpCallbacks.ValueInPieces | gunrock_web/HTTP.cpp:67-76 | and so it is for a value |
| HttpWords.GuessStep | gunrock_web/http_parser.c:604-663 | a method that starts like another is recognised at the letter that tells them apart |
| HttpWords.SearchStep | gunrock_web/http_parser.c:1048-1182 | the search for names that mean something is in step with the name read so far |
| HttpWords.SearchFinds | gunrock_web/http_parser.c:58-65 | a name means something to the parser exactly if it is one of five words and nothing but blanks behind it |
| HttpLines.NameMeans | gunrock_web/http_parser.c:1030-1182 | what the parser has made of a header's name, read byte by byte, is which of the five words it is, in any case and with any blanks behind it |
| HttpTargets.TargetRead | gunrock_web/http_parser.c:664-925 | a target, whether a path alone or behind a scheme, a host and a port, with or without a query, is taken apart into URL, path and query |
| HttpTables.TokenTable | gunrock_web/http_parser.c:143-175 | the characters of a name, and what they are read as, entry by entry of the table |
| HttpTables.AcceptableTable | gunrock_web/http_parser.c:99-135 | the characters of a value that are looked at, and what they are read as, entry by entry |
| HttpTables.UrlTable | gunrock_web/http_parser.c:190-223 | the characters of a URL: all visible ones but the number sign and the question mark |
| HttpTables.HexTable | gunrock_web/http_parser.c:178-187 | the value of every hexadecimal digit, and that nothing else below 128 has one |
| HttpVersions.VersionRead | gunrock_web/http_parser.c:930-1028 | any version of two numbers up to 999, or none, with any blanks in front and either line end, is taken to the end of the line |
| HttpVersions.MajorRefused | gunrock_web/http_parser.c:968-990 | digits that are more than 999 or start with a zero are not taken as the major number |
| HttpVersions.MinorRefused | gunrock_web/http_parser.c:993-1021 | digits that are more than 999 are not taken as the minor number |
| HttpRequestText.LinesRead | gunrock_web/HTTP.cpp:50-92 | header lines, each handed over in pieces, join the request's list whole and in their order, and the last "Host" is its host |
| HttpLines.LineRead | gunrock_web/http_parser.c:1030-1375 | a whole header line, with any blanks behind its colon and either line end, adds its name and value to the request and has exactly the effect on flags and length that name and value call for |
| HttpLines.LengthRefused | gunrock_web/http_parser.c:1250-1306 | a Content-Length whose first character is looked at is refused if it is no digit, or if a later one that is looked at is neither a digit nor a blank |
| HttpLines.NamesJoined | gunrock_web/http_parser.c:1191-1201 | a line without a colon is taken, and its text becomes the start of the next line's name |
| HttpLines.Conclusion | gunrock_web/http_parser.c:1206-1371 | at the end of a value the parser has found "chunked", "keep-alive" or "close" exactly if the value's known characters are that word and blanks |
| HttpRequestText.RequestRoundTrip | gunrock_web/http_parser.c:595-1561 | every written request, with line ends in front, blanks between its parts, any version or none, either kind of line end, and its body whole or in chunks, read in pieces cut anywhere, is complete with the last piece and delivered with its method, path, query, headers in order, host and body; the exceptions are exactly requests without headers and those with another method than GET, HEAD, POST, PUT, DELETE and MOVE, which fail an assertion |
| HttpRequestText.ProtocolLeft | gunrock_web/http_parser.c:1377-1419 | CONNECT, and a header Upgrade with a value, stop the parser at the last byte of the head |
| HttpRequestText.TextStarts | gunrock_web/http_parser.c:76-96 | the text of a request has the name of its method in front, spelled out for each of the six |
| HttpChunks.WriteChunk | gunrock_web/HttpUtils.cpp:29-39 | sends the length in hexadecimal, the data and the line ends |
| HttpChunks.WriteLastChunk | gunrock_web/HttpUtils.cpp:41-43 | sends the empty chunk |
| HttpChunks.WriteBody | gunrock_web/HttpUtils.cpp:29-43 | all chunks and the last one, sent one after the other, are a body in chunks as the round trip reads it |
| HttpChunks.HexRead | gunrock_web/http_parser.c:1472-1505 | one or more hexadecimal digits, small or capital, are read as their value |
| HttpChunks.SizeRefused | gunrock_web/http_parser.c:1472-1505 | no chunk is without a length, and nothing but parameters or the end of the line follows it |
| HttpChunks.ChunkedRoundTrip | gunrock_web/http_parser.c:1472-1561 | a body in chunks, their lengths written in any hexadecimal digits and with any parameters, is delivered as the data of its chunks, and the message is complete exactly at the last byte, read in pieces cut anywhere, for seven methods and no other |
| HttpChunks.SentRoundTrip | gunrock_web/HttpUtils.cpp:29-43 | whatever the writer sends is delivered as it was handed to it |
| HttpChunks.CompletionOf | gunrock_web/HTTP.cpp:388-395 | the end of a message finishes exactly requests with one of seven methods |
| Base64Model.BytesToBase64 | gunrock_web/shared/Base64.cpp:170-179 | the loop gives the encoding of all bytes |
| Base64Model.Base64ToBytes | gunrock_web/shared/Base64.cpp:205-255 | for every text the outcome is the decoding's, every write stays inside the array, and the announced length is the decoded one, one more exactly if one of two padding characters is left |
| Base64Model.RoundTrip | gunrock_web/shared/Base64.cpp:85-255 | decoding an encoding gives back the bytes, with all, some or none of the padding, and the announced length is right except with one of two padding characters left |
| Base64Model.UrlSafeRoundTrip | gunrock_web/shared/Base64.cpp:193-198 | the URL-safe form has neither of the two characters, and nothing is lost |
| Base64Model.EncodedAt | gunrock_web/shared/Base64.cpp:125-163 | character k of the encoding is the letter of the alphabet for six bits of the data from bit 6k on, or is padding behind them |
| Base64Model.AlphabetRead | gunrock_web/shared/Base64.cpp:56-82 | a character of the alphabet of 64 is read as its place in it, the padding as 0, and nothing else is read |
| Base64Model.DecodeAnswers | gunrock_web/shared/Base64.cpp:85-255 | which texts are decoded, and which of the two errors the others get: a length one more than a multiple of four, or a character that is neither of the alphabet nor padding in its place |
| Base64Model.UrlSafeDecodes | gunrock_web/shared/Base64.cpp:56-82 | the decoder takes the URL-safe form back exactly if no six bits of the data have the value 62 or 63 |
| Base64Model.UrlSafeLoses | gunrock_web/shared/Base64.cpp:56-82 | one byte that it does not take back |
| StringUtilsModel.SplitWithDelimiter | gunrock_web/shared/StringUtils.cpp:6-31 | the loop gives the tokens of the string |
| StringUtilsModel.TokensOf | gunrock_web/shared/StringUtils.cpp:6-31 | the tokens put together are the string, each is a delimiter or a piece without one, and no two pieces are neighbours |
| StringUtilsModel.TokensUnique | gunrock_web/shared/StringUtils.cpp:6-31 | no other list of tokens has these properties |
| StringUtilsModel.Split | gunrock_web/shared/StringUtils.cpp:33-47 | the tokens that are not delimiters, in order |
| WwwFormEncodedDictModel.UrlRoundTrip | gunrock_web/shared/WwwFormEncodedDict.cpp:58-101 | decoding gives back what was encoded exactly for strings of seven-bit characters |
| WwwFormEncodedDictModel.DecodeAnswers | gunrock_web/shared/WwwFormEncodedDict.cpp:76-101 | a text is decoded exactly if behind its percent signs there are two characters that are read as a number; each such number is a byte, and the rest stays |
| WwwFormEncodedDictModel.UrlEncodedAt | gunrock_web/shared/WwwFormEncodedDict.cpp:58-73 | at its place in the encoded text, a letter or digit stands for itself, and any other seven-bit character is a percent sign and its two hexadecimal digits |
| WwwFormEncodedDictModel.UrlEncodedText | gunrock_web/shared/WwwFormEncodedDict.cpp:58-73 | the encoded text has letters, digits and percent signs only, and is the text itself exactly if that has only letters and digits |
| WwwFormEncodedDictModel.EncodedEntries | gunrock_web/shared/WwwFormEncodedDict.cpp:45-56 | an encoded dictionary is its entries, each a key, an equals sign and a value, with an ampersand in front of all but the first |
| WwwFormEncodedDictModel.DictRoundTrip | gunrock_web/shared/WwwFormEncodedDict.cpp:15-56 | parsing what was encoded gives back the dictionary exactly if no key and no value is empty and all characters are seven-bit |
| WwwFormEncodedDictModel.ParseAnswers | gunrock_web/shared/WwwFormEncodedDict.cpp:15-29 | a body is parsed exactly if each of its pairs is two texts that are not empty and are decoded; then the dictionary holds them and nothing else, of several with one key the last |
| WwwFormEncodedDictModel.WwwFormEncodedDict.Load | gunrock_web/shared/WwwFormEncodedDict.cpp:15-29 | parses the pairs one after the other, and fails on a pair that is not a key and a value |
| WwwFormEncodedDictModel.WwwFormEncodedDict.Encode | gunrock_web/shared/WwwFormEncodedDict.cpp:45-56 | writes every entry once, by ascending keys, as `EncodedEntries` says |

## Left out

- File descriptors, `fsync`, image-size checks and power loss inside a call. A block number out of range ends the
  process in the code; here it is a precondition of `ReadBlock` and `WriteBlock`, and every call is proved to meet it.
- The bytes of one block seen through two members of a union: a bitmap block is never read as entries, and so on. What
  a buffer's memory happens to hold (the tail of a last file block, the uninitialised inodes and entries of a fresh
  image) is an arbitrary parameter.
- Buffers as memory: blocks are read and written as values, so that aliasing of the C buffers is not modelled. The
  unused bytes of a 28-byte name field behind its end are not modelled either.
- `int` overflow of file offsets, sizes and `content_length`, which are unbounded here.
- LocalFileSystemModel.LocalFileSystem.Read: for an empty object and a positive size the code follows the first pointer
  that is not 0, which may be stale; that it names a block of the image is a precondition. The service never reads
  like that.
- LocalFileSystemModel.LocalFileSystem.Create: the type is a directory or a regular file, as with all callers.
- The commented-out second `create`, the unused `getAndSetFreeInodeNumIndex`, `getAndSetFreeDataBlockIndex` and
  `writeInodeRegion`, and the functions that read and write whole bitmaps.
- Sockets but for the pieces that they give, counters of bytes, TLS, threads, logging, `gunrock.cpp`, the HTTP client,
  static files, authentication, and the command-line tools. The service is given the path behind its prefix, and its
  answers are values, not the text of a response.
- Responses: `http_parser.c` is modelled for requests, in strict mode. States of responses, a body that lasts to the end
  of the connection, and `getProxyRequest` and `getReplyHeader` are not modelled. After a byte that is not taken, only
  that the parser is dead is modelled, not what its other fields hold.
- HttpExecute.HTTP.Execute: for the input of `HttpMethods.ReadsBeyondIff` the call stops here where the code goes on and
  compares with whatever memory follows the method's name; "exactly if" does not describe the code there. A failed
  assertion and a null pointer end the process in the code; here they are one outcome, and what was collected by then
  is not compared.
- HttpExecute.HTTP.AddData: stops on the same input.
- HttpRequests.HTTPRequest.OnRead: fails on the same input; and a request that leaves the protocol (the method CONNECT, or
  the header Upgrade) fails, as the parser stops behind its headers, while the code then completes it, and lets CONNECT
  leave a line feed over.
- HttpRequests.HTTPRequest.ReadRequest: ends on these two kinds of input as `OnRead` does.
- What `sscanf` makes of anything but two hexadecimal digits is left open, as a parameter of the decoder.
- `HttpUtils.split` and `HttpUtils.params`.
