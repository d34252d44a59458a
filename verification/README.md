# Verification of pboBank

A model of the hardest parts of pboBank in Dafny, with proofs. `dafny verify dfyconfig.toml` checks all of it.

## What is modelled

**The Java object-stream writer** (`a3sync.cpp`, `a3sync.h`). `sync_writer.dfy` is the writer as classes: an output
buffer, and a context with the handle counter, the table of definitions and the parent stack. Each of its methods is
proved equal to the emission of `sync_wire.dfy`, a function of the tree and the bookkeeping.
`java_stream_reader.dfy` is a reader that knows nothing of the writer. It follows the grammar of section 6.4 of the Java
Object Serialization Specification, keeps the handle table of section 6.4.1, learns every class from its descriptor and
reads values by the fields it found there. `sync_tree.dfy` turns what it read into a tree, checking classes and parents.
The proof carries an agreement between the writer's bookkeeping and the reader's table through every nested call
(`sync_read_back.dfy`, `sync_definitions.dfy`, `sync_nodes.dfy`, `sync_directories.dfy`); `sync_counting.dfy` has the
closed forms for handles and bytes, `reader_soundness.dfy` what holds of the reader on any input, and
`sync_theorems.dfy`, `sync_references.dfy`, `sync_long_strings.dfy` and `sync_send.dfy` the main results. `sync_bytes.dfy`
and `sync_one_stream.dfy` write down what is on the wire in numbers, without the constants that writer and reader share.

**The compression cache** (`compressionCache.*`, `sendFile`). `cache_protocol.dfy` is a step system: any number of
sessions, takeover threads and cached readers, one action a micro-step of one thread, with the two halves of a write
and of doneWriting apart. The environment decides which client goes away, when, and which read breaks down.
`cache_invariant.dfy` and `cache_steps.dfy` hold the invariant and its proof, `cache_results.dfy` what clients are
promised, `cache_progress.dfy` and `cache_orphans.dfy` who is released and who is not, `cache_following.dfy` that
readers take what is there, `cache_cut_short.dfy` who gets less than the stream. `cached_file.dfy` and `compressed_files.dfy` are the classes of the source and its loops, on the
same operations. `throttle.dfy` is the sleep of the takeover thread, with reals for doubles and unsigned 64-bit words.

**The file bank** (`fileManager.cpp`, `modManager.cpp`, `global.h`). `hex.dfy` goes from digest to text to number to
path and back; `bank.dfy` compresses and uncompresses the files of a mod over a file system that is a map, with zlib as
an abstract pair of functions.

**Mods** (`files.*`, `modManager.cpp`). `mods.dfy` has the comparison, addMod over any sequence of calls, and the
manager that keeps mods unique. The sort is known by its contract only.

## Where the code does not do what it is for

Each of these is proved, with the exact condition under which the code does what it is for.

- `a3sync.h:35` joins magic and version with `&`, so the header is 0 and no receiver accepts a stream
  (`SyncTheorems.HeaderDecides`). With the right header a tree gets across exactly when its strings fit 16 bits and its
  handles suffice (`SyncTheorems.RoundTrip`).
- `a3sync.cpp:14` sends the length of a string in 16 bits and nothing checks it. A name of 65536 bytes can make one tree
  leave as the bytes of another, which the receiver takes for what was sent (`SyncLongStrings.AnotherTree`). No shorter
  strings can (`SyncLongStrings.LongestString`).
- The takeover thread tests eof() only. If its stream breaks down it reads nothing for ever, the entry is never
  finished, and its readers wait for ever (`CacheProgress.FinishesUnlessStuck`). This can happen to every cached file
  whose stream fills a chunk, and to no other (`CacheOrphans.WhoGetsStuck`).
- A session whose stream breaks down finishes its entry early, and all later readers take the part for the whole
  (`CacheCutShort.CutShortForGood`). This can happen to every cached file with a stream that is not empty, and to no
  other (`CacheCutShort.WhoIsCutShort`).
- `compressionCache.cpp:83` subtracts unsigned numbers, so a chunk that was slower than allowed costs a whole second
  (`Throttle.SleepsNoLonger`, `Throttle.SecondForNothing`). A chunk that was faster may sleep too little for the limit
  or longer than it asks (`Throttle.KeepsLimit`, `Throttle.SleepsTooLong`, inputs in `Throttle.TooLittleAndTooMuch`).
- Compressing and uncompressing a mod turns missing files into empty ones, removes compressed files that were there
  before, and replaces a file that is listed twice by what the decompressor makes of an empty input, if it gets through
  at all (`Banks.Restored`, `Banks.RoundTripAt`).
- addMod removes duplicates by object and sorts by name and version; the two agree only if mods are unique by name and
  version (`Mods.NormalForm`, `Mods.TwiceInTheList`).

## Model

| member | source | states |
|---|---|---|
| SyncTheorems.RoundTrip | src/pboBank/pboBank/a3sync.cpp:137-331 | The bytes sent for a tree, closed with TC_NULL, decode to exactly that tree, with every parent field resolving to the enclosing directory, if and only if the tree starts with a directory, every string is at most 65535 bytes long and at most 2^31 handles are needed |
| SyncTheorems.NeverAnotherTree | src/pboBank/pboBank/a3sync.cpp:137-331 | When the strings fit, the receiver gets the tree that was sent or refuses the stream; it never gets a different tree |
| SyncLongStrings.StreamsDiffer | src/pboBank/pboBank/a3sync.cpp:12-16 | Different trees leave as different bytes, as long as their strings fit and the handles of one suffice |
| SyncLongStrings.AnotherTree | src/pboBank/pboBank/a3sync.cpp:12-16 | With a name of 65536 bytes, whose length goes out as 0, a tree leaves as the very bytes of a different tree, and the receiver gets that one |
| SyncLongStrings.LongestString | src/pboBank/pboBank/a3sync.cpp:12-16 | A limit on the length of strings rules out that any tree arrives as a different one if and only if the limit is at most 65535 |
| SyncTheorems.SharingKeepsMeaning | src/pboBank/pboBank/a3sync.cpp:137-203 | Sending every class descriptor once and a reference afterwards decodes to the same tree as sending every descriptor in full |
| SyncTheorems.SimpleRoundTrip | src/pboBank/pboBank/a3sync.cpp:144-170 | The writer that sends every descriptor in full gets a tree across exactly when its strings fit and 8 D + 7 L handles suffice; so sharing also carries larger trees |
| SyncTheorems.ClassesAtMostOnce | src/pboBank/pboBank/a3sync.cpp:138-146 | In the handle table a receiver builds, no two class entries have the same class name |
| SyncTheorems.HandlesAgree | src/pboBank/pboBank/a3sync.cpp:254-329 | After a whole tree the receiver has assigned exactly 5 + 3 (D + L) handles, one more if there is a leaf, and the length of the stream is a closed form in D, L and the string lengths |
| SyncTheorems.LeafAtRootRefused | src/pboBank/pboBank/a3sync.cpp:217-224 | A leaf at the root refers to type strings that nobody has sent; every such stream is refused |
| SyncTheorems.DecodedStringsFit | src/pboBank/pboBank/a3sync.cpp:12-16 | For any bytes at all: a tree that decodes has only strings that fit a 16-bit length |
| SyncTheorems.HeaderDecides | src/pboBank/pboBank/a3sync.h:33-35 | A stream is accepted exactly when its header is AC ED 00 05 and the round trip holds; the header the source computes with a bitwise and is 0 |
| SyncTheorems.NullHandleRefused | src/pboBank/pboBank/a3sync.cpp:217-218 | A field type that refers to handle 0, which is what an unset definition holds, is refused whatever follows |
| SyncSend.SendTree | src/pboBank/pboBank/a3sync.cpp:56-104 | The imperative top level sends header 0, the tree and TC_NULL; as sent it decodes to nothing, and with the right header it decodes to the tree exactly when strings and handles fit |
| SyncBytes.StreamBytes | src/pboBank/pboBank/a3sync.cpp:56-104 | The whole stream of any tree in numbers: a header of zeros, the 220 bytes of SyncTreeDirectory, the flags, the 43 bytes of ArrayList, the size, 77 04, the size again, the children from handle 0x7E0007 on, 78, the name as 74 with its length, and 70 |
| SyncBytes.DirectoryClassBytes | src/pboBank/pboBank/a3sync.cpp:144-170 | The descriptor of SyncTreeDirectory, tag by tag and field by field in hexadecimal numbers and text, without the constants that writer and reader share |
| SyncBytes.ListClassBytes | src/pboBank/pboBank/a3sync.cpp:179-190 | The same for ArrayList |
| SyncBytes.LeafClassBytes | src/pboBank/pboBank/a3sync.cpp:201-227 | The same for SyncTreeLeaf, with 71 and the handle of the type string behind each of its three object fields |
| SyncBytes.SharedClassBytes | src/pboBank/pboBank/a3sync.cpp:138-142 | A class that was sent before is 73 71 and its handle |
| SyncBytes.DirectoryBytes | src/pboBank/pboBank/a3sync.cpp:288-329 | Any directory, anywhere: descriptor, four flags of one byte each, descriptor of the list, size, 77 04, size, children, 78, name, and 71 with the handle of the enclosing directory unless it is the root |
| SyncBytes.LeafBytes | src/pboBank/pboBank/a3sync.cpp:254-266 | Any leaf: descriptor, flags and 64-bit sizes in turn, 74 and the name, 71 and the handle of the directory, 74 and the hash |
| SyncBytes.ClassLengths | src/pboBank/pboBank/a3sync.cpp:137-228 | The three descriptors written there have 220, 43 and 153 bytes |
| SyncOneStream.OneStream | src/pboBank/pboBank/a3sync.cpp:56-104 | One stream with a directory and a file, number by number, names, negative size and all |
| SyncOneStream.DirectoryClassNumbers | src/pboBank/pboBank/a3sync.cpp:144-170 | The same descriptor with its text as numbers |
| SyncOneStream.LeafClassNumbers | src/pboBank/pboBank/a3sync.cpp:201-227 | The same descriptor with its text as numbers, for the handles of a first leaf |
| SyncCounting.FreshCount | src/pboBank/pboBank/a3sync.h:55-61 | instanceCount ends at 0x7E0000 + 5 + 3 (D + L) + (1 if L > 0), for every tree in a fresh context |
| SyncCounting.FreshLength | src/pboBank/pboBank/a3sync.cpp:230-331 | The length of the output is 247 + 35 D + 36 L + all names and hashes, and 147 more if there is a leaf |
| SyncCounting.CountsNode | src/pboBank/pboBank/a3sync.cpp:269-331 | From any context a subtree with D directories and L leaves takes 3 (D + L) handles plus those of the definitions that were not known, and makes exactly those known |
| SyncCounting.MeasuresNode | src/pboBank/pboBank/a3sync.cpp:269-331 | The same for bytes: the length of a subtree depends on D, L, the text and the definitions known before |
| SyncCounting.DefinitionLengths | src/pboBank/pboBank/a3sync.cpp:137-228 | A descriptor takes 220, 43 or 153 bytes the first time and 6 bytes each time after |
| SyncDirectories.ReadsDirectory | src/pboBank/pboBank/a3sync.cpp:269-331 | Handle agreement through a directory: a receiver whose table agrees with the writer before the call gets the directory back and agrees after it, at any depth and any position of the stream |
| SyncDirectories.ReadsList | src/pboBank/pboBank/a3sync.cpp:306-320 | The same for the list of a directory: the receiver knows the directory under the handle on the parent stack while its list is still being read |
| SyncDirectories.ReadsChildren | src/pboBank/pboBank/a3sync.cpp:315-320 | The same after every child of the loop, and the children resolve to that directory as their parent |
| SyncDirectories.ReadsNode | src/pboBank/pboBank/a3sync.cpp:316-318 | The same for every nested serialize call, leaf or directory |
| SyncDirectories.ReadsParent | src/pboBank/pboBank/a3sync.cpp:326-329 | A parent reference is read as the object that the handle on top of the stack stands for; the root reads the null of its caller |
| SyncDirectories.HandlesGrow | src/pboBank/pboBank/a3sync.cpp:254-325 | Every node takes at least three handles, so the handle of an object is never given out again |
| SyncNodes.ReadsLeaf | src/pboBank/pboBank/a3sync.cpp:230-267 | Handle agreement through a leaf, with all its fields back and its parent resolved to the enclosing directory |
| SyncNodes.ReadsLeafNumbers | src/pboBank/pboBank/a3sync.cpp:256-260 | The five primitive fields of a leaf are read back by the fields of its descriptor, 64-bit sizes with their sign |
| SyncNodes.ReadsLeafObjects | src/pboBank/pboBank/a3sync.cpp:261-266 | Name, parent reference and hash of a leaf are read back and take exactly two handles |
| SyncNodes.ReadsParentValue | src/pboBank/pboBank/a3sync.cpp:263-264 | A reference to a directory that is still open is read as that object |
| SyncDefinitions.ReadsDirectoryDefinition | src/pboBank/pboBank/a3sync.cpp:137-170 | Whether in full or as a reference, the receiver reads the class SyncTreeDirectory, and every nonzero definition is the handle of the first occurrence of its item |
| SyncDefinitions.ReadsArrayListDefinition | src/pboBank/pboBank/a3sync.cpp:172-192 | The same for ArrayList, with the handle of the list object counted |
| SyncDefinitions.ReadsLeafDefinition | src/pboBank/pboBank/a3sync.cpp:194-228 | The same for SyncTreeLeaf, whose field types are references to the type strings that the directory class introduced |
| SyncDefinitions.ClassesDiffer | src/pboBank/pboBank/a3sync.cpp:146-203 | The three class names are pairwise different, so a reference to one is never a reference to another |
| SyncReadBack.ReadsNewClass | src/pboBank/pboBank/a3sync.cpp:144-170 | A full descriptor is read back field by field and assigns one handle to the class and one to every new type string, and is refused exactly when the table has no room |
| SyncReadBack.ReadsFields | src/pboBank/pboBank/a3sync.cpp:151-167 | A list of field descriptors of any length reads back with its types |
| SyncReadBack.ReadsUtf | src/pboBank/pboBank/a3sync.cpp:12-16 | A string with a 16-bit length in front is read back when it fits |
| SyncReadBack.ReadsReference | src/pboBank/pboBank/a3sync.cpp:139-141 | A written reference reads as the table entry of that handle |
| ReaderSoundness.ObjectSound | src/pboBank/pboBank/a3sync.cpp:261-266 | For any bytes: in a value the reader returns, every string and every object has the handle of an entry of the table that says so, and every back-reference to an object names one |
| SyncReferences.BackReferences | src/pboBank/pboBank/a3sync.cpp:138-142 | In the output for any tree, every back-reference that a reader meets was written where it stands and names a handle assigned before that point of the stream: one of the three classes where a class is read, the type string of a field of the class being read where a type is read, and as the parent of a node the directory in whose list the node lies, which is still being written |
| SyncReferences.ObjectGood | src/pboBank/pboBank/a3sync.cpp:217-224 | The same for any bytes whose value has only such parents: the references met on the way are sound |
| SyncReferences.AllAreMet | src/pboBank/pboBank/a3sync.cpp:263-264 | For any bytes: the references met as values are exactly those of the value that is read, in order, so none is missed |
| SyncReferences.NodeRefs | src/pboBank/pboBank/a3sync.cpp:263-264 | A value that stands for a tree refers to enclosing directories only, at any depth |
| ReaderSoundness.ReferencesByPlace | src/pboBank/pboBank/a3sync.cpp:139-141 | For any bytes and any place: what a reader accepts as a reference where a class, a type or a value is read, given the handles assigned so far |
| JavaStreamReader.ReadHandle | src/pboBank/pboBank/a3sync.cpp:139-141 | A reference is accepted only if its handle was assigned before that point of the stream |
| ReaderSoundness.ClassDescSound | src/pboBank/pboBank/a3sync.cpp:138-142 | For any bytes: reading a class descriptor only adds to the table, apart from completing the entry of the class itself |
| SyncWriter.SerializeDirectory | src/pboBank/pboBank/a3sync.cpp:269-331 | The method that appends to the buffer and updates counter, definitions and parent stack adds exactly the bytes and the bookkeeping that the round trip is proved about, and leaves the stack as it was |
| SyncWriter.SerializeList | src/pboBank/pboBank/a3sync.cpp:306-320 | The list of a directory, between the push and the pop of the stack |
| SyncWriter.SerializeChildren | src/pboBank/pboBank/a3sync.cpp:316-318 | The loop over the children, against the recursive meaning of the whole list |
| SyncWriter.SerializeNode | src/pboBank/pboBank/a3sync.cpp:316-318 | The virtual call: the right emission for either kind of node |
| SyncWriter.SerializeLeaf | src/pboBank/pboBank/a3sync.cpp:254-266 | A leaf: exactly its emission, three handles counted besides its descriptor |
| SyncWriter.SerializeDirectoryDefinition | src/pboBank/pboBank/a3sync.cpp:137-170 | The definition writer: reference or full descriptor by the table, with the four handles it notes |
| SyncWriter.SerializeArrayListDefinition | src/pboBank/pboBank/a3sync.cpp:172-192 | The definition writer of ArrayList, with the extra handle on both paths |
| SyncWriter.SerializeLeafDefinition | src/pboBank/pboBank/a3sync.cpp:194-228 | The definition writer of SyncTreeLeaf |
| SyncWriter.WriteReference | src/pboBank/pboBank/a3sync.cpp:139-141 | A reference as it goes out |
| SyncWriter.Output.WriteInt64 | src/pboBank/pboBank/a3sync.cpp:18-30 | Eight pushes of single bytes are the big-endian form of the number |
| SyncWriter.Output.WriteInt32 | src/pboBank/pboBank/a3sync.cpp:32-38 | Four pushes of single bytes are the big-endian form of the number |
| SyncWriter.Output.WriteInt16 | src/pboBank/pboBank/a3sync.cpp:40-44 | Two pushes are the big-endian form of the number, higher bytes cut off |
| SyncWriter.Output.WriteBool | src/pboBank/pboBank/a3sync.cpp:46-48 | One byte, 1 or 0 |
| SyncWriter.Output.WriteString | src/pboBank/pboBank/a3sync.cpp:12-16 | The type byte unless it is 0, the 16-bit length, the bytes |
| SyncWriter.Context.GetInstance | src/pboBank/pboBank/a3sync.h:55-57 | The counter before the call, which moves on by one |
| SyncWriter.Context.constructor | src/pboBank/pboBank/a3sync.h:50-60 | Three zeros on the stack, the counter at 0x7E0000, no definition known |
| Bytes.BigEndianIsBytes | src/pboBank/pboBank/a3sync.cpp:19-37 | Byte i of the big-endian form is byte k - 1 - i of the integer in memory, for any width |
| Bytes.SignedBigEndian | src/pboBank/pboBank/a3sync.cpp:18-38 | A signed number of any width comes back from its big-endian bytes |
| CacheSteps.NextKeepsInv | src/pboBank/pboBank/compressionCache.cpp:31-182 | Every micro-step of every thread keeps the invariant that ties entries, compressors, owners, readers and the size of the cache together |
| CacheSteps.RunKeepsInv | src/pboBank/pboBank/compressionCache.cpp:31-182 | So does every run of any length, any number of sessions and readers, in any interleaving |
| CacheResults.Transparency | src/pboBank/pboBank/compressionCache.cpp:158-182 | In every reachable state a cached reader has taken exactly the first curPos bytes of the compressed stream, its client has a prefix of them, and at its eof() all of the entry, which is the whole stream exactly when the compressor got to the end of it |
| CacheResults.WholeStreams | src/pboBank/pboBank/fileServer.cpp:14-45 | Every client that stayed to the end has the whole stream unless its own stream broke down, that of its session or the one that filled the cache with its file, whatever happened to others; a takeover thread that ends always leaves the whole stream in the cache |
| CacheResults.CopyCanWait | src/pboBank/pboBank/compressionCache.h:36-42 | A reader that need no longer wait copies the same bytes however far the others get before it does |
| CacheResults.BufferDiscipline | src/pboBank/pboBank/compressionCache.h:44-61 | Between any two moments of any run: eof stays within the buffer and equals its length once finished, bytes below eof never change, and a finished entry never changes at all |
| CacheResults.NextGrows | src/pboBank/pboBank/compressionCache.h:44-61 | The same for each micro-step, between insert and the move of eof as well |
| CacheResults.OneOwner | src/pboBank/pboBank/fileServer.cpp:29-34 | In every reachable state an unfinished entry has a live thread that works on it, and no entry has two |
| CacheResults.Accounting | src/pboBank/pboBank/compressionCache.cpp:31-49 | In every reachable state cacheSize is the sum of the sizes of the cached files, all of them below the threshold, and no file has had two caching compressors |
| CacheResults.LaterRequestsRead | src/pboBank/pboBank/compressionCache.cpp:35-56 | Once a file is cached, every later request makes a reader on the same entry and changes nothing else |
| CacheResults.FullChunks | src/pboBank/pboBank/compressionCache.h:36-42 | A chunk that leaves the cache has the requested length, or it ends a finished entry |
| CacheResults.EntryIsProduced | src/pboBank/pboBank/compressionCache.h:56-61 | A finished entry is exactly what its one compressor produced |
| CacheResults.RunInParts | src/pboBank/pboBank/compressionCache.cpp:31-182 | Runs compose: what holds after every run holds at every moment of one |
| CacheSteps.HandoverKeepsInv | src/pboBank/pboBank/fileServer.cpp:29-34 | When a client goes away the session retires and the takeover thread becomes the one owner, with the invariant kept |
| CacheSteps.LocalFetch | src/pboBank/pboBank/compressionCache.cpp:115-132 | A read leaves the chunk on its way between stream, entry and client: what has been sent plus the chunk is what the stream has produced, also when the read breaks down half-way |
| CacheSteps.FetchedFacts | src/pboBank/pboBank/compressionCache.cpp:115-132 | A read takes the next n bytes of the stream or what is left; it sets both bits exactly when fewer than n are left, and failbit alone exactly when the environment breaks it, after the bytes that still pass |
| CacheSteps.LocalDecide | src/pboBank/pboBank/fileServer.cpp:16-21 | Only the end of the file lets a chunk of a failed read go out |
| CacheSteps.CopyIsStream | src/pboBank/pboBank/compressionCache.h:36-42 | What a reader copies after it has waited is the stretch of the stream behind its position |
| CacheFollowing.ReadersDoNotWait | src/pboBank/pboBank/compressionCache.h:36-42 | From every reachable state: a reader with a connected client and a whole chunk in front of it, in an entry that is finished, still being filled or stuck, has taken that chunk of the stream after six turns of its own, under any scheduling, unless its client goes away |
| CacheFollowing.RunTakes | src/pboBank/pboBank/compressionCache.h:36-42 | The same by its place: one to six turns, from the last step before the position moves to the first |
| CacheSteps.FetchAsks | src/pboBank/pboBank/compressionCache.cpp:75 | A session asks for its own chunk size and a takeover thread for its own, and each gets as much while the stream has as much |
| CacheSteps.ClientGets | src/pboBank/pboBank/fileServer.cpp:22-28 | A client gets all of a chunk, or the part that passed before it went away |
| CacheProgress.FinishesUnlessStuck | src/pboBank/pboBank/compressionCache.cpp:73-76 | In every reachable state an entry can still be finished by some continuation if and only if it is not stuck: unfinished, with a takeover thread whose stream has failed before its end |
| CacheProgress.StuckForever | src/pboBank/pboBank/compressionCache.cpp:73-76 | A stuck entry stays stuck in every continuation: the takeover thread never calls fail(), so nothing calls doneWriting |
| CacheProgress.StuckReadersWait | src/pboBank/pboBank/compressionCache.h:36-39 | No reader of a stuck entry ever comes to its end while its client stays |
| CacheProgress.Release | src/pboBank/pboBank/compressionCache.cpp:73-76 | Under any scheduling, once its owner, whichever thread that is by then, has had more than 10 (n + 1) + 9 turns the entry of a stream of n bytes is finished or stuck |
| CacheProgress.BoundedWork | src/pboBank/pboBank/compressionCache.cpp:73-76 | The steps an owner still takes are bounded by a measure that other threads cannot raise |
| CacheProgress.OwnerNeverBlocked | src/pboBank/pboBank/compressionCache.cpp:73-76 | While an entry is unfinished a step of its owner is possible and changes the state |
| CacheProgress.OwnerNears | src/pboBank/pboBank/fileServer.cpp:14-35 | Each step of the owner finishes the entry, lowers the measure, or is the breakdown that makes it stuck |
| CacheProgress.OthersLeave | src/pboBank/pboBank/compressionCache.cpp:115-156 | No other thread changes the entry, the compressor or the place of an owner |
| CacheOrphans.WhoGetsStuck | src/pboBank/pboBank/compressionCache.cpp:73-76 | A file can get stuck if and only if it is below the threshold and its stream fills at least one chunk of a session |
| CacheOrphans.GetsStuck | src/pboBank/pboBank/fileServer.cpp:29-34 | The run that gets there: one chunk, the client gone, a failing read under the takeover thread |
| CacheOrphans.ReliableNeverStuck | src/pboBank/pboBank/compressionCache.cpp:73-76 | A file does not get stuck in any run in which no read for its own entry breaks down, whatever breaks down elsewhere |
| CacheOrphans.ReadersComeToTheirEnd | src/pboBank/pboBank/compressionCache.h:28-43 | Once its entry is finished, a reader is at its own end after 8 r + 7 turns, r the number of chunks in the entry, whatever the other threads do |
| CacheOrphans.RoundsSuffice | src/pboBank/pboBank/fileServer.cpp:14-15 | r chunks hold n bytes and r - 1 do not |
| CacheOrphans.ReaderIsServed | src/pboBank/pboBank/compressionCache.cpp:73-76 | The whole promise to a waiting reader: if no read for its own entry breaks down, then after enough turns of the owner of the entry and of the reader, in any interleaving, with any other clients going away and any other streams breaking down, the reader is at its end and its client, if still there, has the whole stream |
| CacheCutShort.WhoIsCutShort | src/pboBank/pboBank/compressionCache.cpp:140-145 | Some run leaves a connected reader of a file at its end with less than the stream if and only if the file is below the threshold and its stream is not empty |
| CacheCutShort.GetsCutShort | src/pboBank/pboBank/fileServer.cpp:15-21 | The run that gets there: the first read of a session breaks down, and the next client gets nothing and takes it for all |
| CacheCutShort.CutShortForGood | src/pboBank/pboBank/compressionCache.cpp:52-56 | Once an entry was finished with a part of the stream nothing repairs it: in every continuation later requests are served from it, no reader of it has the whole stream, and each that comes to its end is cut short |
| CacheOrphans.OtherThreadStays | src/pboBank/pboBank/fileServer.cpp:6-35 | No thread changes the state of another |
| CachedFiles.CachedFile.Read | src/pboBank/pboBank/compressionCache.h:28-43 | Whether finished or not, a file that has as many bytes behind the position as asked for gives just those at once; with fewer, a finished file gives what is left and an unfinished one makes the reader wait |
| CachedFiles.CachedFile.Write | src/pboBank/pboBank/compressionCache.h:44-50 | Appends and moves eof, or returns 0 and changes nothing once finished |
| CachedFiles.CachedFile.DoneWriting | src/pboBank/pboBank/compressionCache.h:56-61 | Puts eof at the end and finishes the file |
| CachedFiles.WritingKeepsDiscipline | src/pboBank/pboBank/compressionCache.h:44-61 | Writing and finishing keep eof within the buffer and the bytes below it; finishing twice is finishing once, and a write after it changes nothing |
| CachedFiles.CopiesStay | src/pboBank/pboBank/compressionCache.h:36-42 | A copy a reader could make it could make later with the same result |
| CompressedFiles.CompressedFileCompressing.Read | src/pboBank/pboBank/compressionCache.cpp:115-132 | A read delivers what the protocol says and writes it to the cached file, which stays in step with the stream |
| CompressedFiles.CompressedFileCompressing.Fail | src/pboBank/pboBank/compressionCache.cpp:140-145 | The fail bit; if it is set the cached file is finished |
| CompressedFiles.CompressedFileCompressing.Eof | src/pboBank/pboBank/compressionCache.cpp:147-152 | The eof bit; if it is set the cached file is finished |
| CompressedFiles.CompressedFileCached.Read | src/pboBank/pboBank/compressionCache.cpp:158-164 | A full chunk at once if the entry has one behind the position, finished or not; the rest of a finished entry otherwise; and nothing but a wait in an unfinished one. The position moves by as many bytes and stays below eof |
| CompressedFiles.CompressedFileCached.Eof | src/pboBank/pboBank/compressionCache.cpp:178-182 | At the end of a finished entry, or without an entry |
| CompressedFiles.CompressionCache.GetCompressedFileBuffer | src/pboBank/pboBank/compressionCache.cpp:31-58 | A reader on the existing entry, or a new compressor with a new empty entry if the file is below the threshold; the books stay right, no two files share an entry, and entries, size and kind of stream are those of the request in the step system |
| CompressedFiles.CompressionCache.AddFileToCache | src/pboBank/pboBank/compressionCache.cpp:43-47 | One more entry, empty and its own object, with its size counted |
| CompressedFiles.RequestedCache | src/pboBank/pboBank/compressionCache.cpp:31-58 | The request of the protocol changes entries and size in the same way |
| CompressedFiles.NextChunk | src/pboBank/pboBank/fileServer.cpp:15-22 | The next stretch of the stream, unless the read failed before the end |
| CompressedFiles.SendCompressed | src/pboBank/pboBank/fileServer.cpp:14-35 | The loop of sendFile and its three endings: the client gets the whole stream; or a read broke down and the client, though it stayed, gets a prefix; or the client went away with a prefix. The cached file is finished exactly when the stream has failed or ended |
| CompressedFiles.Takeover | src/pboBank/pboBank/compressionCache.cpp:73-76 | The loop of the takeover thread over any number of rounds and any breakdowns: if it ends, all of the stream is in a finished file; if it has not ended in more rounds than the stream has bytes, a read broke down and the file is unfinished |
| CompressedFiles.Serve | src/pboBank/pboBank/fileServer.cpp:29-34 | Session and takeover together, with any breakdowns: the cached file has all of the stream, or a read broke down and it was finished with a part under the session, or is unfinished under the takeover thread |
| CompressedFiles.SendCached | src/pboBank/pboBank/fileServer.cpp:14-45 | sendFile on a finished entry of n bytes delivers all of it in at most n / size + 1 reads |
| Throttle.SleepBounds | src/pboBank/pboBank/compressionCache.cpp:78-87 | The sleep after a chunk is between 0 and 1,000,000 microseconds, for every chunk, time and limit |
| Throttle.EmptyChunk | src/pboBank/pboBank/compressionCache.cpp:77-87 | An empty chunk, which is what every read of a broken stream gives, costs a whole second |
| Throttle.InstantChunk | src/pboBank/pboBank/compressionCache.cpp:79-87 | A chunk that took no time counts as one microsecond and costs one |
| Throttle.BrokenTakeover | src/pboBank/pboBank/compressionCache.cpp:74-87 | A takeover thread whose stream has broken down sleeps a second for every read, however long they took |
| Throttle.SleepIsWait | src/pboBank/pboBank/compressionCache.cpp:87 | The sleep is the wait to the nearest microsecond, cut off at a second |
| Throttle.FastChunk | src/pboBank/pboBank/compressionCache.cpp:82-87 | A chunk that came faster than the limit allows makes the thread sleep at most as long as the chunk took |
| Throttle.SlowChunk | src/pboBank/pboBank/compressionCache.cpp:82-87 | A chunk that came slower makes the unsigned difference wrap around, and the thread sleeps for the whole second, as long as the shortfall is at most 2^64 less a million times the size of the chunk |
| Throttle.SleepsNoLonger | src/pboBank/pboBank/compressionCache.cpp:82-87 | For every chunk and limit: the thread sleeps at most as long as the chunk took if and only if the chunk was not slower than allowed, or took a second anyway, or 2^64 less the allowed bytes, times twice the time, is below the size of the chunk |
| Throttle.ServerSleepsNoLonger | src/pboBank/pboBank/fileServer.cpp:33 | At the 7 MB/s of the server, for chunks up to 1 MiB that took less than a second: if and only if the chunk has at least 7340 bytes for every whole millisecond it took |
| Throttle.SecondForNothing | src/pboBank/pboBank/compressionCache.cpp:82-87 | 7000 bytes in a millisecond are below the limit of the server and cost a second |
| Throttle.KeepsLimit | src/pboBank/pboBank/compressionCache.cpp:82-87 | For every chunk below 2^64 bytes and every limit: chunk and sleep together keep to the limit if and only if the chunk was slower than allowed, needs no sleep, or needs one of n microseconds, at most a million, with (2 n - 1) times its size at most twice the excess over the allowed bytes times its time |
| Throttle.SleepsTooLong | src/pboBank/pboBank/compressionCache.cpp:82-87 | The sleep is longer than the limit asks for if and only if the chunk was slower than allowed or the same inequality holds for one microsecond more |
| Throttle.SleepAtLeast | src/pboBank/pboBank/compressionCache.cpp:87 | The rounded and cut-off sleep of a fast chunk in whole microseconds: exactly when it is n or more |
| Throttle.NeededIsLeast | src/pboBank/pboBank/compressionCache.cpp:82-87 | The sleep a chunk needs is the least one that keeps to the limit |
| Throttle.WaitIsEnough | src/pboBank/pboBank/compressionCache.cpp:82-84 | The wait before it is rounded and cut off keeps to the limit if and only if the chunk was slower than allowed or a condition without division holds |
| Throttle.TooLittleAndTooMuch | src/pboBank/pboBank/fileServer.cpp:33 | Four chunks that are possible under the server, by their actual sleeps: 20000 bytes in 2 milliseconds miss the limit, 10000 bytes in 999 microseconds sleep 999 where 364 would do, and two where rounding alone makes the limit missed or kept |
| Throttle.WaitsTooLittle | src/pboBank/pboBank/compressionCache.cpp:82-84 | Measured by the allowed bytes instead of the limit, the wait of a fast chunk is never too long, and long enough only for a chunk of just the allowed size |
| Throttle.WaitsTooLittleForLimit | src/pboBank/pboBank/compressionCache.cpp:82-84 | Where whole milliseconds lose nothing, a fast chunk keeps to the limit if and only if it has just the allowed size |
| Throttle.TotalBound | src/pboBank/pboBank/compressionCache.cpp:73-88 | Over any sequence of fast chunks the sleeps add up to no more than the times |
| Hex.PathCodec | src/pboBank/pboBank/fileManager.cpp:186-194 | A string decodes to a number if and only if it is the path that the builder makes of that number, which is then below 2^128 |
| Hex.GetServerPathFromMD5 | src/pboBank/pboBank/fileManager.cpp:186-194 | The loop that inserts slashes from right to left yields sixteen groups of two digits, each with a slash behind it |
| Hex.PathSpellsDigest | src/pboBank/pboBank/fileManager.cpp:171-194 | Digest to text to number to path: group k of the path is the two digits of byte k of the digest, 0 to 9 or lower-case a to f by character ranges, and a slash, leading zeros included |
| Hex.FilePathIs | src/pboBank/pboBank/fileManager.cpp:193 | The path of a file by its parts, and nothing else is that path: base directory, sixteen groups of two digits and a slash, file name |
| Hex.HexCharacters | src/pboBank/pboBank/fileManager.cpp:136-150 | Characters 2 k and 2 k + 1 are the high and the low half of byte k, as 0 to 9 or lower-case a to f, by character codes and without a table of digits |
| Hex.ValueOfCharacter | src/pboBank/pboBank/global.h:48-51 | What strtol takes for a digit: the ten digits and the letters a to f, upper and lower case alike |
| Hex.StrtolOfPair | src/pboBank/pboBank/global.h:48-51 | What strtol makes of any two characters: signs, spaces, one digit and a character that is none, and two that are none included |
| Hex.ByteFromPair | src/pboBank/pboBank/global.h:47-53 | Byte k is what strtol makes of characters 2 k and 2 k + 1, or of the last character alone if the length is odd |
| Hex.NothingIsRefused | src/pboBank/pboBank/global.h:45-55 | Inputs that are no hexadecimal text and still give bytes |
| Hex.FilePathIsInjective | src/pboBank/pboBank/fileManager.cpp:98 | Different pairs of hash and file name never share a path in the bank |
| Hex.NumberIsBytes | src/pboBank/pboBank/fileManager.cpp:188 | The padded hexadecimal form of a 128-bit number is two digits for each of its sixteen bytes |
| Hex.Bin2Hex | src/pboBank/pboBank/fileManager.cpp:136-150 | Two lower-case digits for every byte, from a stream that pads with zeros; the digits themselves are in Hex.HexCharacters |
| Hex.ParsedBytes | src/pboBank/pboBank/fileManager.cpp:171 | The number read from the digits of a digest is the digest as a big-endian number |
| Hex.HexToBytes | src/pboBank/pboBank/global.h:45-55 | Pairs of characters through strtol, also for an odd length, signs, spaces and characters that are no digits |
| Hex.HexRoundTrip | src/pboBank/pboBank/global.h:45-55 | HexToBytes gives back every byte sequence that bin2hex wrote |
| Hex.TextRoundTrip | src/pboBank/pboBank/global.h:45-55 | A text comes back from its bytes if and only if it is pairs of lower-case digits |
| Banks.Restored | src/pboBank/pboBank/fileManager.cpp:198-231 | For any list of files none of which is the twin of another, repetitions allowed: uncompressing after compressing gives the identical file system if and only if every file was there, none had a compressed twin, and each that is listed twice held just what the decompressor makes of an empty input |
| Banks.RoundTripAt | src/pboBank/pboBank/fileManager.cpp:198-231 | For such a list, every file system and every path: whether the round trip gets through, and what it leaves there, for missing files, repeated files and old twins too |
| Banks.ModRestored | src/pboBank/pboBank/modManager.cpp:37-47 | For a mod of different files, no name with the suffix of the twins: the bank is restored if and only if every file was there without a twin |
| Banks.CompressedAt | src/pboBank/pboBank/fileManager.cpp:198-214 | What stands at any path after a mod has been compressed: in place of each file its compressed content, or compressed nothing if it is listed twice |
| Banks.UncompressedAt | src/pboBank/pboBank/fileManager.cpp:216-231 | What stands at any path after compressed files have been uncompressed, files listed twice included |
| Banks.UncompressedFails | src/pboBank/pboBank/fileManager.cpp:216-231 | A decompressor that refuses empty inputs stops at the first file it comes to again |
| Banks.FilesAreSeparate | src/pboBank/pboBank/fileManager.cpp:98 | Without names with that suffix no path is the twin of another, and paths repeat exactly when files do |
| Banks.NamedTwiceIsLost | src/pboBank/pboBank/modManager.cpp:37-41 | In any list: what a file held that is listed twice makes no difference to the compressed bank, so it cannot come back |
| Banks.OldTwinIsLost | src/pboBank/pboBank/modManager.cpp:37-41 | In any list: what the twin of a listed file held before makes no difference either |
| Banks.EveryBankSurvives | src/pboBank/pboBank/modManager.cpp:37-47 | For a list without twins: all banks that have the files and not their twins survive compressing and uncompressing if and only if no file is listed twice |
| Banks.StepOutside | src/pboBank/pboBank/fileManager.cpp:198-231 | Each single step leaves every path outside the files and their twins alone |
| Banks.Bank.Path | src/pboBank/pboBank/fileManager.cpp:200 | The path of a file in the bank, by its parts: base directory, groups of digits, file name |
| Banks.CompressedFile | src/pboBank/pboBank/fileManager.cpp:198-214 | Compressing one file: its twin has the suffix .cmpress and the compressed content, and the file is gone |
| Banks.UncompressedFile | src/pboBank/pboBank/fileManager.cpp:216-231 | Uncompressing one file: its content comes from the twin, which is gone; a decompressor that refuses leaves the twin where it is |
| Banks.Bank.CompressFileInBank | src/pboBank/pboBank/fileManager.cpp:198-214 | Writes the twin from what reads like the file and removes the file |
| Banks.Bank.UncompressFileInBank | src/pboBank/pboBank/fileManager.cpp:216-231 | Writes the file from the twin and removes the twin, unless the decompressor refuses |
| Banks.Bank.CompressMod | src/pboBank/pboBank/modManager.cpp:37-41 | The loop over the files; paths outside them and their twins are untouched throughout |
| Banks.Bank.UncompressMod | src/pboBank/pboBank/modManager.cpp:43-47 | The loop over the files, which a refusal ends; paths outside are untouched throughout |
| Mods.NormalForm | src/pboBank/pboBank/files.cpp:4-8 | After any sequence of addMod the list is strictly increasing if and only if no two of the mods added share name and version |
| Mods.OrderDoesNotMatter | src/pboBank/pboBank/files.cpp:4-8 | If they do not, the list depends only on the set of mods added: not on order or repetition, nor on how the sort treats equivalent mods |
| Mods.HoldsExactlyTheAdded | src/pboBank/pboBank/files.cpp:4-8 | In every case the list holds exactly the mods added, sorted, and no neighbours are the same object |
| Mods.TwiceInTheList | src/pboBank/pboBank/files.cpp:6-7 | Otherwise the same mod can be in the list twice, because unique compares objects |
| Mods.NamesThenVersions | src/pboBank/pboBank/files.h:43-47 | After any calls of addMod names never decrease along the list, and versions never decrease among equal names, in the order of std::string |
| Mods.LastMod | src/pboBank/pboBank/files.h:13 | getMod() gives a mod with the greatest name, and the greatest version among those of that name |
| Mods.File.GetMod | src/pboBank/pboBank/files.h:13 | The last mod of the list |
| Mods.BeforeIsFirstDifference | src/pboBank/pboBank/files.h:43-47 | The order of std::string by the first place where two strings differ or one of them ends |
| Mods.File.AddMod | src/pboBank/pboBank/files.cpp:4-8 | Append, sort, unique: some sort of the list with the new mod, without neighbours that are the same object |
| Mods.EraseDuplicates | src/pboBank/pboBank/files.cpp:7 | One pass keeps the first of every run of the same object |
| Mods.UniqueKeeps | src/pboBank/pboBank/files.cpp:7 | unique keeps the elements and the order and leaves no equal neighbours |
| Mods.IsLessThanIsTotal | src/pboBank/pboBank/files.h:43-47 | The comparison orders any two mods one way only, and does so exactly when they differ in name or version |
| Mods.IsLessThanIsTransitive | src/pboBank/pboBank/files.h:43-47 | The comparison is transitive |
| Mods.Sort | src/pboBank/pboBank/files.cpp:6 | The contract of the sort: a permutation in which no later mod is less than an earlier one |
| Mods.ModManager.FindModByNameAndVersion | src/pboBank/pboBank/modManager.cpp:13-19 | A mod with that name and version, and null only if there is none; the only one if mods are unique |
| Mods.ModManager.IndexMod | src/pboBank/pboBank/modManager.cpp:21-35 | Uniqueness by name and version is kept; a new mod is added exactly when there was none and the database took it |
| Mods.ManagedNormalForm | src/pboBank/pboBank/modManager.cpp:21-35 | With mods from the manager, which are unique, the list of a file is strictly increasing after any calls of addMod |

## Left out

Of the writer:
- The counter and the handles are unbounded; the 64-bit wrap of instanceCount is beyond any table a reader can hold.
- myInstance is a local of the two serialize methods, since nothing else reads it; a node that is shared by two lists is written twice, as in the source.
- Only leaves and directories occur in a list. a3syncServerInfo, javaDate and javaHashSet_string (`a3sync.cpp:333-471`) are unfinished in the source.
- Strings are bytes. What modified UTF-8 makes of a zero byte or of bytes above 127 is not modelled.
- The reader covers the part of the grammar that the writer can use and refuses the rest (arrays, enums, proxies, exceptions, resets, long strings and blocks, superclasses, class annotations).
- The gzip filter and the output file.

Of the cache:
- Memory-level races in the buffer while it is reallocated: a step sees whole contents.
- zlib itself: what a compressor yields is a given byte sequence for each file. A read that breaks down keeps failbit set without eofbit.
- `maxCachingFileSize` (`compressionCache.h:13`) overflows a 32-bit int; the threshold is a parameter.
- The 64-bit wrap of cacheSize, reserve, lastUse, timing and output.
- One transfer for each client; commands, sockets and JSON of the file server, and its single-threaded variant.
- CachedFiles.CachedFile.Read: one look at the file, with a None for the wait of 10 milliseconds; the waiting itself is in the step system.
- CompressedFiles.Takeover: the loop of the source has no count of rounds; the model watches it for any number of them, since it need not end. The sleep between two rounds is in `throttle.dfy`.
- CompressedFiles.SendCached: a finished entry; entries that are still being filled are in the step system.
- Throttle: clocks that go backwards, and the rounding of doubles.

Of the bank:
- getMD5fromServerPath (`fileManager.cpp:177-184`) parses the wrong variable; the decoder of the model takes its place.
- MD5 is any sixteen bytes. Directories, permissions and hard links of the file system; a file whose directory is missing.
- Hex.HexToBytes: what strtol does only with more than two characters, which is the prefix 0x and the clamping of large numbers.
- copyFileToBank, dropFileLinks, indexFile and the scan for unknown files: one call each into the file system or the database.
- Banks.Restored: lists in which one file is the compressed twin of another.

Of the rest:
- The database, the console, signals, clusters, change sets and the unused stream filters.
- Names and versions of mods do not change after a mod has been added, since addMod sorts by them only when it is called.

