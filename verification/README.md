# Verified cores of an OpenWrt firmware tree

Most of the firmware tree is build glue, but it ships several self-contained algorithms. This project models
ten of them in Dafny, in the form the code has (buffers updated in place, classes with mutable fields, loops),
and proves that each does what it is for. Every imperative member is proved equal to a specification function,
and the theorems are about that function over all inputs, all runs or all interleavings.

* **MD5** (`Rfc1321.dfy`, `Md5Rounds.dfy`, `Md5.dfy`, `Md5Vector.dfy`). `Rfc1321` is MD5 of a whole message as sections 3.1 to 3.5
  of RFC 1321 define it. `Md5.State` has the count, register and buffer fields of the C structure. Its invariant
  says that after any calls the registers are the fold of the block function over the whole blocks appended so
  far, the buffer starts with the unprocessed tail, and the counter is the bit length modulo 2^64; `Finish` gives the
  reference digest of everything appended. A published digest of two blocks is derived from the reference.
* **Deferreds** (`Deferred.dfy`, `When.dfy`). The library code runs until it calls a user function, which may call the
  deferred again. A run is therefore a sequence of events (a settling call, a registration, the return of the
  user function called last), with a stack of the firing loops in progress. The theorems hold for every sequence.
* **Ancestor search** (`DirCheck.dfy`). Nodes are numbers; one map gives the node that `dir` leads to. The stamps left by
  earlier slots shorten later walks, and every slot still gets what a walk without stamps would find.
* **Document order** (`SortOrder.dfy`). A document is a tree whose parent and sibling links the code reads. The
  comparator is strict preorder; the duplicate removal leaves a strictly increasing list with the same nodes.
* **Keyword lookup** (`LexHash.dfy`). The packed map is an arbitrary sequence of four-byte nodes; a map is well formed when
  node j, reached with a prefix of a word length, covers exactly the keywords with that prefix and length.
* **ttcp** (`Ttcp.dfy`). The packets of a sinkmode run cross a channel that drops any of them but keeps their order. The
  receiver's count of lost packets and received bytes is right if and only if a condition on the data packets received
  and the buffer holds; its sequence reports are given exactly for every run, right or wrong.
* **iconv** (`Utf8.dfy`, `Iconv.dfy`). UTF-8 coding of one character, and the resumable loop over input and output buffers
  among UTF-8, US-ASCII, ISO-8859-1, ISO-8859-15, TIS-620, JIS-0201 and UTF-16. Sessions cut the text in any way.
* **Package selection** (`PkgDetails.dfy`). The PKGS mode reads lines and delays its output; the reference says which
  stanza of a package wins.
* **Archive search** (`LarFind.dfy`). The candidate file names for a package, longest segment prefix first, written into
  one fixed buffer.
* **Card numbers** (`CreditCard.dfy`). The check digit of Annex B of ISO/IEC 7812-1 and the errors it detects.

`Wrappers.dfy` holds the optional values that several of them use.

## Where the code differs from what it is for

The models follow the code. Each of these results is a lemma with the exact condition.

* iconv writes characters above U+FFFF to UTF-16 as two units but cannot read them back: the test for the
  second unit looks at the first one, and no 0x10000 is subtracted. UTF-16 round trips hold exactly below U+10000
  (`IconvSpec.Utf16RoundTripIff`).
* The UTF-8 decoder rejects U+FFFE and U+FFFF, which RFC 3629 allows (`Utf8.RoundTripIff`).
* A byte that cannot start a UTF-8 sequence is reported as incomplete input rather than as illegal, because its
  length -1 is compared as unsigned, and the incomplete exit returns the replacement count rather than -1
  (`IconvSpec.StrayByteStarves`). Input stays incomplete for good exactly if it begins with such a byte
  (`IconvSpec.StarvedForeverIff`), and no session gets past one (`IconvSpec.SessionStopsAtStray`).
* ISO-8859-15 output replaces a character it does not have without counting it, by a question mark or, for eight
  characters, by another one of the set; the other single-byte sets count every replacement
  (`IconvSpec.LostUncountedIff`).
* ttcp can take a data packet for a start or end packet, because it compares four bytes of a buffer that still holds
  what came before; an empty data packet ends the receiving loop; and a buffer of 5 to 7 bytes, which is allowed,
  holds only part of the packet count. The numbers of lost packets and received bytes are right exactly without all
  that and without packets too long for the buffer (`TtcpProtocol.Accounting`, for data out of a preloaded buffer also
  `TtcpProtocol.PatternIsClean`; failing runs in `TtcpProtocol.OneByteRunMiscounts`,
  `TtcpProtocol.ShortBufferMiscounts` and `TtcpProtocol.RandomRunMiscounts`).
* For the same reason its out-of-sequence reports can be wrong: they are the visible gaps among the packets taken for
  data before the loop stops, not among those received (`TtcpProtocol.SequenceAccounting`). They are right
  when every packet received is taken for data, whether it fits or not (`TtcpProtocol.ReportsAreRight`). With nothing
  lost there is one report too many for every confused packet that is not the last (`TtcpProtocol.LosslessReports`;
  failing run in `TtcpProtocol.OneByteRunReportsGap`).
* The archive search accepts a path of 1019 bytes and then adds a slash for which the length test has no room: the
  next difference is negative and, being unsigned, allows every name. What is written stays inside the buffer
  exactly without such a path (`LarPaths.FitsIff`, `LarFind.LarFindArchive`; failing input in
  `LarPaths.LongestPathOverruns`). Without a path the byte in front of the buffer decides whether the search is
  relative (`LarPaths.NoPathReadsBefore`).
* That search tests one bit of the file mode instead of the whole file type. Sockets have the bit too, so a socket with
  a candidate's name ends the search (`LarPaths.RegularBitIff`, `LarPaths.SocketPasses`).

## Model

| member | source | states |
|---|---|---|
| Rfc1321.PadFillsBlocks | package/luci-0.11/contrib/lar/md5.c:375-378 | padding adds 1 to 64 bytes before the length, reaches 56 modulo 64, and leaves no partial block |
| Rfc1321.PadInjective | package/luci-0.11/contrib/lar/md5.c:372-378 | different messages shorter than 2^61 bytes have different padded forms |
| Rfc1321.LittleEndianInjective | package/luci-0.11/contrib/lar/md5.c:373-374 | the byte rendering of a length loses nothing |
| Rfc1321.AbsorbConcat | package/luci-0.11/contrib/lar/md5.c:351-353 | processing blocks in two goes is processing them in one |
| Rfc1321.FSelects | package/luci-0.11/contrib/lar/md5.c:202 | F takes the bits of y where x has ones and those of z where it has zeros |
| Rfc1321.GSelects | package/luci-0.11/contrib/lar/md5.c:228 | G takes the bits of x where z has ones and those of y where it has zeros |
| Rfc1321.HIsParity | package/luci-0.11/contrib/lar/md5.c:254 | H is x where y and z agree and its complement where they differ |
| Rfc1321.IByCases | package/luci-0.11/contrib/lar/md5.c:280 | I is the parity of x and y where z has ones and the complement of y where it has zeros |
| Rfc1321.WordRoundTrip | package/luci-0.11/contrib/lar/md5.c:191-192 | a word put together from the bytes it is written as is the same word |
| Md5Vector.PublishedDigest | package/luci-0.11/contrib/lar/md5.c:360-381 | the digest of the 62 letters and digits is the one that section A.5 of RFC 1321 gives, which fixes every function, constant, word order and rotation |
| Md5Rounds.RotateLeftRotates | package/luci-0.11/contrib/lar/md5.c:197 | the two shifts joined by an or are n rotations by one bit |
| Md5Rounds.FourSets | package/luci-0.11/contrib/lar/md5.c:203-222 | four consecutive SET lines with renamed registers are four steps of the one step that rotates (a, b, c, d) |
| Md5Rounds.Round1 | package/luci-0.11/contrib/lar/md5.c:199-223 | the sixteen lines of round 1 equal steps 0 to 15 of the RFC's schedule, for every state and block |
| Md5Rounds.Round2 | package/luci-0.11/contrib/lar/md5.c:225-249 | the sixteen lines of round 2 equal steps 16 to 31 |
| Md5Rounds.Round3 | package/luci-0.11/contrib/lar/md5.c:251-275 | the sixteen lines of round 3 equal steps 32 to 47 |
| Md5Rounds.Round4 | package/luci-0.11/contrib/lar/md5.c:277-301 | the sixteen lines of round 4 equal steps 48 to 63 |
| Md5Rounds.Round1Constants | package/luci-0.11/contrib/lar/md5.c:202-222 | function, word, shift and constant of every line of round 1 are those of section 3.4 of RFC 1321 |
| Md5Rounds.Round2Constants | package/luci-0.11/contrib/lar/md5.c:228-248 | the same for round 2 |
| Md5Rounds.Round3Constants | package/luci-0.11/contrib/lar/md5.c:254-274 | the same for round 3 |
| Md5Rounds.Round4Constants | package/luci-0.11/contrib/lar/md5.c:280-300 | the same for round 4 |
| Md5.State.Init | package/luci-0.11/contrib/lar/md5.c:312-320 | a fresh state stands for the empty message |
| Md5.State.Process | package/luci-0.11/contrib/lar/md5.c:131-310 | the registers become the reference block function of their old values and the block |
| Md5.State.AddToCount | package/luci-0.11/contrib/lar/md5.c:333-337 | the two counter words still hold the bit length modulo 2^64 |
| Md5.CountAfter | package/luci-0.11/contrib/lar/md5.c:328-337 | the update by wrapped low word, high word and manual carry is addition modulo 2^64 for every byte count of an int |
| Md5.OffsetIsTail | package/luci-0.11/contrib/lar/md5.c:327 | the buffer offset read off the low counter word is the message length modulo 64 |
| Md5.State.TopUp | package/luci-0.11/contrib/lar/md5.c:339-349 | the buffer is extended, and its block processed exactly when it becomes full |
| Md5.State.ProcessFullBlocks | package/luci-0.11/contrib/lar/md5.c:351-353 | all whole blocks of the data are absorbed and less than one is left |
| Md5.State.Append | package/luci-0.11/contrib/lar/md5.c:322-358 | the streaming invariant holds again for the old message followed by the data, for every state and split |
| Md5.SavedLength | package/luci-0.11/contrib/lar/md5.c:372-374 | the eight saved bytes are the bit length of the unpadded message, low-order byte first |
| Md5.PaddingFormula | package/luci-0.11/contrib/lar/md5.c:376 | the wrapped formula asks for exactly the padding of the RFC |
| Md5.DigestBytes | package/luci-0.11/contrib/lar/md5.c:379-380 | the output loop writes the four registers, low-order bytes first |
| Md5.State.Finish | package/luci-0.11/contrib/lar/md5.c:360-381 | the digest is the one-shot digest of everything appended |
| Md5.FileDigest | package/luci-0.11/contrib/lar/larlib.c:122-127 | however a file is cut into reads of at most 1024 bytes, the digest is that of its contents |
| Deferred.Deferred.constructor | files-IoT/www/lib/jquery-latest.js:1029-1095 | two empty lists, each with the other's cancel registered first |
| Deferred.Deferred.CallFirst | files-IoT/www/lib/jquery-latest.js:994-995 | one turn of the firing loop shifts a callback off and calls it: the internal one cancels the other list |
| Deferred.Deferred.Finish | files-IoT/www/lib/jquery-latest.js:998-1001 | the finally part records the settlement and ends the loop |
| Deferred.Deferred.Fire | files-IoT/www/lib/jquery-latest.js:993-1001 | the firing loop shifts its callbacks up to the next user function, or records the settlement |
| Deferred.Deferred.ResolveWith | files-IoT/www/lib/jquery-latest.js:987-1004 | resolveWith and rejectWith are the settling step of the machine, ignored when cancelled, fired or firing |
| Deferred.Deferred.Add | files-IoT/www/lib/jquery-latest.js:958-985 | done and fail flatten nested arrays into registrations and fire late ones with the recorded settlement |
| Deferred.Deferred.CallbackReturns | files-IoT/www/lib/jquery-latest.js:994-1001 | the return of a user function resumes the loop that called it |
| Deferred.Deferred.IsSettled | files-IoT/www/lib/jquery-latest.js:1012-1015 | isResolved and isRejected as the machine has them |
| DeferredSpec.StepAgrees | files-IoT/www/lib/jquery-latest.js:958-1022 | every event keeps the state equal to what first settlement and registrations determine |
| DeferredSpec.RunIsReference | files-IoT/www/lib/jquery-latest.js:946-1095 | the state after any run, re-entrant or not, is determined by the first settling call and the registrations |
| DeferredSpec.DeferredIsSafe | files-IoT/www/lib/jquery-latest.js:1086-1087 | never both resolved and rejected; callbacks run at most once, in registration order, all with the first settlement; none is forgotten once nothing runs |
| DeferredSpec.FlattenInPlace | files-IoT/www/lib/jquery-latest.js:971-979 | an array stands in place for what it holds, a function for itself, anything else for nothing |
| DeferredSpec.FlattenCounts | files-IoT/www/lib/jquery-latest.js:971-979 | a function is registered as often as it occurs in the arguments, at any depth |
| DeferredSpec.EveryFunctionCalled | files-IoT/www/lib/jquery-latest.js:958-1001 | once settled with nothing running, every function anywhere in the registrations of the winning side has been called as often as it was given |
| DeferredSpec.NeverNested | files-IoT/www/lib/jquery-latest.js:954 | at most one firing loop is in progress, so callbacks of one deferred do not nest |
| DeferredSpec.WinnerIsFinal | files-IoT/www/lib/jquery-latest.js:988-999 | the first settlement stays the winner in every longer run |
| When.Countdown.Resolved | files-IoT/www/lib/jquery-latest.js:1106-1116 | a promise's values go to its own position and the countdown moves once |
| When.Countdown.PromiseSettles | files-IoT/www/lib/jquery-latest.js:1120 | a promise delivers to its own handler or rejects the deferred |
| When.Countdown.Body | files-IoT/www/lib/jquery-latest.js:1117-1127 | the loop with promises that are already settled is a run of the machine and sees every argument |
| WhenSpec.RunKeepsInv | files-IoT/www/lib/jquery-latest.js:1098-1132 | in every interleaving the count is the number of arguments still open, and the verdict is the one they determine |
| WhenSpec.WhenIsSafe | files-IoT/www/lib/jquery-latest.js:1098-1132 | resolved only after all promises resolved, each value at its position; rejected iff some promise rejected, with the first rejection; the count is never zero with an argument unprocessed |
| WhenSpec.WhenDelivers | files-IoT/www/lib/jquery-latest.js:1106-1127 | each argument arrives at its place: plain values unchanged, of a promise its only value or all of several |
| WhenSpec.ZeroIsFinal | files-IoT/www/lib/jquery-latest.js:1109-1113 | at count zero the loop is over, every promise has resolved and the slots are final |
| WhenSpec.RejectionKeepsOpen | files-IoT/www/lib/jquery-latest.js:1120 | after a rejection the count cannot reach zero |
| DirCheckSpec.SearchIsFirstHit | files-IoT/www/lib/jquery-latest.js:4995-5014 | the walk without stamps finds the first matching node on the chain, and nothing if there is none |
| DirCheckSpec.SlotByName | files-IoT/www/lib/jquery-latest.js:4995-5016 | a slot gets the nearest node strictly behind its own that has the name, or false |
| DirCheckSpec.SlotIgnoresCase | files-IoT/www/lib/jquery-latest.js:4123-4127 | a plain word is looked for whatever the case of its letters |
| DirCheckSpec.SlotBySelector | files-IoT/www/lib/jquery-latest.js:5028-5057 | a slot gets the nearest element strictly behind its own that passes the filter, or false |
| DirCheckSpec.SlotByReference | files-IoT/www/lib/jquery-latest.js:5042-5046 | a slot gets true exactly if the given element is strictly behind its own |
| DirCheckSpec.SlotWithoutNode | files-IoT/www/lib/jquery-latest.js:4992-5016 | a slot that holds no node ends false |
| DirCheck.Sizzle.WalkByName | files-IoT/www/lib/jquery-latest.js:4995-5014 | a walk finds what the walk without stamps finds, looks at no more than the nodes up to a hit or a stamp, and stamps every element it looks at |
| DirCheck.Sizzle.DirNodeCheck | files-IoT/www/lib/jquery-latest.js:4988-5019 | with a fresh name every slot ends with the result of its own search without stamps |
| DirCheck.Sizzle.Filter | files-IoT/www/lib/jquery-latest.js:4471-4482 | a filter call takes new names from the counter and replaces any stamps by them, and nothing else |
| DirCheckSpec.ForeignKeeps | files-IoT/www/lib/jquery-latest.js:4471-4482 | names given out during a search only take stamps away, so what is left still tells the truth |
| DirCheck.Sizzle.WalkByTest | files-IoT/www/lib/jquery-latest.js:5028-5055 | the same for one walk against an element or a filter, though filter calls replace stamps on the way |
| DirCheck.Sizzle.DirCheck | files-IoT/www/lib/jquery-latest.js:5021-5060 | the same for every slot |
| DirCheck.Sizzle.Relative | files-IoT/www/lib/jquery-latest.js:4118-4144 | any sequence of searches, with filters that advance the counter themselves: every search has a name that no node carries |
| DocumentOrder.Relate | files-IoT/www/lib/jquery-latest.js:4669-4679 | document order of two nodes is decided where their paths from the root part: an ancestor first, else the siblings' order |
| DocumentOrder.KidOrder | files-IoT/www/lib/jquery-latest.js:4682-4698 | preorder within a list of siblings is the siblings' order, then the order inside the subtree |
| DocumentOrder.SameParent | files-IoT/www/lib/jquery-latest.js:4640-4642 | nodes with one parent have the same path above them |
| DocumentOrder.PartAt | files-IoT/www/lib/jquery-latest.js:4670-4679 | where the ancestor lists first differ, or where one ends, is where the paths part |
| DocumentOrder.RootFirst | files-IoT/www/lib/jquery-latest.js:4644-4650 | a node without parent is before every other node of its tree |
| SortOrder.Sizzle.SiblingCheck | files-IoT/www/lib/jquery-latest.js:4682-4698 | the scan along nextSibling decides which of two siblings is first |
| SortOrder.Sizzle.Ancestors | files-IoT/www/lib/jquery-latest.js:4654-4664 | the loop collects the ancestors, outermost first |
| SortOrder.Sizzle.Discrepancy | files-IoT/www/lib/jquery-latest.js:4669-4674 | the first place where two ancestor lists differ, or the end of the shorter |
| SortOrder.Sizzle.CompareAncestors | files-IoT/www/lib/jquery-latest.js:4652-4679 | nodes with different parents are compared by where their paths part |
| SortOrder.Sizzle.SortOrder | files-IoT/www/lib/jquery-latest.js:4622-4680 | on nodes of one tree the comparator is strict preorder, with 0 and the duplicate flag exactly for equal nodes |
| SortOrder.Comparable | files-IoT/www/lib/jquery-latest.js:4622-4680 | document order is total on a tree |
| SortOrder.SpliceKeeps | files-IoT/www/lib/jquery-latest.js:3879-3880 | splicing out one of two equal neighbours keeps order and members |
| SortOrder.AdjacentDistinct | files-IoT/www/lib/jquery-latest.js:3878-3882 | an ordered list without equal neighbours has no duplicates at all |
| SortOrder.Sizzle.UniqueSort | files-IoT/www/lib/jquery-latest.js:3872-3887 | whatever sort the engine has: a strictly increasing result with the same nodes |
| SortOrder.Sizzle.Insert | files-IoT/www/lib/jquery-latest.js:4622-4626 | comparing one node into an ordered list keeps the order, and raises the flag iff the node is there already |
| SortOrder.Sizzle.InsertionSort | files-IoT/www/lib/jquery-latest.js:3875 | a comparison sort by sortOrder orders any nodes of one tree and raises the flag iff there are duplicates |
| SortOrder.Sizzle.UniqueSortByInsertion | files-IoT/www/lib/jquery-latest.js:3872-3887 | with that sort the result is strictly increasing and has the same nodes, without any assumption on the sort |
| LexTables.LinearSearchIsMatch | packages_12.09/libs/mysql/files/lex_hash.h:6123-6190 | in a duplicate-free table the reference search finds exactly the entry that equals the key up to case |
| LexTables.InnerNodeBytes | packages_12.09/libs/mysql/files/lex_hash.h:6153-6160 | the four bytes of an inner node are read back as range and first child |
| LexTables.LeafBytes | packages_12.09/libs/mysql/files/lex_hash.h:6142 | the four bytes of a leaf are read back as its signed code, for all 65536 codes |
| LexTables.CodesOfEntries | packages_12.09/libs/mysql/files/lex_hash.h:6143-6148 | symbols count up from 0, functions down from -1, and the number of symbols is no entry |
| LexHash.SampleIgnoresCase | packages_12.09/libs/mysql/files/lex_hash.h:6153 | lower-case keys find the upper-case words of two sample maps, functions in function mode only |
| LexHash.GetHashSymbol | packages_12.09/libs/mysql/files/lex_hash.h:6123-6190 | for every well-formed map the trie walk returns what the linear search returns, for symbols and for functions, and stays inside the map and the key |
| LexHash.Leaf | packages_12.09/libs/mysql/files/lex_hash.h:6140-6151 | the signed code separates symbols, functions and none, and comparing the rest of the key decides |
| LexHash.NotCovered | packages_12.09/libs/mysql/files/lex_hash.h:6153-6156 | a character outside the range of an inner node means that no keyword matches |
| LexHash.RestDecides | packages_12.09/libs/mysql/files/lex_hash.h:6149-6150 | once the consumed characters agree, comparing the others decides equality |
| LexHash.NoSuchLength | packages_12.09/libs/mysql/files/lex_hash.h:6129-6133 | lengths that the map does not cover have no keyword |
| LexHash.SampleIsWellFormed | packages_12.09/libs/mysql/files/lex_hash.h:6135-6162 | maps that meet the condition exist, with negative codes for functions among their leaves |
| Ttcp.Pattern | packages_12.09/net/ttcp/ttcp.c:1550-1561 | the buffer is filled with the printable characters in a cycle |
| Ttcp.FillRandomly | packages_12.09/net/ttcp/ttcp.c:1057-1079 | the body of a data packet is the low two bytes of one random number after the other, the sequence number stays |
| TtcpProtocol.RandomPair | packages_12.09/net/ttcp/ttcp.c:1066-1078 | two bytes of the body are the low 16 bits of one random number |
| TtcpProtocol.DrawnCovers | packages_12.09/net/ttcp/ttcp.c:1066-1078 | a packet takes as many numbers as its bytes need in pairs |
| TtcpProtocol.ExamplePackets | packages_12.09/net/ttcp/ttcp.c:328-335 | start and end packets and a data packet byte by byte |
| Ttcp.MakeEndPacket | packages_12.09/net/ttcp/ttcp.c:1207-1217 | the end packet is the end pattern and the count, high-order byte first |
| Ttcp.Transmit | packages_12.09/net/ttcp/ttcp.c:1018-1084 | the packets sent in one run, with preloaded or random data: 2 start packets, the numbered data packets, 4 end packets with the count |
| TtcpProtocol.CountRoundTrip | packages_12.09/net/ttcp/ttcp.c:1214-1217 | the big-endian packet count is read back as it was sent |
| TtcpProtocol.StartIsStart | packages_12.09/net/ttcp/ttcp.c:1293-1296 | a start packet is recognised over any old buffer |
| TtcpProtocol.CountInjective | packages_12.09/net/ttcp/ttcp.c:1299-1302 | different count bytes are read as different counts |
| TtcpProtocol.EndIsEnd | packages_12.09/net/ttcp/ttcp.c:1297-1304 | an end packet is recognised over any old buffer, cut short or not; its count is right iff the buffer has 8 bytes or the memory behind it fits |
| TtcpProtocol.DataClassified | packages_12.09/net/ttcp/ttcp.c:1293-1308 | a data packet out of a preloaded buffer is misread in exactly one case: one byte of number 1 modulo 256 over a start packet |
| TtcpProtocol.SeqNoShowsGap | packages_12.09/net/ttcp/ttcp.c:1364-1371 | the 8-bit comparison fails exactly for gaps that are not multiples of 256 |
| TtcpProtocol.DataStep | packages_12.09/net/ttcp/ttcp.c:1310-1380 | a clean data packet keeps the packet and byte counters exact; any other that is not empty leaves bytes missing |
| TtcpProtocol.Delivery | packages_12.09/net/ttcp/ttcp.c:1018-1084 | what an order-preserving lossy channel delivers of one run |
| TtcpProtocol.BehindhandRun | packages_12.09/net/ttcp/ttcp.c:1334-1356 | bytes that are missing once are missing at the end of every continuation |
| TtcpProtocol.Accounting | packages_12.09/net/ttcp/ttcp.c:1291-1395 | for all data, every buffer length from 5 on and every loss pattern with an end packet: lost packets and bytes are exact iff every received data packet is non-empty, fits and is taken for data, and the count shows |
| TtcpProtocol.ReportRun | packages_12.09/net/ttcp/ttcp.c:1362-1372 | from any point of a run the reports are the visible gaps among the packets taken for data before the loop stops |
| TtcpProtocol.SequenceAccounting | packages_12.09/net/ttcp/ttcp.c:1362-1372 | for all numbered data, every buffer and every loss pattern: the number of out-of-sequence reports is exactly that of the visible gaps among the packets taken for data before the loop stops |
| TtcpProtocol.CounterAccounting | packages_12.09/net/ttcp/ttcp.c:1291-1387 | for the same runs the packets counted are those taken for data, the bytes what fitted of them since the last start, the starts the real ones and those data packets, the ends one iff the test ended |
| TtcpProtocol.ReportsAreRight | packages_12.09/net/ttcp/ttcp.c:1362-1372 | those are the visible gaps among the packets received if all of them are non-empty and taken for data, long or not |
| TtcpProtocol.PatternReports | packages_12.09/net/ttcp/ttcp.c:1362-1372 | for preloaded data: the visible gaps among the packets before an empty one that are not confused |
| TtcpProtocol.LosslessReports | packages_12.09/net/ttcp/ttcp.c:1362-1372 | preloaded data with nothing lost and nothing empty give as many reports as there are confused packets before the last one |
| TtcpProtocol.PatternIsClean | packages_12.09/net/ttcp/ttcp.c:1291-1308 | preloaded data are clean iff no packet is empty, too long, or a single byte of number 1 modulo 256 after start packets and single bytes only |
| TtcpProtocol.LargePacketsAreClean | packages_12.09/net/ttcp/ttcp.c:1291-1308 | preloaded packets of two bytes or more that fit always meet that condition |
| TtcpProtocol.OneByteRunMiscounts | packages_12.09/net/ttcp/ttcp.c:1294-1296 | a run of one-byte packets without loss that is miscounted |
| TtcpProtocol.OneByteRunReportsGap | packages_12.09/net/ttcp/ttcp.c:1362-1372 | a run of three one-byte packets without loss that reports a gap |
| TtcpProtocol.StartRestartsBytes | packages_12.09/net/ttcp/ttcp.c:1336-1348 | a run whose byte count starts again at a packet taken for a start packet |
| TtcpProtocol.LongPacketReportsRight | packages_12.09/net/ttcp/ttcp.c:1362-1372 | a run with a packet too long for the buffer whose bytes are miscounted and whose reports are right |
| TtcpProtocol.ShortBufferMiscounts | packages_12.09/net/ttcp/ttcp.c:741-742 | a run without loss that is miscounted in a buffer of 5 bytes |
| TtcpProtocol.RandomRunMiscounts | packages_12.09/net/ttcp/ttcp.c:1057-1079 | a run with random data and without loss that is miscounted |
| Ttcp.UdpReceiver.Handle | packages_12.09/net/ttcp/ttcp.c:1293-1380 | the loop body is the receiving step of the protocol |
| Ttcp.UdpReceiver.Test | packages_12.09/net/ttcp/ttcp.c:1278-1381 | the receive loop runs the protocol over the packets that arrive |
| Ttcp.DrawLength | packages_12.09/net/ttcp/ttcp.c:1052-1053 | the product fits 32 bits and the length lies between its bounds |
| Ttcp.DrawsAreEven | packages_12.09/net/ttcp/ttcp.c:1045-1053 | every length comes from 65536 / k draws, rounded down or up |
| Utf8.DecodeWchar | packages_12.09/libs/libiconv/src/iconv.c:199-245 | the decoding loop gives the character, its length, and the same rejections as the recursive definition |
| Utf8.LeadBytes | packages_12.09/libs/libiconv/src/iconv.c:210-215 | which leading bytes announce which length, by ranges |
| Utf8.EncodedLength | packages_12.09/libs/libiconv/src/iconv.c:132-160 | one to four bytes by the ranges of section 3 of RFC 3629 |
| Utf8.EncodedValue | packages_12.09/libs/libiconv/src/iconv.c:132-160 | the bytes of an encoding are the digits of the character to base 64 above their first values |
| Utf8.EncodedExamples | packages_12.09/libs/libiconv/src/iconv.c:132-160 | encodings from section 7 of RFC 3629 |
| Utf8.DecodeEncode | packages_12.09/libs/libiconv/src/iconv.c:132-245 | whatever follows, an encoded character decodes to itself and its length |
| Utf8.EncodeDecode | packages_12.09/libs/libiconv/src/iconv.c:162-245 | every accepted sequence up to U+10FFFF is the encoder's output: no overlong forms, no surrogates |
| Utf8.RoundTripIff | packages_12.09/libs/libiconv/src/iconv.c:193-197 | the round trip holds exactly for the scalar values other than U+FFFE and U+FFFF |
| Iconv.Convert | packages_12.09/libs/libiconv/src/iconv.c:281-440 | the loop over buffers: pointers, remaining sizes, written bytes, errno, and -1 or the replacements at every exit |
| IconvSpec.CallEnds | packages_12.09/libs/libiconv/src/iconv.c:422-439 | what a call leaves tells how it ended: nothing, a character without room, illegal bytes or part of a character; -1 is returned for the two in the middle and the replacements otherwise |
| IconvSpec.TextThen | packages_12.09/libs/libiconv/src/iconv.c:281-421 | a text that fits is converted before whatever follows it |
| IconvSpec.TextReturns | packages_12.09/libs/libiconv/src/iconv.c:422-439 | the number and the error that a call on a text returns, for each of the four things that can follow it |
| IconvSpec.DecodeOneStable | packages_12.09/libs/libiconv/src/iconv.c:281-371 | a character complete in the input so far is not changed by more input |
| IconvSpec.CallIsPrefix | packages_12.09/libs/libiconv/src/iconv.c:281-440 | a call on part of any input with any room does the beginning of what one call on everything does |
| IconvSpec.SessionIsPrefix | packages_12.09/libs/libiconv/src/iconv.c:281-440 | so does any sequence of calls that carries the unconsumed bytes over |
| IconvSpec.SessionsAgree | packages_12.09/libs/libiconv/src/iconv.c:281-440 | two ways of cutting the same input that got equally far have written the same |
| IconvSpec.FinishedSession | packages_12.09/libs/libiconv/src/iconv.c:281-440 | a session that consumed everything has done what one call with ample room does |
| IconvSpec.RoomToSpare | packages_12.09/libs/libiconv/src/iconv.c:380-420 | with ample room no call stops for lack of it |
| IconvSpec.CallMakesProgress | packages_12.09/libs/libiconv/src/iconv.c:281-421 | a call with one whole character and four bytes of room consumes something |
| IconvSpec.WellFormedConverts | packages_12.09/libs/libiconv/src/iconv.c:281-422 | well-formed UTF-8 is converted completely into any destination |
| IconvSpec.SessionConvertsCharacters | packages_12.09/libs/libiconv/src/iconv.c:281-440 | every session on a text has consumed and written the same whole characters |
| IconvSpec.SessionRenders | packages_12.09/libs/libiconv/src/iconv.c:281-440 | a session that consumed a text has written the whole text |
| IconvSpec.CallsFinish | packages_12.09/libs/libiconv/src/iconv.c:281-440 | as many calls as there are characters, each with all input in view and four bytes of room, convert a whole text |
| IconvSpec.Utf8IsCanonical | packages_12.09/libs/libiconv/src/iconv.c:291-296 | what the loop accepts as UTF-8 is canonical |
| IconvSpec.Utf8Identity | packages_12.09/libs/libiconv/src/iconv.c:281-440 | UTF-8 to UTF-8 copies exactly what it consumes, on any input |
| IconvSpec.StrayByteStarves | packages_12.09/libs/libiconv/src/iconv.c:217-219 | a call at a byte that can begin nothing ends as incomplete, returns 0 and consumes nothing |
| IconvSpec.StarvedForeverIff | packages_12.09/libs/libiconv/src/iconv.c:210-219 | incomplete input is never completed by any further input iff it begins with such a byte |
| IconvSpec.WholeBeforeStray | packages_12.09/libs/libiconv/src/iconv.c:291-296 | well-formed text in front of such a byte is converted, and nothing after it |
| IconvSpec.SessionStopsAtStray | packages_12.09/libs/libiconv/src/iconv.c:435-439 | no session consumes more than the text in front of such a byte |
| IconvSpec.Utf16RoundTripIff | packages_12.09/libs/libiconv/src/iconv.c:320-333 | UTF-16 is read back exactly below U+10000 |
| IconvSpec.Utf16Front | packages_12.09/libs/libiconv/src/iconv.c:320-333 | a unit is a character, an illegal low surrogate, or a high one that waits for four bytes and then is illegal |
| IconvSpec.UnitBytes | packages_12.09/libs/libiconv/src/iconv.c:119-130 | big-endian units have the high byte first, little-endian ones last |
| IconvSpec.PairBytes | packages_12.09/libs/libiconv/src/iconv.c:413-414 | the two units that a character above U+FFFF is written as |
| IconvSpec.SingleByteRoundTrip | packages_12.09/libs/libiconv/src/iconv.c:299-310 | every byte of ISO-8859-1 and ISO-8859-15 is a character that is written as that byte |
| IconvSpec.Latin9IsMapped | packages_12.09/libs/libiconv/src/iconv.c:299-308 | the table of ISO-8859-15 is what the code's map of low bytes gives |
| IconvSpec.AsciiFront | packages_12.09/libs/libiconv/src/iconv.c:284-298 | US-ASCII input has no bytes from 0x80 on |
| IconvSpec.OffsetSources | packages_12.09/libs/libiconv/src/iconv.c:311-319 | where TIS-620 and JIS-0201 begin to differ from ISO-8859-1, and where the latter ends |
| IconvSpec.OffsetSourcesNext | packages_12.09/libs/libiconv/src/iconv.c:311-319 | from there on consecutive bytes are consecutive characters |
| IconvSpec.SingleByteKeepsIff | packages_12.09/libs/libiconv/src/iconv.c:389-402 | a character written to a single-byte set is read back iff the set has it |
| IconvSpec.LostUncountedIff | packages_12.09/libs/libiconv/src/iconv.c:392-399 | a character is lost without being counted iff the set is ISO-8859-15, does not have it, and it is not U+FFFD |
| IconvSpec.Substitutes | packages_12.09/libs/libiconv/src/iconv.c:389-400 | a star stands for a counted character, a question mark for an uncounted one |
| IconvSpec.ThroughUtf8 | packages_12.09/libs/libiconv/src/iconv.c:247-261 | any such text survives the way to UTF-8 and back |
| PkgDetails.FieldCpy | packages_12.09/admin/debootstrap/files/pkgdetails.c:40-47 | what follows the first colon and the spaces after it |
| PkgDetailsSpec.FieldValueOf | packages_12.09/admin/debootstrap/files/pkgdetails.c:40-47 | a line made of key, colon, blanks and value gives back the value |
| PkgDetailsSpec.KeyLine | packages_12.09/admin/debootstrap/files/pkgdetails.c:156-183 | a line of key, colon, blanks and value is what its whole key says in any case of letters, with that value |
| PkgDetailsSpec.KeyOf | packages_12.09/admin/debootstrap/files/pkgdetails.c:40-47 | every line with a colon has that form |
| PkgDetailsSpec.KeylessLine | packages_12.09/admin/debootstrap/files/pkgdetails.c:156-183 | a line without a colon is blank or of no consequence |
| PkgDetailsSpec.LowerCharacters | packages_12.09/admin/debootstrap/files/pkgdetails.c:157-183 | capitals are compared as their small letters, and nothing else changes |
| PkgDetailsSpec.SpaceCharacters | packages_12.09/admin/debootstrap/files/pkgdetails.c:45 | which six characters are skipped before a value |
| PkgDetailsSpec.ExamplePackageLine | packages_12.09/admin/debootstrap/files/pkgdetails.c:157-161 | a Package line in mixed case with a tab |
| PkgDetailsSpec.ExampleOtherLine | packages_12.09/admin/debootstrap/files/pkgdetails.c:157-183 | a longer key is another key |
| PkgDetails.ReadLine | packages_12.09/admin/debootstrap/files/pkgdetails.c:156-183 | the chain of comparisons gives the kind of line that the three lemmas above determine |
| PkgDetails.Scan | packages_12.09/admin/debootstrap/files/pkgdetails.c:184-194 | the first name still wanted that equals the current one, and whether any is wanted at all |
| PkgDetails.DoPkgMirrorPkgs | packages_12.09/admin/debootstrap/files/pkgdetails.c:128-213 | the line loop with delayed output prints the result of the pass |
| PkgDetailsSpec.PackageLine | packages_12.09/admin/debootstrap/files/pkgdetails.c:160-171 | a Package line prints the pending entry exactly when that stanza wins, and then retires the name |
| PkgDetailsSpec.BlankLine | packages_12.09/admin/debootstrap/files/pkgdetails.c:183-197 | a blank line makes the stanza pending while its name is wanted, and stops when no name is |
| PkgDetailsSpec.PassFile | packages_12.09/admin/debootstrap/files/pkgdetails.c:155-198 | after any number of complete stanzas the state is the one that runs of names determine |
| PkgDetailsSpec.PassPrintsWinners | packages_12.09/admin/debootstrap/files/pkgdetails.c:155-213 | the output is the winners' entries in file order and then "name -" for the names without a stanza |
| PkgDetailsSpec.FormatReads | packages_12.09/admin/debootstrap/files/pkgdetails.c:190 | the printed line cut at its blanks is name, version, architecture, mirror, file name, checksum, size, with one newline at the end |
| PkgDetailsSpec.EntryReads | packages_12.09/admin/debootstrap/files/pkgdetails.c:172-190 | each of those values comes from the last line of its key up to the end of the stanza |
| PkgDetailsSpec.EntryWithoutFields | packages_12.09/admin/debootstrap/files/pkgdetails.c:146 | without such lines they are empty, except for the two that nothing initialises |
| PkgDetailsSpec.AbsentReads | packages_12.09/admin/debootstrap/files/pkgdetails.c:206-212 | the line for an absent name is cut into the name and a dash |
| PkgDetailsSpec.StopsWhenDone | packages_12.09/admin/debootstrap/files/pkgdetails.c:184-195 | reading stops at a blank line exactly when every name has been dealt with |
| PkgDetailsSpec.EmptyNameIsFound | packages_12.09/admin/debootstrap/files/pkgdetails.c:183-197 | an empty name is found at a second blank line in a row |
| PkgDetailsSpec.WinnerEndsFirstRun | packages_12.09/admin/debootstrap/files/pkgdetails.c:162-171 | a stanza wins iff it is the last of the first consecutive run of a requested name |
| PkgDetailsSpec.RequestedExactlyOnce | packages_12.09/admin/debootstrap/files/pkgdetails.c:162-171 | a requested name has exactly one winner if it occurs and none otherwise |
| PkgDetailsSpec.WinnersOfOne | packages_12.09/admin/debootstrap/files/pkgdetails.c:162-171 | one requested name gives the entry of the last stanza of its first run and nothing else |
| PkgDetailsSpec.OneLinePerName | packages_12.09/admin/debootstrap/files/pkgdetails.c:155-213 | for distinct names the output is, up to order, one line each: that entry, or "name -" |
| PkgDetailsSpec.ChunksPartition | packages_12.09/admin/debootstrap/files/pkgdetails.c:317-323 | the slices of 100 lose, repeat and move no name |
| PkgDetailsSpec.ChunksOfHundred | packages_12.09/admin/debootstrap/files/pkgdetails.c:9 | one name more than a hundred makes a second slice |
| PkgDetails.Pkgs | packages_12.09/admin/debootstrap/files/pkgdetails.c:317-323 | the loop over slices prints the outputs of all of them; for text that classifies as complete stanzas, every one of any number of distinct names gets exactly its own line |
| PkgDetailsSpec.OutputHasOneLineEach | packages_12.09/admin/debootstrap/files/pkgdetails.c:317-323 | over all slices the output is, up to order, one line for each of any number of distinct names: the one it should get |
| LarPaths.JoinSplit | package/luci-0.11/contrib/lar/lar.c:282-288 | the segments are what lies between the separators |
| LarPaths.SplitCount | package/luci-0.11/contrib/lar/lar.c:282-288 | the counting loop counts the segments |
| LarPaths.CopiedIsJoin | package/luci-0.11/contrib/lar/lar.c:292-299 | the copying loop writes exactly the first seg segments joined by the directory separator |
| LarPaths.CopiedWhole | package/luci-0.11/contrib/lar/lar.c:290-299 | with all segments the whole name is copied |
| LarPaths.ExampleCandidates | package/luci-0.11/contrib/lar/lar.c:290-301 | the three candidates for a package of three segments |
| LarPaths.FitsIff | package/luci-0.11/contrib/lar/lar.c:272-288 | what passes both length tests fits the buffer iff there was room for the slash |
| LarPaths.LongestPathOverruns | package/luci-0.11/contrib/lar/lar.c:272-301 | a path and an empty name that pass and do not fit |
| LarPaths.NoPathReadsBefore | package/luci-0.11/contrib/lar/lar.c:270-280 | without a path the candidates are relative iff the byte in front of the buffer is a slash |
| LarFind.MeasurePath | package/luci-0.11/contrib/lar/lar.c:272-274 | the first length test |
| LarFind.MeasureName | package/luci-0.11/contrib/lar/lar.c:282-288 | the second length test, and the number of segments |
| LarFind.WriteBase | package/luci-0.11/contrib/lar/lar.c:276-280 | the path with its slash goes to the front of the buffer and nowhere else |
| LarFind.CopySegments | package/luci-0.11/contrib/lar/lar.c:292-299 | the buffer keeps the base path and gets those segments |
| LarFind.WriteCandidate | package/luci-0.11/contrib/lar/lar.c:292-303 | one turn: stat sees the candidate, and nothing behind the longest one is written |
| LarPaths.RegularBitIff | package/luci-0.11/contrib/lar/lar.c:303 | among the types of files the tested bit is set iff the file is regular, a link or a socket |
| LarPaths.SocketPasses | package/luci-0.11/contrib/lar/lar.c:303 | a mode of a socket that passes |
| LarFind.Search | package/luci-0.11/contrib/lar/lar.c:290-309 | tries the segment prefixes from the longest to the shortest and opens the first whose mode passes the bit test |
| LarPaths.FoundByType | package/luci-0.11/contrib/lar/lar.c:290-309 | by types of files: the file opened, the last one tried, is a regular file, link or socket and none tried before it is; if nothing is opened no candidate is one |
| LarFind.LarFindArchive | package/luci-0.11/contrib/lar/lar.c:259-309 | the same for every package and path, given or not, with the exact conditions of the two length errors and of writing inside the buffer |
| CreditCard.CreditCard | files-IoT/www/lib/jquery.validate.js:1007-1031 | accepts exactly the digits and dashes with a check sum divisible by 10 |
| Luhn.SingleDigitError | files-IoT/www/lib/jquery.validate.js:1019-1030 | changing any one digit of an accepted value is noticed |
| Luhn.AdjacentSwap | files-IoT/www/lib/jquery.validate.js:1019-1030 | swapping two different neighbouring digits goes unnoticed iff they are 0 and 9 |
| Luhn.CheckDigitIsUnique | files-IoT/www/lib/jquery.validate.js:1019-1030 | every payload is completed by one check digit only |
| Luhn.DashesAreIgnored | files-IoT/www/lib/jquery.validate.js:1010-1017 | dashes anywhere make no difference |
| Luhn.OtherCharacters | files-IoT/www/lib/jquery.validate.js:1010-1012 | any other character anywhere is refused |
| Luhn.ExampleNumbers | files-IoT/www/lib/jquery.validate.js:1013-1030 | a number that is accepted and one that is not |

## Left out

- Md5.State.Process: assembles the words of a block from bytes, as the big-endian branch does; the little-endian branch that reads the same words through a pointer or a copy (md5.c:158-172) gives them by the machine's byte order, which is not modelled.
- Md5.State.Append: takes offset + nbytes within the range of an int, as the addition at md5.c:341 does.
- Deferred.Deferred.Add: its arguments are functions, arrays of arguments, or others that are ignored; then, always, pipe and promise are compositions that are not modelled, and exceptions thrown by callbacks are not either.
- When.Countdown.Body: the branch for more than one argument; a single argument is passed through (jquery-latest.js:1103-1105, 1128-1129). It covers promises of this library: each settles at most once.
- DirCheck.Sizzle.Relative: the regular expression that decides whether a part is a word is a parameter: the part comes classified. Which nodes a filter accepts is given per node; what it does to the stamps is arbitrary.
- SortOrder.Sizzle.SortOrder: the branches for compareDocumentPosition and sourceIndex (jquery-latest.js:4607-4620, 4628-4631) are not part of this model; both nodes are of one tree.
- SortOrder.Sizzle.UniqueSort: the engine's sort is given by its result, a permutation in the comparator's order, and by whether it ever compared a node with itself; UniqueSortByInsertion shows a sort that meets this.
- LexHash.GetHashSymbol: the literal tables and their generator are replaced by any well-formed map; lex_casecmp, which is not part of the repository, compares up to case by the same table as the walk.
- Ttcp.Transmit: random data come from a sequence of numbers, not from the generator and its seed; no_start, no_data and no_end are off.
- TtcpProtocol.Accounting: the channel drops packets but neither reorders nor repeats them; the memory behind the receive buffer is a parameter and does not change during a test.
- Ttcp.DrawLength: models the draw of 16 bits of random(), not the Windows variant.
- IconvSpec.Convert: UTF-32, WCHAR_T and the charmap conversions are not modelled: the first is unfinished in the source, the others depend on the machine or on charmaps.h, which is not part of this model. Bytes are unsigned, as the constants of the UTF-8 checks intend.
- IconvSpec.CallsFinish: a caller who gives no room or no new input does not finish, so the calls it speaks of have both.
- PkgDetails.DoPkgMirrorPkgs: takes the file as lines without their newline, shorter than MAX_LINE, so fgets never splits one; the values the source leaves uninitialised (size and checksum) are a parameter.
- PkgDetailsSpec.PassPrintsWinners: for distinct names over complete stanzas, each with one Package line and closed by one blank line.
- PkgDetailsSpec.KeyLine: for checksum field names without a colon, as every real one is.
- LarFind.LarFindArchive: the second length test has the 32-bit size_t of the target, and names are shorter than 2^32. The memory behind the buffer, the byte in front of it and the modes that stat gives are parameters. That lar_open can still fail on a file that passes is outside the model.
- CreditCard.CreditCard: the optional-field test before it is form logic and not modelled.
- The modes FIELD, GETDEPS, STANZAS and WGET% of pkgdetails.c would add members of the same kind or output formatting.
- The archive index, member lookup and memory mapping of lar.c depend on a record layout of the 32-bit build and on files.
- startRequest and stopRequest of jquery.validate.js and the time arithmetic of ttcp.c would only add easy members.
- Sockets, timers, signals, option parsing, rate formatting, DOM, events, animation and requests.
