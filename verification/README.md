# Verified models of the secure heap, the S-expression codec, HMAC, key derivation and constant-time helpers

This project models five pieces of C code that the repository carries in its `_include` tree, and
proves what they are for. The repository's own `src/` files are unfinished and are not modelled.

* **The secure heap** of libgcrypt: a first-fit allocator over a list of pools, whose block headers
  stand in the same bytes as the payloads and are chained by size only. Classes `SecMem.Pool` and
  `SecureHeapClass.SecureHeap` are the code, with its header walks as loops over a byte array;
  `PoolMemory` says what the bytes mean, `BlockList` what a list of blocks is, `HeapModel` and
  `HeapOps` what one pool and the whole heap do, `HeapTheorems` what each call promises and
  `HeapRuns` what holds over every run.
* **The S-expression scanner, printer and accessors** of libgcrypt: `SexpScan` reads a text one
  lexeme at a time and `SexpScanner` is the scanner that goes character by character into the
  growing buffer of `SexpBuffer`; `SexpPrint` says what text an expression has and `SexpPrinter` is
  the two-pass printer; `SexpCanon` is the second, independent parser for canonical texts;
  `SexpAccess` holds the flat byte walks, against the trees of `SexpTokens`. `SexpStrings` and
  `SexpSyntax` say what the texts mean, `SexpLayout` how expressions are printed and `SexpGrammar` which
  texts are canonical, all in plain character codes. `SexpRoundTrip` scans what was printed,
  `SexpReprint` prints what was scanned, and `SexpEnds` says when the scanner drops the end of a text.
* **Streaming SHA-256 and HMAC** (`Hmac256`) against `Sha256`, which states sections 4.1.2, 5.1.1 and
  6.2.2 of FIPS 180-2, and against section 2 of RFC 2104. `KnownAnswers` works out two known answers;
  `TraceChecks` checks their rounds, whose words are in `TraceWords`.
* **KDFa, KDFe and XOR obfuscation** of the TPM software stack (`OctetNumbers`, `Kdf`, `KeyBits`,
  `KeyDerivation`, `DerivedKeys`, `ParameterXor`), over an abstract hash and HMAC that give a digest of
  the algorithm's size or fail.
* **Branch-free compare and conditional move** of libgcrypt (`ConstTime`).

Where the source updates something in place, the model is a class or a method over an array, and its
contract gives the whole new state by a function; the theorems are about those functions.

## What is assumed about the surroundings

* A block header is 8 bytes (a 32-bit size and a 32-bit flag word in little-endian order), an `int`
  has 32 bits, `size_t` and `unsigned long` have 64, and the length field of a data item has 16 bits
  in little-endian order.
* A pool is smaller than 2^31 bytes, because the freeing code keeps sizes in an `int`. Memory for a
  new pool does not overlap the pools there are. The address it would get is a parameter, 0 for
  none. What it holds at first is arbitrary.
* Callers free and resize live payloads only and write inside them; that is `HeapRuns.Enabled`.
* The crypto library below the key derivation may fail on any message, but not differently on the
  same message twice; digests have exactly the algorithm's size.

## Where documentation and code differ

* The scanner looks token characters up with `strchr`, which also finds the terminating NUL: a NUL
  byte is a token character (`SexpChars.IsTokenChar`).
* A token, string, hex string, base64 string or length that the end of the text cuts off is dropped
  without an error, and so is an open display hint (`SexpScan.Finish`). Nothing is dropped exactly when
  the text with an empty list behind it is read with that list (`SexpEnds.NothingDropped`); a token
  alone and an open hint are cases where something is (`SexpEnds.CutTokenDropped`, `OpenHintDropped`).
* The layout comment says that display hints are not supported and not represented. The scanner checks
  their brackets and stores the text between them as an ordinary data item (`SexpRoundTrip.HintIsStored`),
  so a canonical text is printed back exactly when it has none (`SexpReprint.CanonicalTextReprints`).
* The accessors are documented for one list. A buffer may hold several expressions, and their walks do
  not stop at the end of the first: of the text (a)(b c) the length is 3 and element 2 is c
  (`SexpAccess.WalkRunsOn`; `SexpAccess.NothingBeyondTheEnd` has the exact condition).
* The layout comment asks for data of at least one byte. Empty data can be stored, printed in
  advanced mode and scanned back; printed with its length it is refused
  (`SexpRoundTrip.PrintScanRoundTrip` has the exact condition).
* Data lengths are limited to 65535 in the comment only: longer data is stored whole behind the low
  16 bits of its length, and the buffer then does not read back (`SexpTokens.StoredReadsBack`,
  `SexpScan.ReadIsWellFormed`). Accessors cut the size of a copied sublist to 16 bits in the same way
  (`SexpAccess.CopyListIsList`).
* The masks of the conditional move are described for the flags 0 and 1 only; for bytes they depend on
  the flag's low octet alone (`ConstTime.MasksSelect`).
* SHA-256 counts blocks in 32 bits, so its length field is right below 2^38 octets and not, as the
  standard asks, below 2^61 (`Hmac256.CountedBitsExact`).
* A second call of the HMAC finalizer is not idle: it hashes the first result once more
  (`Hmac256.Context.Finish`).
* For bit lengths that are no multiple of 8, KDFa and KDFe keep the low bits of the first octet, that is
  the rightmost bits of the octets, where section 5.1 of NIST SP 800-108 takes the leftmost ones. They
  meet the standard with every crypto library exactly for multiples of 8 (`DerivedKeys.KdfaIffWholeOctets`,
  `DerivedKeys.KdfeIffWholeOctets`); `KeyBits.TopBitIsLost` has streams where the keys differ, and
  `KeyBits.LeftmostBitsAgree` says of one given stream when they are the same number.
* The octet count of a derived key is computed in 32 bits and is 0 for the seven largest bit lengths
  (`Kdf.OctetsOfExact`). The obfuscation passes its bit length in 32 bits too, so its key stream is that
  of a single KDFa call only below 2^29 octets (`ParameterXor.OneDerivationSuffices`).

## Model

| member | source | states |
|---|---|---|
| `BlockList.FirstFit` | _include/libgcrypt/secmem.c:240-250 | the block it returns is free and large enough, and no block in front of it is both |
| `BlockList.TakenEffect` | _include/libgcrypt/secmem.c:252-266 | taking a block keeps the extent of the list, adds exactly one live payload of at least the request and at most a header more, and moves the byte and block counts by just that payload |
| `BlockList.TakenCanonical` | _include/libgcrypt/secmem.c:240-276 | a coalesced list is still coalesced after a block is taken and split |
| `BlockList.SplitNeedsNoMerge` | _include/libgcrypt/secmem.c:262-270 | on a coalesced list the merge call behind a split has nothing to merge |
| `BlockList.ReleasedEffect` | _include/libgcrypt/secmem.c:220-238 | releasing a block removes exactly its payload from the live set and its size from the counts; the extent stays |
| `BlockList.ReleasedCanonical` | _include/libgcrypt/secmem.c:220-238 | releasing and merging never leaves two free neighbours |
| `BlockList.CanonicalUnique` | _include/libgcrypt/secmem.c:220-276 | two coalesced lists of the same length with the same live payloads are the same list |
| `BlockList.LivePayloadsDisjoint` | _include/libgcrypt/secmem.c:240-276 | two live payloads of one list never overlap; a whole header lies between them |
| `BlockList.FragmentationBound` | _include/libgcrypt/secmem.c:240-276 | when no free block holds `s` bytes, the pool is at most the live blocks with their headers plus one gap of at most HEAD + s - 1 bytes more than there are live blocks |
| `PoolMemory.TilingUnique` | _include/libgcrypt/secmem.c:181-193 | the bytes of a pool determine its block list: at most one list tiles it from the start |
| `PoolMemory.HeaderBytes` | _include/libgcrypt/secmem.c:67-92 | a header is eight bytes: the size and then the flag word, 1 for a live block, each with the lowest octet first |
| `PoolMemory.TakenTiled` | _include/libgcrypt/secmem.c:240-276 | after the flag, size and split header are written, the header walk tiles the pool exactly as the list with the block taken |
| `PoolMemory.MergedTiled` | _include/libgcrypt/secmem.c:220-238 | after the size word of the merged run is written, the header walk tiles the pool exactly as the merged list |
| `PoolMemory.ReleasedTiled` | _include/libgcrypt/secmem.c:699-733 | after wipe, flag and merge, the header walk tiles the pool exactly as the list with the block released |
| `PoolMemory.PayloadWriteTiled` | _include/libgcrypt/secmem.c:711-721 | whatever is written inside a payload, by a caller or by the wipe, the header walk finds the same blocks |
| `PoolMemory.ReleasedWrites` | _include/libgcrypt/secmem.c:699-733 | a release zeroes the payload, changes the flag word and at most one size word in front, and writes no other byte |
| `HeapModel.TakeFromEffect` | _include/libgcrypt/secmem.c:240-276 | taking from a pool keeps the pool in order, adds one live payload at the address returned, and updates the counters by its size |
| `HeapModel.TakeFromKeeps` | _include/libgcrypt/secmem.c:240-276 | every payload that was live keeps its bytes when another block is taken or split |
| `HeapModel.ReleaseFromEffect` | _include/libgcrypt/secmem.c:699-733 | freeing a live address keeps the pool in order and removes just that payload from the live set and the counters |
| `HeapModel.ReleaseFromWipes` | _include/libgcrypt/secmem.c:711-721 | every byte of a freed payload is zero afterwards |
| `HeapModel.ReleaseFromKeeps` | _include/libgcrypt/secmem.c:699-733 | every other payload keeps its bytes over a free and its merges |
| `HeapModel.TakesTheLowest` | _include/libgcrypt/secmem.c:240-250 | no free block at a lower address would have held the request |
| `HeapOps.RoundedExact` | _include/libgcrypt/secmem.c:606-607 | the rounding to 32 gives the next multiple, and is at least the request exactly when request + 31 does not wrap in size_t |
| `HeapOps.LivePayloadsApart` | _include/libgcrypt/secmem.c:574-682 | live payloads never overlap, within a pool and across pools |
| `HeapTheorems.MallocEffect` | _include/libgcrypt/secmem.c:574-682 | malloc keeps the whole heap in order; a null result changes no payload; any other is one new live payload of size between the rounded request and that plus a header, at an address that was not live; all live bytes are kept |
| `HeapTheorems.MallocFailsExactly` | _include/libgcrypt/secmem.c:574-682 | malloc returns null exactly when memory is unlocked in FIPS mode, or the main pool has no room and the caller may not expand or neither any pool nor a new one has room |
| `HeapTheorems.MallocServes` | _include/libgcrypt/secmem.c:574-682 | in plain numbers: a request is served exactly when memory is locked or not in FIPS mode and a free block of the main pool holds it rounded up to 32; or the caller may expand and a free block of any pool does, or the system gives a new pool (of the configured size, else 32768 bytes) in which 8 bytes more than that fit |
| `HeapTheorems.GrantIs` | _include/libgcrypt/secmem.c:642-650 | a region for a new pool has exactly the configured size, else 32768 bytes, and overlaps no pool |
| `HeapTheorems.TakenSize` | _include/libgcrypt/secmem.c:252-276 | a payload stands 8 bytes behind the start of its block; it has just the size asked for when more than 8 bytes more are there, else that of the whole block |
| `HeapTheorems.MallocPlace` | _include/libgcrypt/secmem.c:606-682 | a request is served by the first pool of the list with room, an overflow pool only for a caller that may expand, and a new pool, right behind the main pool, only when none has room |
| `HeapTheorems.FreeEffect` | _include/libgcrypt/secmem.c:699-749 | free of a live address removes exactly that payload, zeroes its bytes and keeps every other payload's bytes |
| `HeapTheorems.StoreEffect` | _include/libgcrypt/secmem.c:768-776 | a caller's write inside its payload keeps the heap in order, the live set, and the bytes of all others, and reads back |
| `HeapTheorems.ReallocEffect` | _include/libgcrypt/secmem.c:753-780 | realloc keeps the old bytes in front, zeroes up to the new size, wipes and removes a block it moved from, and leaves every other payload unchanged; a failure keeps every payload |
| `HeapTheorems.HeapIsCanonical` | _include/libgcrypt/secmem.c:220-276 | block lists and counters are a function of the set of live payloads alone: two heaps over the same regions with the same live set have the same lists and counters |
| `HeapTheorems.MallocThenFreeRestores` | _include/libgcrypt/secmem.c:574-733 | malloc then free gives back every block list and counter; when a pool was added it stays behind the main pool as one free block with zero counters, and all other pools are as before |
| `HeapTheorems.FreeOrderIrrelevant` | _include/libgcrypt/secmem.c:699-733 | any two orders of freeing the same payloads end in the same lists and counters |
| `HeapTheorems.FreeingEverything` | _include/libgcrypt/secmem.c:699-733 | once nothing is live each pool is one free block of pool size less one header |
| `HeapTheorems.FailedMallocMeansFragmented` | _include/libgcrypt/secmem.c:574-682 | when malloc returns null, every pool the caller may use obeys the fragmentation bound, in terms of its own counters |
| `HeapRuns.RunKeepsInv` | _include/libgcrypt/secmem.c:574-780 | after every run of malloc, free, realloc and caller writes, from any heap in order: headers tile each pool, no two free neighbours, counters are sum and number of live blocks, pools are disjoint |
| `HeapRuns.RunFromStart` | _include/libgcrypt/secmem.c:369-440 | the same for every run from the freshly initialised main pool |
| `HeapRuns.FreeOfNothing` | _include/libgcrypt/secmem.c:699-749 | the null pointer is handled without a change, an address of no pool is refused without a change |
| `HeapRuns.EnabledAgrees` | _include/libgcrypt/secmem.c:574-780 | whether a call is allowed does not depend on the bytes inside live payloads |
| `HeapRuns.StepAgrees` | _include/libgcrypt/secmem.c:574-780 | one call on two heaps that agree outside live payloads is allowed on both, returns the same and leaves them agreeing outside live payloads, whatever was written inside |
| `HeapRuns.NothingLeaks` | _include/libgcrypt/secmem.c:699-733 | wipe over whole runs: a run of calls and the same run with other bytes written by the callers are both allowed and end in heaps equal on every byte outside live payloads, so no byte a caller wrote survives there through splits, merges and moves |
| `SecMem.Pool.GetNext` | _include/libgcrypt/secmem.c:181-193 | the next header is where the next block of the list starts, none at the end |
| `SecMem.Pool.GetPrev` | _include/libgcrypt/secmem.c:195-218 | the search from the start of the pool ends, and finds the header of the block in front |
| `SecMem.Pool.Merge` | _include/libgcrypt/secmem.c:220-238 | the writes are those of merging the whole run at once, and the list is the merged list |
| `SecMem.Pool.MergeBack` | _include/libgcrypt/secmem.c:228-234 | the block in front takes in this one exactly when it is free; the walk goes on from the one that is left |
| `SecMem.Pool.MergeOn` | _include/libgcrypt/secmem.c:235-237 | the block behind is taken in exactly when it is free; with the step before, memory is that of the whole merged run |
| `SecMem.Pool.GetNew` | _include/libgcrypt/secmem.c:240-276 | the walk finds the first fitting block, marks and splits it, and says so in memory; without one it writes nothing |
| `SecMem.Pool.StatsUpdate` | _include/libgcrypt/secmem.c:166-179 | the byte counter moves by the added less the released size and the block counter by one for each that is not zero, both in 32-bit arithmetic |
| `SecMem.Pool.Take` | _include/libgcrypt/secmem.c:606-614 | serving from one pool is the specified step on the pool's whole state, with the address of the payload |
| `SecMem.Pool.Wipe` | _include/libgcrypt/secmem.c:711-721 | exactly the given bytes get the given value |
| `SecMem.Pool.Release` | _include/libgcrypt/secmem.c:699-733 | four overwrites, counters, flag and merge together are the specified release of the pool's whole state |
| `SecureHeapClass.SecureHeap.FindPool` | _include/libgcrypt/secmem.c:706-708 | the first pool in list order that holds the address |
| `SecureHeapClass.SecureHeap.IsSecure` | _include/libgcrypt/secmem.c:799-822 | true exactly when some pool holds the address |
| `SecureHeapClass.SecureHeap.TakeOverflow` | _include/libgcrypt/secmem.c:628-637 | the overflow pools are tried in list order, and the first with room serves |
| `SecureHeapClass.SecureHeap.AddPool` | _include/libgcrypt/secmem.c:642-671 | a new pool of the configured size, 32768 bytes when none is configured, at the address given; it is one free block and goes right behind the main pool |
| `SecureHeapClass.SecureHeap.TakeExpanding` | _include/libgcrypt/secmem.c:626-679 | the overflow pools in list order, then a new pool behind the main pool, or none when the system gives no memory |
| `SecureHeapClass.SecureHeap.Malloc` | _include/libgcrypt/secmem.c:574-682 | the method on linked pools computes the specified heap and address, with its lock, FIPS, hint and auto-expand branches; it returns an address exactly in the cases of `MallocServes` |
| `SecureHeapClass.SecureHeap.Free` | _include/libgcrypt/secmem.c:699-749 | the method computes the specified heap and says whether the address was ours |
| `SecureHeapClass.SecureHeap.Realloc` | _include/libgcrypt/secmem.c:753-780 | the method computes the specified heap and address |
| `SecureHeapClass.SecureHeap.Poke` | _include/libgcrypt/secmem.c:768-776 | a write into a live payload, a caller's or realloc's copy, is the specified store |
| `SexpTokens.StoredReadsBack` | _include/libgcrypt/sexp.c:36-84 | a stored buffer reads back as its tokens exactly when every data item fits the 16-bit length field |
| `SexpTokens.BalancedIffTrees` | _include/libgcrypt/sexp.c:36-84 | balanced token sequences are exactly the flattenings of lists of trees |
| `SexpTokens.ItemLayout` | _include/libgcrypt/sexp.c:36-84 | tag (1, 3 or 4), the two octets of the length, low one first, and the bytes of the item in front of a walk, and where the rest starts |
| `SexpScan.ScanBalanced` | _include/libgcrypt/sexp.c:1641-1674 | every accepted text gives a balanced token sequence |
| `SexpSyntax.Punctuation` | _include/libgcrypt/sexp.c:1641-1711 | parentheses and brackets by their codes: what each opens or closes, and the error and offset where it cannot stand |
| `SexpSyntax.OtherCharacters` | _include/libgcrypt/sexp.c:1712-1751 | white space is passed over; 0, the reserved punctuation and every other character that begins no lexeme is refused where it stands, each with its error |
| `SexpSyntax.TokenMeans` | _include/libgcrypt/sexp.c:1185-1199 | letters, digits, - . / _ : * + = and NUL up to the first other character are stored as they are |
| `SexpSyntax.LengthMeans` | _include/libgcrypt/sexp.c:1387-1437 | decimal digits and a colon take as many bytes; fewer are too long a length, at the colon; in front of a string the length is ignored; anything else is an invalid length |
| `SexpSyntax.EndOfText` | _include/libgcrypt/sexp.c:1754-1758 | at the end every list must be closed |
| `SexpSyntax.EmptyListIsNothing` | _include/libgcrypt/sexp.c:1754-1773 | a text that begins with () is an error or no expression, whatever follows |
| `SexpStrings.StringMeans` | _include/libgcrypt/sexp.c:1003-1068 | a quoted string is stored as what its pieces denote: plain characters, nine letters behind a backslash, three octal digits modulo 256, two hex digits in either case, and line ends, which denote nothing |
| `SexpStrings.OctalByte` | _include/libgcrypt/sexp.c:1050-1058 | the three octal digits of any byte denote that byte |
| `SexpStrings.BadEscapeRefused` | _include/libgcrypt/sexp.c:1201-1269 | any other escape is refused at the character behind its backslash |
| `SexpStrings.HexMeans` | _include/libgcrypt/sexp.c:1288-1329 | a hex string is stored as its digits two by two, high half first, white space left out; an odd number of digits and any other character are refused where they end it |
| `SexpStrings.Base64Means` | _include/libgcrypt/sexp.c:1330-1386 | the characters between two bars go to the decoder; a refusal by the decoder and any other character are errors |
| `SexpScan.ReadIsWellFormed` | _include/libgcrypt/sexp.c:1754-1773 | what is stored is the encoding of a list of trees with the stop tag behind it, and reads back as those tokens exactly when no data item is longer than the field can say |
| `SexpEnds.CompleteMeans` | _include/libgcrypt/sexp.c:1183-1754 | from every state of the scanner: an accepted text ends between lexemes with no hint open exactly when an empty list put behind it is read as that list |
| `SexpEnds.NothingDropped` | _include/libgcrypt/sexp.c:1754-1758 | nothing of an accepted text is dropped exactly when the text with () behind it gives the same tokens and that list |
| `SexpEnds.CutTokenDropped` | _include/libgcrypt/sexp.c:1754-1758 | a text that is one token and nothing behind it gives no expression and no error |
| `SexpEnds.OpenHintDropped` | _include/libgcrypt/sexp.c:1754-1758 | a hint opened behind a string and never closed is dropped without an error: the result is that of the string alone |
| `SexpBuffer.Buffer.MakeSpace` | _include/libgcrypt/sexp.c:974-997 | the buffer has room for a tag, a length and `n` bytes with one to spare, and what was stored is kept through the growth |
| `SexpBuffer.Buffer.PutLength` | _include/libgcrypt/sexp.c:1160-1165 | the low 16 bits of the length are appended in memory order |
| `SexpBuffer.Buffer.PutData` | _include/libgcrypt/sexp.c:1189-1198 | a data item is appended as encoded, inside the allocated size |
| `SexpBuffer.Buffer.PutQuoted` | _include/libgcrypt/sexp.c:1270-1286 | the string is stored unescaped and its length filled in afterwards, all inside the space made for the escaped text |
| `SexpBuffer.Buffer.PutUnquoted` | _include/libgcrypt/sexp.c:1003-1068 | the loop appends exactly the bytes the quoted string denotes, never more than its length |
| `SexpBuffer.Buffer.PutHex` | _include/libgcrypt/sexp.c:1299-1322 | the hex digits, white space skipped, are stored as their bytes behind the right length |
| `SexpScanner.Scanner.StepQuote` | _include/libgcrypt/sexp.c:1201-1287 | one character of a quoted string keeps: tokens stored so far plus what is to come are the reading of the whole text |
| `SexpScanner.Scanner.StepHex` | _include/libgcrypt/sexp.c:1288-1329 | the same for a hex string, with its odd-count and bad-digit errors |
| `SexpScanner.Scanner.StepBase64` | _include/libgcrypt/sexp.c:1330-1386 | the same for a base64 string over an arbitrary decoder |
| `SexpScanner.Scanner.StepDigits` | _include/libgcrypt/sexp.c:1387-1437 | the same for a length prefix: verbatim bytes, too long a length, a prefix in front of another form, an invalid one |
| `SexpScanner.Scanner.StepBetween` | _include/libgcrypt/sexp.c:1641-1751 | the same between lexemes: parentheses, display hints, starts of lexemes, white space and the punctuation errors |
| `SexpScanner.ScanText` | _include/libgcrypt/sexp.c:1095-1775 | on every text the character-by-character scanner gives the outcome of the lexeme-by-lexeme reading: the same buffer, the same error, the same offset |
| `SexpPrinter.SuitableEncoding` | _include/libgcrypt/sexp.c:1845-1871 | hex exactly for non-empty data whose first byte is at least 128 or that holds a byte up to 7, from 14 to 31 or from 127 to 160; a token exactly for non-empty data of letters, digits and - . / _ : * + = that does not begin with a digit; else a string |
| `SexpPrinter.ConvertedSize` | _include/libgcrypt/sexp.c:1876-1963 | without a destination the converters return the number of bytes they would write |
| `SexpPrinter.PutHexText` | _include/libgcrypt/sexp.c:1876-1889 | writing the hex form writes that text and nothing at or behind `max`, counting the terminating NUL of formatted output |
| `SexpPrinter.PutStringText` | _include/libgcrypt/sexp.c:1891-1950 | writing the string form writes that text with its escapes, and nothing at or behind `max` |
| `SexpPrinter.PutItem` | _include/libgcrypt/sexp.c:2037-2060 | a data item in advanced mode is counted and written alike, or refused when it does not fit |
| `SexpPrinter.PutVerbatim` | _include/libgcrypt/sexp.c:2072-2083 | a data item with its length is counted and written alike, or refused when it does not fit |
| `SexpPrinter.PutToken` | _include/libgcrypt/sexp.c:1983-2089 | one token with its line breaks, indent and spaces, depending on the tag behind it |
| `SexpPrinter.Sprint` | _include/libgcrypt/sexp.c:1968-2110 | sizing and writing agree: without a buffer the size with NUL; with a large enough one the text, its length and a NUL; with less 0; and no byte at or behind `max` is touched |
| `SexpLayout.PrintIsLayout` | _include/libgcrypt/sexp.c:1968-2110 | the print of any expressions, by tree and in character codes: which form an item takes and how it is escaped, where lines begin, how deep they are indented, and where spaces stand |
| `SexpLayout.FormIs` | _include/libgcrypt/sexp.c:1845-1871 | the same three conditions for the form that the text is defined with |
| `SexpLayout.TokenPrintsBare` | _include/libgcrypt/sexp.c:1968-2110 | in advanced mode a list of one item that can be a token prints as that item in parentheses and a line end |
| `SexpRoundTrip.DecimalReads` | _include/libgcrypt/sexp.c:2072-2083 | the decimal text of a length reads back as that length and begins with 0 only for 0 |
| `SexpRoundTrip.EscapedTextReads` | _include/libgcrypt/sexp.c:1891-1950 | an escaped string ends at its closing quote and unescapes to the original bytes |
| `SexpRoundTrip.HintIsStored` | _include/libgcrypt/sexp.c:1183-1749 | the string in a display hint, whatever its bytes, is stored as an ordinary data item |
| `SexpRoundTrip.HexTextReads` | _include/libgcrypt/sexp.c:1876-1889 | a hex text ends at its closing mark and denotes the original bytes |
| `SexpRoundTrip.PrintedTextScans` | _include/libgcrypt/sexp.c:1968-2110 | whatever is balanced and printed is scanned back whole, at every depth and offset |
| `SexpRoundTrip.PrintedEmptyDataRefused` | _include/libgcrypt/sexp.c:1716-1722 | an empty data item printed with its length makes the scanner refuse the whole text, wherever it stands |
| `SexpRoundTrip.PrintScanRoundTrip` | _include/libgcrypt/sexp.c:1968-2110 | print then scan gives back the stored expression exactly when the expression is not a forbidden empty one and, in the modes that print lengths, holds no empty data |
| `SexpCanon.CanonLen` | _include/libgcrypt/sexp.c:2119-2248 | the loop returns what the canonical reading gives, with or without a limit, including its errors |
| `SexpCanon.CanonAcceptedScans` | _include/libgcrypt/sexp.c:2119-2248 | from every state of the canonical parser, what it accepts the scanner accepts on the same bytes when the lengths fit |
| `SexpCanon.TwoParsersAgree` | _include/libgcrypt/sexp.c:2119-2248 | on the `n` bytes the canonical parser accepts the scanner reports no error when lengths are below the limit, and all data it stores is below it |
| `SexpCanon.CanonNeedsNoMore` | _include/libgcrypt/sexp.c:2119-2248 | acceptance depends on the accepted bytes alone |
| `SexpGrammar.AcceptsExactly` | _include/libgcrypt/sexp.c:2119-2248 | the canonical parser accepts exactly the texts of a grammar, lengths being of 32 bits: one list of data, lists and display hints with data in them, whatever stands behind it |
| `SexpGrammar.HintedTreeAccepted` | _include/libgcrypt/sexp.c:2119-2248 | lists whose data may carry display hints are accepted: their canonical length is the length of their text, whatever bytes follow, with and without a limit |
| `SexpGrammar.RefusedBytes` | _include/libgcrypt/sexp.c:2178-2246 | which byte is refused in which state, and with which error |
| `SexpGrammar.RefusedLengths` | _include/libgcrypt/sexp.c:2148-2177 | a length is refused where something else than a colon follows it, and where too few bytes do |
| `SexpGrammar.RefusedEnds` | _include/libgcrypt/sexp.c:2140-2153 | what does not begin with a parenthesis is not canonical; a text that ends early is too long for its limit, and without a limit would be read past |
| `SexpReprint.DecimalOfNumber` | _include/libgcrypt/sexp.c:2150-2200 | a length without a leading zero is the one decimal text of its number |
| `SexpReprint.AcceptedIsReprinted` | _include/libgcrypt/sexp.c:2119-2248 | from every state of the canonical parser: what it accepts to its end, with 32-bit lengths, is scanned into tokens whose canonical print is that text when it has no display hint, and shorter when it has one |
| `SexpReprint.CanonicalTextReprints` | _include/libgcrypt/sexp.c:2119-2248 | scan and print in canonical mode give the accepted bytes back exactly when no display hint is among them |
| `SexpCanon.CanonLenOfPrint` | _include/libgcrypt/sexp.c:2119-2248 | the canonical length of a printed list is the length of the print, whatever bytes follow, with and without a limit |
| `SexpAccess.Length` | _include/libgcrypt/sexp.c:514-549 | the byte walk counts what the token sequence counts |
| `SexpAccess.LengthIsCount` | _include/libgcrypt/sexp.c:514-549 | the length of an expression is the number of elements of all its top-level lists together; data outside a list does not count |
| `SexpAccess.LengthOfOneList` | _include/libgcrypt/sexp.c:514-549 | the length of one list is the number of its elements |
| `SexpAccess.SkipInList` | _include/libgcrypt/sexp.c:610-640 | skipping elements of a list ends in front of that element or at the end of the list; a longer skip runs on behind the list, one level up |
| `SexpAccess.Nth` | _include/libgcrypt/sexp.c:596-690 | the byte walk returns the element of the token sequence |
| `SexpAccess.NthIsElement` | _include/libgcrypt/sexp.c:596-690 | the n-th element of any expression is the element its walk stands in front of: data wrapped in a list, a non-empty list itself exactly when it encodes in 65535 bytes, none for an empty list or where the walk ends; nothing of an expression that does not begin with a list |
| `SexpAccess.NthIsChild` | _include/libgcrypt/sexp.c:596-690 | the n-th element of the first list is its n-th child, whatever follows that list; a negative number means the first |
| `SexpAccess.NothingBeyondTheEnd` | _include/libgcrypt/sexp.c:596-640 | beyond the end of the first list the walk finds no element exactly when no list behind it has a second one |
| `SexpAccess.WalkRunsOn` | _include/libgcrypt/sexp.c:514-549 | the two expressions (a)(b c) have length 3, and element 2 of them is c |
| `SexpAccess.NthData` | _include/libgcrypt/sexp.c:702-756 | the byte walk returns the bytes of the token sequence |
| `SexpAccess.NthDataIsAtom` | _include/libgcrypt/sexp.c:702-756 | the bytes of the element the walk stands in front of when it is data, of an expression that is data alone for the number 0, and nothing else |
| `SexpAccess.CopyListIsList` | _include/libgcrypt/sexp.c:456-490 | a sublist copied through the 16-bit size is that list exactly when it encodes in 65535 bytes; the empty list becomes no expression |
| `SexpAccess.Find` | _include/libgcrypt/sexp.c:434-507 | the byte walk returns what the search over tokens finds: for as many bytes of the name as the length says, and for a length of 0 for those in front of its first NUL |
| `SexpAccess.StringLength` | _include/libgcrypt/sexp.c:442-444 | the number of bytes in front of the first NUL |
| `SexpAccess.FindTokenIsPreorder` | _include/libgcrypt/sexp.c:434-507 | find_token is the first sublist in preorder whose head is the token, copied whole exactly when it encodes in 65535 bytes; data that looks like tags never confuses it |
| `Sha256.InitialWordsAreRoots` | _include/libgcrypt/hmac256.c:316-323 | the eight initial words are the first 32 bits of the fractional parts of the square roots of the first eight primes |
| `Sha256.Constants0AreRoots` | _include/libgcrypt/hmac256.c:160-161 | the round constants 0 to 7 are the first 32 bits of the fractional parts of the cube roots of the primes 2 to 19 |
| `Sha256.Constants8AreRoots` | _include/libgcrypt/hmac256.c:162-163 | the same for constants 8 to 15 and the primes 23 to 53 |
| `Sha256.Constants16AreRoots` | _include/libgcrypt/hmac256.c:164-165 | the same for constants 16 to 23 and the primes 59 to 83 |
| `Sha256.Constants24AreRoots` | _include/libgcrypt/hmac256.c:166-167 | the same for constants 24 to 31 and the primes 89 to 131 |
| `Sha256.Constants32AreRoots` | _include/libgcrypt/hmac256.c:168-169 | the same for constants 32 to 39 and the primes 137 to 173 |
| `Sha256.Constants40AreRoots` | _include/libgcrypt/hmac256.c:170-171 | the same for constants 40 to 47 and the primes 179 to 223 |
| `Sha256.Constants48AreRoots` | _include/libgcrypt/hmac256.c:172-173 | the same for constants 48 to 55 and the primes 227 to 263 |
| `Sha256.Constants56AreRoots` | _include/libgcrypt/hmac256.c:174-175 | the same for constants 56 to 63 and the primes 269 to 311 |
| `Hmac256.SameRoundFunctions` | _include/libgcrypt/hmac256.c:138-139 | the two round functions as the program writes them are those of the standard |
| `Hmac256.SameSums` | _include/libgcrypt/hmac256.c:140-143 | the four sums of rotations and shifts as the program writes them are those of the standard |
| `Hmac256.Schedule` | _include/libgcrypt/hmac256.c:192-211 | the 64 words are the message schedule of the standard |
| `Hmac256.Context.Transform` | _include/libgcrypt/hmac256.c:133-224 | the hash words become the standard's compression of the old ones with the block |
| `Hmac256.Context.Flush` | _include/libgcrypt/hmac256.c:387-402 | a full buffer is taken in and counted; the message given so far is the same |
| `Hmac256.Context.Update` | _include/libgcrypt/hmac256.c:387-425 | streaming equals one-shot: the message grows by exactly the data, the hash words are the fold over all full blocks, the buffer is the remainder, the counters are quotient and remainder; a finalized context ignores data |
| `Hmac256.BitCount` | _include/libgcrypt/hmac256.c:247-262 | the two words are the bit count of the counted message, carries between them included |
| `Hmac256.CountedBitsExact` | _include/libgcrypt/hmac256.c:247-262 | the bit count is right exactly for messages below 2^38 octets |
| `Hmac256.CountedBitsIs` | _include/libgcrypt/hmac256.c:247-262 | for every length it is eight times the length modulo 2^38 |
| `Hmac256.LengthInTwoWords` | _include/libgcrypt/hmac256.c:275-283 | the eight octets of the two words are the 64-bit length, most significant first |
| `Hmac256.PaddedEnds` | _include/libgcrypt/hmac256.c:264-283 | for every remainder the one or two last blocks are the standard's padding: 0x80, zeros and the length |
| `Hmac256.PaddedIs` | _include/libgcrypt/hmac256.c:264-283 | the padded message octet by octet: the message, 0x80, zeros and the length in eight octets, in the fewest blocks of 64 octets that hold them |
| `Hmac256.Context.Pad` | _include/libgcrypt/hmac256.c:264-274 | the buffer is padded up to the length field, over a second block when the first has no room |
| `Hmac256.Context.FinalizeHash` | _include/libgcrypt/hmac256.c:235-298 | the digest of everything given, with the padding and the counted length; nothing on a second call |
| `Hmac256.CountedHashIsHash` | _include/libgcrypt/hmac256.c:235-298 | below 2^38 octets the program's hash is SHA-256 |
| `Hmac256.PaddedExact` | _include/libgcrypt/hmac256.c:247-283 | the octets fed to the compression function are the padded message of the standard exactly for messages below 2^38 octets |
| `Hmac256.New` | _include/libgcrypt/hmac256.c:307-368 | the inner message starts with the key block under one pad, the outer pad is kept; a long key is hashed first; without a key it is the plain hash |
| `Hmac256.KeyBlockIsStandard` | _include/libgcrypt/hmac256.c:330-356 | the zero-padded or hashed key is the key block of RFC 2104 |
| `Hmac256.Context.Finish` | _include/libgcrypt/hmac256.c:428-453 | the digest, and with a key the outer hash of pad and digest; a second call with a key hashes the first result again |
| `Hmac256.Mac` | _include/libgcrypt/hmac256.c:463-525 | for any split of the message into pieces the result is the nested hash of the concatenation |
| `Hmac256.MacIsStandard` | _include/libgcrypt/hmac256.c:307-453 | for keys below 2^38 octets and messages below 2^38 - 64 it is the HMAC of RFC 2104 over SHA-256 |
| `Hmac256.MacWrittenOut` | _include/libgcrypt/hmac256.c:307-453 | the same written out: the key, hashed when longer than 64 octets, zero-filled and combined with 0x36 for the inner and 0x5c for the outer hash; without a key the plain hash |
| `KnownAnswers.HashOfAbc` | _include/libgcrypt/hmac256.c:133-224 | the hash of "abc" is the 32 octets of appendix B.1 of FIPS 180-2 |
| `KnownAnswers.MacOfText` | _include/libgcrypt/hmac256.c:540-546 | the first answer of the self test: the keyed hash of "what do ya want for nothing?" under the key "Jefe" |
| `Kdf.MarshalledValue` | _include/tss2/tss2-esys/esys_crypto.c:535-537 | a counter or bit length marshalled is that number, most significant octet first |
| `Kdf.MarshalledOctets` | _include/tss2/tss2-esys/esys_crypto.c:535-537 | octet by octet: the four quotients by powers of 256, modulo 256 |
| `Kdf.DigestBits` | _include/tss2/tss2-esys/esys_crypto.c:39-58 | the digests have the bits that the algorithms are named for, 256 for SM3; other algorithms have none |
| `Kdf.CountersSeparate` | _include/tss2/tss2-esys/esys_crypto.c:533-558 | iterations with different counters never hash the same message |
| `Kdf.StreamOctet` | _include/tss2/tss2-esys/esys_crypto.c:627-641 | octet k of the key stream is octet k mod h of iteration k / h + 1 |
| `Kdf.StreamPrefix` | _include/tss2/tss2-esys/esys_crypto.c:627-641 | a shorter key stream is a prefix of a longer one from the same counter |
| `Kdf.StreamCarriesOn` | _include/tss2/tss2-esys/esys_crypto.c:616-646 | deriving i and then j digests with the carried counter is deriving i + j, wrap-around of the counter included |
| `Kdf.BlocksIsCeiling` | _include/tss2/tss2-esys/esys_crypto.c:627-641 | the number of iterations is the octet count divided by the digest size, rounded up, and at least one |
| `Kdf.OctetsOfExact` | _include/tss2/tss2-esys/esys_crypto.c:624-624 | the octet count is the bit length rounded up exactly for bit lengths up to 2^32 - 8, and 0 for the rest |
| `Kdf.KeyBufferFits` | _include/tss2/tss2-esys/esys_iutil.c:738-743 | the whole digests written fit the callers' rounded-up buffer for every key and block size within the maxima, and the largest fills it |
| `Kdf.MaskIsModulo` | _include/tss2/tss2-esys/esys_crypto.c:642-643 | the masked key, read as a number, is the stream reduced to the bit length |
| `KeyBits.KeyIsModulo` | _include/tss2/tss2-esys/esys_crypto.c:642-643 | masking the whole digests of a stream masks the key in front of them: read as a number that key is the front of the stream reduced to the bit length |
| `KeyBits.LeftmostBitsAgree` | _include/tss2/tss2-esys/esys_crypto.c:642-643 | for other bit lengths the key kept is the standard's leftmost bits exactly when the octets repeat themselves, bit i equal to bit i plus the number of bits left over |
| `KeyBits.LeftmostIffWholeOctets` | _include/tss2/tss2-esys/esys_crypto.c:642-643 | the key left of a stream is the standard's leftmost bits for every stream exactly when the bit length is a multiple of 8 |
| `KeyBits.MaskIsLeftmostIffWholeOctets` | _include/tss2/tss2-esys/esys_crypto.c:642-643 | the same over all strings of exactly the octets wanted |
| `KeyBits.TopBitIsLost` | _include/tss2/tss2-esys/esys_crypto.c:642-643 | for every other bit length, any stream that begins with the octet 0x80 is a case where the key is smaller than the standard's |
| `KeyDerivation.KdfaHmac` | _include/tss2/tss2-esys/esys_crypto.c:511-570 | the message is counter, label with its NUL, the contexts and the bit length; a missing key or context is refused; the digest goes to its place and no other octet is touched |
| `KeyDerivation.KdfaInput` | _include/tss2/tss2-esys/esys_crypto.c:533-558 | the parts in source order: counter, label with its NUL, both contexts, bit length |
| `KeyDerivation.Kdfa` | _include/tss2/tss2-esys/esys_crypto.c:593-647 | success exactly when every iteration succeeds; then whole digests of the key stream, the first octet masked, and the counter after the last iteration; a failure leaves whole digests of a prefix and the counter unchanged |
| `KeyDerivation.KdfaIsCounterMode` | _include/tss2/tss2-esys/esys_crypto.c:593-647 | from any counter, for any bit length and for the digest size: the key is the fewest whole digests that hold what is wanted, at least one, and octet k is octet k mod h of the HMAC of counter start + 1 + k / h, label with its zero, both contexts and bit length, as in counter mode of section 5.1 of NIST SP 800-108; of the first octet only the low bits are left when the bit length is no multiple of 8 |
| `KeyDerivation.KdfaFailsExactly` | _include/tss2/tss2-esys/esys_crypto.c:627-641 | there is a key exactly when the HMAC succeeds for every counter it takes |
| `KeyDerivation.KdfeHash` | _include/tss2/tss2-esys/esys_crypto.c:703-730 | the hash input is counter, secret, label with its NUL and the parties, missing parts adding nothing |
| `KeyDerivation.Kdfe` | _include/tss2/tss2-esys/esys_crypto.c:664-750 | refused exactly without a hash or an octet to derive; else whole digests from counter 1 on, first octet masked |
| `KeyDerivation.KdfeIsCounterMode` | _include/tss2/tss2-esys/esys_crypto.c:664-750 | octet k of the key is octet k mod h of the hash of counter 1 + k / h, secret, label with its zero and the two parties, in this order; a part that is missing adds nothing; the size and the first octet are as for KDFa |
| `KeyDerivation.KdfeDigest` | _include/tss2/tss2-esys/esys_crypto.c:692-740 | with nothing missing, digest i of the key is the hash of counter i + 1 and the four parts one behind the other |
| `KeyDerivation.KdfeFailsExactly` | _include/tss2/tss2-esys/esys_crypto.c:692-740 | there is a key exactly when the hash succeeds for every counter it takes |
| `DerivedKeys.KdfaIffWholeOctets` | _include/tss2/tss2-esys/esys_crypto.c:593-647 | for every key, label, contexts, counter and bit length from 1 to 2^32 - 8: KDFa gives the standard's leftmost bits with every crypto library exactly when the bit length is a multiple of 8 |
| `DerivedKeys.KdfeIffWholeOctets` | _include/tss2/tss2-esys/esys_crypto.c:664-747 | the same for KDFe |
| `ParameterXor.XorObfuscation` | _include/tss2/tss2-esys/esys_crypto.c:768-809 | in place, every octet combined with the key stream of the carried counter; the errors for missing key, data or hash; a failing derivation leaves a prefix combined |
| `ParameterXor.ObfuscatedOctet` | _include/tss2/tss2-esys/esys_crypto.c:792-807 | octet k of the data is combined with octet k mod h of the HMAC of counter 1 + k / h, the octets 58 4f 52 00, both contexts and the bit length modulo 2^32 |
| `ParameterXor.KeyStreamCovers` | _include/tss2/tss2-esys/esys_crypto.c:792-807 | the key stream reaches over the whole data |
| `ParameterXor.ObfuscationUndoesItself` | _include/tss2/tss2-esys/esys_crypto.c:768-809 | applying it to its own result gives the data back, for every length |
| `ParameterXor.OneDerivationSuffices` | _include/tss2/tss2-esys/esys_crypto.c:768-809 | the carried key stream is the stream of one single KDFa call for the whole length, unmasked, below 2^29 octets; from there on the single call gives a prefix of it that is shorter than the data |
| `ConstTime.NotMemEqual` | _include/libgcrypt/const-time.c:36-58 | 1 exactly when some octet differs, for every length |
| `ConstTime.MemEqual` | _include/libgcrypt/const-time.c:60-68 | 1 exactly when no octet differs |
| `ConstTime.IsNotZero` | _include/libgcrypt/const-time.h:37-47 | 1 exactly for a non-zero word |
| `ConstTime.IsZero` | _include/libgcrypt/const-time.h:49-59 | 1 exactly for zero |
| `ConstTime.NotEqualByte` | _include/libgcrypt/const-time.h:61-73 | 1 exactly for two different octets |
| `ConstTime.MasksSelect` | _include/libgcrypt/const-time.h:88-131 | the masks keep every octet exactly when the low octet of the flag is 0 and take the other exactly when it is 1 |
| `ConstTime.SelectedIs` | _include/libgcrypt/const-time.h:88-131 | for every flag: the bits of the destination where its low octet less one has them, and those of the source where its negation does |
| `ConstTime.MemMovCond` | _include/libgcrypt/const-time.c:70-88 | every octet is mixed from source and destination by the flag, one after the other; flag 0 changes nothing; flag 1 copies forward, and is a move when the areas are apart or the destination is not above the source |
| `ConstTime.MovesIffNotAhead` | _include/libgcrypt/const-time.c:70-88 | the forward copy is a move for all contents exactly when the destination is not above the source or the areas are apart; each other placement has contents it gets wrong |

## Left out

- The repository's `src/` and `include/sh_*` files: unfinished, and they contradict their own comments.
- secmem: page locking, mapping, privileges, warnings, locks and memory barriers, statistics output;
  the setters of flags and of the expansion size (both are constants of a heap here).
- secmem: initialisation on first use and termination; runs start at the initialised main pool, and
  the counters are not followed past a termination, which does not reset them.
- secmem: requests within 31 of the largest `size_t`, whose rounding wraps
  (`HeapOps.RoundedExact` says exactly which), and requests for 0 bytes, which the caller's layer turns away.
- SecMem.Pool.Release: an address inside the pool that starts no live payload, because the source does
  not detect it and takes whatever stands in front of it for a header.
- SecureHeapClass.SecureHeap.Free: the same for an address inside some pool; null and addresses of no
  pool are covered.
- SecureHeapClass.SecureHeap.Realloc: a pointer that is no live payload, for the same reason.
- SecureHeapClass.SecureHeap.Malloc: requests for 0 bytes and those within 31 of the largest `size_t`, as
  above: they would make blocks of no bytes.
- SexpScanner.Scanner.StepDigits: a length beyond `int` is an exact number here, where `atoi` of it is
  undefined in C.
- SexpScanner.ScanText: the same, and the byte behind the text that a backslash in front of a last line
  end makes the scanner look at.
- sexp: printf-style arguments, multi-precision integers, switching to secure memory, parameter
  extraction; the base64 decoder is a parameter of the scanner.
- sexp: sizes beyond `size_t` or the available memory. The canonical parser's 32-bit lengths are modelled.
- sexp: cdr and cadr, cons and the other constructors, dumps, nth as a string or number; a null list.
- hmac256: reading files, the further vectors of the self test, failing allocation, wiping of released contexts. `Hmac256.Mac`
  is the file driver's loop over pieces that are already in memory.
- Hmac256.MacIsStandard: not stated for longer keys and messages, where the length field is wrong
  (`Hmac256.CountedBitsExact` is the exact bound for one hash).
- esys_crypto: real hash, HMAC and AES back ends, callbacks, logging, the null checks that logging makes
  moot for KDFa's contexts, and which error paths release their context.
- esys_crypto: authHmac and the marshalling of sessions.
- const-time: word selection and null-pointer selection, which only combine the two masks.
- Timing: nothing here says how long the branch-free code runs.
- OpenSSL and mbedTLS wrappers, hardware detection, visibility wrappers, the FIPS state machine,
  tokenising of strings, mpicalc and dumpsexp.
