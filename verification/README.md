# A Dafny model of NGemity's self-contained components

NGemity is a game server in C++. This project models eight of its components in Dafny and proves what
they are for. Each component has an independent definition of what it should compute (a published
standard, a sequence, a map, a step system), the source's own algorithm in its own form, and theorems that
connect the two.

| files | component | main results |
|---|---|---|
| `DesTables`, `Fips46`, `DesCriteria`, `DesBits`, `XDesTables`, `DesSBoxes`, `XDes`, `XDesClass` | table-driven DES | the source's tables are those of FIPS PUB 46-3, and its lookups compute the bit-level cipher; decryption undoes encryption in place on buffers of any length; complementation, weak keys, the S-box criterion |
| `MpscQueue` | lock-free queue | an invariant over every interleaving of any number of producers and one consumer; FIFO order; no use after free; destruction frees every node once |
| `Md5Words`, `Md5Spec`, `Md5` | incremental MD5 | any chunking gives the digest of RFC 1321; the exact lengths for which the 32-bit block loop stops in time |
| `Utf8Spec`, `Utf8Checked`, `Utf8Unchecked` | Unicode transcoding | the validator accepts exactly the encodings of RFC 3629 (without U+FFFE and U+FFFF); all conversions round-trip; unchecked and checked forms agree |
| `Rc4` | stream cipher with peeking | every state is a permutation, the step is a bijection, sender and receiver stay in lockstep under any chunking and any peeks |
| `Regions`, `RegionWindow`, `RegionGrid` | map regions | back-indices stay right over any run; the lazy two-level grid is a map keyed by cell and layer; the window enumeration, its missing bottom row, and how a moving view splits |
| `Serial`, `ByteBuffer`, `XPacket` | packet serialisation | any message of nested scalars, strings, vectors and maps reads back; bit writes; packet header and checksum |
| `EventQueue`, `EventLoop`, `EventEnds`, `EventRuns`, `EventProcessor` | time-ordered scheduler | exactly when `Update` ends and after how many rounds; it then handles exactly the due events in order if these add later ones only; over whole runs no event is lost and marked events never run |

`Basics` holds the byte type and a few facts about division and slices that several components use.

Bytes are `bv8` where the source works on their bits and bounded integers where it does arithmetic; 32-bit and
64-bit wrap-around is written out wherever the source can reach it. Objects the source updates in place are
classes; a vector or a multimap is a field of sequence type.

## Model

| member | source | states |
|---|---|---|
| Fips46.PermutationsCancel | shared/Encryption/XDes.cpp:55-77 | the initial and final permutation tables are inverse to each other, both ways |
| Fips46.IterationsUnwind | shared/Encryption/XDes.cpp:446-469 | sixteen (or any number of) Feistel rounds with the keys in reverse order undo themselves across the swap of halves |
| Fips46.CipherUndone | shared/Encryption/XDes.cpp:420-469 | the whole cipher with the keys reversed undoes the cipher, for any list of round keys |
| Fips46.DecipherInvertsEncipher | shared/Encryption/XDes.cpp:420-469 | deciphering inverts enciphering and enciphering inverts deciphering, for every key and block |
| Fips46.KeyScheduleOfNot | shared/Encryption/XDes.cpp:339-370 | complementing the key complements every round key |
| Fips46.Complementation | shared/Encryption/XDes.cpp:339-443 | complementing key and block complements the ciphertext, for every key and block |
| DesBits.ExpandIsE | shared/Encryption/XDes.cpp:217-247 | the six shift-and-mask bytes are the expansion E of the 32 bits |
| DesBits.BytesOfBitsOf | shared/Encryption/XDes.cpp:164 | bytes and bit strings correspond one to one |
| XDesTables.SourceSelectionIsStandard | shared/Encryption/XDes.cpp:107-148 | every entry of si is the value of the selection function in that row and column |
| XDesTables.SourcePermutationsAreStandard | shared/Encryption/XDes.cpp:55-77 | ip and fp are the initial permutation and its inverse, and p32i (lines 151 to 161) is P |
| XDesTables.SourceChoicesAreStandard | shared/Encryption/XDes.cpp:79-105 | pc1 and pc2 are the permuted choices 1 and 2 |
| XDesTables.TotalsAreRunningSums | shared/Encryption/XDes.cpp:93 | totrot holds the running sums of the standard's left shifts |
| DesCriteria.OneBitChangesTwo | shared/Encryption/XDes.cpp:107-148 | for each of the eight selection functions, two inputs that differ in one bit have outputs that differ in at least two |
| DesCriteria.RowHoldsAll | shared/Encryption/XDes.cpp:107-148 | every row of every selection function is a permutation of 0..15 |
| DesCriteria.ParityIgnored | shared/Encryption/XDes.cpp:346-352 | keys that differ in parity bits only have the same key schedule |
| DesCriteria.WeakKeysUndoThemselves | shared/Encryption/XDes.cpp:339-443 | under a key whose two halves are constant, enciphering twice gives the block back |
| DesSBoxes.GetCompIsS | shared/Encryption/XDes.cpp:318-325 | getcomp looks up the row of the outer bits and the column of the inner bits of its selection function |
| DesSBoxes.CompPairIsS | shared/Encryption/XDes.cpp:327-336 | an entry of the 12-bit tables holds the outputs of two neighbouring selection functions |
| DesSBoxes.ContractIsS | shared/Encryption/XDes.cpp:264-267 | the four table lookups, with their 12-bit windows over six bytes, are the eight selection functions |
| XDesCipher.PermInit | shared/Encryption/XDes.cpp:397-418 | every mask of a nibble table holds exactly the output bits that the permutation sends the nibble's set bits to |
| XDesCipher.P32Init | shared/Encryption/XDes.cpp:372-393 | the same for the byte tables of the 32-bit permutation |
| XDesCipher.SInit | shared/Encryption/XDes.cpp:327-336 | all four tables of 4096 entries hold the pairs of selection function values |
| XDesCipher.RotatedAt | shared/Encryption/XDes.cpp:358-362 | reading the chosen key bits at the cumulative rotation of a round equals rotating both halves round by round |
| XDesCipher.KeyRound | shared/Encryption/XDes.cpp:358-369 | one round of kinit stores that round's key and no other |
| XDesCipher.KInit | shared/Encryption/XDes.cpp:339-370 | the sixteen stored round keys are the key schedule of FIPS PUB 46-3 for the 64-bit key |
| XDesCipher.Permute | shared/Encryption/XDes.cpp:172-189 | ORing the masks of the sixteen nibbles is the permutation, and only the output block changes |
| XDesCipher.Expand | shared/Encryption/XDes.cpp:217-247 | the method computes the expansion E into the six-byte array |
| XDesCipher.Perm32 | shared/Encryption/XDes.cpp:192-214 | ORing the masks of the four bytes is the permutation P |
| XDesObject.FoldPassword | shared/Encryption/XDes.cpp:515-522 | the key is the XOR of the first 40 characters before a NUL, folded to eight bytes |
| XDesObject.FoldedByte | shared/Encryption/XDes.cpp:518-522 | byte i of the key is the XOR of the used characters at positions i modulo 8 |
| XDesObject.XDes.Init | shared/Encryption/XDes.cpp:509-528 | all tables are ready for the folded key |
| XDesObject.XDes.Contract | shared/Encryption/XDes.cpp:250-268 | computes all eight selection functions on 48 bits |
| XDesObject.XDes.F | shared/Encryption/XDes.cpp:272-291 | computes the cipher function f of section "The Cipher Function f" for the given round key |
| XDesObject.XDes.Iter | shared/Encryption/XDes.cpp:298-316 | one Feistel round; nothing but the output block changes |
| XDesObject.XDes.Endes | shared/Encryption/XDes.cpp:420-443 | a block becomes its enciphering under the key schedule, also in place |
| XDesObject.XDes.Dedes | shared/Encryption/XDes.cpp:446-469 | a block becomes its deciphering, also in place |
| XDesObject.XDes.DesMem | shared/Encryption/XDes.cpp:472-487 | each eight-byte block of the given length is ciphered in place, the rest of the buffer is unchanged |
| XDesObject.BlocksFit | shared/Encryption/XDes.cpp:491 | masking with 0xfffffff8 gives the multiple of eight at or just below the length, for either sign |
| XDesObject.XDes.Encrypt | shared/Encryption/XDes.cpp:489-497 | every whole block before the given length becomes its enciphering, every other byte is unchanged; false exactly for lengths 0 to 7; a negative length changes nothing and answers true |
| XDesObject.XDes.Decrypt | shared/Encryption/XDes.cpp:499-507 | every whole block before the given length becomes its deciphering, every other byte is unchanged, with the same answers |
| XDesObject.CipherBytesTail | shared/Encryption/XDes.cpp:489-507 | the bytes after the last whole block are never touched |
| XDesObject.CipherBytesBlock | shared/Encryption/XDes.cpp:472-487 | every whole block is ciphered on its own, once |
| XDesObject.CipherBytesUndone | shared/Encryption/XDes.cpp:472-507 | ciphering a buffer with reversed keys undoes ciphering it, for every buffer and length |
| XDesObject.BufferRoundTrip | shared/Encryption/XDes.cpp:489-507 | what Encrypt then Decrypt, or Decrypt then Encrypt, leave is the original buffer, tail included |
| XDesObject.BlockComplementation | shared/Encryption/XDes.cpp:217-443 | complementation on key and block bytes |
| MpscQueue.ConstructedInv | shared/Threading/MPSCQueue.h:27-31 | the constructor establishes the invariant |
| MpscQueue.NewKeepsInv | shared/Threading/MPSCQueue.h:44 | building a node keeps the invariant, also at a reused address |
| MpscQueue.ExchangeKeepsInv | shared/Threading/MPSCQueue.h:45 | exchanging the head appends the node to the chain by a pending link |
| MpscQueue.LinkKeepsInv | shared/Threading/MPSCQueue.h:46 | storing the link turns exactly that pending link into a stored one |
| MpscQueue.LoadsKeepInv | shared/Threading/MPSCQueue.h:51-56 | the consumer's loads read allocated nodes and keep the invariant |
| MpscQueue.StoreTailKeepsInv | shared/Threading/MPSCQueue.h:57 | advancing the tail drops the first node of the chain and keeps the invariant |
| MpscQueue.DeleteKeepsInv | shared/Threading/MPSCQueue.h:58-59 | deleting the old tail touches a node nobody else holds |
| MpscQueue.StepKeepsInv | shared/Threading/MPSCQueue.h:42-60 | every step of every thread keeps the invariant |
| MpscQueue.ReachableInv | shared/Threading/MPSCQueue.h:27-60 | the invariant holds after any interleaving from the constructor |
| MpscQueue.NoUseAfterFree | shared/Threading/MPSCQueue.h:42-60 | in no interleaving does any next step touch a node that is not allocated, and what is deleted was allocated |
| MpscQueue.EnqueuedAreArguments | shared/Threading/MPSCQueue.h:42-47 | in any interleaving the queue's history is the list of the callers' arguments, read off the steps, in order of head exchange |
| MpscQueue.EnqueueCall | shared/Threading/MPSCQueue.h:42-47 | one call to Enqueue with nothing in between appends its argument and leaves everything else as it was |
| MpscQueue.FreedAfterLinked | shared/Threading/MPSCQueue.h:45-58 | a node about to be freed has no pending link store |
| MpscQueue.Fifo | shared/Threading/MPSCQueue.h:42-60 | in any interleaving the dequeued items are a prefix of the callers' arguments in order of head exchange: no loss, duplication or reordering |
| MpscQueue.EmptyAnswer | shared/Threading/MPSCQueue.h:51-54 | loading the successor ends Dequeue with false and nothing dequeued if and only if everything has come out or a producer stands between exchange and link on the tail node |
| MpscQueue.FalseMeansEmpty | shared/Threading/MPSCQueue.h:51-54 | with no producer in that window, false means exactly that everything has come out |
| MpscQueue.QuiescentDequeue | shared/Threading/MPSCQueue.h:49-60 | in a quiescent state with items left, one Dequeue returns the next one and stays quiescent |
| MpscQueue.Drained | shared/Threading/MPSCQueue.h:35-36 | the destructor's loop ends with everything dequeued |
| MpscQueue.OneNodeLeft | shared/Threading/MPSCQueue.h:38-39 | then one node is left, the one head points to |
| MpscQueue.DestructionFreesAll | shared/Threading/MPSCQueue.h:33-40 | from any quiescent reachable state destruction frees every allocated node exactly once |
| Md5Spec.DecodeInvertsEncode | shared/Encryption/MD5.cpp:146-166 | decoding the encoding of whole words gives them back |
| Md5Spec.EncodeInvertsDecode | shared/Encryption/MD5.cpp:146-166 | encoding decoded bytes gives them back |
| Md5Spec.DigestedConcat | shared/Encryption/MD5.cpp:281-285 | digesting a concatenation of whole blocks is digesting one part after the other |
| Md5Words.FChooses | shared/Encryption/MD5.cpp:61-64 | in F every bit of x chooses between the bits of y and z |
| Md5Words.GChooses | shared/Encryption/MD5.cpp:66-69 | in G every bit of z chooses between the bits of x and y |
| Md5Words.HIsParity | shared/Encryption/MD5.cpp:71-74 | H is the parity of the three bits |
| Md5Words.IDiffers | shared/Encryption/MD5.cpp:76-79 | in I the bit of y differs from (x or not z) |
| Md5Words.RotationMovesBits | shared/Encryption/MD5.cpp:82-85 | rotate_left moves bit k - n to place k, modulo 32 |
| Md5Words.LowestAndHighest | shared/Encryption/MD5.cpp:82-85 | the bits are counted from the low-order end |
| Md5Object.RoundOne | shared/Encryption/MD5.cpp:176-192 | the sixteen FF lines are operations 1 to 16 of RFC 1321 |
| Md5Object.RoundTwo | shared/Encryption/MD5.cpp:194-210 | the sixteen GG lines are operations 17 to 32 |
| Md5Object.RoundThree | shared/Encryption/MD5.cpp:212-228 | the sixteen HH lines are operations 33 to 48 |
| Md5Object.RoundFour | shared/Encryption/MD5.cpp:230-246 | the sixteen II lines are operations 49 to 64 |
| Md5Object.CountsByWord | shared/Encryption/MD5.cpp:264 | the low counter word alone gives the buffer index |
| Md5Object.CountsAdvance | shared/Encryption/MD5.cpp:266-269 | carry and shifted length make the two words count bits modulo 2^64 |
| Md5Object.GuardStopsInTime | shared/Encryption/MD5.cpp:284 | the 32-bit loop guard stops after the last whole block if and only if that block's end plus 64 fits in 32 bits |
| Md5Object.SafeLengths | shared/Encryption/MD5.cpp:284 | lengths up to 2^32 - 65 are always safe; the largest length with an empty buffer is not |
| Md5Object.MD5.Init | shared/Encryption/MD5.cpp:129-141 | the empty message with the initial state |
| Md5Object.MD5.Transform | shared/Encryption/MD5.cpp:171-255 | one block compression of RFC 1321 section 3.4 |
| Md5Object.MD5.Update | shared/Encryption/MD5.cpp:261-294 | the message grows by the input; state, buffer and counter stay the fold of the whole blocks, the rest and the bit count |
| Md5Object.MD5.FullBlocks | shared/Encryption/MD5.cpp:277-288 | the filled buffer and all whole blocks of the input are folded in, fewer than 64 bytes remain |
| Md5Object.MD5.Count | shared/Encryption/MD5.cpp:266-269 | the counter advances by the input's bits |
| Md5Object.MD5.Pad | shared/Encryption/MD5.cpp:318-328 | what is fed in becomes the padded message of sections 3.1 and 3.2 |
| Md5Object.MD5.Finalize | shared/Encryption/MD5.cpp:308-341 | the digest is that of everything fed in; the context is wiped; a second call changes nothing |
| Md5Object.Decode | shared/Encryption/MD5.cpp:146-151 | bytes to words, least significant first |
| Md5Object.Encode | shared/Encryption/MD5.cpp:157-166 | words to bytes, least significant first |
| Md5Object.PaddingIsStandard | shared/Encryption/MD5.cpp:310-328 | the source's padding lengths give the padding of sections 3.1 and 3.2 for every message length |
| Md5Object.ChunksDoNotMatter | shared/Encryption/MD5.cpp:261-294 | two contexts fed the same bytes in any chunks have the same state, counter and buffer contents |
| Utf8Spec.StandsOnce | shared/utf8/core.h:277-331 | at any position at most one encoded character stands |
| Utf8Spec.ReadingIsUnique | shared/utf8/core.h:347-357 | if one encoded text is a prefix of another, so are their code points |
| Utf8Spec.CharactersAreAbnf | shared/utf8/core.h:90-133 | the accepted octet sequences are those of the syntax in section 4 of RFC 3629 except the two for U+FFFE and U+FFFF |
| Utf8Spec.PointsOfEncoded | shared/utf8/checked.h:262-278 | reading back encoded code points gives them back, and the encoding is well-formed |
| Utf8Spec.PointsOfEncoded16 | shared/utf8/checked.h:216-260 | the same for UTF-16 |
| Utf8Spec.ThereAndBack8 | shared/utf8/checked.h:216-260 | UTF-8 to UTF-16 and back is the identity on every accepted string |
| Utf8Spec.ThereAndBack16 | shared/utf8/checked.h:216-260 | UTF-16 to UTF-8 and back is the identity on every well-formed sequence without 0xFFFE and 0xFFFF |
| Utf8Checked.GetSequence1 | shared/utf8/core.h:148-157 | error and value of a one-octet sequence |
| Utf8Checked.GetSequence2 | shared/utf8/core.h:160-185 | which error, or the value of the two octets with masks applied |
| Utf8Checked.GetSequence3 | shared/utf8/core.h:188-224 | the same for three octets |
| Utf8Checked.GetSequence4 | shared/utf8/core.h:227-274 | the same for four octets |
| Utf8Checked.GoodVerdict | shared/utf8/core.h:286-326 | the verdict is OK if and only if the canonical encoding of a valid code point stands there |
| Utf8Checked.ValidateNext | shared/utf8/core.h:277-331 | on success the code point and exactly its octets are consumed, on any failure the position is restored |
| Utf8Checked.Append | shared/utf8/checked.h:120-146 | appends the encoding of a valid code point, throws for any other |
| Utf8Checked.Next | shared/utf8/checked.h:149-167 | returns the character that stands there, or throws the exception listed for each kind of error |
| Utf8Checked.FindInvalid | shared/utf8/core.h:347-357 | everything before the result is well-formed and no character stands at the result |
| Utf8Checked.IsValid | shared/utf8/core.h:360-363 | true if and only if the range is a concatenation of encodings |
| Utf8Checked.Distance | shared/utf8/checked.h:207-213 | the number of code points of a well-formed range; for any other the exception of the first position where no character stands |
| Utf8Checked.Utf8To32 | shared/utf8/checked.h:272-278 | the code points of a well-formed range; for any other the exception of the first position where no character stands |
| Utf8Checked.Utf32To8 | shared/utf8/checked.h:263-269 | the encoding if all code points are valid; otherwise the exception of the first invalid one |
| Utf8Checked.OffsetCombines | shared/utf8/core.h:44-49 | the wrapping 32-bit SURROGATE_OFFSET arithmetic combines a pair as section 2.2 of RFC 2781 does |
| Utf8Checked.SplitPairIsEncode16 | shared/utf8/checked.h:251-255 | LEAD_OFFSET arithmetic splits a code point as section 2.1 of RFC 2781 does |
| Utf8Checked.Utf8To16 | shared/utf8/checked.h:246-260 | the UTF-16 form of a well-formed range; for any other the exception of the first position where no character stands |
| Utf8Checked.Utf16To8 | shared/utf8/checked.h:216-243 | the UTF-8 form of well-formed UTF-16; otherwise the exception of the first lone surrogate or invalid code point |
| Utf8Checked.Prior | shared/utf8/checked.h:176-184 | where it stops and what it returns on any octets; it stays in the range if and only if a lead octet is there |
| Utf8Checked.PriorOfValid | shared/utf8/checked.h:176-184 | on well-formed UTF-8 it returns the last character and the boundary before it |
| Utf8Unchecked.UncheckedAppend | shared/utf8/unchecked.h:34-57 | writes what the checked form writes for every code point up to U+10FFFF |
| Utf8Unchecked.StepOverCharacter | shared/utf8/unchecked.h:60-89 | where a character stands, the unchecked decoder returns it and steps over exactly its octets |
| Utf8Unchecked.UncheckedNext | shared/utf8/unchecked.h:60-89 | the value and step on arbitrary octets |
| Utf8Unchecked.UncheckedPrior | shared/utf8/unchecked.h:98-103 | agrees with the checked form on well-formed text |
| Utf8Unchecked.UncheckedDistance | shared/utf8/unchecked.h:121-127 | agrees with the checked form on well-formed text |
| Utf8Unchecked.UncheckedUtf16To8 | shared/utf8/unchecked.h:130-144 | agrees with the checked form on well-formed UTF-16 |
| Utf8Unchecked.UncheckedUtf8To16 | shared/utf8/unchecked.h:147-161 | agrees with the checked form on well-formed text |
| Utf8Unchecked.UncheckedUtf32To8 | shared/utf8/unchecked.h:164-170 | agrees with the checked form on valid code points |
| Utf8Unchecked.UncheckedUtf8To32 | shared/utf8/unchecked.h:173-179 | agrees with the checked form on well-formed text |
| Rc4Stream.StepIsBijective | shared/Encryption/rc4_cipher.h:70-74 | the one-byte state step is injective and onto on states |
| Rc4Stream.StepsKeepPermutation | shared/Encryption/rc4_cipher.h:64-96 | any number of steps keeps s a permutation of 0..255 |
| Rc4Stream.MixingIsPermutation | shared/Encryption/rc4_cipher.h:51-56 | after any number of mixing rounds, indexed as written, s is a permutation |
| Rc4Stream.KeyedIsPermutation | shared/Encryption/rc4_cipher.h:29-62 | after preparing any non-empty key s is a permutation |
| Rc4Stream.CodedInChunks | shared/Encryption/rc4_cipher.h:80-96 | coding in two calls is coding in one |
| Rc4Stream.CodedTwice | shared/Encryption/rc4_cipher.h:80-96 | coding twice from the same state gives the data back |
| Rc4Stream.CodedIntoIsCoded | shared/Encryption/rc4_cipher.h:80-96 | unless the target starts inside the source, behind its start, it ends up holding the coded source and nothing else changes |
| Rc4Stream.CallsAreOneStream | shared/Encryption/XRc4Cipher.cpp:24-53 | any calls, with any peeks among them, return one coded stream and advance by its length |
| Rc4Stream.Lockstep | shared/Encryption/XRc4Cipher.cpp:39-53 | whatever part of the wire the receiver has decoded, in any chunks and with any peeks, is a prefix of the plaintext; after all of it both states are equal |
| Rc4Object.RC4Cipher.PrepareKey | shared/Encryption/rc4_cipher.h:29-62 | a null or empty key is refused and changes nothing; otherwise the string, the given number of bytes, or the first byte for a negative length gives the keyed state, 1013 steps skipped |
| Rc4Object.RC4Cipher.Mix | shared/Encryption/rc4_cipher.h:51-56 | the 256 mixing rounds |
| Rc4Object.RC4Cipher.Move | shared/Encryption/rc4_cipher.h:70-74 | skipFor's own loop body is the same state step as codeBlock's |
| Rc4Object.RC4Cipher.SkipFor | shared/Encryption/rc4_cipher.h:64-78 | the state that coding as many bytes leaves |
| Rc4Object.RC4Cipher.Advance | shared/Encryption/rc4_cipher.h:86-92 | codeBlock's loop body is the state step and picks the key stream byte of the new state |
| Rc4Object.RC4Cipher.CodeBlock | shared/Encryption/rc4_cipher.h:80-96 | the state advances by the length; the target holds the coded source and nothing else changes, and for overlapping places the byte-by-byte result |
| Rc4Object.XRC4Cipher.TryCipher | shared/Encryption/XRc4Cipher.cpp:24-32 | a peek yields what the next real call yields and leaves the state unchanged |
| Rc4Object.XRC4Cipher.DoCipher | shared/Encryption/XRc4Cipher.cpp:34-37 | a real call yields the coded bytes and advances the state |
| Rc4Object.XRC4Cipher.Encode | shared/Encryption/XRc4Cipher.cpp:39-45 | peek or real call |
| Rc4Object.XRC4Cipher.Decode | shared/Encryption/XRc4Cipher.cpp:47-53 | peek or real call |
| Rc4Object.XRC4Cipher.SetKey | shared/Encryption/XRc4Cipher.cpp:19-22 | the keyed state; an empty key is ignored |
| Rc4Object.XRC4Cipher.Clear | shared/Encryption/XRc4Cipher.cpp:55-58 | the state keyed with the thirteen bytes of "Neat & Simple" |
| Regions.Region.AddObject | Chihiro/src/Map/Region.cpp:90-104 | the object is appended to the vector of its type, and all back-pointers and back-indices of all regions stay right |
| Regions.Region.RemoveObject | Chihiro/src/Map/Region.cpp:106-129 | for an object in the region all three ASSERTs hold, the last object takes its place, and all back-pointers and back-indices stay right |
| Regions.WithoutAtContents | Chihiro/src/Map/Region.cpp:119-125 | swap-with-last removal removes exactly one occurrence |
| Regions.OnePlaceAtMost | Chihiro/src/Map/Region.cpp:90-129 | no object is in two places |
| Regions.ListContents | Chihiro/src/Map/Region.cpp:90-129 | a vector holds exactly the objects of its type that point to its region, each once |
| Regions.Play | Chihiro/src/Map/Region.cpp:20-129 | over any run of adds and removes the invariant holds and every object is where its last move put it |
| RegionGrid.BlockInBounds | Chihiro/src/Map/RegionContainer.cpp:228-267 | inside the map every block index is in bounds |
| RegionGrid.IndicesAreInjective | Chihiro/src/Map/RegionContainer.cpp:253-267 | inside the map block index and inner index identify the cell |
| RegionGrid.RegionBlock.GetRegion | Chihiro/src/Map/RegionBlock.h:81-103 | the stored region, made with its coordinates when missing; no other cell or layer changes |
| RegionGrid.RegionsCover | Chihiro/src/Map/RegionContainer.cpp:27-28 | so many regions cover the side of the map, and one fewer would not go beyond it |
| RegionGrid.RegionContainer.InitRegion | Chihiro/src/Map/RegionContainer.cpp:23-41 | the region counts, an empty vector of blocks of the right size, and no regions |
| RegionGrid.RegionContainer.EnsureBlock | Chihiro/src/Map/RegionContainer.cpp:238-251 | the block exists afterwards, no other block is made or lost, and no cell's region changes |
| RegionGrid.RegionContainer.GetRegionPtr | Chihiro/src/Map/RegionContainer.cpp:253-259 | null exactly in a missing block; otherwise the map gains or keeps exactly this cell's region, which is made with its layer and its place in the block |
| RegionGrid.RegionContainer.GetRegion | Chihiro/src/Map/RegionContainer.cpp:53-59 | null exactly outside the map; otherwise the map entry of the cell, the same one each time, made once, with at most its own block new |
| RegionGrid.RegionContainer.CellsAreDistinct | Chihiro/src/Map/RegionContainer.cpp:253-267 | different cells or layers have different regions |
| RegionWindow.IsVisibleRegion | Chihiro/src/Map/RegionContainer.cpp:206-217 | the source's branches decide whether the weighted distance is at most nine |
| RegionWindow.VisibleIsInView | Chihiro/src/Map/RegionContainer.cpp:206-217 | away from the wrap-around a cell is visible if and only if it is at most two cells away on both axes, or three along one axis |
| RegionWindow.VisibleIsNear | Chihiro/src/Map/RegionContainer.cpp:206-217 | a visible cell is at most three cells away on each axis |
| RegionWindow.WindowCovers | Chihiro/src/Map/RegionContainer.cpp:68-82 | the clamped window loses no visible cell left, right or above |
| RegionWindow.WindowSumsFit | Chihiro/src/Map/RegionContainer.cpp:206-217 | for every 32-bit centre and map no int32_t overflows on a cell of its window |
| RegionWindow.SmallViewsFit | Chihiro/src/Map/RegionContainer.cpp:193-195 | neither does one for a previous centre below 2^29; one does for a given larger centre |
| RegionWindow.WindowHolds | Chihiro/src/Map/RegionContainer.cpp:83-94 | the nested loops pick each qualifying cell once and no other |
| RegionWindow.WindowIsExact | Chihiro/src/Map/RegionContainer.cpp:61-95 | with the clamped bounds these are exactly the visible cells of existing blocks with y below the bottom row |
| RegionWindow.BottomRowIsMissed | Chihiro/src/Map/RegionContainer.cpp:80-85 | for every centre in the map the visible cell (rx, bottom) is left out |
| RegionGrid.RegionContainer.Window | Chihiro/src/Map/RegionContainer.cpp:83-94 | the loops report the map's regions of the picked cells in loop order; existing regions stay |
| RegionGrid.RegionContainer.DoEachVisibleRegion | Chihiro/src/Map/RegionContainer.cpp:61-95 | the callback gets the region of each cell of an existing block in the shape of VisibleIsInView, above the bottom row, once; no other region is made |
| RegionGrid.RegionContainer.DoEachNewRegion | Chihiro/src/Map/RegionContainer.cpp:166-204 | the same for those not visible from the previous centre, wherever the source's sums for it do not overflow |
| RegionWindow.ViewSplits | Chihiro/src/Map/RegionContainer.cpp:166-204 | the new cells and the cells still visible from the previous centre make up the whole view without overlap |
| Serial.ScalarReadsBack | shared/Encryption/ByteBuffer.h:102-108 | little-endian bytes read back as the value modulo 256^size |
| Serial.LittleEndianAt | shared/Encryption/ByteBuffer.h:102-108 | byte k of a scalar is its digit of weight 256^k |
| Serial.NulCutsText | shared/Encryption/ByteBuffer.h:167-202 | a written string reads back if and only if it holds no NUL |
| Serial.InsertLast | shared/Encryption/ByteBuffer.h:447-462 | inserting entries in key order rebuilds the map in that order |
| Serial.InsertIsMapInsert | shared/Encryption/ByteBuffer.h:455-458 | for a strict total key order, inserting adds the entry in order, and a key that is there already keeps its value |
| Serial.ParsedHas | shared/Encryption/ByteBuffer.h:384-462 | whatever the bytes are, a value that is read has its type: scalars fit, maps are in strict key order |
| Serial.ReadsBack | shared/Encryption/ByteBuffer.h:384-462 | any value of any type, nested to any depth, reads back at any position, and the read ends behind it |
| Serial.FieldsReadBack | shared/Encryption/ByteBuffer.h:160-202 | any list of values of any types reads back with the matching types |
| Serial.ParseStaysInside | shared/Encryption/ByteBuffer.h:249-265 | on arbitrary bytes a read moves forward and never past the end |
| ByteBuffers.OverwriteTwice | shared/Encryption/ByteBuffer.h:339-355 | two writes in a row at any write position are one write of the concatenation |
| ByteBuffers.BitsHoldValue | shared/Encryption/ByteBuffer.h:148-156 | read as a binary number the written bits are the value modulo 2^bitCount |
| ByteBuffers.OneBufferBit | shared/Encryption/ByteBuffer.h:150-155 | the OR or AND on one byte changes the addressed bit and no other |
| ByteBuffers.ByteBuffer.Append | shared/Encryption/ByteBuffer.h:339-355 | the bytes are at the old write position, a gap is zero, and the ASSERT fails exactly on a full buffer |
| ByteBuffers.ByteBuffer.FlushBits | shared/Encryption/ByteBuffer.h:110-118 | pending bits are written as one byte, nothing happens without any; on a full buffer they stay |
| ByteBuffers.ByteBuffer.Put | shared/Encryption/ByteBuffer.h:363-372 | overwrites in place or answers with the position exception |
| ByteBuffers.ByteBuffer.PutBits | shared/Encryption/ByteBuffer.h:140-157 | exactly the addressed bits become the value's, and each error case changes nothing |
| ByteBuffers.ByteBuffer.Resize | shared/Encryption/ByteBuffer.h:315-320 | cut or zero-filled to the new size, read position at the start, write position at the end |
| ByteBuffers.ByteBuffer.ReadScalar | shared/Encryption/ByteBuffer.h:249-265 | the value and the moved read position, or the exception with the read position unmoved |
| ByteBuffers.ByteBuffer.ReadText | shared/Encryption/ByteBuffer.h:191-202 | the bytes up to a NUL or the end |
| ByteBuffers.FieldsFlushedAlready | shared/Encryption/ByteBuffer.h:102-118 | without pending bits a message is written as its plain encoding |
| ByteBuffers.ByteBuffer.AppendScalar | shared/Encryption/ByteBuffer.h:102-108 | pending bits, then the little-endian bytes, or an ASSERT fails on a full buffer |
| ByteBuffers.ByteBuffer.Write | shared/Encryption/ByteBuffer.h:160-182 | writes the encoding of any value at the write position, pending bits before its first scalar, or an ASSERT fails on a full buffer |
| ByteBuffers.ByteBuffer.WriteItems | shared/Encryption/ByteBuffer.h:384-393 | count, then the elements |
| ByteBuffers.ByteBuffer.WriteEntries | shared/Encryption/ByteBuffer.h:436-445 | count, then the entries in key order |
| ByteBuffers.ByteBuffer.Read | shared/Encryption/ByteBuffer.h:184-202 | the parsed value, or the exception and where it leaves the read position |
| ByteBuffers.ByteBuffer.SendAndReceive | shared/Encryption/ByteBuffer.h:160-202 | a message written at the end of a buffer is read back whole, the read position ending at the write position |
| Packets.GetChecksum | shared/Server/TS_MESSAGE.h:123-136 | the wrapping additions give the sum of the six bytes modulo 256 |
| Packets.TsMessage.SetChecksum | shared/Server/TS_MESSAGE.h:111-121 | the same sum added to the old checksum |
| Packets.FieldMustBeZero | shared/Server/TS_MESSAGE.h:111-136 | SetChecksum leaves what GetChecksum returns if and only if the field was zero before |
| Packets.ChecksumIsByteSum | shared/Server/TS_MESSAGE.h:123-136 | for every size, also one that turns negative as an int, it is the byte sum of the little-endian header fields |
| Packets.HeaderIsRight | shared/Server/XPacket.h:377-381 | a finalized packet whose id field holds its id has a fitting header and an untouched body |
| Packets.StaleId | shared/Server/XPacket.h:377-399 | with another id in the id field the checksum fits if and only if the two ids have the same byte sum |
| Packets.XPacket.FinalizePacket | shared/Server/XPacket.h:377-381 | size and checksum are written over the header only; what a packet shorter than its header is left with |
| Packets.XPacket.Reset | shared/Server/XPacket.h:383-388 | a seven-byte header with the packet's id |
| Packets.XPacket.BuildAndRead | shared/Server/XPacket.h:357-388 | a packet built from any fields has a fitting header and reads back |
| EventQueue.PlacedAtUpperBound | shared/Utilities/EventProcessor.cpp:89-95 | an event goes behind all events of its time or earlier ones |
| EventQueue.DueAreInFront | shared/Utilities/EventProcessor.cpp:38-40 | in a queue in time order the due events are exactly those at its front, which the loop looks at |
| EventLoop.DrainConserves | shared/Utilities/EventProcessor.cpp:38-59 | whatever Execute does, after any number of rounds every event queued or added has been handled once or is still queued |
| EventLoop.MarkedAreAborted | shared/Utilities/EventProcessor.cpp:45-58 | whatever Execute does, an event is aborted instead of executed if and only if it was marked before its turn |
| EventLoop.DrainMarks | shared/Utilities/EventProcessor.cpp:45-58 | the loop never takes a mark back and executes no event marked before it |
| EventLoop.DrainHandlesDue | shared/Utilities/EventProcessor.cpp:38-59 | a loop that ends and whose executed events added only later ones has handled exactly the due events, each once, in time and insertion order, and keeps all later ones |
| EventLoop.EndsInDueRounds | shared/Utilities/EventProcessor.cpp:38-59 | with n due events the loop ends within n rounds if and only if the events executed in them add only later ones |
| EventLoop.LaterScriptsEnd | shared/Utilities/EventProcessor.cpp:38-59 | if every Execute at the current time adds only later events the loop ends |
| EventEnds.NeverEnds | shared/Utilities/EventProcessor.cpp:39-59 | in any queue, a due unmarked event that always adds itself again at the current time or earlier, and that nothing marks, keeps the loop going for ever |
| EventEnds.EndsIfChainsEnd | shared/Utilities/EventProcessor.cpp:39-59 | if what Execute does now depends on the event only and marks nothing, the loop ends if and only if the chains of immediate additions from the due events are of bounded length |
| EventEnds.EndsAfterRounds | shared/Utilities/EventProcessor.cpp:39-59 | it then ends after exactly as many rounds as these chains have events |
| EventEnds.EndsIfNoneAtOnce | shared/Utilities/EventProcessor.cpp:39-59 | for events that add only themselves the loop ends if and only if no due unmarked event adds itself again at the current time or earlier |
| EventRuns.RunInOrder | shared/Utilities/EventProcessor.cpp:33-95 | over whole runs in which all insertions are at later times, due times never go back and nothing due is left behind |
| EventRuns.RunConserves | shared/Utilities/EventProcessor.cpp:33-95 | over any run every event queued or added is handled once or still queued |
| EventRuns.MarkedNeverRun | shared/Utilities/EventProcessor.cpp:45-82 | over any run an event marked for abortion, as KillAllEvents does with all, is never executed again |
| EventObject.EventProcessor.Update | shared/Utilities/EventProcessor.cpp:33-60 | advances the 64-bit clock, modulo 2^64, and runs the loop as specified, for every behaviour of Execute with which it ends |
| EventObject.EventProcessor.AddEvent | shared/Utilities/EventProcessor.cpp:89-95 | the event is in its place, its times are recorded, nothing else changes |
| EventObject.EventProcessor.KillAllEvents | shared/Utilities/EventProcessor.cpp:62-87 | every queued event is marked and aborted once in order; the deletable ones, or all if forced, leave the queue |

## Left out

- Memory orders, mutexes and allocation failure: an atomic access or a locked section is one step.
- `char` is an unsigned byte; the DES and RC4 code masks after every promotion, so its signedness does not matter. Shifts and masks are written as arithmetic where values are modelled as integers.
- MpscQueue: the destructor is modelled from a quiescent state only; running it beside a producer is outside the source's promise.
- Md5Object.MD5.Update: requires that the 32-bit loop guard does not wrap; for the other lengths the source reads past its input. GuardStopsInTime gives the exact condition and SafeLengths a simple sufficient one. `hexdigest` and the streaming operator are left out.
- Utf8Checked.Prior: requires a lead octet in the range or at least one octet before it; otherwise the source reads before the start of its string. The deprecated `previous`, `advance`, `peek_next`, the iterator classes and `replace_invalid` are left out; the last drops the result of `append`, so what it does depends on the kind of output iterator.
- Utf8Checked.Next: requires a non-empty range, because the source reads the first octet before it compares with the end.
- Utf8Unchecked.UncheckedNext: requires the octets it reads to exist, as the source does of its callers.
- Rc4Object.RC4Cipher.Mix: the source indexes the key with `j` where textbook RC4 uses `i`; the model does as written.
- Rc4Object.RC4Cipher.CodeBlock: the buffers are not the cipher's own state, and lengths are below 2^31: the source takes an `int`, and `Encode` and `Decode` pass it an `unsigned`.
- Regions.Region.AddObject: the three object types with vectors only; for any other type the source returns without doing anything. The bodies of `AddToWorld` and `RemoveFromWorld` are reduced to their flag. The DoEach functions of one region, which call a functor on each element of one vector under the lock, are left out.
- RegionGrid.RegionContainer.InitRegion: map sides are reals, not floats, and the number of blocks fits in 32 bits; `GetRegion` and `IsVisibleRegion` on objects, which divide float positions, are left out, and so is destruction.
- RegionGrid.RegionContainer.DoEachVisibleRegion: at the last three values of the 32-bit range the picked cells are stated but not compared with the visible ones, because the window's bounds wrap around there; the callback is taken not to change the container. The enumeration excludes row `bottom` although the window includes it; the model does as written.
- RegionGrid.RegionContainer.DoEachNewRegion: requires that no `int32_t` overflows for the previous centre `prx`, `pry` on a cell visible from the new one, because such an overflow is undefined. Coordinates below 2^29 are enough.
- RegionWindow.ViewSplits: has the same requirement on the previous centre.
- The enumeration around two centres: its lower bound is clamped after an unsigned subtraction, which has no effect near the map edge.
- `RegionBlock::getRegionPtr`: nothing calls it, and its index swaps the coordinates.
- The constructor of ByteBuffer from a message buffer leaves the bit position unset; it is not modelled, but every write is, with or without pending bits. Hosts are little-endian, positions do not wrap around, and floats are their bit patterns.
- ByteBuffers.ByteBuffer.PutBits: at most as many bits as the promoted value has, 32 or 64, because shifting further is undefined.
- ByteBuffers.ByteBuffer.SendAndReceive: what is read back is stated for a buffer without pending bits, which would be read as part of the first value, and below 4 GiB, so that no 32-bit element count is cut. A list is written as a vector is, and has no type of its own.
- Packets.XPacket: the packet holds its buffer instead of inheriting from it; the constructors from encrypted data or a message buffer and `Initialize` are left out.
- EventObject.EventProcessor.Update: requires that the loop ends, as a call that returns does. LaterScriptsEnd, EndsInDueRounds, EndsIfChainsEnd and EndsIfNoneAtOnce say when it does, NeverEnds when it does not.
- EventLoop.Reaction: an Execute is an arbitrary function of the number of the call, the event and the time, and may add and mark events; it does not call `KillAllEvents` or `Update` on its own processor. Abort calls are recorded and change nothing; the lifetime of deleted events and `m_aborting`, which nothing reads, carry no property.
- The database layer, AES and RSA wrappers, logging, configuration, sockets, scripting, map files, message filling, object loaders and the game managers: I/O, foreign libraries or shallow logic.
- LockedQueue, HashMapHolder, timers and getters: a queue and a map behind a mutex, clock readings and single field reads.
