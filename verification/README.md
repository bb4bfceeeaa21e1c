# Verification model of the vet-waf core

A Dafny model of the parts of vet-waf whose correctness is hardest to see from the code: the HPACK
compression of HTTP/2 header fields (`fw/hpack.c`, `fw/hpack_tbl.h`), the response-time percentiles
(`fw/apm.c`), the HTTP/2 transmit state machine with its flow control (`fw/http_frame.c`, `fw/http2.c`),
the generic FSM dispatcher (`fw/gfsm.c`), the address printer and parser (`fw/addr.c`) and the
ring-of-quanta rate counters (`fw/http_limits.c`, `fw/apm.c`).

`dafny verify dfyconfig.toml` verifies the whole project. Where the C code changes state in place the model
is imperative (classes, arrays, loops with invariants); what a method computes is stated through plain
functions on values, and the properties are lemmas about those functions and invariants kept by every method.

## How the modules fit together

| module | subject |
|---|---|
| `Common` | strings in chunks and a few notions shared by several modules |
| `RbTree`, `RbIndex` | the red-black tree linked by byte offsets: trees as values with a zipper for the path to the current node, and the pointer-changing code proved to represent them |
| `HeaderOrder`, `SearchOrder`, `EightBit` | the chunked, case-folding field comparison, the search order it gives, and what becomes of that order above 0x7F |
| `Ring`, `DynTable`, `EncoderTable`, `RefusedAdd` | node placement in the 4096-byte ring, the reference table of section 4 of RFC 7541, the encoder table that refines it, and a field it refuses |
| `DecoderTable` | the decoder table, a growable circular array that refines the same reference |
| `Lockstep` | encoder and decoder connected by representations, over any sequence of settings changes and header fields |
| `Wire`, `WireSession`, `PeerBlock` | header blocks as bytes: the writer, the decoder's automaton over fragments of any size, whole connections through it, and blocks of any peer against the decoder's table |
| `Bits`, `PrefixInt` | bit strings, and the integers of section 5.1 of RFC 7541 |
| `Huffman`, `HuffmanTables`, `HuffmanProof`, `HuffmanCanonical`, `HuffmanCodec`, `HuffmanText` | the table-driven Huffman automaton, the literal tables, their correctness, that their code is the one of RFC 7541, the in-place decoder and encoder, and coded strings as the header decoder meets them |
| `Histogram`, `HistogramMoves`, `Percentiles` | the self-adjusting buckets, what becomes of the hits when they are adjusted, and the k-way merge over a ring of histograms |
| `H2Frames`, `H2Credit`, `H2Transmit` | legal frame sequences, the credit of section 6.9 of RFC 9113 as a function of what happened, and a connection with its streams and windows |
| `Gfsm` | nested dispatch of hooked state machines, against a reference without slots that records what every machine does |
| `AddrText`, `Addr`, `AddrForms`, `MappedAddr` | decimal and hexadecimal printing, IPv4 and IPv6 parsing and printing, the texts the parsers take in any spelling, and mapped addresses |
| `SlidingWindow` | counters over the last quanta of time |

## Where the code does not do what its comments or the standards suggest

Each of these has a concrete instance, most of them reached by the modelled operations themselves, and the exact
condition for all inputs beside it.

- A continuation byte of an integer is shifted in 32 bits, so payload bits of the fifth and later bytes can be
  lost: `FifthByteLost`. An accepted integer has its true value exactly when all bytes after the fourth carry no
  payload: `AcceptedExact`.
- The encoder writes a header with an empty value as a literal; the decoder takes no such literal
  (`BlankRefused`). A header block is decoded up to the first item of that kind (or index zero, an empty name, or a table size out of place) and
  all of it exactly if there is none: `BlockBack`. A connection goes on until the first such header: `Session`.
- The length of a name or value is written into a buffer of three bytes. A length of 127 + 2^14 takes four
  (`FourBytes`), and nothing checks that; three are enough exactly below (`EncodeFits`).
- If the peer lowers the table size to zero and raises it again before the update is written, only the last size
  is announced. The encoder has emptied its table; the decoder's is equally empty exactly when it was empty
  before, or its newest entry does not fit the final size: `ZeroAndBack`; `DrivenApart` gets there from two fresh
  tables. Over every run, whether that has happened is computed from the events alone (`Windows`), and the tables
  are equal if it has not (`Session`); a peer that never announces zero is safe (`NoZero`). Indexes stay meaningful
  all the same, because the encoder's entries remain the newest ones of the decoder.
- The 4-byte comparison overflows on bytes above 0x7F and then goes round in a circle (`EightBitCycle`); its sign
  is right exactly if the blocks are less than half the 32-bit range apart (`BlockSignExact`). Three additions and
  an eviction then make a tree in which a stored field is not found (`LostField`). For all that, a search reports
  only what is there, the tree stays balanced and the headers arrive (`EncoderIndex`, `Session`), until the program
  itself warns of a field it had overlooked (`TurnsUp`), which takes an eviction and an equal entry that stays
  (`RbufCommit`), so a field sent before or in the table from the beginning (`WarnedTwice`). Where no comparison with a stored
  field is decided by such a pair of blocks nothing is overlooked and it never warns, on 7-bit text always
  (`SevenBitFair`, `SevenBitEvents`).
- Setting bit 0x20 folds the case of header names, and besides that identifies `^` with `~`: `FoldMeaning`.
- A ring buffer that is not wrapped can refuse a node although the accounted size leaves room:
  `RefusedUnwrapped`, from a fresh table. Refusal is exactly lack of a fitting gap (`RefusedExact`).
- Percentile cursors keep times in 16 bits: a hundred responses of 65537 ms give percentiles of 1 ms (`WideLost`);
  a cursor is exact below 65535 ms and only there (`CursorExact`), and so is every percentile then (`Calc`).
- A response time beyond what the next fitting order of the last range covers in 32 bits stops the program
  (`TooLong`); a time is counted exactly if it `Fits`, up to 2^31 always (`ShortFits`). Counters are added up in 32
  bits when eight or more are put together, so 2^32 hits of one bucket can vanish (`WrappedLost`): no hit is lost
  exactly if no such sum wraps (`Update`).
- When neighbouring buckets are put together, the hits of all but the first are counted for a time they exceed: a
  response of 340 ms becomes one of 333 ms (`CountedLower`). Up to the time of a new bucket there are as many hits as
  before exactly if the other buckets of its group are empty (`WidenedExact`, `ExtendedExact`). Narrowing a range
  keeps that number wherever both forms have a bucket (`NarrowedExact`).
- Connections and requests of a client share the slots of one ring. With different time frames one kind takes the
  slots of the other: two requests in the window, a limit of one, and no block (`LostRequest`). In one time frame
  all counters are exact (`RequestLimit`, `ConnLimit`).
- The body length is passed on as `unsigned int`. With exactly 4 GB left the frame length comes out as zero
  (`StuckAt4G`), and a body of 4 GB or more never gets below that (`NeverBelow4G`); else every frame makes
  progress (`LengthSendable`).
- A stream whose window is exactly what is left of its body can be held back because the socket is short, and then
  waits for a change of that window, which is not needed (`ParkedAtEnd`); `ParkedWithCredit` is the exact condition.
  With a window of more than 512 bytes a stream is never passed over (`ServeNext`, `Run`).
- A change of the initial window size is applied to open streams without checking the result, so a stream window
  can reach 2^32 - 2 (`WidestWindow`), which is also the most it can reach (`WindowsFit`).
- An IPv6 address printed without brackets (port 0 or 80) is not recognised by the parser when its first group
  begins with a digit and goes on with a letter, as in 2a00::1 (`PlainLost`); it is parsed back exactly if it is
  `Detectable` (`Addr.RoundTrip`).
- An IPv6 text in brackets is turned down if nothing stands between its double colon and the bracket, as in
  [::]:80 (`AnyRefused`). Without a double colon it may have fewer than eight groups: [1:2]:80 is taken for ::1:2
  (`ShortBrackets`). `BracketHole` and `BracketGroups` say exactly what is taken, `PlainHole` and `PlainGroups` without
  brackets.
- The port of an IPv4 address may also be set off by a dot: 1.2.3.4.80 is taken for port 80 (`DottedPort`); `V4Exact`
  says exactly which texts are taken.
- An IPv4 address written as ::ffff:1.2.3.4 is parsed with its octets in the opposite order on a little-endian
  host: `MappedTurned`. It comes out right exactly if it reads the same both ways: `MappedRight`. Without brackets
  numbers beyond 255 are taken and reach into their neighbours (`OctetOverflows`), in brackets fewer than four are
  taken for 255.255.255.255 (`AllOnes`); `PlainMapped` and `BracketMapped` are exact.

## Model

| member | source | states |
|---|---|---|
| RbTree.RepPlug | fw/hpack.c:2531-2964 | memory represents a focused subtree and its path exactly if it represents the whole tree they make up |
| RbTree.RotatedLeftRep | fw/hpack.c:2531-2563 | after the writes of a left rotation memory represents the rotated tree with all parent, child and root links consistent |
| RbTree.RotatedRightRep | fw/hpack.c:2568-2600 | the same for a right rotation |
| RbTree.RedHasGrandparent | fw/hpack.c:2611-2615 | a red parent of a freshly inserted red node always has a parent, so the missing grandparent assertion is dead |
| RbTree.RecolouredOk | fw/hpack.c:2617-2651 | recolouring parent, uncle and grandparent moves the only possible red-red violation two levels up and keeps the order |
| RbTree.RotatedOk | fw/hpack.c:2626-2668 | the rotation cases of insertion end with a balanced tree of the same order |
| RbTree.BrotherExists | fw/hpack.c:2684-2741 | a black-deficient node that is not the root has a brother, so the missing brother assertion is dead |
| RbTree.LiftedOk | fw/hpack.c:2690-2742 | turning a red brother black keeps the deficiency, the order and the existence of a (black) brother |
| RbTree.LoweredOk | fw/hpack.c:2706-2752 | a black brother with black children is coloured red and the deficiency moves up |
| RbTree.RestoredOk | fw/hpack.c:2715-2768 | the rotation cases of deletion restore equal black heights and the order |
| RbTree.SuccessorOk | fw/hpack.c:2910-2964 | after the in-order successor took a node's place and colour, the tree is balanced or deficient only at the successor's old child |
| RbIndex.Index.LeftRt | fw/hpack.c:2531-2563 | the pointer writes of a left rotation represent the rotated tree, for any node with a right child anywhere in the tree |
| RbIndex.Index.RightRt | fw/hpack.c:2568-2600 | the pointer writes of a right rotation represent the rotated tree |
| RbIndex.Index.InsRebalance | fw/hpack.c:2605-2672 | terminates with a red-black tree (black root, no red-red edge, equal black heights) holding the same offsets in the same order |
| RbIndex.Index.DelRebalance | fw/hpack.c:2677-2773 | terminates and repairs a missing black level at any place, keeping offsets and order |
| RbIndex.Index.Min | fw/hpack.c:2775-2786 | the leftmost node below a node, with the path to it |
| RbIndex.Index.Replace | fw/hpack.c:2791-2818 | the parent's (or root's) link to a node is redirected, and nothing else changes |
| RbIndex.Index.Add | fw/hpack.c:2825-2845 | a red-black tree results whose in-order sequence has the new offset exactly at the found place |
| RbIndex.Index.CutSuccessor | fw/hpack.c:2910-2964 | the successor is cut out of the right subtree and takes that subtree over without disturbing any other link |
| RbIndex.Index.TakeOver | fw/hpack.c:2910-2964 | the successor takes over parent, left child and colour of the removed node |
| RbIndex.Index.Unlink | fw/hpack.c:2910-2964 | a node with any children is unlinked: the order loses exactly it, and what is left is balanced or lacks one black level at one place |
| RbIndex.Index.Erase | fw/hpack.c:2910-2964 | removes exactly the given node: a red-black tree results whose in-order sequence is the old one without it |
| HeaderOrder.CompareChunk | fw/hpack.c:2376-2442 | comparing four bytes at a time is zero exactly for equal (folded) text; else the sign is the lexicographic one, or the opposite if the deciding blocks are half the range apart |
| HeaderOrder.CompareChunks | fw/hpack.c:2376-2442 | the same for text in chunks; whether it is zero does not depend on the chunks |
| HeaderOrder.NodeCompare | fw/hpack.c:2376-2442 | for all bytes: zero exactly for equal fields, else the sign of the order by name length, folded name, value length, value, turned round exactly where the deciding blocks are half the range apart; tells exactly whether names match |
| HeaderOrder.LexTransitive | fw/hpack.c:2376-2442 | the order the comparison follows is transitive |
| HeaderOrder.LexZero | fw/hpack.c:2376-2442 | two fields compare equal only if they are, so the order is total |
| HeaderOrder.EightBitCycle | fw/hpack.c:2346-2428 | three blocks with a byte above 0x7F that compare in a circle |
| HeaderOrder.BlockSignExact | fw/hpack.c:2376-2442 | a block difference has the right sign if and only if the blocks are less than half the range apart |
| HeaderOrder.SevenBitFair | fw/hpack.c:2376-2442 | on 7-bit text no comparison is turned round, however the text is chunked |
| HeaderOrder.FoldMeaning | fw/hpack.c:2376-2442 | on header names, folding identifies two bytes if and only if they differ in case only or are `^` and `~` |
| SearchOrder.NamesContiguous | fw/hpack.c:2856-2905 | fields of one name lie side by side, so a search path passes one of them if there is any |
| SearchOrder.InsertSorted | fw/hpack.c:2825-2845 | a field put at the place found keeps the search order |
| SearchOrder.WithoutSorted | fw/hpack.c:2910-2964 | removing a node keeps the search order |
| EightBit.LostField | fw/hpack.c:2825-2964 | a balanced tree, built by three additions and one removal, in which the search does not find a field that is in it |
| EightBit.TurnsUp | fw/hpack.c:3040-3079 | the same field is found after the node above it is evicted: not found before the eviction and found after it, which is what the commit warns of |
| EncoderTable.RbtreeFind | fw/hpack.c:2856-2905 | on any readable tree: what is reported is there, and the path follows the comparisons; on a sorted one with fair comparisons FOUND if and only if an equal entry exists, NM_FOUND if and only if none does but one has the name, else a free leaf place between smaller and greater fields |
| Ring.RunBounds | fw/hpack.c:2334-2340 | nodes laid back to back stay in their stretch, and their bytes never exceed their accounted size |
| Ring.LenBelowSize | fw/hpack.c:3199-3199 | `rb_len` never exceeds `size`, and is zero only for the empty table |
| Ring.DropOldestOk | fw/hpack.c:2977-3038 | one round of eviction drops exactly the oldest node and yields `first`, `rb_len`, `rb_size` and `size` of the rest, across the wrap too |
| Ring.PlacedOk | fw/hpack.c:3143-3188 | a node placed at the end, at the front or in the empty table lies in the buffer and makes the ring one node longer |
| Ring.PlacedApart | fw/hpack.c:3143-3188 | the new node overlaps no node that stays |
| Ring.RefusedExact | fw/hpack.c:3143-3180 | unwrapped, a node is refused if and only if it fits nowhere; wrapped, if and only if there is no room behind the newest node |
| Ring.ShortOnlyWrapped | fw/hpack.c:3143-3161 | too few bytes for a node the window has room for occur only in a wrapped buffer, and an unwrapped one has the full `rb_size`: both warnings are dead |
| Ring.HeadMissesLinks | fw/hpack.h:60-69 | the head fields of the new node share no bit with colour, parent, left or right of any node, including those about to be evicted |
| DynTable.EvictMinimal | fw/hpack.c:2977-3038 | eviction keeps a suffix and gives up no entry it could keep |
| DynTable.EvictAt | fw/hpack.c:3726-3758 | the first point at which the rest fits is the eviction of section 4.3 of RFC 7541 |
| EncoderTable.KeptSafe | fw/hpack.c:3147-3193 | writing the new head before the evicted nodes are unlinked leaves the whole tree readable, in the append, wrap and emptied cases |
| EncoderTable.KeptStored | fw/hpack.c:3147-3193 | nor does it spoil what is stored in the nodes that stay |
| EncoderTable.SoundStored | fw/hpack.c:3210-3234 | in any tree the index computed from `rindex` is the place, counted from the newest, of an entry with the field or its name |
| EncoderTable.Committed | fw/hpack.c:3040-3079 | with the node linked and its text written, ring, sizes, stored fields and search tree agree again |
| EncoderTable.FoundStored | fw/hpack.c:3210-3234 | in a tree in order, with fair comparisons, nothing is overlooked: the field is reported if it is in the table, else its name if that is |
| EncoderTable.EncTable.constructor | fw/hpack.c:1157-1196 | a fresh table is valid and empty |
| EncoderTable.EncTable.ValidSize | fw/hpack.c:2977-3202 | in a valid table `size` is the sum of 32 + length over the entries, at most the window, and at least `rb_len` |
| EncoderTable.EncTable.RbufCalc | fw/hpack.c:2977-3038 | plans the least number of evictions, at most five, touching nothing; fails if and only if five are not enough |
| EncoderTable.EncTable.RbufCommit | fw/hpack.c:3040-3079 | for any bytes: unlinks exactly the planned nodes, finds the place again and links the new node, unless the second search finds the field and the program warns, which takes an eviction and an equal entry that stays; the tree is balanced and holds exactly the remaining entries and the new one; with a tree in order and fair comparisons it does not warn and the order is kept |
| EncoderTable.EncTable.PlanNode | fw/hpack.c:3086-3185 | an add is possible if and only if the field fits the window, at most five evictions are needed and the node then fits in one piece |
| EncoderTable.EncTable.AddNode | fw/hpack.c:3086-3202 | for any bytes the table becomes the insertion of section 4.4 of RFC 7541 with the node exactly where the ring puts it, or is unchanged if the add is refused; a warning comes only with evictions and an equal entry that stays |
| EncoderTable.EncTable.EncoderIndex | fw/hpack.c:3210-3234 | for any bytes and any tree the returned index is that of an equal field or of one with the name, and the field is added exactly when it was not found and can be; a warning comes only with evictions and an equal entry that stays; with a tree in order and fair comparisons the field is found exactly when it is there, the order is kept and there is no warning |
| EncoderTable.EncTable.RbufShrink | fw/hpack.c:3726-3758 | evicts minimally down to a size, keeping all invariants |
| EncoderTable.EncTable.SetRbufSize | fw/hpack.c:3726-3758 | which size changes take effect, and the table after them; the order is kept |
| EncoderTable.EncTable.WriteSize | fw/hpack.c:3760-3787 | the size to be put on the wire is the current window, once; its bytes are those of `WireSession.Write` |
| RefusedAdd.RefusedUnwrapped | fw/hpack.c:3086-3202 | from a fresh table: two fields, a smaller and the full size again, and a third field is refused with an unwrapped buffer and room in the accounted size |
| DecoderTable.DecTable.constructor | fw/hpack.c:1157-1196 | a fresh table is valid and empty |
| DecoderTable.CircleGrowInPlace | fw/hpack.c:956-965 | doubling in place: moving the older part to the end keeps the circular sequence |
| DecoderTable.CircleRelocate | fw/hpack.c:966-980 | doubling by relocation: laying both parts out flat keeps the circular sequence |
| DecoderTable.DecTable.Drop | fw/hpack.c:873-905 | counts exactly the entries to evict, walking from the oldest across the wrap |
| DecoderTable.DecTable.Grow | fw/hpack.c:942-993 | doubles a full table (32 slots at first) without changing its contents |
| DecoderTable.DecTable.AddIndex | fw/hpack.c:839-1020 | the insertion of section 4.4 of RFC 7541, an oversized entry emptying the table; an error if and only if 32 + length overflows 32 bits |
| DecoderTable.DecTable.FindIndex | fw/hpack.c:1064-1096 | index 61 + k gives the k-th newest entry, smaller ones the static table, larger ones none |
| DecoderTable.DecTable.SetLength | fw/hpack.c:1098-1149 | refused if and only if above the announced maximum; else minimal eviction to the new size |
| Lockstep.EvictBehind | fw/hpack.c:1098-1149 | cutting both tables to one size keeps the encoder's entries the newest of the decoder's |
| Lockstep.InsertBehind | fw/hpack.c:839-1020 | so does inserting the same field on both sides, and equal tables stay equal |
| Lockstep.Encode | fw/hpack.c:3611-3707 | for any bytes the representation conveys the field to every decoder whose newest entries are the encoder's; a spelt name is that of the header byte for byte, capitals in lower case exactly if it is transformed; a full index goes before a name index and a static one before a dynamic one, and with fair comparisons nothing in the table is missed; none only for a nameless field; the field is added exactly when it is to be indexed, can be, and no equal one was found; a warning comes only with evictions and an equal entry that stays |
| Lockstep.Decode | fw/hpack.c:1504-1920 | yields the meaning of a representation and adds it to the table exactly if it asks for that |
| Lockstep.Flush | fw/hpack.c:3760-3787 | a written size update keeps the tables in step |
| Lockstep.Exchange | fw/hpack.c:3611-3707 | any field with name and value arrives (name up to folding); the encoder's window stays and its table is exactly as before or with the field inserted; the tables stay in step unless the program warns of an equal entry |
| Lockstep.Announce | fw/hpack.c:3726-3758 | what a new table size makes of window, pending update and table, exactly; the tables stay in step and equal, unless a window is raised from a zero that was never sent |
| Lockstep.Happen | fw/hpack.c:3611-3788 | what every single event makes of the encoder, exactly, with the flag that tells of a rise from an untold zero; the tables stay in step, unless it is a field without name or value, or one the program warns of |
| Lockstep.Session | fw/hpack.c:3611-3788 | over any sequence of size changes and headers of any bytes the decoder receives exactly the fields sent and the encoder follows the events one by one, up to the first field without name or value or a warning of an equal entry that stays; every name received is spelt as in a header sent so far, or was in a table from the beginning; then the tables are in step, and equal if the window has not risen from an untold zero, which is computed from the events; fair comparisons never lead to a warning |
| Lockstep.NamesLower | fw/hpack.c:3474-3523 | if no table begins with capitals and every header that has any is transformed, no name is ever received with one (section 8.2.1 of RFC 9113) |
| Lockstep.HistoryWindows | fw/hpack.c:3726-3788 | in every run, window, pending update and rise from an untold zero are those the events alone give |
| Lockstep.NoZero | fw/hpack.c:3726-3788 | a run that starts with no untold zero and announces none never rises from one |
| Lockstep.WarnedTwice | fw/hpack.c:3040-3079 | in every run, a header the program warns of equals, up to folding of its name, one sent before or an entry of the first table |
| Lockstep.SevenBitEvents | fw/hpack.c:2376-2442 | headers and entries of 7-bit text are never a problem to any later search |
| Lockstep.ZeroAndBack | fw/hpack.c:3726-3788 | size zero and back before the update is written: when exactly the tables are still equal |
| Lockstep.DrivenApart | fw/hpack.c:3726-3788 | from fresh tables: one header, size zero and back, and the tables differ |
| Wire.NumberRun | fw/hpack.c:268-316 | the bytes of an integer move the automaton as the integer reader does, whatever the integer is for |
| Wire.TextRun | fw/hpack.c:432-460 | the bytes of a string, plain or Huffman-coded, as far as they are there, move the automaton as one piece does |
| Wire.Decoder.Coded | fw/hpack.c:432-447 | a piece of a Huffman code, through the resumable Huffman decoder, has the effect of its bytes on the automaton |
| Wire.Decoder.Stretch | fw/hpack.c:1504-1920 | a first byte, the rest of an integer or as much of a string as is there is taken as byte by byte |
| Wire.Decoder.Feed | fw/hpack.c:1504-1920 | a fragment that ends anywhere leaves the automaton where its bytes one by one would, and reports failure exactly if it has failed |
| Wire.Decoder.FeedAll | fw/hpack.c:1504-1920 | for every split into fragments the items and the error are those of the whole block |
| Wire.IntegerBack | fw/hpack.c:1504-1920 | a written index, size or length is read back in every place an integer can stand |
| Wire.ItemBack | fw/hpack.c:1504-1920 | every item is decoded to itself with its strings, or refused: index zero, an empty name or value, bytes that are no Huffman code, a table size out of place or above the maximum |
| Wire.BlankRefused | fw/hpack.c:1693-1730 | the four bytes of a field with an empty value, on which the decoder fails |
| Wire.BlockBack | fw/hpack.c:1504-1920 | from the bytes of any items the decoder gets exactly those in front of the first one it refuses, with their strings decoded, and is ready for more if and only if it refuses none |
| Wire.CodedBack | fw/hpack.c:1504-1920 | however the strings of a block are written, plain or as padded Huffman codes, the decoder gets the strings themselves |
| WireSession.Write | fw/hpack.c:3474-3523 | the bytes written for an item are its code |
| WireSession.Transport | fw/hpack.c:1504-1920 | items written, cut into any fragments and decoded are the same items, their strings decoded, up to the first one refused |
| WireSession.Listen | fw/hpack.c:1504-1920 | a block whose strings the peer has written in either way, cut into any fragments, is decoded to the strings themselves |
| Common.AnyPieces | fw/hpack.c:1504-1920 | any division of a header block into fragments that are not empty is one of those considered |
| WireSession.Receive | fw/hpack.c:1504-1920 | size update and field have their effect on the decoder's table, in this order |
| WireSession.Travel | fw/hpack.c:1504-1920 | a representation, with the size update that may be due, has its effect on the decoder's table through bytes and fragments |
| WireSession.Compose | fw/hpack.c:3611-3788 | the size update that is due and a representation that conveys the field, spelt and chosen as in `Lockstep.Encode`; what becomes of the encoder is exactly the step of a header; a warning only of an equal entry that stays |
| WireSession.Deliver | fw/hpack.c:3611-3788 | any field with name and value arrives through bytes in any fragments, with the size update that may be due; the encoder makes exactly the step of a header, and the tables stay in step unless the program warns of an equal entry |
| WireSession.Session | fw/hpack.c:3611-3788 | the run of `Lockstep.Session` through bytes and any cuts of the header blocks: the same fields with the same spelling of names, the same steps of the encoder, the same condition for equal tables |
| PeerBlock.Apply | fw/hpack.c:1504-1920 | items have their effect on the decoder's table one after the other, and the fields are those of a plain evaluation, up to the first item that refers to nothing |
| PeerBlock.Understand | fw/hpack.c:1504-1920 | any nonempty block of items as a peer may write them, integers within the decoder's limit, in any fragments: accepted if and only if the automaton refuses none and none refers to nothing, and then fields, table and size are those of the plain evaluation |
| PrefixInt.EncodeFits | fw/hpack.h:273-279 | an integer fits the three-byte buffer if and only if it is below max + 2^14 |
| PrefixInt.FourBytes | fw/hpack.h:273-279 | the first length that needs a fourth byte |
| PrefixInt.WriteInt | fw/hpack.c:462-484 | writes the code of section 5.1 of RFC 7541 |
| PrefixInt.IntSize | fw/hpack.h:319-335 | the exact number of bytes of that code |
| PrefixInt.GetFlexible | fw/hpack.c:268-286 | reads as far as the input goes, with value, shift or rejection as if read at once |
| PrefixInt.GetContinue | fw/hpack.c:292-316 | resumes an interrupted integer likewise, and stops exactly at its end |
| PrefixInt.ReadFragments | fw/hpack.c:268-316 | for every split into non-empty fragments the outcome is that of the whole input |
| PrefixInt.ReadsExactly | fw/hpack.c:268-316 | every integer within the limit is read with its own value, however many bytes spell it |
| PrefixInt.AcceptedExact | fw/hpack.c:268-316 | an accepted integer has its true value if and only if the bytes after the fourth carry no payload |
| PrefixInt.FifthByteLost | fw/hpack.c:268-286 | a 33-bit integer accepted as 127 |
| PrefixInt.RoundTrip | fw/hpack.c:268-316 | reading what was written gives the integer back for every prefix size, and stops exactly at its end |
| Huffman.FeedConcat | fw/hpack.c:659-770 | the automaton can be interrupted after any byte |
| Huffman.DecodesCodes | fw/hpack.c:547-770 | tables that lead every code to its symbol decode all encoded strings with up to seven one-bits of padding |
| Huffman.DecodesOnlyCodes | fw/hpack.c:547-770 | what sound tables accept is the codes of the result and up to seven one-bits |
| Huffman.RightComplete | fw/hpack_tbl.h:22-66 | sound tables of a prefix code lead every code to its symbol |
| Huffman.DecodingExact | fw/hpack.c:547-770 | the decoder yields a string if and only if the input is its padded encoding |
| HuffmanProof.ShapeOk | fw/hpack_tbl.h:58-1031 | the literal tables are well formed: every jump and every index stays inside them |
| HuffmanProof.SoundOk | fw/hpack_tbl.h:58-1031 | no state of the literal tables strays from the codes |
| HuffmanProof.PrefixFreeOk | fw/hpack_tbl.h:58-1031 | the literal codes form a prefix code |
| HuffmanCanonical.ShortCodes | fw/hpack_tbl.h:65-149 | the characters with codes of up to fifteen bits, class by class in the order of their codes |
| HuffmanCanonical.InOrder | fw/hpack_tbl.h:65-149 | for any two symbols, the one with the shorter code, or with the smaller number among equally long codes, has the earlier code |
| HuffmanCanonical.Canonical | fw/hpack_tbl.h:65-149 | the first code is all zeros and each begins where the one before ends, so the lengths determine all codes |
| HuffmanProof.HuffmanExact | fw/hpack_tbl.h:58-1031 | with the literal tables the decoder yields a string if and only if the input is its padded encoding |
| HuffmanText.PlainExact | fw/hpack.c:547-770 | a coded string stands for a text if and only if it is the code of the text and up to seven one-bits |
| HuffmanText.Go | fw/hpack.c:659-770 | a piece of a coded string is taken if and only if some string goes on like that, and at its end if and only if it stands for a text, which is then the output |
| HuffmanCodec.Decoder.Decode | fw/hpack.c:659-770 | one fragment moves the saved context exactly as the automaton on values; result, rejection and saved context agree |
| HuffmanCodec.Decoder.DecodeTail | fw/hpack.c:547-618 | the last bits: remaining symbols, then padding of ones only |
| HuffmanCodec.Decoder.DecodeTailSmall | fw/hpack.c:620-657 | the same from a small table |
| HuffmanCodec.Decoder.SetNext | fw/hpack.c:318-326 | takes in one byte in 16-bit arithmetic |
| HuffmanCodec.DecodeFragments | fw/hpack.c:659-770 | for every split into non-empty fragments, symbols and rejection are those of the whole string |
| HuffmanCodec.EncodedLength | fw/hpack.c:3236-3253 | the exact number of bytes of the encoding |
| HuffmanCodec.Encoder.Put | fw/hpack.c:3255-3357 | appends the code of a symbol to the bits written, across the 64-bit word |
| HuffmanCodec.Encoder.Flush | fw/hpack.c:3255-3357 | pads with ones to a byte and writes out the rest |
| HuffmanCodec.EncodeCopy | fw/hpack.c:3255-3357 | fills a buffer of the computed length with exactly the codes of the string and one-bits |
| HuffmanCodec.RoundTrip | fw/hpack.c:3236-3357 | every non-empty string is decoded to itself, however its encoding is cut into fragments |
| Histogram.BucketCovers | fw/apm.c:113-119 | the bucket index is below 16 and its interval contains the time |
| Histogram.PairedSum | fw/apm.c:121-135 | widening a range loses no hit |
| Histogram.SpreadSum | fw/apm.c:137-164 | narrowing a range loses no hit |
| Histogram.GroupsSum | fw/apm.c:169-232 | counters put together in groups keep their sum if and only if no group of more than four exceeds 32 bits |
| Histogram.CoalescedSum | fw/apm.c:169-232 | extending the last range loses no hit, under exactly that condition |
| Histogram.PcntRanges.constructor | fw/apm.c:683-688 | the initial ranges satisfy all invariants |
| Histogram.PcntRanges.Reset | fw/apm.c:867-875 | all counters and totals start anew, ranges stay |
| Histogram.PcntRanges.GrowRight | fw/apm.c:121-135 | the new range and row, in place |
| Histogram.PcntRanges.ShrinkLeft | fw/apm.c:137-164 | the new range and row, in place |
| Histogram.PcntRanges.Extend | fw/apm.c:169-232 | the last range takes in the time if and only if some order covers it in 32 bits, with the least such order and groups of neighbours put together; hits are conserved if and only if no 32-bit sum wraps, and the other ranges are untouched |
| Histogram.FindOrder | fw/apm.c:179-192 | the least order that takes in the time; its end fits 32 bits if and only if any order fits |
| Histogram.ShortFits | fw/apm.c:179-192 | times up to 2^31 always fit |
| Histogram.FewKept | fw/apm.c:194-232 | no sum wraps while a row holds fewer than 2^32 hits |
| Histogram.TooLong | fw/apm.c:338-380 | a time that a new histogram gives up on |
| Histogram.WrappedLost | fw/apm.c:194-380 | reached by counting: 2^32 times of 349 ms and one of 2029 ms, after which the buckets no longer sum to `tot_cnt` |
| Histogram.PcntRanges.Scan | fw/apm.c:244-301 | sum, used buckets and first largest bucket of a range |
| Histogram.PcntRanges.GrowIntoGap | fw/apm.c:244-301 | the left neighbour grows by one order and its right half gets an equal share of the hits in the gap; hits are moved, not lost |
| Histogram.PcntRanges.Adjust | fw/apm.c:244-301 | ranges stay ordered and disjoint and hits are conserved; without an outlier nothing changes; with one, exactly: the range is narrowed by one order if it has any, after its left neighbour has grown if and only if the first bucket is the largest and there is room |
| Histogram.PcntRanges.Count | fw/apm.c:338-380 | one hit more in the covering bucket, and then exactly what `Adjust` does; nothing changes but the range and the one before it |
| Histogram.PcntRanges.Place | fw/apm.c:338-380 | a time that fits gives exactly one hit more, unless a sum wraps; ranges and counters become exactly those of an extension if one is needed, one hit in the covering bucket and the answer to an outlier; other ranges than its own and the one before are untouched; ranges stay in order, and no other assertion fails |
| Histogram.PcntRanges.Update | fw/apm.c:338-380 | over every run of updates with times that fit, total, minimum and maximum are those of the samples, and the buckets sum to `tot_cnt` as long as no 32-bit sum wraps, and no longer; ranges and counters are exactly those of `Place` |
| HistogramMoves.NarrowedExact | fw/apm.c:137-164 | narrowing keeps the end of a range, and the number of hits up to every time for which both forms have a bucket |
| HistogramMoves.WidenedExact | fw/apm.c:121-135 | widening keeps the number of hits up to the time of a new bucket if and only if the second bucket put together is empty |
| HistogramMoves.CoalescedUpTo | fw/apm.c:169-232 | after an extension in which no sum wraps, the hits up to a bucket are those up to the last bucket of its group, and the rest is empty |
| HistogramMoves.ExtendedExact | fw/apm.c:169-232 | an extension keeps the number of hits up to the time of a new bucket if and only if all but the first bucket of its group are empty |
| HistogramMoves.CountedLower | fw/apm.c:169-232 | a response of 340 ms is counted for 333 ms after an extension |
| Percentiles.Ascending | fw/apm.c:730-747 | bucket values ascend strictly across all ranges |
| Percentiles.StateNext | fw/apm.c:730-756 | the next used bucket, or past the end, with its value cut to 16 bits |
| Percentiles.Take | fw/apm.c:802-828 | one round of the merge counts all hits at the least value ahead and moves exactly their cursors; on narrow entries all hits up to that value are counted |
| Percentiles.Fill | fw/apm.c:829-833 | each slot whose target is reached gets the current value, on narrow entries its exact percentile |
| Percentiles.Calc | fw/apm.c:771-860 | for all entries: every filled slot holds a time seen in 16 bits, and only filled slots change; if all times are below 65535 it is min(max, the least value up to which the target is reached over all entries); unfilled only if the target exceeds all hits, so all are filled if the total does not |
| Percentiles.AllFilled | fw/apm.c:771-860 | with a total no larger than the hits on record every target is within reach; `Calc` uses it |
| Percentiles.PercentilesAscend | fw/apm.c:771-860 | percentiles of ascending targets do not fall |
| Percentiles.CursorExact | fw/apm.c:722-747 | a cursor tells its value, and tells it from the end marker, if and only if it is below 65535 |
| Percentiles.WideLost | fw/apm.c:722-860 | a hundred hits of 65537 ms: all percentiles are calculated as 1 ms, and all are 65537 ms |
| Percentiles.Extremes | fw/apm.c:835-852 | minimum, maximum and average over all entries |
| H2Frames.LegalEndsOnce | fw/http_frame.c:2045-2067 | a legal response ends its stream exactly once |
| H2Credit.WithinAppend | fw/http_frame.c:2069-2157 | DATA covered by both credits keeps the whole history within them |
| H2Transmit.FinishedLegal | fw/http_frame.c:2197-2466 | a finished response is HEADERS CONTINUATION* DATA* (HEADERS CONTINUATION*)? with END_HEADERS exactly on the last frame of each block, END_STREAM once, and payloads that add up |
| H2Transmit.FramedOk | fw/http_frame.c:2069-2157 | whatever length is sent in whatever state, what was sent so far stays the beginning of a legal response |
| H2Transmit.LengthSendable | fw/http_frame.c:2030-2043 | the computed length is positive (for bodies below 4 GB) and within frame size, socket and both windows |
| H2Transmit.LengthGreatest | fw/http_frame.c:2030-2043 | the computed length is the largest one within frame size, rest, socket and, for DATA, both windows |
| H2Transmit.LengthLeast | fw/http_frame.c:2222-2246 | a frame shorter than wanted comes only from the socket or a window |
| H2Transmit.ParkedWithCredit | fw/http_frame.c:2209-2244 | a stream whose window allows all that is left is blocked if and only if the window is exactly that and at most the minimum worth sending, and socket or connection have too little at the moment |
| H2Transmit.ParkedAtEnd | fw/http_frame.c:2209-2244 | such a stream: 300 bytes left, a window of 300, and a short socket |
| H2Transmit.StuckAt4G | fw/http_frame.c:2030-2043 | with exactly 4 GB of body left the length is zero |
| H2Transmit.NeverBelow4G | fw/http_frame.c:2030-2043 | with 4 GB or more left a frame leaves 4 GB or more, whatever the windows |
| H2Transmit.Stream.Pack | fw/http_frame.c:2045-2126 | charges the part the frame belongs to, sets the flags and the next state |
| H2Transmit.Stream.NextFrame | fw/http_frame.c:2197-2466 | one frame more of a legal response; the window is charged for DATA only |
| H2Transmit.Stream.TryUnblock | fw/http_stream.h:262-275 | a stream goes on exactly when its window is positive |
| H2Transmit.Ctx.NextLength | fw/http_frame.c:2222-2246 | exactly when a frame is made, and its length; exactly when the stream is blocked; else a reason to stop |
| H2Transmit.Ctx.MakeFrame | fw/http_frame.c:2069-2157 | a window that is charged does not become negative, DATA is within the credit of connection and stream at that moment, windows stay equal to the credit left, no field block is interrupted |
| H2Transmit.Ctx.Send | fw/http_frame.c:2069-2157 | the same with all other streams in view |
| H2Transmit.Ctx.Xmit | fw/http_frame.c:2197-2466 | ends with the response finished or for lack of socket space or window; all frames are of this stream, within the frame size, and take what is missing of the socket; nothing but DATA is put on the credit record and neither window is spent below zero; a table size update goes in front of the first frame if and only if one is due |
| H2Transmit.Ctx.UpdateConn | fw/http_frame.c:718-779 | accepted if and only if positive and the window stays at most 2^31 - 1 |
| H2Transmit.Ctx.UpdateStream | fw/http_frame.c:718-779 | the same for a stream, which is unblocked exactly if its window is then positive |
| H2Transmit.Ctx.ApplyInitWindow | fw/http2.c:60-88 | the window of every stream not yet finished moves by the difference, below zero if need be, and stays equal to the credit left; a blocked stream goes on exactly if its window is then positive |
| H2Transmit.Ctx.SetMaxFrame | fw/http2.c:90-182 | only sizes between 2^14 and 2^24 - 1 are taken over |
| H2Transmit.Ctx.ServeNext | fw/http_frame.c:2468-2535 | a stream with an open field block is served before all others, a blocked one not at all; a stream is passed over only with a window of at most 512 bytes; whoever is served sends frames of its own only, within the frame size in force, until it is done or starved; the credit record gains nothing but its DATA, and no other stream is touched |
| H2Transmit.Ctx.Happen | fw/http_frame.c:718-2535 | what each event does to the history: a stream opened with its plan, credit granted exactly as section 6.9 of RFC 9113 allows, one stream served, or nothing |
| H2Transmit.Ctx.Run | fw/http_frame.c:2197-2535 | over all interleavings of sends, window updates and settings changes, the history follows the events one by one, frame size in force included; whoever is chosen with enough window is served until it is done, or the socket or a window has too little left; every DATA frame on the wire is within the credit that connection and stream have at that moment, field blocks are contiguous, and every finished response is legal and ends its stream once |
| H2Transmit.RunOrderly | fw/http_frame.c:2197-2535 | what the peer sees follows from the invariant kept by every event |
| H2Transmit.CreditGranted | fw/http_frame.c:718-779 | over any run, all that is on the credit record besides DATA is what the events granted, in their order |
| H2Transmit.PlansAsked | fw/http_frame.c:2197-2466 | over any run, every stream is to send what it was opened with, but for at most one table size update in front |
| H2Transmit.FramesFit | fw/http_frame.c:2030-2043 | over any run, every frame is within the frame size the settings have put in force at that moment |
| H2Transmit.Connection | fw/http_frame.c:2197-2535 | from the beginning of a connection: DATA within what the events granted, every frame within the size in force, and every finished response a legal one for what was asked |
| H2Transmit.WindowsFit | fw/http_frame.c:2030-2043 | the windows of unfinished streams are the credit left and never exceed 2^32 - 2, so the casts to unsigned int lose nothing |
| H2Transmit.WidestWindow | fw/http2.c:60-88 | the bound is reached |
| Gfsm.FreeSlot | fw/gfsm.c:143-163 | a machine without a slot always finds a free one, so the no-free-slot assertion is dead |
| Gfsm.GState.constructor | fw/gfsm.c:116-122 | one machine in slot 0, all others free |
| Gfsm.GState.Lookup | fw/gfsm.c:127-138 | the slot of a machine if it has one, else the first free slot |
| Gfsm.GState.Switch | fw/gfsm.c:143-163 | the hooked machine becomes current, in its slot or a new one with the state of the hook; no machine ever owns two slots and no used slot is changed |
| Gfsm.GState.Exec | fw/gfsm.c:177-200 | a handler runs with its machine marked on the stack, afterwards the stack is as before; its result and what is stored for every machine are those of the reference evaluation |
| Gfsm.GState.Run | fw/gfsm.c:177-271 | a handler's moves, its result and what is stored for every machine are those of the reference, whatever its own moves lead to |
| Gfsm.GState.Follow | fw/gfsm.c:212-271 | a hooked machine is passed over if and only if it is at work, else run, with the result and the stored states of the reference |
| Gfsm.GState.Move | fw/gfsm.c:212-271 | terminates for any hooks and finite handlers; the visits, the verdict of every handler that ran, the number of calls and what is stored for every machine are exactly those of a recursive evaluation that knows no slots, only the set of machines at work; `curr` and all slots on the stack are as before |
| Gfsm.VisitsInTurn | fw/gfsm.c:212-271 | in that evaluation hooks are visited by priority, exactly the machines at work are passed over, and the result is BLOCK if and only if the last visit blocked or failed, which ends the visits |
| Gfsm.SlotLeft | fw/gfsm.c:177-200 | after a call a machine is forgotten if and only if it has come to the last state; else it is stored in the state it moved to last, or had before, or begins with |
| Gfsm.AfterNone | fw/gfsm.c:177-271 | a machine that takes no part is stored as before |
| Gfsm.VisitsActs | fw/gfsm.c:212-271 | a machine at work takes no part in what its own move leads to |
| AddrText.DivTen | fw/addr.c:446-483 | multiplication and shift divide by ten exactly up to 81919 |
| AddrText.DivHundred | fw/addr.c:446-483 | multiplication and shift divide by a hundred exactly below 10000 |
| AddrText.PutDec | fw/addr.c:446-483 | writes the decimal digits without leading zeros |
| AddrText.PutGroup | fw/addr.c:493-515 | writes the hexadecimal digits without leading zeros |
| Addr.Pton4 | fw/addr.c:43-88 | the loop computes the parser on values |
| Addr.Pton6 | fw/addr.c:90-226 | the loop computes the parser on values, dotted tails included |
| Addr.Copy | fw/addr.c:202-212 | words behind the hole go to the end, the rest is zero |
| Addr.Tail4 | fw/addr.c:195-199 | the four words of a dotted tail put into one number, as its bytes lie in memory |
| Addr.Pton | fw/addr.c:232-271 | which parser is chosen, and its result |
| Addr.FmtV4 | fw/addr.c:535-556 | prints dotted octets and a port other than 0 and 80, short of the end of the buffer |
| Addr.FmtV6 | fw/addr.c:579-625 | prints groups with zero-run compression, in brackets with a port other than 0 and 80, short of the end of the buffer |
| Addr.Fmt | fw/addr.c:579-625 | prints any address, with room left for a terminator in the buffer |
| Addr.V4RoundTrip | fw/addr.c:43-88 | every IPv4 address and port is parsed back, port 0 as 80 |
| Addr.SpreadBack | fw/addr.c:202-212 | expanding the hole undoes zero-run compression for every address |
| Addr.BracketedBack | fw/addr.c:90-226 | every bracketed IPv6 address is parsed back with its port |
| Addr.PlainBack | fw/addr.c:90-226 | every plain IPv6 text is read back by the IPv6 parser, with port 80 |
| Addr.PlainMode | fw/addr.c:232-271 | when a plain IPv6 text is recognised as such |
| Addr.RoundTrip | fw/addr.c:232-271 | for every address and port: parsing the printed form returns it if and only if it is IPv4, bracketed, or recognised |
| Addr.PlainLost | fw/addr.c:232-271 | 2a00::1 is printed and then turned down by the parser |
| AddrForms.ParsedOk | fw/addr.c:232-271 | whatever is parsed is an address with a port of 16 bits |
| AddrForms.CaseBlind | fw/addr.c:162-178 | in any text, the case of hexadecimal digits makes no difference |
| AddrForms.SpellsRun | fw/addr.c:162-178 | any digits of a 16-bit number, in either case and with leading zeros, are read as that number |
| AddrForms.V4Exact | fw/addr.c:43-88 | a text is parsed as an IPv4 address if and only if it is four decimal numbers up to 255 with dots, and behind them nothing, a colon and a number up to 65535, or a dot and a number up to 255 |
| AddrForms.DottedPort | fw/addr.c:43-88 | 1.2.3.4.80 is parsed with port 80 |
| AddrForms.BracketHole | fw/addr.c:90-226 | every bracketed text with a double colon, in any spelling, with any number of groups and any numbers: it is parsed as its groups with zeros between them if there are at most seven, all of 16 bits, one at least behind the double colon, and a port from 1 to 65535; else turned down |
| AddrForms.AnyRefused | fw/addr.c:90-226 | [::]:80 is turned down |
| AddrForms.BracketGroups | fw/addr.c:90-226 | every bracketed text of groups: parsed as the end of an address if there are at most eight, all of 16 bits, and a port from 1 to 65535; else turned down |
| AddrForms.ShortBrackets | fw/addr.c:90-226 | [1:2]:80 is parsed as ::1:2 |
| AddrForms.PlainHole | fw/addr.c:90-271 | every plain text with a double colon: parsed as its groups with zeros between them if there are at most seven, all of 16 bits, and it is recognised, or as eight groups in front of the double colon; else turned down |
| AddrForms.PlainGroups | fw/addr.c:90-271 | every plain text of groups: parsed if and only if there are eight, all of 16 bits, and it is recognised |
| MappedAddr.PlainMapped | fw/addr.c:128-200 | any dotted numbers behind ::ffff: are parsed if and only if there are four, the first up to 255 and the others up to 65535; octets come out in the opposite order |
| MappedAddr.BracketMapped | fw/addr.c:128-200 | in brackets they are parsed if and only if there are two to eight, all up to 255; the address is the first four, last one first, or all ones if there are fewer |
| MappedAddr.AllOnes | fw/addr.c:128-200 | [::ffff:1.2]:8 is parsed as 255.255.255.255 |
| MappedAddr.OctetOverflows | fw/addr.c:128-200 | ::ffff:1.2.4.256 is parsed with the octets 0, 5, 2, 1 |
| MappedAddr.MappedTurned | fw/addr.c:90-226 | every mapped IPv4 text, with and without a port, is parsed to the address with its octets in the opposite order |
| MappedAddr.MappedRight | fw/addr.c:90-226 | it is the address written if and only if its octets read the same both ways |
| SlidingWindow.SlotsPartition | fw/http_limits.c:1354-1380 | every event falls to exactly one slot |
| SlidingWindow.SlotAdds | fw/http_limits.h:209-213 | a slot contributes exactly the events that fell to it within the window |
| SlidingWindow.SlotNext | fw/http_limits.c:181-190 | a slot stays exact when it counts an event, and when another counter takes it over in a later quantum |
| SlidingWindow.Ring.Count | fw/http_limits.c:382-425 | an event is counted in its quantum; a slot of another one is cleared for all counters; in one time frame all counters stay exact |
| SlidingWindow.Ring.Total | fw/http_limits.c:1354-1380 | the sum of the slots in the window, in one time frame exactly the number of events in the last quanta |
| SlidingWindow.Ring.CodeLimit | fw/http_limits.c:1354-1380 | in one time frame blocks if and only if the window holds more events than the limit |
| SlidingWindow.Ring.RequestLimit | fw/http_limits.c:382-425 | in one time frame blocks if and only if the burst of the quantum or the rate of the window exceeds its limit |
| SlidingWindow.Ring.ConnLimit | fw/http_limits.c:181-258 | every connection is counted; in one time frame blocks if and only if too many are open or burst or rate exceed their limits |
| SlidingWindow.Ring.HealthLimit | fw/apm.c:1454-1509 | in one time frame exceeded if and only if a limit is set and the window holds more events; nothing is counted without a time frame |
| SlidingWindow.QuantaAscend | fw/http_limits.c:209-213 | quanta of one time frame never go back |
| SlidingWindow.LostRequest | fw/http_limits.c:181-425 | a request wiped out by a connection counted in another time frame, of 250 jiffies instead of 125: two requests in the window, a limit of one, no block |

## Left out

- EncoderTable.EncTable.RbufCommit: what the program does after its own warning, with a place that may be stale, is not modelled.
- EncoderTable.EncTable.AddNode: `rindex` and `idx_acc` do not wrap, and header lengths are not cut to the 15 bits of `hdr_len`; a field that passes the size test is shorter.
- EncoderTable.KeptSafe: the effect of link writes on the head fields of other nodes is not followed, since links are written inside live nodes only.
- Lockstep.Announce: a size change is one step between header blocks; when it reaches the wire relative to blocks already encoded is not modelled.
- Lockstep.Decode: header parsing, tags and cached parser state are omitted; the literal that is never indexed is told apart in `Wire` only, since the table treats it like one without indexing.
- HeaderOrder.NodeCompare: bytes are unsigned, which in the block comparison rests on a plain `char` being unsigned, as current kernel builds set it.
- Wire.Decoder.Feed: success and postponement are one result, as its only caller takes them for the same (fw/http_parser.c:11041-11079); what the header parser makes of a string is not modelled.
- EncoderTable.EncTable.WriteSize: where the bytes of the size update are put into the frame is not modelled.
- Wire.Decoder.Stretch: the automaton collects items; their lookups in the tables follow in a second step, in `PeerBlock.Understand`.
- PeerBlock.Understand: what is left in the table and the fields found so far are not stated for a block that is refused.
- WireSession.Write: strings are shorter than 127 + 2^14 bytes, exactly what fits the buffer of the length writer (`EncodeFits`).
- WireSession.Transport: the same bound on strings as `Write`.
- WireSession.Travel: the same bound on strings as `Write`.
- WireSession.Session: names and values are shorter than 127 + 2^14 bytes, exactly what fits the buffer of the length writer (`EncodeFits`).
- PrefixInt.WriteInt: the index is below max + 2^14, exactly what fits the buffer of the callers (`EncodeFits`).
- Histogram.PcntRanges.Update: the 64-bit counters and totals do not wrap.
- H2Transmit.Ctx.Xmit: socket buffers, postponed frames and the per-stream state machine are omitted; END_STREAM sets a flag, and the scheduler is an arbitrary choice of stream.
- H2Transmit.WindowsFit: says nothing of finished streams, which no longer send and whose windows are no longer moved.
- Gfsm.GState.Run: handlers are finite scripts of moves; registration of hooks and the packed state word are not modelled.
- Addr.Pton6: the input is one string, not a list of chunks, and the host is little-endian.
- SlidingWindow.Ring.Count: quanta do not wrap; exactness is for counters of one time frame, where the quanta of all of them never go back.
- HuffmanCodec.Decoder.Decode: writing symbols to the request goes to a sequence; memory allocation always succeeds.
- Buffer, page and pool handling, the frame receive state machine, the cache, configuration, logging and connection bookkeeping.
