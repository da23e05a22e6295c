# Verified models of openpilot components

A Dafny project that models the parts of openpilot that do real algorithmic work behind a small interface, and proves
what they are for. `dafny verify dfyconfig.toml` checks all of it.

**QR symbols.** From GF(256) upwards: the tables and the field laws (`GF256`, `Field`), polynomials over the field
(`Polynomials`), Berlekamp-Massey and Gauss-Jordan elimination (`BerlekampMassey`, `LinearSystem`), the Reed-Solomon
decoder and encoder (`ReedSolomon`, `RsEncoder`), bit packing and byte mode (`Bits`, `ByteMode`), blocks and their
interleaving (`Blocks`), the format information and its BCH code (`FormatInfo`), the zigzag through the free modules
(`Placement`, `Patterns`, `Versions`, `ModuleCount`), the masks (`Masks`), the drawing of a symbol and what its patterns
look like (`QrEncoder`, `QrSymbol`, `Colours`) and its decoding (`QrDecoder`). The main results: a word is corrected
exactly when a codeword lies within half the parity, and to that codeword; every payload that fits any of the 40 versions
is decoded from the symbol drawn for it, also after any damage that reaches at most half the parity's number of words in
each block and three bits of each format copy (`DamagedRoundTrip`); and so it is from a clean symbol of any level and mask
(`EverySymbol`).

**SPI link to the panda.** `Crc32` proves the table-driven checksum equal to the bit-serial CRC-32 and shows that it
catches every error burst of up to 32 bits. `Panda` is the panda's memory of its last answer, `Spi` the host's calls over a
bus that loses, cuts and corrupts transfers and is shared with other clients, as functions of a script of what happens, and
`SpiHost` the bulk transfers and the loops themselves. The main results say, over every script, how often a request is run:
at most once more than the bus was shared, exactly when a second time, and once if nobody else is on the bus.

**CAN stream.** `CanFrames`, `CanStream` and `CanPort` model packing into bounded writes and the incremental unpacking
over one receive buffer with carry-over, including the unsigned comparison that wraps below six bytes.

**Driver monitoring.** `Monitoring` models the awareness policy as a state machine over reals, with arbitrary inputs at
every update, and proves timing, terminality and lockout properties of whole runs. `Attention` proves when inattention is
exempt, at low speed and while not engaged, and how awareness is regained.

**Map tiles.** `Hilbert` numbers tiles along the curve; `Varint` and `Directory` decode and search the index of a PMTiles
archive; `VectorTile` reads protobuf fields and line geometry; `TileCache` keeps archive ranges on disk.

**eSIM.** `Tlv` reads and writes BER-TLV objects and cuts a bound profile package into commands.

**Transform sizes.** `GoodSize` proves the pruned search for smooth numbers.

Imperative source code is modelled by methods and classes whose contracts tie them to functions; the properties of those
functions are then proved as lemmas. Where a function follows a standard or a wire format, it is also held against values
that come from elsewhere: the tables and pictures of ISO/IEC 18004, check values, bytes written out one by one.

## Assumptions

- The panda answers a request whose id it remembers from memory, and runs any other; it remembers the last one. This is
  the rule the comments at `openpilot/selfdrive/pandad/spi.cc:188` and `openpilot/selfdrive/pandad/spi.cc:231` rely on; the
  firmware is not part of this model. Ids are never drawn twice, and a corrupted or cut-off response is never accepted
  (`Crc32` proves the latter for bursts of up to 32 bits).
- The panda's table of data lengths by code and the buffer sizes come from headers that are not part of this model; the
  table used is the usual one for CAN FD, and chunk sizes are arbitrary positive numbers.
- Arithmetic in the driver monitoring model is over reals.

## What turned out to hold only under a condition

- A frame survives the CAN wire if and only if its address fits in 29 bits; the header field silently drops higher bits
  (`WireDecodes`).
- A request is run a second time if and only if it arrives again while the panda has room and no longer knows its id
  (`SecondRunIff`), which takes another client's request accepted while the bus was released (`RunsBounded`): the id is
  kept, but the panda remembers only its last request. `RunsTwice` is a script in which it happens.
- A prefetched range is stored whole if and only if it ends no later than the last range of its group; a longer range that
  starts earlier in the group is cut short, and is stored under the name of what is left of it (`FetchGroups`, and
  `OverlapIsCut` for two such ranges).
- The chunks of a bound profile package put together are the package if and only if every opened segment consists of whole
  objects; trailing bytes after the last whole object of such a segment are not sent (`NothingIsLost`, and `BytesCanBeLost`
  for such a package).

## Model

| member | source | states |
|---|---|---|
| GF256.BuildExpTable | openpilot/common/qrcode.py:28-31 | the table built by doubling holds the powers of alpha |
| GF256.ExpInjective | openpilot/common/qrcode.py:28-32 | the 255 table entries are all different, so the log table is well defined |
| GF256.LogTotal | openpilot/common/qrcode.py:32 | every nonzero byte is in the log table |
| GF256.ExpLog | openpilot/common/qrcode.py:32 | exponential and logarithm undo each other on every nonzero byte |
| GF256.MulAsShift | openpilot/common/qrcode.py:109-110 | multiplying by a nonzero byte through the tables is applying one linear shift as often as its logarithm says |
| GF256.MulDistributes | openpilot/common/qrcode.py:109-110 | table multiplication distributes over xor, for all bytes |
| GF256.MulAssociates | openpilot/common/qrcode.py:109-110 | table multiplication is associative, for all bytes |
| GF256.MulInv | openpilot/common/qrcode.py:274-275 | the inverse taken through the tables is the inverse |
| GF256.AlphaRelation | openpilot/common/qrcode.py:28-31 | the powers satisfy the relation of x^8 + x^4 + x^3 + x^2 + 1, from 1 and 2 on, which fixes the field and its generator |
| Polynomials.Vandermonde | openpilot/common/qrcode.py:360-366 | weights at distinct points whose first power sums vanish are all zero, which is why the magnitude system has one solution |
| Polynomials.RootBound | openpilot/common/qrcode.py:355-358 | a polynomial that is not zero has no more distinct roots than its degree |
| Polynomials.ReversedRoots | openpilot/common/qrcode.py:356 | a nonzero point is a root of a polynomial exactly when its inverse is a root of the reversed one, as the search over the reversed recurrence uses |
| BerlekampMassey.StepAnnihilates | openpilot/common/qrcode.py:341-346 | adding the scaled and shifted earlier recurrence makes the new one annihilate one more syndrome, every index in range |
| BerlekampMassey.LengthBound | openpilot/common/qrcode.py:347-348 | Massey's bound: a recurrence that fails at step r cannot belong to few weights, so the length change is forced |
| BerlekampMassey.ShortestRecurrence | openpilot/common/qrcode.py:332-351 | the loop ends with a recurrence for all syndromes, of constant term one and length L, and L is at most the number of nonzero weights in any explanation of the syndromes |
| LinearSystem.Solve | openpilot/common/qrcode.py:362-373 | Gauss-Jordan elimination returns a solution of the system, or fails only where a nonzero vector witnesses that the matrix is singular |
| ReedSolomon.SyndromeIsPowerSum | openpilot/common/qrcode.py:318-322 | a syndrome computed through the tables is the power sum of the word at its locators |
| ReedSolomon.MinimumDistance | openpilot/common/qrcode.py:318-322 | two different words of at most 255 symbols with all syndromes zero differ in more than nsym places |
| ReedSolomon.UniqueCorrection | openpilot/common/qrcode.py:325-326 | at most one codeword lies within nsym / 2 changes of a word |
| ReedSolomon.LocatorOfCorrectable | openpilot/common/qrcode.py:332-358 | where a codeword lies within reach, the recurrence found has length at most nsym / 2 and exactly as many roots among the locators |
| ReedSolomon.FindPositions | openpilot/common/qrcode.py:355-356 | the search returns exactly the positions whose inverse locator is a root of the reversed recurrence, in order |
| ReedSolomon.NeverSingular | openpilot/common/qrcode.py:363-366 | the magnitude system at distinct positions of a word of at most 255 symbols is never singular |
| ReedSolomon.SolutionExplains | openpilot/common/qrcode.py:360-375 | the magnitudes solved for the first L syndromes explain all of them |
| ReedSolomon.RsCorrect | openpilot/common/qrcode.py:325-379 | a word of at most 255 symbols is corrected if and only if some codeword lies within nsym / 2 symbols of it, and it becomes that codeword; otherwise it is left alone, and only the first two checks can have failed |
| RsEncoder.Divisor | openpilot/common/qrcode.py:113-122 | the divisor's coefficients are those of the product of (x - alpha^i) over the first degree powers |
| RsEncoder.EvalGenerator | openpilot/common/qrcode.py:113-122 | the polynomial with those coefficients evaluates to the product of the distances to its roots |
| RsEncoder.DivideBy | openpilot/common/qrcode.py:125-132 | the shifting division in place leaves the remainder of the data shifted up by the divisor's degree |
| RsEncoder.CodewordByRoots | openpilot/common/qrcode.py:318-322 | a word is a codeword exactly when the first nsym powers of alpha are its roots |
| RsEncoder.ParityCompletes | openpilot/common/qrcode.py:125-132 | data followed by its remainder is a codeword, and no other parity symbols make it one |
| RsEncoder.FirstParity | openpilot/common/qrcode.py:113-132 | a known code word: the two symbols that complete 1 are 3 and 2 |
| Bits.PackUnpackAll | openpilot/common/qrcode.py:86 | bytes survive being spread into bits and packed again, trailing bits ignored |
| Bits.UnpackPackAll | openpilot/common/qrcode.py:86 | whole bytes of bits survive being packed and spread again |
| Bits.BitReader.Read | openpilot/common/qrcode.py:412-416 | a read takes the next n bits, most significant first, or fails without moving when fewer are left |
| ByteMode.BuildDataCodewords | openpilot/common/qrcode.py:79-93 | mode, count, payload, terminator, alignment and alternating pad bytes, bit for bit |
| ByteMode.ParseData | openpilot/common/qrcode.py:425-477 | the loop over segments agrees with a recursive reading of the bit stream; a short stream is an underflow |
| ByteMode.ByteModeRoundTrip | openpilot/common/qrcode.py:79-93 | every payload that fits fills exactly the capacity and parses back to itself alone |
| ByteMode.CodewordLayout | openpilot/common/qrcode.py:79-93 | the codewords of a payload, nibble by nibble: 0100, a count of one byte up to version nine and of two from then on, the payload, 0000, and pads EC and 11 in turn |
| ByteMode.ModesRead | openpilot/common/qrcode.py:425-477 | what each of the sixteen modes makes of a stream, mode by mode |
| ByteMode.SegmentsRead | openpilot/common/qrcode.py:425-477 | any number of byte segments is read, in order, up to the end mark or to fewer than four bits |
| Blocks.LengthsSum | openpilot/common/qrcode.py:55-59 | the block lengths add up to all data codewords |
| Blocks.InterleavedIsBijection | openpilot/common/qrcode.py:62-68 | interleaving visits every pair of a block and an index exactly once |
| Blocks.InterleavedLength | openpilot/common/qrcode.py:62-68 | there are as many interleaved places as codewords |
| Blocks.InterleavedInOrder | openpilot/common/qrcode.py:62-68 | data before parity, and of either the first symbols of all blocks before their second ones: with every place visited once, the one order this leaves |
| Blocks.ShortBlocksFirst | openpilot/common/qrcode.py:55-59 | shorter blocks come first and are shorter by one symbol only |
| Blocks.ScatterDetermined | openpilot/common/qrcode.py:494-497 | what the blocks hold before words are stored in them does not matter |
| Blocks.GatherScatter | openpilot/common/qrcode.py:494-497 | storing gathered words at their places gives the blocks back, whatever was there before |
| Blocks.ScatterDamage | openpilot/common/qrcode.py:496-497 | a wrong word damages one symbol of the block it belongs to and no other |
| Blocks.BuildBlocks | openpilot/common/qrcode.py:99-102 | each block is its share of the data followed by its remainder |
| Blocks.CorrectBlocks | openpilot/common/qrcode.py:499-501 | all blocks are recovered, in order and without their parity, if and only if each has a codeword within half its parity |
| Blocks.RecoverableBlocks | openpilot/common/qrcode.py:496-501 | words with at most half the parity wrong in each block still determine the data sent |
| Placement.ZigzagIsBijection | openpilot/common/qrcode.py:209-222 | for any odd dimension the zigzag visits every module outside the vertical timing column exactly once |
| Placement.ZigzagAt | openpilot/common/qrcode.py:209-222 | the place of every step of the walk in closed form: pairs of columns from the right, turning at each end, right module first, column six left out |
| Placement.FreeMembers | openpilot/common/qrcode.py:297-299 | the free modules visited are exactly the visited ones that carry no function |
| Placement.PaintedAt | openpilot/common/qrcode.py:209-222 | painting bits along distinct modules puts the k-th bit on the k-th and leaves all others alone |
| ModuleCount.FreeModules | openpilot/common/qrcode.py:47-52 | for every one of the 40 versions the number of modules the patterns leave free is the closed formula |
| Patterns.PositionsOfStandard | openpilot/common/qrcode.py:135-140 | the alignment positions of all 40 versions are those of table E.1 of ISO/IEC 18004 |
| Versions.TableUsable | openpilot/common/qrcode.py:10-26 | every row of the error correction table leaves blocks within the 255 symbols of the code and payload counts within their field |
| QrEncoder.LengthsFit | openpilot/common/qrcode.py:55-68 | for every version and level, block lengths, interleaving and code length fit together |
| QrEncoder.BuildCodewords | openpilot/common/qrcode.py:96-106 | the codewords sent are the blocks gathered in interleaved order |
| QrEncoder.BytesOfStandard | openpilot/common/qrcode.py:71-72 | a payload fits a version and level exactly up to the number of bytes in table 7 of ISO/IEC 18004 |
| QrEncoder.PickVersion | openpilot/common/qrcode.py:229-234 | the lowest of the first twenty versions that holds the payload is picked, and none exactly for more than 858 bytes |
| FormatInfo.BchFormat | openpilot/common/qrcode.py:35-41 | the division by the format polynomial gives the format word of the five data bits |
| FormatInfo.WordsFarApart | openpilot/common/qrcode.py:43-44 | any two of the 32 format words differ in at least seven bits |
| FormatInfo.ReadFormat | openpilot/common/qrcode.py:382-394 | the format nearest to either copy is returned, unless none is within three bits; with at most three bits wrong in each copy it is the one written |
| FormatInfo.LegibleIsNearest | openpilot/common/qrcode.py:382-394 | three wrong bits in each copy never make another format nearer |
| FormatInfo.WordsOfStandard | openpilot/common/qrcode.py:35-44 | the words of data 0 and of the single data bits are those of table C.1 of ISO/IEC 18004 |
| FormatInfo.CopiesStand | openpilot/common/qrcode.py:382-394 | the module every bit of either copy is read from |
| QrSymbol.Qr.SetFunction | openpilot/common/qrcode.py:157-160 | a function module is marked and coloured if it lies in the grid, and nothing else changes |
| QrSymbol.Qr.Finder | openpilot/common/qrcode.py:162-166 | a finder pattern marks its nine by nine box and draws its rings in it, clipped to the grid |
| QrSymbol.Qr.Alignment | openpilot/common/qrcode.py:168-171 | an alignment pattern marks its five by five box and draws its rings in it |
| QrSymbol.Qr.Timing | openpilot/common/qrcode.py:174-176 | the timing patterns mark row and column six and alternate along them |
| QrSymbol.Qr.Alignments | openpilot/common/qrcode.py:180-184 | alignment patterns are drawn, with their rings, at all pairs of positions but the three under the finders; they do not overlap, and nothing else changes |
| QrSymbol.Qr.Format | openpilot/common/qrcode.py:200-207 | both copies of the format word and the dark module stand at their places, exactly the format modules are marked, and nothing else changes |
| QrSymbol.Qr.VersionInfo | openpilot/common/qrcode.py:188-198 | both copies of the eighteen version bits stand at their places, and nothing else changes |
| QrSymbol.Qr.DrawFunctions | openpilot/common/qrcode.py:173-198 | the modules marked while drawing the patterns are exactly those the decoder computes for itself, and every pattern shows its colours in the end, none overdrawn by a later one |
| Colours.PatternsTell | openpilot/common/qrcode.py:173-207 | the patterns fix the colour of every function module: two symbols that show them agree on all of these |
| Colours.CopiesShown | openpilot/common/qrcode.py:200-207 | the two copies drawn are read back, bit for bit, from where the decoder looks |
| Colours.PatternsPictured | openpilot/common/qrcode.py:162-198 | a finished symbol shows the drawn pictures of the standard: a finder in three corners, mirrored towards each, a target at every alignment position but those, and the version bits in both their places |
| Colours.VersionsOfStandard | openpilot/common/qrcode.py:188-194 | version information words as table D.1 of ISO/IEC 18004 gives them |
| QrSymbol.Qr.DrawData | openpilot/common/qrcode.py:209-222 | the walk with its turning direction and skipped column paints the bits along the free modules in zigzag order |
| Masks.MaskIsDrawn | openpilot/common/qrcode.py:258-267 | each of the eight masks repeats a tile given module by module, everywhere |
| QrSymbol.Qr.Mask | openpilot/common/qrcode.py:151-154 | exactly the data modules are flipped by the mask |
| QrSymbol.Qr.constructor | openpilot/common/qrcode.py:144-155 | a new symbol shows the transmitted bits, masked, on its free modules, and all function patterns with their colours |
| QrDecoder.FindDataCells | openpilot/common/qrcode.py:279-300 | the decoder's coordinates are the free modules in zigzag order |
| QrDecoder.CodewordCount | openpilot/common/qrcode.py:495-497 | the strict pairing of places and codewords never fails, for any version |
| QrDecoder.FillBlocks | openpilot/common/qrcode.py:494-497 | the received words are stored at their places in the blocks |
| QrDecoder.ReceivedIsTransmitted | openpilot/common/qrcode.py:488-490 | from an undamaged grid the words received are the words transmitted |
| QrDecoder.DamagedReadable | openpilot/common/qrcode.py:480-502 | a grid remains readable with up to half the parity of each block in wrong words |
| QrDecoder.DecodeVersion | openpilot/common/qrcode.py:487-502 | decoding fails as unrecoverable if and only if some block has no codeword within reach, and otherwise gives the reading of the corrected data; a readable grid decodes to exactly its payload |
| QrDecoder.DecodeMatrix | openpilot/common/qrcode.py:480-502 | a grid is refused for its size or its format exactly when these are bad; any other decodes as its words do at the format nearest to either copy; every grid whose format is legible and whose blocks are within reach decodes to exactly its payload |
| QrDecoder.DamagedRoundTrip | openpilot/common/qrcode.py:480-502 | every payload that fits a version comes back from its drawn symbol after any flipping of modules that reaches at most half the parity's number of words in each block and three bits of each format copy |
| QrDecoder.RoundTrip | openpilot/common/qrcode.py:143-155 | every payload that fits a version comes back when the drawn symbol is decoded |
| QrDecoder.EverySymbol | openpilot/common/qrcode.py:480-502 | every payload that fits a version and level is read from any clean symbol of it, with any of the eight masks, the mask being the drawn tile and the format word that of the standard's level bits |
| Crc32.TableStep | openpilot/selfdrive/pandad/spi.cc:208-211 | eight shifts of the register are one table entry for its low byte against the rest moved down |
| Crc32.BuildTable | openpilot/selfdrive/pandad/spi.cc:196-206 | each table entry is eight shifts of its index |
| Crc32.Checksum | openpilot/selfdrive/pandad/spi.cc:195-213 | the table-driven fold over bytes equals the CRC-32 of section 8 of RFC 1952 taken one bit at a time |
| Crc32.CheckValue | openpilot/selfdrive/pandad/spi.cc:195-213 | the check value of the algorithm: CBF43926 for the digits from 1 to 9 |
| Crc32.PutCrc | openpilot/selfdrive/pandad/spi.cc:215-218 | a frame with its checksum appended is accepted |
| Crc32.KnownFrame | openpilot/selfdrive/pandad/spi.cc:215-218 | a known frame with its checksum as stored, the low byte first |
| Crc32.CheckCrc | openpilot/selfdrive/pandad/spi.cc:220-224 | the check accepts exactly the frames whose last four bytes are the checksum of the rest |
| Crc32.AcceptedByResidue | openpilot/selfdrive/pandad/spi.cc:220-224 | a frame is accepted exactly when running all of it leaves DEBB20E3 in the register |
| Crc32.BurstsAreCaught | openpilot/selfdrive/pandad/spi.cc:220-224 | no damage confined to 32 consecutive bits of a frame, checksum included, is accepted |
| Panda.DecidedOnceIffUninterrupted | openpilot/selfdrive/pandad/spi.cc:231-232 | whatever the panda's load, an id that arrives is decided once if and only if nothing else arrives between its copies |
| Spi.TransferDecidesOnce | openpilot/selfdrive/pandad/spi.cc:302-386 | however often one transfer sends its request, the panda decides at most once, on the first arrival, and not at all if it remembers the id |
| Spi.TransferBacked | openpilot/selfdrive/pandad/spi.cc:302-386 | whatever is lost, cut off or corrupted, a transfer returns bytes or a refusal only if the panda decided so about this very id |
| Spi.OthersDisplace | openpilot/selfdrive/pandad/spi.cc:250-259 | once the bus is let go and somebody else is served, the panda remembers none of the ids drawn before |
| Spi.RunsBounded | openpilot/selfdrive/pandad/spi.cc:227-266 | over every script, a call runs its request at most once more than the bus was shared, returns only bytes of one of these runs, and causes no other run |
| Spi.RunsOnce | openpilot/selfdrive/pandad/spi.cc:231-232 | with nobody else on the bus a call runs its request at most once, however often it is resent or refused, and on success exactly once and with the bytes returned |
| Spi.RunsAreTraced | openpilot/selfdrive/pandad/spi.cc:227-266 | the number of runs of a call is the number of its rounds in which the request arrives while the panda has room and does not know the id |
| Spi.SecondRunIff | openpilot/selfdrive/pandad/spi.cc:227-266 | a call runs its request a second time if and only if two of its rounds do so |
| Spi.RunsTwice | openpilot/selfdrive/pandad/spi.cc:250-253 | a call that runs twice: the answer is lost, the bus let go, another client served, and the request sent again |
| SpiHost.CleanExchange | openpilot/selfdrive/pandad/spi.cc:356-371 | once the panda has decided, a later clean sending under the same id returns what it decided then, not what it would decide now; a sending with nothing heard before polling ends returns nothing |
| SpiHost.CallDelivers | openpilot/selfdrive/pandad/spi.cc:227-266 | however often a call is refused, unheard or sent again after others, once an answer gets through cleanly it returns what the panda decided when the request last arrived as new |
| SpiHost.FirstDecides | openpilot/selfdrive/pandad/spi.cc:348-375 | the first poll that tells anything decides: a failed one, a ready panda and an answer to another id end the polling, answers that are cut off or too long do not |
| SpiHost.CallReturns | openpilot/selfdrive/pandad/spi.cc:227-266 | what a call returns wherever its rounds tell: an answer once one gets through, the refusal or silence at which the connection was lost, a timeout only when a deadline has passed; refused or silent with the connection up it goes on |
| SpiHost.WriteSizes | openpilot/selfdrive/pandad/spi.cc:150-159 | the calls of a bulk write are the chunks of its data in order, full but for the last |
| SpiHost.ReadSizes | openpilot/selfdrive/pandad/spi.cc:161-176 | the calls of a bulk read ask for one first size, then for chunks, at the end for what is left |
| SpiHost.WriteRunsThrough | openpilot/selfdrive/pandad/spi.cc:150-159 | the runs of a bulk write are those of its pieces, one piece after the other, none skipped, up to a failed one if any, each piece at most once more than the bus was shared |
| SpiHost.ReadRunsThrough | openpilot/selfdrive/pandad/spi.cc:161-176 | the runs of a bulk read are those of the pieces it is put together from, one after the other, and each piece is what one of its runs produced |
| SpiHost.RunsOfBulk | openpilot/selfdrive/pandad/spi.cc:150-176 | a bulk transfer makes at least one run for each piece on success, and never more than the pieces and the times the bus was shared together |
| SpiHost.WriteOnce | openpilot/selfdrive/pandad/spi.cc:150-159 | with nobody else on the bus the panda is given a prefix of the data, once and in order, and all of it on success |
| SpiHost.ReadOnce | openpilot/selfdrive/pandad/spi.cc:161-176 | with nobody else on the bus a successful bulk read returns what its runs produced, each once and in order |
| SpiHost.WriteSucceeds | openpilot/selfdrive/pandad/spi.cc:150-159 | a bulk write succeeds if an answer to each of its calls gets through |
| SpiHost.ReadSucceeds | openpilot/selfdrive/pandad/spi.cc:161-176 | a bulk read returns the bytes its calls are answered with, up to the first short one |
| SpiHost.Host.RandomId | openpilot/selfdrive/pandad/spi.cc:188-192 | an id nobody has drawn before and the panda does not remember |
| SpiHost.Host.ReadUntilResponse | openpilot/selfdrive/pandad/spi.cc:348-375 | the polling loop gives the response the polls come to: never an answer to an old request, a cut-off or corrupted one, or a panda that is ready again |
| SpiHost.Host.Exchange | openpilot/selfdrive/pandad/spi.cc:337-376 | one sending has the effect on the panda and the result the script gives |
| SpiHost.Host.Transfer | openpilot/selfdrive/pandad/spi.cc:302-386 | the resending loop is the transfer all properties are proved of, and its result is backed by a decision on this id |
| SpiHost.Host.Others | openpilot/selfdrive/pandad/spi.cc:250-259 | with the bus let go others are served under ids of their own, and no earlier id is remembered |
| SpiHost.Host.TransferRetry | openpilot/selfdrive/pandad/spi.cc:227-266 | the retry loop is the call all properties are proved of: at most one run more than the bus was shared; undisturbed at most one, and on success exactly one with the bytes returned; and it returns what its rounds tell |
| SpiHost.Host.BulkWrite | openpilot/selfdrive/pandad/spi.cc:150-159 | the loop over chunks is the bulk write all properties are proved of: undisturbed, the data goes out once and in order; it succeeds if every chunk gets through; a failure marks the link unhealthy |
| SpiHost.Host.BulkRead | openpilot/selfdrive/pandad/spi.cc:161-176 | the loop over chunks is the bulk read all properties are proved of: undisturbed, its bytes are those of its runs; it succeeds if every answer gets through; a failure marks the link unhealthy |
| CanFrames.SendableLengths | openpilot/selfdrive/pandad/panda.cc:157-166 | the lengths that can be sent are exactly the sixteen tabled ones, each under its own code |
| CanFrames.ChecksumCancels | openpilot/selfdrive/pandad/panda.cc:194-195 | a frame with its checksum stored sums to zero |
| CanStream.WireDecodes | openpilot/selfdrive/pandad/panda.cc:168-195 | a frame read back is the one sent if and only if its address fits the 29-bit field |
| CanStream.WireBytes | openpilot/selfdrive/pandad/panda.cc:172-195 | the header bytes: the length code above the bus, then address and flags, least significant byte first |
| CanStream.WireFlags | openpilot/selfdrive/pandad/panda.cc:184-189 | of the flags the third is set exactly for addresses of more than eleven bits, the others never |
| CanStream.ReceivedBytes | openpilot/selfdrive/pandad/panda.cc:263-278 | source, address and data of a frame from its bytes: a rejected or returned frame comes from the bus 192 or 128 further on |
| CanStream.KnownShort | openpilot/selfdrive/pandad/panda.cc:184-195 | a frame and its bytes, checksum included |
| CanStream.KnownLong | openpilot/selfdrive/pandad/panda.cc:184-195 | one with an extended address and data |
| CanStream.MineOne | openpilot/selfdrive/pandad/panda.cc:173-178 | the frames sent are those for one of the first four buses |
| CanStream.ParseContinues | openpilot/selfdrive/pandad/panda.cc:242-282 | parsing a stream in two parts with carry-over is parsing it whole |
| CanStream.ParseFails | openpilot/selfdrive/pandad/panda.cc:256-261 | a wrong checksum ends parsing at the same frame whatever follows |
| CanStream.ParseWireAll | openpilot/selfdrive/pandad/panda.cc:242-282 | the bytes of any frames parse back to those frames, in order, with nothing left |
| CanPort.RestIsIncomplete | openpilot/selfdrive/pandad/panda.cc:244-253 | what parsing leaves over is an incomplete frame of fewer than 70 bytes |
| CanPort.Unpack | openpilot/selfdrive/pandad/panda.cc:242-282 | unpacking in the buffer, with the comparison that wraps below six bytes, agrees with parsing and moves the rest to the front |
| CanPort.Port.CanReceive | openpilot/selfdrive/pandad/panda.cc:216-236 | there is always room for a read, and its bytes continue the stream where the last read left off |
| CanPort.Port.ReceiveAll | openpilot/selfdrive/pandad/panda.cc:216-236 | however the bytes are cut into reads, the same frames come out |
| CanPort.Pack | openpilot/selfdrive/pandad/panda.cc:168-208 | each write holds whole frames and fits the 512-byte buffer, all but the last at least 256 bytes, none held back longer than that, and together they are this panda's frames in order |
| CanPort.SendAndReceive | openpilot/selfdrive/pandad/panda.cc:168-282 | packed frames cut into reads anywhere are all received, once and in order |
| Monitoring.PolicyKeeps | openpilot/selfdrive/monitoring/policy.py:182-210 | a policy change costs no awareness and neither makes nor clears a red alert |
| Monitoring.NextKeeps | openpilot/selfdrive/monitoring/policy.py:316-387 | one update takes at most 1/260 off every awareness, active or kept, and kept ones stay positive |
| Monitoring.NoEarlyRed | openpilot/selfdrive/monitoring/policy.py:182-210 | within 259 updates of full awareness no inputs and no policy changes bring level three |
| Monitoring.InattentionIsTimed | openpilot/selfdrive/monitoring/policy.py:316-387 | unbroken inattention gives the exact awareness at every update, and levels one, two and three at exactly 5, 8 and 13 seconds under the vision policy, 5, 15 and 25 under the other |
| Monitoring.RedUntilDisengaged | openpilot/selfdrive/monitoring/policy.py:336-342 | a red alert ends at an update if and only if the system is disengaged there |
| Monitoring.RedIsTerminal | openpilot/selfdrive/monitoring/policy.py:373-382 | while engaged, no run of inputs raises a red awareness, changes the policy or reports less than level three |
| Monitoring.LockoutIgnoresInput | openpilot/selfdrive/monitoring/policy.py:320-334 | what an update does to the lockout depends on nothing it sees |
| Monitoring.LockoutIsServed | openpilot/selfdrive/monitoring/policy.py:320-334 | a lockout lasts exactly its set number of updates, whatever is seen meanwhile |
| Monitoring.RedAlertsAreCounted | openpilot/selfdrive/monitoring/policy.py:373-382 | the count that leads to a lockout is the number of red alerts since the last lockout ended |
| Monitoring.UnansweredRedLocksOut | openpilot/selfdrive/monitoring/policy.py:379-382 | a red alert left unanswered while engaged for five seconds always ends in a lockout |
| Attention.LowSpeedIsExempt | openpilot/selfdrive/monitoring/policy.py:345-371 | over every run at low speed, awareness stays above the first threshold and no level is shown, whatever else is seen |
| Attention.LowSpeedStillCounts | openpilot/selfdrive/monitoring/policy.py:345-371 | the exemption begins no earlier: for 99 updates distraction counts at low speed as well |
| Attention.NotEngagedIsExempt | openpilot/selfdrive/monitoring/policy.py:345-371 | always on, not engaged and in gear, no run brings awareness to zero or shows level three |
| Attention.NotEngagedStillCounts | openpilot/selfdrive/monitoring/policy.py:345-371 | always on and not engaged, distraction counts as long as awareness stays above zero |
| Attention.DisengagingRestores | openpilot/selfdrive/monitoring/policy.py:336-342 | disengaging restores all three awarenesses at once; always on, it does so only from red |
| Attention.RecoveryRate | openpilot/selfdrive/monitoring/policy.py:355-358 | recovery gains five steps at no awareness and a step and a quarter at full awareness, evenly in between |
| Attention.AttentionRestores | openpilot/selfdrive/monitoring/policy.py:349-362 | an attentive driver short of red is back at full awareness within 208 updates, from any policy |
| Attention.AttentiveStep | openpilot/selfdrive/monitoring/policy.py:349-362 | an attentive update recovers at that rate, and shows no alert exactly when awareness is above the second threshold |
| Attention.TouchWhileAttentive | openpilot/selfdrive/monitoring/policy.py:349-354 | touching the wheel while attentive restores all three awarenesses at once |
| Attention.TouchUnderWheelPolicy | openpilot/selfdrive/monitoring/policy.py:337-342 | under the wheel policy touching the wheel is enough |
| Attention.UndecidedKeeps | openpilot/selfdrive/monitoring/policy.py:349-387 | between the two bounds on distraction nothing is gained or lost, and the level follows the awareness |
| Attention.PolicyChanges | openpilot/selfdrive/monitoring/policy.py:182-210 | what leaving a policy keeps and takes up, and when a policy is held |
| Attention.PolicyOfInput | openpilot/selfdrive/monitoring/policy.py:309-310 | the vision policy is for a face seen by a certain model, and only then |
| Attention.LockoutBegins | openpilot/selfdrive/monitoring/policy.py:320-326 | a lockout begins with the second red alert or the first left unanswered, and lasts one, five, fifteen and thirty minutes in turn |
| Attention.LockoutLeavesNothing | openpilot/selfdrive/monitoring/policy.py:328-334 | a lockout that ends leaves nothing behind that would begin another |
| Attention.RedBegins | openpilot/selfdrive/monitoring/policy.py:373-378 | the wait for an answer begins with the update that turns red |
| Attention.UnansweredRedWaits | openpilot/selfdrive/monitoring/policy.py:379-382 | for 100 updates a first red alert left unanswered brings no lockout |
| Attention.Starts | openpilot/selfdrive/monitoring/policy.py:133-175 | the state before the first update, value by value |
| Monitoring.DriverMonitoring.constructor | openpilot/selfdrive/monitoring/policy.py:133-175 | a new monitor starts from full awareness under the vision policy, with the saved lockout |
| Monitoring.DriverMonitoring.SetPolicy | openpilot/selfdrive/monitoring/policy.py:182-210 | the fields change as the policy step specifies |
| Monitoring.DriverMonitoring.UpdateEvents | openpilot/selfdrive/monitoring/policy.py:316-387 | the fields change as the event step specifies |
| Monitoring.DriverMonitoring.RunStep | openpilot/selfdrive/monitoring/policy.py:443-485 | a full update is the step of the state machine all properties over runs are proved of, and keeps its invariants |
| Hilbert.TileId | openpilot/selfdrive/navigation/pmtiles.py:23-37 | the loop, whose coordinates go negative, computes the tile's number on the curve; zooms above 26 and coordinates outside the grid are refused, and only these |
| Hilbert.PointOfIndex | openpilot/selfdrive/navigation/pmtiles.py:23-37 | the distance along the curve determines the tile |
| Hilbert.IndexOfPoint | openpilot/selfdrive/navigation/pmtiles.py:23-37 | every distance is that of a tile |
| Hilbert.CurveIsConnected | openpilot/selfdrive/navigation/pmtiles.py:23-37 | consecutive distances are edge neighbours, at every level |
| Hilbert.NumbersDiffer | openpilot/selfdrive/navigation/pmtiles.py:23-37 | different tiles, of any zooms, have different numbers |
| Hilbert.NumbersFill | openpilot/selfdrive/navigation/pmtiles.py:37 | the numbers of a zoom fill its range without a gap |
| Hilbert.ConsecutiveTilesTouch | openpilot/selfdrive/navigation/pmtiles.py:23-37 | tiles of one zoom with consecutive numbers share an edge |
| Hilbert.FirstAndLast | openpilot/selfdrive/navigation/pmtiles.py:23-37 | every zoom's numbers begin in the upper left corner and end in the upper right one |
| Hilbert.FirstNumbers | openpilot/selfdrive/navigation/pmtiles.py:23-37 | the numbers of the first two zooms, one by one |
| Hilbert.ChildrenFollow | openpilot/selfdrive/navigation/pmtiles.py:23-37 | a tile's four children take the four numbers that follow from its own |
| Varint.ReadVarint | openpilot/selfdrive/navigation/pmtiles.py:10-20 | the accumulating loop reads the little-endian base-128 number; more than ten bytes are refused |
| Varint.ReadsBack | openpilot/selfdrive/navigation/pmtiles.py:10-20 | a written number reads back, and reading stops where it ends |
| Varint.Refusals | openpilot/selfdrive/navigation/pmtiles.py:10-20 | reading fails exactly on ten bytes that all announce another, or where the data ends before one that does not |
| Varint.KnownNumbers | openpilot/selfdrive/navigation/pmtiles.py:10-20 | some numbers and their bytes, both ways |
| Varint.FitsIff | openpilot/selfdrive/navigation/pmtiles.py:10-20 | a number can be written in so many bytes exactly if it has at most seven bits for each |
| Directory.DecodeDirectory | openpilot/selfdrive/navigation/pmtiles.py:40-65 | the rewriting in place agrees with the meaning of the four columns, and refuses the same inputs |
| Directory.AcceptedIsOrdered | openpilot/selfdrive/navigation/pmtiles.py:61-62 | whatever the bytes, the ids of an accepted directory strictly increase and no entry is empty |
| Directory.DirectoryRoundTrip | openpilot/selfdrive/navigation/pmtiles.py:40-65 | a directory written in columns decodes to its entries, whichever offsets were left implicit |
| Directory.NothingFollows | openpilot/selfdrive/navigation/pmtiles.py:40-65 | no accepted directory is continued by another: what follows one is refused, and so is what is cut short |
| Directory.TwoEntries | openpilot/selfdrive/navigation/pmtiles.py:40-65 | any directory of two small entries, byte by byte: the column order, steps of ids, offsets one up, and each reason for refusal |
| Directory.LocateNumber | openpilot/selfdrive/navigation/pmtiles.py:108-124 | the loop over at most four levels agrees with the recursive lookup |
| Directory.Locate | openpilot/selfdrive/navigation/pmtiles.py:103-124 | a tile outside the zoom range is not there; any other is looked up by its number |
| Directory.LocatesAsScanned | openpilot/selfdrive/navigation/pmtiles.py:109-124 | where runs do not overlap in any directory that can be reached, the lookup comes to exactly what a scan of every entry, level by level, comes to: a tile where a run covers it, none where nothing does, invalid where a directory is malformed or points outside its section |
| Directory.LocatedInside | openpilot/selfdrive/navigation/pmtiles.py:118-120 | nothing is ever located outside the data section |
| VectorTile.ZigzagIsBijection | openpilot/selfdrive/navigation/vector_tile.py:50-51 | zigzag decoding is one-to-one between naturals and integers |
| VectorTile.DecodeLines | openpilot/selfdrive/navigation/vector_tile.py:64-89 | the loop over commands agrees with the recursive reading and refuses the same streams |
| VectorTile.LinesRoundTrip | openpilot/selfdrive/navigation/vector_tile.py:64-89 | any list of lines of at least two points, written as moves and line commands with the cursor carried over, reads back |
| VectorTile.AcceptedStreams | openpilot/selfdrive/navigation/vector_tile.py:64-89 | a stream is accepted if and only if it is a list of moves and line commands beginning with a move, each the word 9 or 8 times its steps and 2, followed by its steps in zigzag coding |
| VectorTile.KnownLine | openpilot/selfdrive/navigation/vector_tile.py:64-89 | the example stream of section 4.3.5.3 of the vector tile specification |
| VectorTile.KnownPoint | openpilot/selfdrive/navigation/vector_tile.py:50-89 | zigzag values, and a lone point, which draws nothing |
| VectorTile.ReadFields | openpilot/selfdrive/navigation/vector_tile.py:18-38 | the loop over fields agrees with the recursive reading, consuming every byte or refusing the message |
| VectorTile.FieldsReadBack | openpilot/selfdrive/navigation/vector_tile.py:18-38 | written fields of every wire type read back, in order |
| VectorTile.KnownFields | openpilot/selfdrive/navigation/vector_tile.py:18-38 | known messages, one for each wire type that is read |
| VectorTile.RefusedTags | openpilot/selfdrive/navigation/vector_tile.py:18-38 | field number zero and all other wire types are refused, whatever follows |
| TileCache.GroupsAreAll | openpilot/selfdrive/navigation/tiles.py:102-108 | grouping neighbouring ranges loses none and changes no order |
| TileCache.GroupsBreakAtGaps | openpilot/selfdrive/navigation/tiles.py:102-108 | a group ends exactly where the next range is more than 262144 bytes off, which with the order kept leaves one way to group |
| TileCache.DisjointFit | openpilot/selfdrive/navigation/tiles.py:109-113 | of ranges that do not overlap, none ends after its group |
| TileCache.OverlapIsCut | openpilot/selfdrive/navigation/tiles.py:109-113 | two overlapping ranges of one group of which the first is cut off where the second ends |
| TileCache.RemoteTiles.constructor | openpilot/selfdrive/navigation/tiles.py:19-38 | opening keeps the files of this version of the archive, and of any other version none |
| TileCache.RemoteTiles.Read | openpilot/selfdrive/navigation/tiles.py:85-95 | what is read is always the archive's own bytes; a cached range is read without a request and any other with one for just this range; with the server answering no range inside the archive fails; what was fetched is cached if it fits and no file is from the future |
| TileCache.RemoteTiles.Trim | openpilot/selfdrive/navigation/tiles.py:76-83 | trimming ends within 64 MiB, drops only files older than those kept, or as old and no larger, and stops as soon as it can |
| TileCache.RemoteTiles.FetchGroups | openpilot/selfdrive/navigation/tiles.py:109-113 | each group is fetched in one request, from its first offset to its last end; of the ranges fetched, one is kept whole if and only if it ends no later than the last of its group |
| TileCache.RemoteTiles.Prefetch | openpilot/selfdrive/navigation/tiles.py:97-114 | every missing range is fetched, one request a group, whole if and only if it ends no later than its group, as all do that do not overlap; it is still on disk in the end if everything fits, or if what was fetched fits by itself and no other file is from the future |
| Tlv.IterTlv | openpilot/common/esim/lpa.py:262-292 | the loop reads objects up to the end or the first that is cut short |
| Tlv.ElementReadsBack | openpilot/common/esim/lpa.py:315-321 | a written object with a proper one- or two-byte tag reads back wherever it stands |
| Tlv.ItemsReadBack | openpilot/common/esim/lpa.py:262-292 | written objects in a row read back as the same tags and values, each beginning where the last ended |
| Tlv.KnownHeaders | openpilot/common/esim/lpa.py:315-321 | some tags and lengths and their bytes |
| Tlv.KnownObjects | openpilot/common/esim/lpa.py:262-292 | an object whose tag has three bytes and one whose length has two |
| Tlv.HeaderBeforeValue | openpilot/common/esim/lpa.py:515-518 | for a tag of at most two bytes the header length is what stands before the value |
| Tlv.SplitBpp | openpilot/common/esim/lpa.py:521-543 | the chunks are those all properties are proved of |
| Tlv.WrittenPackage | openpilot/common/esim/lpa.py:521-543 | the chunks of any written package: everything up to the end of its BF23 object, then each A0 or A2 segment whole, and of each A1 or A3 segment its header and then its objects one by one; other objects are not sent |
| Tlv.RefusedPackages | openpilot/common/esim/lpa.py:521-531 | a package is refused exactly when none of its objects has the tag BF36 |
| Tlv.NothingIsLost | openpilot/common/esim/lpa.py:521-543 | the chunks of a well-formed package put together are the package if and only if the opened segments consist of whole objects |
| Tlv.BytesCanBeLost | openpilot/common/esim/lpa.py:521-543 | a well-formed package whose chunks put together are not the package |
| Tlv.CommandApdus | openpilot/common/esim/lpa.py:353-361 | a command goes out whole, in order, in pieces of at most 120 bytes, only the last of them marked |
| GoodSize.FftNextGoodSize | openpilot/selfdrive/locationd/helpers.py:11-34 | the five shrinking loops return the least product of 2, 3, 5, 7 and 11 from n on, for every positive n; up to 6, n itself |
| GoodSize.GoodByPrimes | openpilot/selfdrive/locationd/helpers.py:12-15 | those products are exactly the numbers with no other prime factor |
| GoodSize.ProductIsReached | openpilot/selfdrive/locationd/helpers.py:18-33 | every such product is among those the nested loops can come to |

## Left out

- QR image processing, sampling and texture drawing: numerical image code.
- ParseData: reports a numeric, alphanumeric, Kanji or ECI segment as an error instead of reading it, and returns the bytes
  of a byte segment without decoding characters; these would add easy members.
- RsCorrect: its guarantees are stated for words of at most 255 symbols, as the field has only 255 locators; `TableUsable`
  and `LengthsFit` show that no block of any version is longer.
- TransferRetry: clocks, deadlines and the bus are scripts of events given as parameters, over which every property is
  stated for all scripts; a call that outlasts its script is reported as unfinished. Waiting times between attempts, the
  SPI_ERR_PROB corruption and the ioctl calls are not modelled.
- The USB-side protocol of CAN transfers, capnp messages, and the log and reset side effects of a failed CAN checksum.
- Driver monitoring: the face, pose, eye and phone signals, their filters and calibration are arbitrary inputs; persistence
  of the lockout count, published packets and the development switch that suppresses alerts are not modelled.
- InattentionIsTimed: rounding of binary floating point is not modelled.
- LocateNumber: reading and unpacking a directory is a total function given as a parameter; a failed read is a malformed
  directory. The archive header check and the directory cache are not modelled.
- decode_roads, layer values and tag lookup of vector tiles; packed integer lists.
- RemoteTiles: HTTP, tokens, expiry and the ETag exchange are one request, answered in full if the server is reachable and
  holds the range. Files may have been cut short by a crash, and a file's time is any not before the call that writes it.
- CommandApdus: sends the pieces only; collecting the card's response and its status words is not modelled, nor are
  string_to_tbcd and tbcd_to_string.
- The remaining parts of the repository: Kalman filters, orientation, model parsing, user interface, messaging and other
  numerical or input/output code.
