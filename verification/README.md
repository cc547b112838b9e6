# Verified models of streaming, encoding and delivery

A Dafny model of six components of the repository, with proofs of what they promise.

- **QR Code generator** (`Qr*.dfy`): segments and their bits, Reed-Solomon check bytes, interleaving, function
  patterns, zigzag placement, masks and penalty, up to the theorem that every finished symbol reads back as its
  contents. The constants and layouts are those of ISO/IEC 18004:2015, sections 7.4 to 7.9.
- **JSON engine** (`Json*.dfy`): the parser, which builds linked nodes, and the growing-buffer printer, which walks them,
  undo each other (RFC 8259, RFC 3629); comparison, the doubly linked child list and deep copies.
- **Adaptive bitrate controller** (`AdaptiveBitrate*.dfy`): the state machine and its safety and recovery over whole runs.
- **Gamepad delivery** (`Input*.dfy`): journal, pending packet and sequence filter over a lossy,
  reordering channel.
- **Diagnostic queue** (`Diagnostic*.dfy`): the ring between producers and worker, as atomic steps under its lock.
- **ICE candidates** (`Ice*.dfy`): expansion, ranking and renumbering.

Code that changes state is modelled by classes and methods with the same fields, loops and branches. Each method is
proved equal to a function on values, and the theorems are about those functions. What such a function says is stated
again, without it, in terms of its own: literal pictures and tables, a grammar, numbers, or the inputs of a run
(`QrTiles`, `QrPictures`, `QrPenaltyShown`, `QrCodes`, `QrWords`, `JsonGrammar`, `JsonNumbers`, `JsonTruncation`,
`JsonLayout`, `AdaptiveBitrateEffects`, `InputOlder`, `InputHybrid`, `DiagnosticOffers`, `IceOutput`).
`dafny verify dfyconfig.toml` checks everything.

## Reading the project

- Reed-Solomon: `ValidCodeword` rests on two independent definitions, the loops and the polynomials with their evaluation;
  `SymbolDetermined` is what the check bytes are for, and `DamagedDetermined` carries it to the finished grid.
- Penalty: the score is defined on the unique run-length decomposition of a line; the seven-run window of the program
  is proved equal to it, and it to the places where a picture of the pattern stands (`FindersCounted`).
- The reader of a symbol (`QrReader`, `QrPipeline.ReadCodewords`) takes masks off by their tiles and has its own tables of
  characters and count fields.
- QR pipeline: `EncodeContents` states the round trip for every list of contents that fits, with nothing left to assume
  about the function patterns; `CapacityExact` counts them for all 40 versions.
- JSON: `Render` and the pure parser are the two references; `PrintBuffer` and `ParseBuffer` refine them on trees of nodes,
  where a `Place` says which nodes a tree consists of and `Shows` which value it stands for. `PrintAndParse` and
  `PrintParseCompare` put them together. `ValueIsSaid` and `SaidIsParsed` tie the parser to a grammar, `CompactSpells` and
  `PrintedFormatted` the printer. Numbers are ints; a token that is no int ends in `Unsupported` instead of a guess.
- Where the code does not meet a property everywhere, there is a lemma with a concrete case and one with the exact
  condition: `WrappedProbe` and `ProbeExact`, `EpisodeBreaks` and `EpisodeExact`, `HardRecoveryUndone` and
  `HardRecoveryExact`, `RepeatedKey` and `CompareEquivalence`, `EdgeListedTwice` and `EdgeListedTwiceExactly`, `TcpTakesTop`
  and `TopPriorityOut`.
- `lib/qrcodegen/qrcodegen.hpp` (line 246) promises about 25% for level Q; version 1 corrects 6 of 26 codewords (`ToleratedShare`).
- `lib/cJSON.h` (line 168) advises five spare bytes in a preallocated buffer because the estimate of the printer may be off;
  `PrintPreallocated` shows that exactly two more bytes than the text are needed, one of them for the NUL.

## Model

| member | source | states |
|---|---|---|
| QrGalois.Multiply | lib/qrcodegen/qrcodegen.cpp:739-748 | the peasant loop computes the product Mul of GF(2^8) modulo 0x11D |
| QrGalois.MulOne | lib/qrcodegen/qrcodegen.cpp:739-748 | 1 is neutral, 2 shifts and reduces, 0 annihilates |
| QrGalois.Twice | lib/qrcodegen/qrcodegen.cpp:739-748 | twice a byte, by numbers: x^8 is x^4 + x^3 + x^2 + 1 |
| QrGalois.MulCommutes | lib/qrcodegen/qrcodegen.cpp:739-748 | the product is commutative |
| QrGalois.MulAssociates | lib/qrcodegen/qrcodegen.cpp:739-748 | the product is associative |
| QrGalois.MulDistributes | lib/qrcodegen/qrcodegen.cpp:739-748 | the product is linear in both arguments |
| QrReedSolomon.MultiplyByLinear | lib/qrcodegen/qrcodegen.cpp:710-721 | one pass over the buffer, in place, multiplies the polynomial it holds by (x - root) |
| QrReedSolomon.ComputeDivisor | lib/qrcodegen/qrcodegen.cpp:701-723 | fails outside 1..255; otherwise the coefficients below the leading one of the product of the (x - 2^i), i < degree |
| QrReedSolomon.ComputeRemainder | lib/qrcodegen/qrcodegen.cpp:726-736 | the shift register loop computes Remainder |
| QrReedSolomon.Division | lib/qrcodegen/qrcodegen.cpp:726-736 | data followed by zeros is quotient times generator plus remainder |
| QrReedSolomon.DivisionUnique | lib/qrcodegen/qrcodegen.cpp:726-736 | no other quotient and remainder of that length exist, so Remainder is polynomial division |
| QrReedSolomon.EvalProduct | lib/qrcodegen/qrcodegen.cpp:701-736 | evaluation is multiplicative |
| QrReedSolomon.GeneratorVanishes | lib/qrcodegen/qrcodegen.cpp:701-723 | the generator of degree n is zero at 2^0 to 2^(n-1) |
| QrReedSolomon.CodewordVanishes | lib/qrcodegen/qrcodegen.cpp:726-736 | data followed by its remainder is zero wherever the divisor is |
| QrReedSolomon.ValidCodeword | lib/qrcodegen/qrcodegen.cpp:701-748 | for every data and every degree, data followed by its check bytes is zero at 2^0 to 2^(degree-1) |
| QrDistance.NoZeroDivisors | lib/qrcodegen/qrcodegen.cpp:739-748 | a product of two bytes is zero only when a factor is, as the modulus is irreducible |
| QrDistance.RootOrder | lib/qrcodegen/qrcodegen.cpp:701-723 | the powers of 2 do not repeat before the 255th |
| QrDistance.TooManyRoots | lib/qrcodegen/qrcodegen.cpp:701-736 | a polynomial of length up to 255 that vanishes at 2^0 to 2^(d-1) has more than d coefficients, or is zero |
| QrDistance.WordsApart | lib/qrcodegen/qrcodegen.cpp:701-736 | different data of one length have codewords that differ in more places than there are check bytes |
| QrDistance.DataDetermined | lib/qrcodegen/qrcodegen.cpp:701-736 | up to half as many wrong bytes as check bytes leave only one data sequence possible |
| QrDistance.BlockLength | lib/qrcodegen/qrcodegen.cpp:498-508 | no block of any version and level is longer than the 255 bytes that this needs |
| QrDistance.SymbolDetermined | lib/qrcodegen/qrcodegen.cpp:498-533 | the same for all blocks of a symbol together: its data is determined despite the errors |
| QrInterleave.AddEccAndInterleave | lib/qrcodegen/qrcodegen.cpp:498-533 | rejects data of the wrong length; otherwise exactly rawCodewords bytes in which byte i of block j stands at Position(i, j) |
| QrInterleave.SplitBlocks | lib/qrcodegen/qrcodegen.cpp:509-520 | blocks are the data slices in order with their check bytes, short blocks with a padding byte |
| QrInterleave.Interleave | lib/qrcodegen/qrcodegen.cpp:522-532 | column-wise output of all blocks without the padding bytes |
| QrInterleave.PositionRange | lib/qrcodegen/qrcodegen.cpp:522-532 | every present byte has a position within the output |
| QrInterleave.PositionOnto | lib/qrcodegen/qrcodegen.cpp:522-532 | every output position is taken by a byte of a block, so no padding byte gets in |
| QrInterleave.PositionInjective | lib/qrcodegen/qrcodegen.cpp:522-532 | no two bytes share a position |
| QrInterleave.BlockRecovered | lib/qrcodegen/qrcodegen.cpp:498-533 | de-interleaving recovers data and check bytes of every block |
| QrInterleave.BlockValid | lib/qrcodegen/qrcodegen.cpp:498-533 | every received block is a codeword: zero at 2^0 to 2^(eccLen-1) |
| QrInterleave.DataRecovered | lib/qrcodegen/qrcodegen.cpp:498-533 | the data parts of the blocks together are the original data |
| QrInterleave.ColumnOrder | lib/qrcodegen/qrcodegen.cpp:522-532 | of two bytes the one of the lower index goes out first, and of one index the one of the earlier block |
| QrInterleave.BlocksBalanced | lib/qrcodegen/qrcodegen.cpp:498-520 | shorter blocks come first and miss one data byte at most |
| QrPenalty.RunsDecompose | lib/qrcodegen/qrcodegen.cpp:587-661 | Runs is a decomposition of a line into maximal alternating runs |
| QrPenalty.DecompositionUnique | lib/qrcodegen/qrcodegen.cpp:587-661 | it is the only one |
| QrPenalty.ScoreLine | lib/qrcodegen/qrcodegen.cpp:587-626 | the streaming pass over a line of any length scores LineScore: runs of five or more, and finder windows in the padded run-length decomposition |
| QrPenalty.AddHistory | lib/qrcodegen/qrcodegen.cpp:771-776 | the window shifts by one run; the first run includes the light border |
| QrPenalty.CountPatterns | lib/qrcodegen/qrcodegen.cpp:751-757 | counts the 1:1:3:1:1 windows with light on one side at the newest run |
| QrPenalty.TerminateAndCount | lib/qrcodegen/qrcodegen.cpp:760-768 | finishes a line with the light border |
| QrPenalty.RunsPadded | lib/qrcodegen/qrcodegen.cpp:751-776 | padding a line by light modules on both sides lengthens its outer light runs, or adds them |
| QrPenalty.LeastBalance | lib/qrcodegen/qrcodegen.cpp:648-659 | the formula of the program is the least k with (45-5k)% <= dark <= (55+5k)% |
| QrPenalty.PenaltyBound | lib/qrcodegen/qrcodegen.cpp:587-661 | the score of a symbol never exceeds 2,568,888, the bound that the program asserts |
| QrPenaltyShown.FindersCounted | lib/qrcodegen/qrcodegen.cpp:587-626 | the finder-like patterns counted by runs are the places, units and directions at which one literal picture of twelve modules, stretched by the unit, stands in the line |
| QrPenaltyShown.FivesCounted | lib/qrcodegen/qrcodegen.cpp:587-626 | the points for runs are one for each five equal modules in a row and two more for the first five of a run |
| QrPenaltyShown.LineScored | lib/qrcodegen/qrcodegen.cpp:587-626 | the score of a line in these terms, with the border of light that the picture may reach into |
| QrPenaltyShown.PenaltyShown | lib/qrcodegen/qrcodegen.cpp:587-661 | the score of a symbol by its modules: rows and columns, 3 for each 2x2 block, and 10 for each 5% step by which the dark share is off one half |
| QrBits.BytesOfBits | lib/qrcodegen/qrcodegen.cpp:536-560 | reading bits as bytes undoes writing bytes as bits |
| QrBits.BitsOfBytes | lib/qrcodegen/qrcodegen.cpp:536-560 | and the other way round |
| QrZigzag.CellOfStep | lib/qrcodegen/qrcodegen.cpp:536-560 | the scan reaches every cell outside column 6 |
| QrZigzag.StepOfCell | lib/qrcodegen/qrcodegen.cpp:536-560 | each step reaches a cell outside column 6, and no other step the same |
| QrZigzag.ReadAllPlaced | lib/qrcodegen/qrcodegen.cpp:536-560 | rescanning the free modules reads back the bits that were placed, in order |
| QrZigzag.ScanIsWalk | lib/qrcodegen/qrcodegen.cpp:536-560 | step by step the scan is a walk: from the bottom right corner, right column and left column in turn, one row on each time, and at the border into the next two columns and back, past column 6 |
| QrFormat.ComputeFormatBits | lib/qrcodegen/qrcodegen.cpp:416-425 | the loop over the remainder register yields the 15 format bits |
| QrFormat.FormatRoundTrip | lib/qrcodegen/qrcodegen.cpp:416-425 | level and mask are the top bits once the fixed pattern is taken off |
| QrCodes.FormatsApart | lib/qrcodegen/qrcodegen.cpp:416-425 | any two format words differ in at least 7 bits |
| QrCodes.FormatDetermined | lib/qrcodegen/qrcodegen.cpp:416-425 | so that up to 3 wrong bits leave one level and mask possible |
| QrCodes.VersionsApart | lib/qrcodegen/qrcodegen.cpp:443-452 | any two version words differ in at least 8 bits |
| QrCodes.VersionDetermined | lib/qrcodegen/qrcodegen.cpp:443-452 | so that up to 3 wrong bits leave one version possible |
| QrWords.LowWords | lib/qrcodegen/qrcodegen.cpp:416-425 | the eight words of level L, as annex C of ISO/IEC 18004:2015 prints them |
| QrWords.MediumWords | lib/qrcodegen/qrcodegen.cpp:416-425 | of level M |
| QrWords.QuartileWords | lib/qrcodegen/qrcodegen.cpp:416-425 | of level Q |
| QrWords.HighWords | lib/qrcodegen/qrcodegen.cpp:416-425 | of level H |
| QrWords.VersionWords7 | lib/qrcodegen/qrcodegen.cpp:443-452 | the words of versions 7 to 10, as annex D prints them |
| QrWords.VersionWords11 | lib/qrcodegen/qrcodegen.cpp:443-452 | of versions 11 to 14 |
| QrWords.VersionWords15 | lib/qrcodegen/qrcodegen.cpp:443-452 | of versions 15 to 18 |
| QrWords.VersionWords19 | lib/qrcodegen/qrcodegen.cpp:443-452 | of versions 19 to 22 |
| QrWords.VersionWords23 | lib/qrcodegen/qrcodegen.cpp:443-452 | of versions 23 to 26 |
| QrWords.VersionWords27 | lib/qrcodegen/qrcodegen.cpp:443-452 | of versions 27 to 30 |
| QrWords.VersionWords31 | lib/qrcodegen/qrcodegen.cpp:443-452 | of versions 31 to 34 |
| QrWords.VersionWords35 | lib/qrcodegen/qrcodegen.cpp:443-452 | of versions 35 to 38 |
| QrWords.VersionWords39 | lib/qrcodegen/qrcodegen.cpp:443-452 | of versions 39 and 40 |
| QrSymbol.QrCode.constructor | lib/qrcodegen/qrcodegen.cpp:320-333 | a blank symbol of the size of its version |
| QrSymbol.QrCode.SetFunctionModule | lib/qrcodegen/qrcodegen.cpp:485-488 | exactly one module changes and becomes a function module |
| QrSymbol.QrCode.DrawFormatBits | lib/qrcodegen/qrcodegen.cpp:416-440 | both copies and the dark module are set to the format bits; nothing else changes; exactly those cells become function modules |
| QrSymbol.QrCode.ApplyMask | lib/qrcodegen/qrcodegen.cpp:563-584 | exactly the free modules selected by the mask are inverted; QrTiles says in pictures which those are |
| QrSymbol.MaskInvolution | lib/qrcodegen/qrcodegen.cpp:563-584 | applying a mask twice restores the grid |
| QrSymbol.ForcedAgrees | lib/qrcodegen/qrcodegen.cpp:335-355 | a forced symbol does not depend on format bits drawn before |
| QrSymbol.UnmaskForced | lib/qrcodegen/qrcodegen.cpp:335-355 | removing the mask restores every module without format bits |
| QrSymbol.QrCode.DrawCodewords | lib/qrcodegen/qrcodegen.cpp:536-560 | rejects data that is not the raw codewords of the version; otherwise every codeword bit is placed on the free module that its number in the zigzag order names; function modules and column 6 are unchanged; the result counts the bits there was room for |
| QrSymbol.QrCode.GetPenaltyScore | lib/qrcodegen/qrcodegen.cpp:587-661 | the score of the grid by its declarative definition |
| QrSymbol.QrCode.ChooseMask | lib/qrcodegen/qrcodegen.cpp:335-355 | the final grid is the one forced by the chosen mask; an automatic choice has the least penalty of the eight finished symbols, the first of equals |
| QrTiles.MaskIsTiled | lib/qrcodegen/qrcodegen.cpp:563-584 | each mask inverts exactly the dark cells of a literal tile of six columns that is repeated over the symbol |
| QrTiles.UnmaskedMasked | lib/qrcodegen/qrcodegen.cpp:563-584 | taking a mask off by its tile restores the grid; the reader of QrPipeline and QrCorrection does so |
| QrSegments.BitsRoundTrip | lib/qrcodegen/qrcodegen.cpp:822-827 | a field of n bits reads back as the number written |
| QrSegments.BitBuffer.AppendBits | lib/qrcodegen/qrcodegen.cpp:822-827 | fails for a length outside 0..31 or a value that does not fit; otherwise appends exactly the low bits, highest first |
| QrSegments.MakeNumeric | lib/qrcodegen/qrcodegen.cpp:79-99 | groups of three digits in 10, 7 or 4 bits; fails exactly on text with a character that is no digit |
| QrSegments.MakeAlphanumeric | lib/qrcodegen/qrcodegen.cpp:102-122 | pairs in 11 bits, a last single in 6; fails exactly on text outside the character set |
| QrSegments.MakeBytes | lib/qrcodegen/qrcodegen.cpp:69-76 | the bits of the bytes |
| QrVersions.UsableLayout | lib/qrcodegen/qrcodegen.cpp:679-698 | for every version and level the tables leave room for the check bytes of every block |
| QrVersions.LayoutOf | lib/qrcodegen/qrcodegen.cpp:498-508 | numbers of blocks, check bytes and raw codewords, which add up |
| QrVersions.ToleratedShare | lib/qrcodegen/qrcodegen.hpp:243-248 | in every version a level corrects the promised 7, 15, 25 or 30 percent of wrong codewords and at most five percent more; only version 1 at level Q falls short, with 6 of 26 |
| QrStream.GetTotalBits | lib/qrcodegen/qrcodegen.cpp:179-193 | the number of bits of all segments, or -1 when a count field is too small or the sum exceeds an int |
| QrStream.StreamLength | lib/qrcodegen/qrcodegen.cpp:179-193 | the stream before the terminator is exactly that long |
| QrStream.Fill | lib/qrcodegen/qrcodegen.cpp:290-303 | terminator, zeros up to a byte and alternating pad bytes fill exactly the capacity |
| QrStream.FilledWith | lib/qrcodegen/qrcodegen.cpp:290-303 | byte by byte: the data first, zeros up to the next whole byte, at least four if there is room, then 0xEC and 0x11 in turn |
| QrStream.PackBits | lib/qrcodegen/qrcodegen.cpp:305-310 | bits to bytes, highest first |
| QrStream.Boost | lib/qrcodegen/qrcodegen.cpp:283-287 | the highest level that still fits, never lower than asked |
| QrStream.FindVersion | lib/qrcodegen/qrcodegen.cpp:264-281 | the least version in range whose capacity at the level holds the data, if there is one |
| QrStream.EncodeSegments | lib/qrcodegen/qrcodegen.cpp:259-317 | the arguments are checked; the version is the least in range that fits, and DataTooLong means that none does; the codewords are the filled stream |
| QrReader.NumericRoundTrip | lib/qrcodegen/qrcodegen.cpp:79-99 | digits are recovered from their groups |
| QrReader.AlphanumericRoundTrip | lib/qrcodegen/qrcodegen.cpp:102-122 | characters are recovered from their pairs |
| QrReader.SegmentRoundTrip | lib/qrcodegen/qrcodegen.cpp:52-122 | mode, count and payload of a segment are read back |
| QrReader.StreamRoundTrip | lib/qrcodegen/qrcodegen.cpp:259-317 | the whole stream, whatever terminator or end follows |
| QrReader.CodewordsRoundTrip | lib/qrcodegen/qrcodegen.cpp:259-317 | the codewords of an encoded list of segments read back as their texts |
| QrReader.CharsetAgrees | lib/qrcodegen/qrcodegen.cpp:230 | the character set is digits, capitals and nine signs, which the reader knows by formula |
| QrReader.CountWidthIs | lib/qrcodegen/qrcodegen.cpp:57-66 | the count fields are as wide as the reader expects by its own table |
| QrPatterns.GetAlignmentPatternPositions | lib/qrcodegen/qrcodegen.cpp:664-676 | the positions by their closed form |
| QrPatterns.DrawTiming | lib/qrcodegen/qrcodegen.cpp:388-392 | row and column 6 alternate and become function modules |
| QrPatterns.DrawFinderPattern | lib/qrcodegen/qrcodegen.cpp:465-474 | exactly the cells within distance 4 that lie in the grid change, light at distances 2 and 4 |
| QrPatterns.DrawAlignmentPattern | lib/qrcodegen/qrcodegen.cpp:477-482 | exactly the cells within distance 2 change, light at distance 1 |
| QrPatterns.AlignmentUnique | lib/qrcodegen/qrcodegen.cpp:399-408 | no two alignment patterns touch, in any version |
| QrPatterns.DrawAlignmentPatterns | lib/qrcodegen/qrcodegen.cpp:399-408 | the alignment patterns of all pairs of positions but the three finder corners |
| QrPatterns.ComputeVersionBits | lib/qrcodegen/qrcodegen.cpp:447-452 | the loop over the remainder register yields the version word |
| QrPatterns.VersionRoundTrip | lib/qrcodegen/qrcodegen.cpp:447-452 | the top six bits of the version word are the version |
| QrPatterns.DrawVersion | lib/qrcodegen/qrcodegen.cpp:443-462 | from version 7 on, both copies of the version bits and nothing else |
| QrPatterns.DrawFunctionPatterns | lib/qrcodegen/qrcodegen.cpp:387-413 | the function modules are exactly Reserved(version), and show PatternModule |
| QrPictures.FindersShown | lib/qrcodegen/qrcodegen.cpp:387-408 | all three finder patterns look like a literal picture of nine by nine modules, in every version |
| QrPictures.AlignmentShown | lib/qrcodegen/qrcodegen.cpp:399-408 | every alignment pattern looks like a literal picture of five by five modules |
| QrPictures.TimingAlternates | lib/qrcodegen/qrcodegen.cpp:388-392 | from dark to dark the timing patterns alternate between the finders, through all alignment patterns on the way |
| QrPictures.PositionsSpaced | lib/qrcodegen/qrcodegen.cpp:664-676 | the alignment patterns stand from 6 to the 7th column from the border, as far apart as the table of annex E prints |
| QrPictures.FormatShown | lib/qrcodegen/qrcodegen.cpp:416-440 | a finished symbol shows every format bit at two listed cells, and a module that is always dark |
| QrPictures.VersionShown | lib/qrcodegen/qrcodegen.cpp:443-462 | and every version bit in two blocks of three by six modules |
| QrCapacity.ReservedSize | lib/qrcodegen/qrcodegen.cpp:679-691 | the function modules number size squared minus the result of the capacity formula |
| QrCapacity.CapacityExact | lib/qrcodegen/qrcodegen.cpp:679-691 | for every version the formula counts the free modules of the scan exactly |
| QrPipeline.FormatReadBack | lib/qrcodegen/qrcodegen.cpp:416-440 | level and mask can be read off a forced symbol |
| QrPipeline.CodewordsReadBack | lib/qrcodegen/qrcodegen.cpp:335-359 | unmasking and rescanning a finished symbol yields the codewords that were placed |
| QrPipeline.BuildSymbol | lib/qrcodegen/qrcodegen.cpp:335-355 | check bytes, placement and mask on drawn patterns |
| QrPipeline.SymbolRoundTrip | lib/qrcodegen/qrcodegen.cpp:259-359 | a symbol on any reserved modules with enough room reads back as its contents |
| QrPipeline.MakeSymbol | lib/qrcodegen/qrcodegen.cpp:320-359 | the whole constructor |
| QrPipeline.PatternsKept | lib/qrcodegen/qrcodegen.cpp:320-359 | data and mask leave every function module but the format cells as drawn |
| QrPipeline.EncodedReads | lib/qrcodegen/qrcodegen.cpp:259-359 | a reader who knows only the version recovers the contents of every symbol |
| QrPipeline.SymbolShows | lib/qrcodegen/qrcodegen.cpp:320-359 | a finished symbol shows its patterns, its level and its mask, which is the one asked for or the best of eight |
| QrPipeline.EncodeContents | lib/qrcodegen/qrcodegen.cpp:259-359 | from contents to a finished symbol: of least version, at the level asked for or the highest that fits, with the patterns kept and the best mask, which reads back as contents, level and mask, also when damaged (QrCorrection) |
| QrCorrection.BitOfModule | lib/qrcodegen/qrcodegen.cpp:536-560 | a free module is read as the bit of its number |
| QrCorrection.ModuleOfBit | lib/qrcodegen/qrcodegen.cpp:536-560 | every bit is that of some free module |
| QrCorrection.CodewordRight | lib/qrcodegen/qrcodegen.cpp:536-584 | under one mask a codeword reads right exactly when all of its modules are right |
| QrCorrection.SymbolSends | lib/qrcodegen/qrcodegen.cpp:320-359 | a finished symbol shows the interleaved blocks of its data |
| QrCorrection.ContentsDetermined | lib/qrcodegen/qrcodegen.cpp:259-359 | two symbols that a damaged grid could both come from have the same contents |
| QrCorrection.DamagedDetermined | lib/qrcodegen/qrcodegen.cpp:259-359 | while the format is legible and in every block at most half as many codewords are wrong as there are check bytes, no other contents can have led to the grid |
| JsonText.Utf8RoundTrip | lib/cJSON.c:729-811 | decoding undoes the UTF-8 encoding of every code point |
| JsonString.ParseHex4 | lib/cJSON.c:666-700 | the four digits, or 0 when one of them is none |
| JsonString.ScanLiteral | lib/cJSON.c:838-861 | finds the closing quote and counts the escapes; fails exactly when there is no end |
| JsonString.LiteralRoom | lib/cJSON.c:838-945 | the room that the size pass sets aside suffices for the rest of any literal, well formed or not, at every point of the decoding |
| JsonString.EncodeUtf8 | lib/cJSON.c:763-811 | a code point is written as its one to four UTF-8 bytes |
| JsonString.Utf16LiteralToUtf8 | lib/cJSON.c:703-821 | one or two escapes are decoded to a code point, lone and reversed surrogates rejected |
| JsonString.ParseString | lib/cJSON.c:824-951 | the passes over the bytes compute ParseLiteral, and never write beyond the room set aside |
| JsonString.LiteralDecoded | lib/cJSON.c:824-951 | every well-formed literal means the UTF-8 bytes of its code points, surrogate pairs included |
| JsonString.QuotedRoundTrip | lib/cJSON.c:954-1073 | parsing a printed string gives the string back |
| JsonString.EscapeTable | lib/cJSON.c:888-925 | eight letters make a short escape, each with its own meaning, and no others |
| JsonString.HexTable | lib/cJSON.c:666-700 | the digits of both cases with their values, and no other digit |
| JsonString.EscapeSpelled | lib/cJSON.c:954-1073 | the printer escapes exactly quote, backslash and control characters: by a letter of the table if there is one, else by \u00 and two lower-case digits |
| JsonParseBuffer.ParseBuffer.SkipWhitespace | lib/cJSON.c:1090-1113 | skips all bytes up to a space, and steps back to the last one at the end |
| JsonParseBuffer.ParseBuffer.ParseNumber | lib/cJSON.c:307-408 | the longest token of number bytes, read as the start of it that strtod accepts, becomes the number of the item |
| JsonParseBuffer.ParseBuffer.ParseText | lib/cJSON.c:824-951 | a string at the offset becomes the string of the item |
| JsonParseBuffer.ParseBuffer.ParseValue | lib/cJSON.c:1368-1420 | offset and depth agree with the pure parser, and the item becomes the root of a well-linked tree of new nodes that stands for the parsed value; JsonGrammar says which texts these are |
| JsonParseBuffer.ParseBuffer.ParseArray | lib/cJSON.c:1497-1592 | the same for arrays: the elements are hooked in one by one before they are parsed, and the first learns the last at the end |
| JsonParseBuffer.ParseBuffer.ParseObject | lib/cJSON.c:1662-1777 | the same for objects, each child named by its key |
| JsonParseBuffer.ParseBuffer.ParseItems | lib/cJSON.c:1530-1569 | the loop over the elements leaves a row of trees that stand for them in order |
| JsonParseBuffer.ParseBuffer.ParseMembers | lib/cJSON.c:1693-1755 | the loop over the members |
| JsonParseBuffer.Hook | lib/cJSON.c:1534-1553 | a new item is linked behind the last one, or becomes the head |
| JsonParseBuffer.FinishList | lib/cJSON.c:1571-1579 | the row becomes the child list of the item |
| JsonParseBuffer.ParseWithLengthOpts | lib/cJSON.c:1147-1224 | whole documents, with byte order mark and required end: the tree and where parsing ended, or an error position within the input |
| JsonNumbers.NumberExactly | lib/cJSON.c:307-408 | sign, digits and rest decide: an int exactly if there is a digit, the number does not go on with a point or an exponent, and its value fits; another number if it goes on or does not fit; otherwise no number |
| JsonNumbers.ValueIsMagnitude | lib/cJSON.c:307-408 | the value that is read is the sum of the digits by powers of ten |
| JsonGrammar.ValueIsSaid | lib/cJSON.c:1368-1777 | soundness: whatever the parser accepts is spelled by the grammar and means the value returned, within the nesting limit; the grammar knows nothing of the parser |
| JsonGrammar.SaidIsParsed | lib/cJSON.c:1368-1777 | completeness: every spelling without malformed escapes and within the limit is accepted with its meaning, whatever white space, comma or bracket follows |
| JsonGrammar.DecodedIsParts | lib/cJSON.c:703-951 | of literals: characters, short escapes, units and pairs; with a malformed escape that is read as NUL, stray quotes and a stray backslash may follow |
| JsonGrammar.NumberIsSaid | lib/cJSON.c:307-408 | of numbers: a sign and digits |
| JsonGrammar.DocumentIsSaid | lib/cJSON.c:1147-1224 | an accepted document is white space and a value, behind a byte order mark or not; if its end is required, only white space up to the NUL follows |
| JsonGrammar.SaidIsDocument | lib/cJSON.c:1147-1224 | such a document is accepted, and with a required end exactly when nothing but white space up to a final NUL follows |
| JsonTruncation.NothingStarts | lib/cJSON.c:1368-1420 | a text whose first byte starts no value is rejected |
| JsonTruncation.DocumentRefused | lib/cJSON.c:1147-1224 | so for documents behind a byte order mark and white space, empty ones included |
| JsonTruncation.TruncatedDocument | lib/cJSON.c:1147-1777 | every proper beginning of a printed array or object is rejected, with or without its NUL, formatted or not |
| JsonTruncation.ValueCut | lib/cJSON.c:1368-1777 | a beginning of a printed value is rejected wherever it stands, unless it is a number cut down to a smaller one |
| JsonRoundTrip.NumberRoundTrip | lib/cJSON.c:307-408 | every int reads back from its decimal text |
| JsonRoundTrip.ValueRoundTrip | lib/cJSON.c:1368-1896 | a value within the nesting limit, formatted or not and whatever follows, parses back to itself |
| JsonRoundTrip.ValueRefused | lib/cJSON.c:1504-1507 | a deeper value is rejected by the parser |
| JsonRoundTrip.DocumentRoundTrip | lib/cJSON.c:1147-1896 | parsing the printed document gives the same tree exactly when it is nested at most 1000 deep, and is rejected otherwise |
| JsonPrintBuffer.EscapedLength | lib/cJSON.c:969-999 | the size pass over a string is exact |
| JsonPrintBuffer.PrintBuffer.Ensure | lib/cJSON.c:490-573 | succeeds exactly when the room can be had; what is in the buffer is kept; then offset + needed < length |
| JsonPrintBuffer.PrintBuffer.UpdateOffset | lib/cJSON.c:576-586 | the offset moves behind the text that was written |
| JsonPrintBuffer.PrintBuffer.PrintStringPtr | lib/cJSON.c:954-1073 | the quoted and escaped string |
| JsonPrintBuffer.PrintBuffer.PrintValue | lib/cJSON.c:1423-1494 | walks a tree of nodes and writes Render of the value it stands for behind a prefix that is kept, and succeeds exactly when depth and room allow it |
| JsonPrintBuffer.PrintBuffer.PrintArray | lib/cJSON.c:1595-1659 | so for arrays, child by child |
| JsonPrintBuffer.PrintBuffer.PrintObject | lib/cJSON.c:1780-1896 | and objects |
| JsonPrintBuffer.Print | lib/cJSON.c:1239-1304 | the rendered text and a NUL, for every tree that stands for a printable value |
| JsonPrintBuffer.PrintBuffered | lib/cJSON.c:1317-1346 | the same text whatever the initial size; nothing for a negative size |
| JsonPrintBuffer.PrintPreallocated | lib/cJSON.c:1348-1365 | the same text exactly when the buffer is two bytes longer than it |
| JsonLayout.CompactSpells | lib/cJSON.c:1423-1896 | without formatting a value is spelled by the grammar with no white space at all |
| JsonLayout.NoLeadingZero | lib/cJSON.c:596-664 | and no number begins with a zero but zero itself |
| JsonLayout.PrintedFormatted | lib/cJSON.c:1423-1896 | with formatting the text is the unformatted one with white space put in: a line for each member, a tab for each open bracket and behind colons, a space behind the commas of arrays, strings left alone |
| JsonDocument.PrintAndParse | lib/cJSON.c:1147-1896 | the text of a tree of nodes, formatted or not, parses into new nodes that stand for the same value; there is no text exactly when the tree is too deep or its text too long |
| JsonDocument.PrintParseCompare | lib/cJSON.c:1147-3195 | the tree that was printed and parsed compares equal to the first exactly when it was printable and repeated keys agree |
| JsonCompare.IntegersExact | lib/cJSON.c:589-593 | on ints the tolerant comparison is equality |
| JsonCompare.DoublesNotTransitive | lib/cJSON.c:589-593 | on doubles it is not transitive: a counterexample |
| JsonCompare.CompareMeaning | lib/cJSON.c:3072-3195 | the comparison of separate trees holds exactly between trees with equal canonical form in which repeated keys agree |
| JsonCompare.CompareEquivalence | lib/cJSON.c:3072-3195 | between separate trees it is symmetric and transitive, and reflexive exactly when repeated keys agree |
| JsonCompare.CompareDistinct | lib/cJSON.c:3072-3195 | with distinct keys it holds exactly between trees that are equal up to the order of members |
| JsonCompare.RepeatedKey | lib/cJSON.c:3072-3195 | an object with a repeated key that does not equal a copy of itself |
| JsonCompare.FindFirst | lib/cJSON.c:1951-1981 | of members with one key the first is found |
| JsonCompareNodes.GetObjectItem | lib/cJSON.c:1951-1981 | the first child with the name and no earlier one with it, or null |
| JsonCompareNodes.CompareNodes | lib/cJSON.c:3072-3195 | on nodes, null and kinds included: true exactly for one and the same node, and for trees without a common node, or one within the other, whose values compare equal |
| JsonCompareNodes.CompareElements | lib/cJSON.c:3130-3152 | the walk over two lists in step |
| JsonCompareNodes.CoverMembers | lib/cJSON.c:3154-3189 | every child of one object against the first of that name in the other |
| JsonCompareNodes.EqualIsEquivalence | lib/cJSON.c:3072-3195 | with the shortcut for one and the same node it is an equivalence on nodes without exception |
| JsonList.GetArraySize | lib/cJSON.c:1899-1919 | the number of children |
| JsonList.GetArrayItem | lib/cJSON.c:1922-1938 | the child at an index, or null behind the end |
| JsonList.AddItemToArray | lib/cJSON.c:2027-2058 | refuses null and the parent; appends any other item, and the list is the longer sequence afterwards exactly when the item is new to it and, behind another child, leads nowhere |
| JsonList.InsertItemInArray | lib/cJSON.c:2334-2366 | inserts before an index, or appends; the list is the sequence with the item inserted exactly when the item is new to it |
| JsonList.DetachItemViaPointer | lib/cJSON.c:2258-2292 | removes the child and clears its links |
| JsonList.DetachItemFromArray | lib/cJSON.c:2294-2302 | removes the child at an index |
| JsonList.ReplaceItemViaPointer | lib/cJSON.c:2368-2415 | puts the replacement in the place of the child; the list is the updated sequence exactly when the replacement is new to it or the child itself |
| JsonList.ReplaceItemInArray | lib/cJSON.c:2417-2425 | replaces the child at an index, under the same condition |
| JsonList.PerformAll | lib/cJSON.c:1922-2425 | any run of these operations with detached items acts on the list as on a sequence, and keeps its shape |
| JsonList.InsertedThere | lib/cJSON.c:2334-2366 | an inserted item stands at the index or at the end, and removing it gives the list back |
| JsonList.RemovedThere | lib/cJSON.c:2258-2302 | the children behind a removed one move up |
| JsonDuplicate.Duplicate | lib/cJSON.c:2789-2873 | a copy in new nodes only that represents the same item; fails exactly when the tree is deeper than the limit |
| JsonDuplicate.DuplicateAndCompare | lib/cJSON.c:2784-2873 | a deep copy compares equal to its source, node by node, exactly when repeated keys of the source agree |
| AdaptiveBitrate.AdaptiveBitrateController.Reset | src/app/adaptive_bitrate_controller.h:28-50 | the state after a reset |
| AdaptiveBitrate.AdaptiveBitrateController.Observe | src/app/adaptive_bitrate_controller.h:58-199 | one observation, field by field, has the effect Observed on the state |
| AdaptiveBitrate.AdaptiveBitrateController.ApplyReceiverSignal | src/app/adaptive_bitrate_controller.h:232-268 | the effect of a receiver signal |
| AdaptiveBitrate.AdaptiveBitrateController.LowerOneStep | src/app/adaptive_bitrate_controller.h:270-273 | down by at most one step, by less only onto the floor, not at all exactly at or below it |
| AdaptiveBitrate.AdaptiveBitrateController.RaiseOneStep | src/app/adaptive_bitrate_controller.h:275-281 | up by at most one step, by less only onto the lower of the two ceilings, not at all exactly at or above one |
| AdaptiveBitrate.AdaptiveBitrateController.LowerSeverely | src/app/adaptive_bitrate_controller.h:283-290 | a whole step at least, unless the floor is met; if more, a multiple of the step within half a step of 70% |
| AdaptiveBitrate.AdaptiveBitrateController.RecordCongestionReduction | src/app/adaptive_bitrate_controller.h:292-298 | a reduction is counted and opens an episode |
| AdaptiveBitrate.AdaptiveBitrateController.FinishCongestionEpisodeIfRecovered | src/app/adaptive_bitrate_controller.h:300-307 | afterwards no episode is open at or above its ceiling, and one below its ceiling is unchanged |
| AdaptiveBitrateRuns.RaiseUndoesLower | src/app/adaptive_bitrate_controller.h:270-281 | a raise takes a lowering back exactly when the floor did not cut the step short, or the ceiling stops it there |
| AdaptiveBitrateRuns.RunSafe | src/app/adaptive_bitrate_controller.h:28-307 | in every run minimum <= target <= receiver ceiling <= configured maximum, and the counters stay in range |
| AdaptiveBitrateRuns.ReduceEpisode | src/app/adaptive_bitrate_controller.h:292-298 | recording a reduction keeps "open exactly below the episode ceiling" unless, and only unless, the 32-bit count wraps to zero |
| AdaptiveBitrateRuns.ObservedInvariant | src/app/adaptive_bitrate_controller.h:58-307 | one observation counts one reduction at most, and another only when an oversized stream brings the ceiling down |
| AdaptiveBitrateRuns.RunEpisode | src/app/adaptive_bitrate_controller.h:129-307 | an episode is open exactly when the target is below its ceiling, in every run of fewer than 2^32 observations, one fewer while an oversized stream is still ahead |
| AdaptiveBitrateRuns.ReachableStates | src/app/adaptive_bitrate_controller.h:28-307 | both, from a reset |
| AdaptiveBitrateRuns.EpisodeExact | src/app/adaptive_bitrate_controller.h:292-307 | runs of any length: the episode is kept throughout exactly when the target is never lowered while the count is 2^32 - 1 |
| AdaptiveBitrateRuns.TraceRuns | src/app/adaptive_bitrate_controller.h:58-199 | the trace that this speaks of holds the state after every observation |
| AdaptiveBitrateRuns.EpisodeBreaks | src/app/adaptive_bitrate_controller.h:292-298 | a run from a reset that brings the count to 2^32 - 1, and the window after it, which breaks the episode |
| AdaptiveBitrateRuns.OversizeStays | src/app/adaptive_bitrate_controller.h:232-255 | once an oversized stream is noted it stays noted, so that reporting it with every call signals nothing new |
| AdaptiveBitrateRuns.ProbeDropsOnce | src/app/adaptive_bitrate_controller.h:107-167 | RTT-only windows cost at most one step, and none once the latch is set; an oversized stream may be reported all along |
| AdaptiveBitrateRuns.ProbeNeverDropsAgain | src/app/adaptive_bitrate_controller.h:107-167 | after that step the target never drops again in the run |
| AdaptiveBitrateRuns.ProbeStep | src/app/adaptive_bitrate_controller.h:107-127 | each such window brings the measure of best inflation, gap and probe count down |
| AdaptiveBitrateRuns.ProbeRecovers | src/app/adaptive_bitrate_controller.h:107-127 | a latched probe is back at the ceiling within the measure |
| AdaptiveBitrateRuns.CalmDropsOnce | src/app/adaptive_bitrate_controller.h:107-196 | over any mix of RTT-only, neutral and repeated windows at most one window lowers the target, by one step, and none once the latch is set |
| AdaptiveBitrateRuns.LatchEnds | src/app/adaptive_bitrate_controller.h:107-170 | a new window takes the latch off exactly when it is stable or strongly congested |
| AdaptiveBitrateRuns.ProbeReturns | src/app/adaptive_bitrate_controller.h:107-167 | from any state: back at the ceiling after a number of windows known in advance |
| AdaptiveBitrateRuns.ProbeExact | src/app/adaptive_bitrate_controller.h:115-126 | at one inflation a long enough probe recovers exactly when adding 10 to the inflation does not wrap around 2^32 |
| AdaptiveBitrateRuns.ProbeAfterWrap | src/app/adaptive_bitrate_controller.h:115-126 | at any inflations: from the last window that wraps on, a number of windows known in advance leads back to the ceiling |
| AdaptiveBitrateRuns.WrapNeverRecovers | src/app/adaptive_bitrate_controller.h:115-126 | while of any two windows in a row one wraps, the reduction stays |
| AdaptiveBitrateRuns.WrappedProbe | src/app/adaptive_bitrate_controller.h:115-126 | such a run at 2^32 - 2 ms, the largest inflation that src/webrtc/network_path_estimator.h can report |
| AdaptiveBitrateRuns.StableRecovers | src/app/adaptive_bitrate_controller.h:168-190 | from every reachable state cooldown + 6 * ceil(gap / 5000) stable windows reach the ceiling |
| AdaptiveBitrateRuns.CloudHardRecoveryWaits | src/app/adaptive_bitrate_controller.h:168-190 | after a hard recovery in the cloud the stable branch does not raise before the 17th stable window |
| AdaptiveBitrateRuns.RepeatedWindow | src/app/adaptive_bitrate_controller.h:64-68 | a repeated window without a new signal changes nothing |
| AdaptiveBitrateRuns.HardRecoveryExact | src/app/adaptive_bitrate_controller.h:107-134 | a hard recovery, also with an oversized stream, lowers by one step unless, and only unless, the window of the same call rolls a probe back |
| AdaptiveBitrateRuns.HardRecoveryUndone | src/app/adaptive_bitrate_controller.h:107-134 | a run in which it does |
| AdaptiveBitrateEffects.KindsAgree | src/app/adaptive_bitrate_controller.h:70-196 | the kinds of windows, by their numbers |
| AdaptiveBitrateEffects.Start | src/app/adaptive_bitrate_controller.h:28-50 | a session starts at its maximum, in the cloud at no more than 20000 kbit/s, with a minimum of 10000, or its maximum if that is less |
| AdaptiveBitrateEffects.CongestedWindow | src/app/adaptive_bitrate_controller.h:146-167 | the second strongly congested window in a row ends at max(minimum, target - 5000), the first one waits |
| AdaptiveBitrateEffects.HeavyWindow | src/app/adaptive_bitrate_controller.h:135-145 | a window with heavy loss cuts any target above the minimum at once, by a step at least, to 70% in whole steps |
| AdaptiveBitrateEffects.SlowWindow | src/app/adaptive_bitrate_controller.h:107-167 | the third window in a row that is slow only lowers the target by one step and starts a probe |
| AdaptiveBitrateEffects.ProbedWindow | src/app/adaptive_bitrate_controller.h:107-127 | in a probe: the window that the step is given back in, and the count and the best inflation otherwise |
| AdaptiveBitrateEffects.SettledWindow | src/app/adaptive_bitrate_controller.h:168-191 | a stable window counts the cooldown down, then the windows up to the next step, and raises by it |
| AdaptiveBitrateEffects.OtherWindow | src/app/adaptive_bitrate_controller.h:192-198 | any other window leaves the target alone and takes one stable window back |
| AdaptiveBitrateEffects.HardRecoveryAlone | src/app/adaptive_bitrate_controller.h:256-268 | between windows a hard recovery lowers by one step and waits for 2 stable windows, or 15 in the cloud |
| AdaptiveBitrateEffects.OversizedStream | src/app/adaptive_bitrate_controller.h:232-255 | a cloud stream larger than asked for is held at 20000 kbit/s |
| AdaptiveBitrateEffects.CongestionReachesMinimum | src/app/adaptive_bitrate_controller.h:129-167 | over any run of strongly congested windows the target never rises, and is the minimum after 2 * ceil((target - minimum) / 5000) of them |
| AdaptiveBitrateEffects.RaisedOnTime | src/app/adaptive_bitrate_controller.h:168-190 | over stable windows the target stays until the last one that is needed and is then raised by one step |
| AdaptiveBitrateEffects.CooldownPasses | src/app/adaptive_bitrate_controller.h:168-190 | the cooldown passes one stable window at a time, without a raise |
| InputDelivery.Producer.constructor | tools/xbox_input_strategy_sim.py:67-81 | the initial state |
| InputDelivery.Producer.Sample | tools/xbox_input_strategy_sim.py:83-123 | one sample, for all four strategies |
| InputDelivery.Producer.MakePacket | tools/xbox_input_strategy_sim.py:125-170 | expired edges are dropped and the next packet is offered |
| InputDelivery.Producer.RefreshPending | tools/xbox_input_strategy_sim.py:172-191 | the pending packet is given up, kept or replaced |
| InputDelivery.Producer.CommitPending | tools/xbox_input_strategy_sim.py:193-205 | the sent edges leave the journal, and the state is clean if it was the latest |
| InputRuns.PumpOnce | tools/xbox_input_strategy_sim.py:312-318 | refresh and, unless blocked, commit |
| InputRuns.AllEdgesConserved | tools/xbox_input_strategy_sim.py:83-205 | old and complex16: in every run the edges sent, followed by the journal, are all edges sampled, in order |
| InputRuns.HybridRuns | tools/xbox_input_strategy_sim.py:83-205 | hybrid50: in every run each packet carries the state of its sample, stamps never decrease, edges go out in order, at most once and at most 50 ms old |
| InputRuns.HybridStep | tools/xbox_input_strategy_sim.py:83-205 | the invariant behind it, kept by every sample and every pump |
| InputRuns.AcceptedExactly | tools/xbox_input_strategy_sim.py:300-302 | the filter accepts a packet exactly when nothing newer has arrived |
| InputRuns.Receiver.Deliver | tools/xbox_input_strategy_sim.py:300-305 | the frames of an accepted packet are applied |
| InputRuns.NeverBack | tools/xbox_input_strategy_sim.py:297-341 | for every run and every loss, repetition and reordering the receiver applies states of samples in the order of their times |
| InputGreen.GreenPump | tools/xbox_input_strategy_sim.py:136-205 | green8: a free pump sends the state of the newest sample, exactly when it was not sent before |
| InputGreen.GreenStep | tools/xbox_input_strategy_sim.py:93-205 | the invariant of green8, kept by every sample and pump |
| InputGreen.GreenRuns | tools/xbox_input_strategy_sim.py:83-205 | green8: in every run each packet carries the state of its sample, and later packets carry later samples |
| InputGreen.GreenNeverBack | tools/xbox_input_strategy_sim.py:297-341 | green8: whatever the channel does, the receiver applies states in the order of their samples, none twice |
| InputOlder.OfferParts | tools/xbox_input_strategy_sim.py:154-170 | old and complex16: a packet carries the first edges of the journal, 29 at most, and the latest state if no edge is left behind |
| InputOlder.OlderRuns | tools/xbox_input_strategy_sim.py:136-205 | in every run the frames of a packet are the states of its edges and nothing else, in the order of sampling; without edges the one frame is the state that the edges before it lead to, so that an appended latest state never shows |
| InputOlder.FramesFollowEdges | tools/xbox_input_strategy_sim.py:136-305 | delivered in order, the frames change the state of the receiver exactly at the sampled edges that were sent, all of them and in order |
| InputOlder.InStep | tools/xbox_input_strategy_sim.py:83-305 | once no edge waits and nothing is new, the receiver shows the newest sample |
| InputOlder.DeliverAll | tools/xbox_input_strategy_sim.py:297-305 | the loop over packets in order applies every frame |
| InputOlder.OlderPumpSends | tools/xbox_input_strategy_sim.py:172-205 | a free pump sends exactly when a packet or an edge waits or the state is new |
| InputOlder.OldKeepsPending | tools/xbox_input_strategy_sim.py:178-191 | old: what is pending is never replaced |
| InputOlder.ComplexUpToDate | tools/xbox_input_strategy_sim.py:178-191 | complex16: what is pending carries the edges and frames of a packet made at that moment |
| InputOlder.SampleBeats | tools/xbox_input_strategy_sim.py:83-123 | a sample marks the state as new when 250 ms, or 16 ms for complex16, have passed since the last such mark |
| InputOlder.Repeats | tools/xbox_input_strategy_sim.py:83-123 | so that in every run the state is marked as new again by the first sample after that time |
| InputHybrid.HybridPending | tools/xbox_input_strategy_sim.py:136-191 | hybrid50: the next packet is the pending edge if it is young, else the oldest young edge, else the newest state |
| InputHybrid.HybridPumpSends | tools/xbox_input_strategy_sim.py:172-205 | and a free pump sends it |
| InputHybrid.YoungEdgesKept | tools/xbox_input_strategy_sim.py:83-205 | in every run an edge that is at most 50 ms old was sent or still waits in the journal |
| InputListings.EdgeListedTwiceExactly | tools/xbox_input_strategy_sim.py:136-205 | in every hybrid run two packets list the same edge exactly when the first commits it and the second carries the state of the very sample that the edge is |
| InputListings.NeverListedThrice | tools/xbox_input_strategy_sim.py:136-205 | no edge is listed by three packets |
| InputListings.SentAgainExactly | tools/xbox_input_strategy_sim.py:136-205 | a packet that is sent lists an edge again exactly when it carries a state whose edge was committed before |
| InputListings.PumpListsAgain | tools/xbox_input_strategy_sim.py:125-205 | a free pump with nothing pending does so exactly when no young edge is in the journal, the state is new, and the edge of the latest sample was committed |
| InputListings.SeparateStep | tools/xbox_input_strategy_sim.py:136-205 | the invariant behind it: an edge goes out before any state that holds it, and each state once |
| InputListings.EdgeListedTwice | tools/xbox_input_strategy_sim.py:136-154 | a run in which it happens |
| DiagnosticQueue.DropDiagnosticWriter.StartWorker | src/diagnostics.h:118-131 | start under the lock; the ring is set up once |
| DiagnosticQueue.DropDiagnosticWriter.BeginStopping | src/diagnostics.h:133-140 | the first half of stop |
| DiagnosticQueue.DropDiagnosticWriter.EndStopping | src/diagnostics.h:146-150 | the second half, after the worker has finished |
| DiagnosticQueue.DropDiagnosticWriter.EnqueueText | src/diagnostics.h:158-186 | accepts exactly when running, not stopping and not full; at most 4095 bytes are kept; counters and high watermark follow |
| DiagnosticQueue.DropDiagnosticWriter.HasUrgentLocked | src/diagnostics.h:222-228 | whether an entry of the ring is urgent |
| DiagnosticQueue.DropDiagnosticWriter.DrainQueue | src/diagnostics.h:246-259 | the batch is the contents of the ring in order, and the ring is empty |
| DiagnosticQueue.DropDiagnosticWriter.WriteBatch | src/diagnostics.h:261-307 | a report of drops if there were new ones, then the batch; flushed when urgent, stopping or due; opens, batches, bytes and flushes are counted |
| DiagnosticQueue.RunSound | src/diagnostics.h:118-326 | in every interleaving accepted entries == written ++ batch in flight ++ queue in order, the depth stays within the capacity, the bytes written are those of the entries in the log, urgent entries are on disk once written |
| DiagnosticQueue.StopWritesAll | src/diagnostics.h:133-150 | when stop returns every accepted entry is written and on disk, and clearing the ring loses nothing |
| DiagnosticQueue.StopProgresses | src/diagnostics.h:133-326 | a stop cannot get stuck: the worker can always go on and finishes in at most three steps |
| DiagnosticQueue.HighWatermarkTrue | src/diagnostics.h:171-178 | the high watermark is the true maximum of the depth over the run |
| DiagnosticQueue.EveryOfferCounted | src/diagnostics.h:158-186 | every call with a text is counted once, as enqueued or as dropped |
| DiagnosticQueue.EveryWriteCounted | src/diagnostics.h:263-326 | the batches counted are the writes, and the file is opened once for every worker that writes |
| DiagnosticOffers.OfferTaken | src/diagnostics.h:158-186 | an offer is dropped and counted exactly when no worker runs, a stop is under way or 64 entries wait; otherwise its urgency and its longest beginning of at most 4095 bytes wait behind all others |
| DiagnosticOffers.AcceptedAreOffers | src/diagnostics.h:158-186 | in every interleaving the entries accepted are the offers that were not refused, one by one |
| DiagnosticOffers.LogHoldsOffers | src/diagnostics.h:133-326 | when stop returns the log holds them all, in order and on disk |
| DiagnosticOffers.DropsAreRefusals | src/diagnostics.h:158-186 | the entries counted as dropped are the offers that were refused |
| DiagnosticOffers.DrainTakesAll | src/diagnostics.h:235-259 | the worker takes everything that waits |
| DiagnosticOffers.BatchFlushed | src/diagnostics.h:261-307 | a batch is flushed exactly when an entry is urgent, the worker stops, or a flush is due |
| DiagnosticOffers.ReportsInRuns | src/diagnostics.h:261-307 | in every interleaving the reports in the log give growing numbers of dropped entries, the last the one reported, none too large |
| DiagnosticOffers.ReportsStep | src/diagnostics.h:261-307 | and every batch leaves the latest number in the log |
| IceCandidates.ExpandTeredoCandidates | src/app/ice_candidate_processor.cpp:196-222 | the loop over the candidates computes ExpandAll |
| IceCandidates.RewriteCandidates | src/app/ice_candidate_processor.cpp:310-388 | ranking, sorting and renumbering compute Rewritten |
| IcePreferences.TeredoRoundTrip | src/app/ice_candidate_processor.cpp:142-171 | the client and port of every Teredo address (section 4 of RFC 4380) are recovered, unless the mapped port is zero |
| IcePreferences.OnlyTeredo | src/app/ice_candidate_processor.cpp:142-171 | whatever is decoded is the Teredo address of the client and port that are returned |
| IcePreferences.StableOrder | src/app/ice_candidate_processor.cpp:355-366 | the ranked candidates are the one list of them sorted by preference, rank and arrival |
| IcePreferences.InvalidText | src/app/ice_candidate_processor.cpp:43-47 | whether a renumbered line is filtered as TCP depends on its address and remainder only |
| IcePreferences.RenumberKeeps | src/app/ice_candidate_processor.cpp:368-386 | renumbering keeps every candidate that is not TCP, in order |
| IcePreferences.RewrittenList | src/app/ice_candidate_processor.cpp:310-388 | the list that goes out, with exactly one end marker, at its end |
| IcePreferences.PreferencesOnlyReorder | src/app/ice_candidate_processor.cpp:310-388 | whatever is preferred, the same addresses, ports and remainders go out, and the same end marker |
| IcePreferences.StalePreference | src/app/ice_candidate_processor.cpp:345-353 | a preference that matches no candidate changes nothing |
| IcePreferences.TopPriority | src/app/ice_candidate_processor.cpp:368-376 | one candidate has the top priority exactly when the first in order is not filtered |
| IcePreferences.TopPriorityOut | src/app/ice_candidate_processor.cpp:310-388 | the same of the list that goes out |
| IcePreferences.TcpTakesTop | src/app/ice_candidate_processor.cpp:310-388 | a TCP candidate that comes first is dropped, and what goes out has no top priority |
| IceOutput.TeredoInTurn | src/app/ice_candidate_processor.cpp:196-222 | in front of a Teredo candidate two host candidates of its client are added, at port 9002 and at the mapped port, each unless an equal line is there; the candidate itself follows if it is acceptable and new |
| IceOutput.OtherInTurn | src/app/ice_candidate_processor.cpp:196-222 | any other candidate is added alone |
| IceOutput.ClientOffered | src/app/ice_candidate_processor.cpp:196-222 | for every list and every Teredo candidate in it both candidates of its client are in the result |
| IceOutput.InputOffered | src/app/ice_candidate_processor.cpp:196-222 | so is every acceptable candidate, normalised |
| IceOutput.NothingMadeUp | src/app/ice_candidate_processor.cpp:196-222 | and nothing else: every line is a normalised input or offers the client of one |
| IceOutput.LinesOnce | src/app/ice_candidate_processor.cpp:78-103 | no line is in the result twice |
| IceOutput.FieldsOut | src/app/ice_candidate_processor.cpp:310-388 | the fields that go out are exactly those of acceptable candidates and of the clients of Teredo candidates, except those that say TCP |
| IceOutput.OrderOut | src/app/ice_candidate_processor.cpp:275-366 | in the list that goes out: in the cloud public IPv4, IPv6, private IPv4; at home what was last reached, private IPv4, public IPv4, IPv6; anything else last |
| IceOutput.AddressBlocks | src/app/ice_candidate_processor.cpp:224-260 | private are the three blocks of RFC 1918, and public the other addresses of the ranges 1 to 126 and 128 to 223 |
| IceOutput.NormalForm | src/app/ice_candidate_processor.cpp:49-58 | white space around a line and a missing "a=" make no difference |

## Left out

- QR Code: ECI and Kanji segments, the choice of segment modes in makeSegments, and the text output of a symbol.
- QrPipeline.EncodeContents: starts from valid contents, so that the rejections of MakeNumeric, MakeAlphanumeric and MakeBytes are stated there only.
- JsonParseBuffer.ParseBuffer.ParseNumber: numbers outside int, fractions and exponents (strtod, `%1.15g`, locale) are answered Unsupported.
- JsonParseBuffer.ParseBuffer.ParseText: the offset that a failed literal leaves is not modelled; it shows only in the place of an error.
- JsonParseBuffer.ParseBuffer.ParseValue: values that hold a number outside int are answered Unsupported.
- JsonParseBuffer.ParseBuffer.ParseArray: arrays that hold such a number are answered Unsupported.
- JsonParseBuffer.ParseBuffer.ParseObject: objects that hold such a number are answered Unsupported.
- JsonParseBuffer.ParseBuffer.ParseItems: elements that hold such a number are answered Unsupported.
- JsonParseBuffer.ParseBuffer.ParseMembers: members that hold such a number are answered Unsupported.
- JsonParseBuffer.ParseWithLengthOpts: texts that hold such a number are answered Unsupported; which position within the input is reported as the place of an error is not modelled, nor the global error record.
- JSON: allocation failures and hooks, raw and reference nodes, constant strings, case-insensitive lookup, printing of items of invalid type.
- JsonGrammar.SaidIsParsed: spellings with malformed `\u` escapes; the program reads them as NUL, after which the scan for the quote and the decoder may disagree. ValueIsSaid covers them.
- JSON: cJSON_Minify.
- JsonCompareNodes.CompareNodes: compares nodes that stand for JSON values, so not items of invalid or raw kind, or strings without text.
- JsonList.DetachItemViaPointer: an item that is a child of another parent is left out; the code does not check for it, and would follow a null child of an empty parent.
- JsonList.ReplaceItemViaPointer: the same for the item to be replaced; and that the replaced item is deallocated is not modelled; it is cut loose and never used again.
- Controller: signed overflow of `target * 70` and `target + 5000`, which needs a configured maximum above 30 Gbit/s.
- Gamepad simulation: random losses, delays, metrics and scenarios; a delivery order is any sequence of sent packets instead.
- InputRuns.HybridRuns: age and order are those of edges as committed; InputListings says when an edge is listed once more.
- DiagnosticQueue.DropDiagnosticWriter.WriteBatch: failing file opens, exceptions, time stamps and the counters of write times are not modelled; the 100 ms wait is any point at which the worker may run.
- Diagnostic queue: more than one thread that starts and stops, and a stop from the worker itself.
- ICE: parsing of lines, JSON and addresses; what inet_pton, sscanf and the line parser return are inputs. User name fragments and the outgoing direction are not modelled.
- IceOutput.FieldsOut: the fields of a candidate are read off its line by one parser, an input of the model that reads candidates only, and the lines made for clients as written.
- HTTP, authentication, user interface, audio and video, and the WebRTC stack are not part of this model.
