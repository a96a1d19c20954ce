# Paypunk verification

A Dafny model of the decoding and protocol logic of Paypunk, with proofs. `dafny verify dfyconfig.toml`
checks all of it.

The project has three parts.

**The error-correcting QR decoder** (`bridge/src/jsqr.js`). From the bottom up: the field GF(2^8) and its
tables (`GaloisField`, `TableField`), polynomials (`Polynomials`, `PolynomialRoots`, `PolyOps`), the
theory of the code (`KeyEquation`, `ErrorLocation`, `Codewords`), the decoder of one block (`ReedSolomon`),
blocks and interleaving (`DataBlocks`), modules and the zigzag (`BitMatrices`, `CodewordReader`, with
`FunctionModules` on which modules these are), version and format (`BitWords`, `SymbolInformation`), the bit
stream and its segments (`BitStreams`, `Segments`, `SegmentEncoding`), all of it together (`SymbolDecoder`),
and which messages can be encoded at all (`MessageEncoding`). The main result is
`SymbolDecoder.DecodeMatrix`: whatever message was encoded, with at most three wrong bits in each copy of
version and format and at most half the check length of bad codewords in every block, exactly that message
is decoded. It rests on `ReedSolomon.Decode`, which corrects every word within half the check length of a
codeword. Not every result of the block decoder is a codeword: it is one if and only if there is a codeword that near, and a
word whose nonzero syndromes have low degree is returned as it came
(`ReedSolomon.LowSyndromesNoCodeword`).

**The protocols between the daemons**, over symbolic cryptography. `Keypunk` is the key daemon: what it
signs was previewed. `Signer` is the app around it, proved on top of the same daemon. `Ipc` is the framed
and authenticated session. `ChainSync` is the chunked synchronisation of the Zcash wallet, `SyncRuns` its
runs with failures, resumption and restarts, `SyncGaps` the exact conditions under which heights stay out of
the wallet, and `SyncAccounts` the exact condition under which an account is scanned from its birthday on.
`Accounts` follows a viewing key from the derivation path that the client lists to the account that uses it.

**Codecs and exact arithmetic**: `Payload` (two encoders and a parser of the authorization payload),
`PendingIntents` (the file between submission and approval), `EthereumAmount` (decimal to wei), `Caip`
(chain, account and asset identifiers), with `Wire`, `Text` and `Decimal` below them.

`KeypunkLaws`, `SignerLaws`, `IpcLaws`, `AccountLaws` and `SegmentLaws` say what these specifications mean in
terms of the libraries, files and bytes alone.

Where the source changes state, the model is a method or a class, proved equal to a function that specifies
it; what is promised is proved of those functions, over all inputs and all runs.

## Assumptions

- `Keypunk.Lawful`: hashes have 32 bytes, recovery phrases at least twelve words of at least three letters,
  and decrypting a stored phrase returns it or fails. `Keypunk.Authentic`: a tag that opens was sealed
  earlier by the daemon itself. `Keypunk.CollisionFree`: no two different messages of the run have the same
  hash. All three speak of one run, and are used only where they are named. `Keypunk.PrefixFree`, used only by
  the theorems that name it: no artifact that parses is a proper beginning of another, as with a decoder that
  takes all of its input and whose encodings carry their length.
- `Ipc.Lawful`: both sides of a key exchange get the same key, keys and tags have 32 bytes, and a string
  comes back from its UTF-8 bytes.
- `SyncRuns.Complete`: the server answers a range with all its blocks or with an error
  (`SyncRuns.AllOrNothing`: or with no blocks). The tip of the wallet library never moves back but by a
  rewind; a failing update may or may not have moved it.
- Shift and mask operations of the browser are modelled on 32-bit signed integers; 32-bit lengths are written
  out modulo 2^32; block heights stay below 2^32 - 20, where the sums of the chunk loop do not overflow.

## Where the source differs from what one might expect

- `Signer.ScannedAuthorizationIsForwarded`: the app hands a scanned authorization request on to the key daemon
  whatever its status; `Signer.ApprovalsNeedPreviews` counts these.
- `Signer.EarlierPreviewIsSigned`: what is signed need not be what is on display; `Signer.SignsDisplayedIff`
  says when it is.
- `SyncGaps.SyncCoversIff`, `SyncGaps.NeverGapIff`, `SyncGaps.NewAccountScannedIff`,
  `SyncAccounts.AccountScannedIff`: exactly when heights stay out, with an input for each;
  `SyncGaps.NeverRevisited`: no later synchronisation returns to them.
- `Keypunk.SignerIsParserIff`: exactly when the protocol that signs is the one whose summary was checked.
- `Accounts.OtherSignerIff`: exactly when a second signer gives a new account the key of another seed.
- `SyncRuns.ScannedOnceIff`: exactly when heights are scanned twice.
- `Accounts.IndexFromDefaultPath`: the index parsed from an Ethereum path is always zero.
- `EthereumAmount.AcceptedIff`, `EthereumAmount.SignedFraction`: amounts that are accepted without being
  decimal numerals. `EthereumAmount.PanicsIff`: strings on which the parser panics.

## Model

| member | source | states |
|---|---|---|
| `GaloisField.MulAssoc` | bridge/src/jsqr.js:146-151 | Field multiplication, defined without tables as a carry-less product modulo 0x11D, is associative |
| `GaloisField.MulComm` | bridge/src/jsqr.js:146-151 | It is commutative |
| `GaloisField.MulAdd` | bridge/src/jsqr.js:121-123 | It distributes over xor on both sides |
| `GaloisField.ExpAdd` | bridge/src/jsqr.js:126-145 | Powers of x multiply by adding exponents |
| `GaloisField.OrderIs255` | bridge/src/jsqr.js:126-145 | x has multiplicative order exactly 255: no smaller positive power is 1 |
| `GaloisField.Log` | bridge/src/jsqr.js:169-174 | Every nonzero element is a power of x with an exponent below 255 |
| `GaloisField.LogExp` | bridge/src/jsqr.js:133-145 | Logarithm and power are inverse to each other on 0 to 254 |
| `GaloisField.ExpMod` | bridge/src/jsqr.js:146-151 | Powers depend on the exponent modulo 255 only, which is what reducing the sum of logarithms relies on |
| `GaloisField.MulInverse` | bridge/src/jsqr.js:152-157 | The power 255 - log(a) is the inverse of a |
| `TableField.GenericGF.PowersOfX` | bridge/src/jsqr.js:126-140 | The table-filling loop stores x^k at k, for every k below 256 |
| `TableField.GenericGF.Logarithms` | bridge/src/jsqr.js:141-143 | The second loop stores at every power of x its exponent |
| `TableField.GenericGF.constructor` | bridge/src/jsqr.js:126-145 | The constructor leaves exact power and logarithm tables |
| `TableField.GenericGF.Multiply` | bridge/src/jsqr.js:146-151 | The table product is the field product for all operands, zero included |
| `TableField.GenericGF.InverseOf` | bridge/src/jsqr.js:152-157 | The table lookup returns the inverse of every nonzero element |
| `TableField.GenericGF.LogarithmOf` | bridge/src/jsqr.js:169-174 | The lookup is the discrete logarithm |
| `TableField.GenericGF.PowerOf` | bridge/src/jsqr.js:175-177 | The lookup is the power of x |
| `PolyOps.Normalise` | bridge/src/jsqr.js:192-217 | Stripping leading zeros keeps every coefficient and leaves a normal form |
| `PolyOps.AddOrSubtract` | bridge/src/jsqr.js:227-249 | The sum has the sums of the coefficients, whichever operand is longer or zero |
| `PolyOps.MultiplyScalar` | bridge/src/jsqr.js:250-263 | Every coefficient is multiplied by the scalar, in all three branches |
| `PolyOps.MultiplyPoly` | bridge/src/jsqr.js:264-280 | The double loop computes the convolution of the coefficients |
| `PolyOps.TimesMonomial` | bridge/src/jsqr.js:281-294 | The product with a monomial shifts and scales the coefficients |
| `PolyOps.BuildMonomial` | bridge/src/jsqr.js:158-168 | The monomial has one coefficient, and is the zero polynomial for coefficient 0 |
| `PolyOps.EvaluateAt` | bridge/src/jsqr.js:295-313 | All three branches compute the value at a |
| `PolynomialRoots.EvalIsPowerSum` | bridge/src/jsqr.js:295-313 | The value by Horner's rule is the sum of coefficient times power over all terms |
| `PolynomialRoots.EvalSame` | bridge/src/jsqr.js:192-217 | Polynomials with the same coefficients have the same value everywhere, so normalisation preserves it |
| `PolynomialRoots.EvalPlus` | bridge/src/jsqr.js:227-249 | Evaluation is additive |
| `PolynomialRoots.EvalScale` | bridge/src/jsqr.js:250-263 | Evaluation commutes with scaling |
| `PolynomialRoots.EvalProd` | bridge/src/jsqr.js:264-280 | Evaluation is multiplicative on products |
| `Polynomials.ConvComm` | bridge/src/jsqr.js:264-280 | Multiplication of polynomials of any length is commutative |
| `Polynomials.ConvAssoc` | bridge/src/jsqr.js:264-280 | It is associative |
| `Polynomials.ConvAddLeft` | bridge/src/jsqr.js:264-280 | It distributes over addition |
| `Polynomials.ConvScaleLeft` | bridge/src/jsqr.js:250-280 | It commutes with scaling |
| `PolynomialRoots.ConvDegree` | bridge/src/jsqr.js:264-280 | Degrees add up, and the leading coefficient of a product is the product of the leading ones |
| `PolynomialRoots.TooManyRoots` | bridge/src/jsqr.js:8199-8217 | A polynomial with more distinct roots than its degree is zero |
| `KeyEquation.KeyEquationHolds` | bridge/src/jsqr.js:8156-8198 | For every error list, locator times syndrome series agrees with the evaluator up to any order |
| `KeyEquation.EvaluatorValue` | bridge/src/jsqr.js:8218-8236 | At the inverse of a locator the evaluator is the magnitude times the product over the other locators |
| `KeyEquation.OthersNonzero` | bridge/src/jsqr.js:8224-8230 | The denominator of Forney's formula is not zero for distinct nonzero locators |
| `ErrorLocation.VanishingSyndromes` | bridge/src/jsqr.js:8242-8253 | At most m errors with m vanishing syndromes are no errors |
| `ErrorLocation.EuclidFindsLocator` | bridge/src/jsqr.js:8156-8198 | For at most R/2 errors the row at which the algorithm stops is, up to a constant, their locator: right degree, nonzero constant term, all roots, and a remainder of smaller degree |
| `ErrorLocation.LocatorByRoots` | bridge/src/jsqr.js:8199-8217 | A polynomial with the locator's degree bound, roots and constant term is the locator |
| `ErrorLocation.ForneySound` | bridge/src/jsqr.js:8199-8236 | With all roots found and deg omega < deg sigma, Forney's magnitudes at the found locators have exactly the given syndromes |
| `ErrorLocation.ForneyComplete` | bridge/src/jsqr.js:8199-8236 | If any magnitudes explain the syndromes then deg omega < deg sigma |
| `ErrorLocation.ForneyExact` | bridge/src/jsqr.js:8199-8236 | With all roots found, the computed magnitudes explain the syndromes if and only if deg omega < deg sigma |
| `Codewords.MinimumDistance` | bridge/src/jsqr.js:8237-8253 | Two codewords with m check symbols and at most 255 symbols that differ in at most m places are equal |
| `Codewords.UniqueCorrection` | bridge/src/jsqr.js:8237-8272 | At most one codeword lies within half the check length of a word |
| `Codewords.DataDetermineCodeword` | bridge/src/jsqr.js:782-786 | The data symbols determine the codeword |
| `Codewords.CodewordsAreMultiples` | bridge/src/jsqr.js:8244-8250 | A word has vanishing syndromes if and only if it is a multiple of the generator polynomial of Annex A of ISO/IEC 18004:2015 |
| `Codewords.CheckSymbols` | bridge/src/jsqr.js:782-786 | Every sequence of data symbols has check symbols that complete it to a codeword, for every number of them |
| `ReedSolomon.Divide` | bridge/src/jsqr.js:8173-8186 | The inner loop is polynomial division: it ends, with a remainder of smaller degree than the divisor and a quotient of exactly the difference of the degrees |
| `ReedSolomon.NextRows` | bridge/src/jsqr.js:8167-8191 | Every outer iteration keeps r congruent to t times the syndromes modulo x^R and deg t + deg rLast = R |
| `ReedSolomon.RunEuclideanAlgorithm` | bridge/src/jsqr.js:8156-8198 | At exit sigma(0) = 1, deg sigma <= R/2, deg omega < R/2 and the key equation holds; the two early null returns are unreachable for R >= 1, and it fails if and only if the constant term of t is zero |
| `ReedSolomon.ScaledSolution` | bridge/src/jsqr.js:8192-8197 | Dividing by the constant term gives sigma(0) = 1 and again a solution of the key equation |
| `ReedSolomon.FewCorrections` | bridge/src/jsqr.js:8166-8197 | At exit twice the degree of t is at most R, so no more than R/2 symbols are ever corrected |
| `ReedSolomon.FindErrorLocations` | bridge/src/jsqr.js:8199-8217 | Returns the inverses of all roots of sigma, including the shortcut for degree one, and fails only if sigma has fewer distinct nonzero roots than its degree |
| `ReedSolomon.FindErrorMagnitudes` | bridge/src/jsqr.js:8218-8236 | The nested loops compute Forney's quotient at every location |
| `ReedSolomon.Syndromes` | bridge/src/jsqr.js:8241-8250 | The loop fills in all syndromes, highest first, and raises the flag if and only if the word is not a codeword |
| `ReedSolomon.NearRows` | bridge/src/jsqr.js:8254-8258 | Near a codeword the Euclidean algorithm does not fail and its result is the locator of the errors |
| `ReedSolomon.NearPositions` | bridge/src/jsqr.js:8264-8268 | Near a codeword every computed position lies inside the word |
| `ReedSolomon.ApplyCorrections` | bridge/src/jsqr.js:8264-8270 | Fails exactly when a location lies outside the word; otherwise adds each magnitude at its position and changes nothing else |
| `ReedSolomon.CorrectedIsCodeword` | bridge/src/jsqr.js:8263-8271 | The corrected word is a codeword if and only if the found errors explain the syndromes |
| `ReedSolomon.CorrectedEqualsNear` | bridge/src/jsqr.js:8263-8271 | With all roots found and deg omega < deg sigma the corrected word is the codeword nearby |
| `ReedSolomon.Correct` | bridge/src/jsqr.js:8254-8271 | Every word within half the check length of a codeword becomes that codeword; a result never differs from the word in more places than that; low-degree syndromes return the word as it is |
| `ReedSolomon.Decode` | bridge/src/jsqr.js:8237-8272 | Bounded-distance decoding: the codeword within floor(twoS/2) errors is returned, whichever it is; and for at most 255 symbols the result is a codeword if and only if there is one that near. A word with nonzero syndromes of low degree comes back unchanged |
| `ReedSolomon.LowSyndromesNoCodeword` | bridge/src/jsqr.js:8254-8272 | Such a word: with two check symbols the word 1, 2 has only its first syndrome different from zero, is no codeword, and so is returned unchanged |
| `DataBlocks.MakeBlocks` | bridge/src/jsqr.js:721-729 | One empty block per entry of the layout, with its data size, and the total length |
| `DataBlocks.GetDataBlocks` | bridge/src/jsqr.js:720-761 | Fails exactly when there are too few codewords; otherwise the queue never runs dry, is emptied, and block b receives the codewords at its places, data and check |
| `DataBlocks.InterleavedEntry` | bridge/src/jsqr.js:737-759 | Every entry of every block stands at its place in the interleaving of section 7.6 of ISO/IEC 18004:2015 |
| `DataBlocks.GatherInterleaved` | bridge/src/jsqr.js:737-759 | Deinterleaving the interleaved blocks, with anything after them, returns each block |
| `DataBlocks.CorrectBlocks` | bridge/src/jsqr.js:775-789 | The loop over the blocks collects the data parts in order, and fails only if some block has no codeword near it |
| `DataBlocks.RecoverData` | bridge/src/jsqr.js:771-789 | If every block is within half its check length of the block sent, the bytes collected are the data sent |
| `DataBlocks.FewBadCodewords` | bridge/src/jsqr.js:720-789 | At most floor(ec/2) bad codewords in each block, counted on the received symbol, are enough for that |
| `BitMatrices.BitMatrix.CreateEmpty` | bridge/src/jsqr.js:89-91 | An empty matrix has no dark module |
| `BitMatrices.BitMatrix.Set` | bridge/src/jsqr.js:98-100 | Changes one module and no other |
| `BitMatrices.BitMatrix.SetRegion` | bridge/src/jsqr.js:101-107 | Changes exactly the modules of the rectangle |
| `BitMatrices.AddAlignmentPatterns` | bridge/src/jsqr.js:578-587 | Adds the 5 by 5 patterns around all pairs of centers but the three on finder patterns |
| `BitMatrices.BuildFunctionPatternMask` | bridge/src/jsqr.js:572-595 | The mask covers exactly the function modules of the version |
| `CodewordReader.EveryDataModuleOnce` | bridge/src/jsqr.js:605-629 | In every version the zigzag passes every non-function module exactly once and nothing else; skipping column 6 loses none |
| `CodewordReader.ReadColumnPair` | bridge/src/jsqr.js:609-627 | One pair of columns: its modules in walk order, unmasked and packed |
| `CodewordReader.ReadCodewords` | bridge/src/jsqr.js:596-631 | The codewords are the unmasked bits of the data modules in walk order, eight to a byte, the rest dropped |
| `CodewordReader.PlacedBitsAreReadBack` | bridge/src/jsqr.js:596-631 | Bits placed along the walk under any of the eight masks are read back in order |
| `FunctionModules.FunctionModuleIff` | bridge/src/jsqr.js:572-595 | A module is masked if and only if it is within 4 of a finder center, within 2 of an alignment center not beside a finder, in row or column 6, or one of the places of the format and version words (or the module that is always dark) |
| `FunctionModules.DataModuleCount` | bridge/src/jsqr.js:572-631 | For every version v with k standard alignment coordinates, (16v+128)v+64 modules are read, less (25k-10)k-55 from version 2 on, less 36 from version 7 on |
| `FunctionModules.FullWalkAt` | bridge/src/jsqr.js:605-629 | The module at each place of the walk in closed form: column pairs from the right, upwards in every other, the right module of each row first, column 6 left out |
| `FunctionModules.MaskConditions` | bridge/src/jsqr.js:562-571 | The eight masks in other words, by remainders of the coordinates and of their product |
| `FunctionModules.PackedByte` | bridge/src/jsqr.js:615-624 | The first of eight bits is the highest of a codeword |
| `FunctionModules.FormatBitPlaces` | bridge/src/jsqr.js:675-694 | Where each bit of the format word stands, counted from the lowest |
| `FunctionModules.VersionBitPlaces` | bridge/src/jsqr.js:638-649 | Where each bit of the version word stands, and that the copies mirror each other |
| `BitStreams.BitStream.ReadBits` | bridge/src/jsqr.js:1055-1090 | Fails exactly outside 1 to 32 bits or beyond the end; otherwise returns the next bits as a 32-bit signed integer and moves on by exactly that many |
| `BitStreams.FieldRepresented` | bridge/src/jsqr.js:1055-1090 | Up to 31 bits that integer is the value of the bits |
| `BitStreams.FullWordExact` | bridge/src/jsqr.js:1055-1090 | For 32 bits it is the value of the bits if and only if the first of them is clear |
| `BitStreams.FieldSplit` | bridge/src/jsqr.js:1060-1088 | A field is its first part shifted plus its second, wherever it is cut |
| `BitStreams.BitStream.Available` | bridge/src/jsqr.js:1091-1093 | The number of bits left |
| `Segments.DecodeNumeric` | bridge/src/jsqr.js:849-887 | Decodes groups of three, two and one digits; values out of range and short streams fail |
| `Segments.DecodeAlphanumeric` | bridge/src/jsqr.js:895-914 | Decodes pairs and a last single character |
| `Segments.DecodeByte` | bridge/src/jsqr.js:915-931 | Returns the bytes |
| `Segments.DecodeKanji` | bridge/src/jsqr.js:932-950 | Returns the unpacked Shift JIS codes and their bytes |
| `Segments.DecodeEci` | bridge/src/jsqr.js:967-993 | Reads the three lengths of designators, or -1 for the fourth prefix |
| `Segments.DecodeBody` | bridge/src/jsqr.js:962-1032 | Dispatches on the mode and passes over unknown modes |
| `Segments.DecodeData` | bridge/src/jsqr.js:951-1037 | Equals the specification of whole messages: segments up to a terminator or to fewer than four bits, which must be clear |
| `SegmentEncoding.ParseDigitsInverts` | bridge/src/jsqr.js:849-887 | Numeric decoding inverts the encoding of section 7.4.3 of ISO/IEC 18004:2015 for every string of digits |
| `SegmentEncoding.ParsePairsInverts` | bridge/src/jsqr.js:895-914 | Alphanumeric decoding inverts the encoding of section 7.4.4 for every string over its 45 characters |
| `SegmentEncoding.ParseBytesInverts` | bridge/src/jsqr.js:915-931 | Byte decoding inverts its encoding |
| `SegmentEncoding.KanjiRoundTrip` | bridge/src/jsqr.js:937-946 | The 13-bit packing of both Shift JIS ranges is undone |
| `SegmentEncoding.ParseKanjiInverts` | bridge/src/jsqr.js:932-950 | Kanji decoding inverts its encoding for every list of codes |
| `SegmentEncoding.EciInverts` | bridge/src/jsqr.js:967-993 | Designators up to 2^21 - 1 are read back |
| `SegmentEncoding.DecodingInvertsEncoding` | bridge/src/jsqr.js:951-1037 | Every encoded list of segments is decoded to that list, at any offset |
| `SegmentLaws.NumericExample` | bridge/src/jsqr.js:849-887 | The digits 01234567 are the bits of the example in section 7.4.3 of ISO/IEC 18004:2015 |
| `SegmentLaws.KanjiExample` | bridge/src/jsqr.js:932-950 | The codes 935F and E4AA are the bits of the example in section 7.4.6 |
| `SegmentLaws.ByteExample` | bridge/src/jsqr.js:915-931 | A byte segment bit by bit |
| `SegmentLaws.EciExample` | bridge/src/jsqr.js:967-993 | A designator bit by bit |
| `SegmentLaws.DigitValues` | bridge/src/jsqr.js:888-894 | The values 0 to 9 of the alphanumeric table |
| `SegmentLaws.EarlyLetterValues` | bridge/src/jsqr.js:888-894 | The values 10 to 22 of the alphanumeric table |
| `SegmentLaws.LateLetterValues` | bridge/src/jsqr.js:888-894 | The values 23 to 35 of the alphanumeric table |
| `SegmentLaws.OtherValues` | bridge/src/jsqr.js:888-894 | The values 36 to 44 of the alphanumeric table |
| `SegmentLaws.Sizes` | bridge/src/jsqr.js:951-961 | The widths change after versions 9 and 26 |
| `SegmentLaws.NumericWidth` | bridge/src/jsqr.js:849-852 | The length of a numeric segment has 10, 12 or 14 bits |
| `SegmentLaws.AlphanumericWidth` | bridge/src/jsqr.js:895-898 | The length of an alphanumeric segment has 9, 11 or 13 bits |
| `SegmentLaws.ByteWidth` | bridge/src/jsqr.js:915-918 | The length of a byte segment has 8 or 16 bits |
| `SegmentLaws.KanjiWidth` | bridge/src/jsqr.js:932-935 | The length of a kanji segment has 8, 10 or 12 bits |
| `BitWords.ClearLowest` | bridge/src/jsqr.js:515-523 | z & (z - 1) clears one set bit and no other |
| `BitWords.NumBitsDiffering` | bridge/src/jsqr.js:515-523 | The loop counts the bits set in x ^ y |
| `BitWords.OnesOfXor` | bridge/src/jsqr.js:515-523 | For the values of two words of one length these are the places at which they differ |
| `SymbolInformation.FormatTable` | bridge/src/jsqr.js:528-561 | Every table entry is the word of the masked linear code of Annex C of ISO/IEC 18004:2015 for its level and mask |
| `SymbolInformation.VersionTable` | bridge/src/jsqr.js:8429-9554 | Every information word of versions 7 to 40 is the word of its number in the code of Annex D |
| `SymbolInformation.FormatWordsFar` | bridge/src/jsqr.js:713-717 | Any two of the 32 format words differ in at least 7 bits |
| `SymbolInformation.VersionWordsFar` | bridge/src/jsqr.js:668-672 | Any two version words, that of no version included, differ in at least 8 bits |
| `SymbolInformation.ReadFormatCopies` | bridge/src/jsqr.js:675-694 | The loops read the two copies of the format word at their places |
| `SymbolInformation.ReadVersionCopies` | bridge/src/jsqr.js:638-649 | The loops read the two copies of the version word |
| `SymbolInformation.NearestFormat` | bridge/src/jsqr.js:695-718 | The search returns a word within 3 bits that is nearest to either copy, or nothing if there is none |
| `SymbolInformation.NearestVersion` | bridge/src/jsqr.js:650-672 | The same for versions, where a missing word counts as zero and is never an exact match |
| `SymbolInformation.ReadFormatInformation` | bridge/src/jsqr.js:674-719 | Together: the nearest format to what stands in the symbol |
| `SymbolInformation.ReadVersion` | bridge/src/jsqr.js:632-673 | The version by size up to 6, by the nearest word beyond |
| `SymbolInformation.FormatRecovered` | bridge/src/jsqr.js:674-719 | With at most three wrong bits in each copy the format found is the one written |
| `SymbolInformation.VersionRecovered` | bridge/src/jsqr.js:632-673 | The same for the version |
| `SymbolDecoder.EncodedIsRecoverable` | bridge/src/jsqr.js:762-796 | A message cut into blocks with check codewords survives interleaving and up to floor(ec/2) errors in each block |
| `SymbolDecoder.DrawnCodewords` | bridge/src/jsqr.js:596-631 | The modules drawn for any bits read back as the codewords of those bits |
| `SymbolDecoder.DecodeCodewords` | bridge/src/jsqr.js:771-795 | For a known version, layout and mask: whatever message was encoded, if no block has more than floor(ec/2) bad codewords, exactly that message comes out |
| `SymbolDecoder.DecodeMatrix` | bridge/src/jsqr.js:762-796 | End to end: a symbol whose version and format copies have at most three wrong bits each, and whose blocks have at most floor(ec/2) bad codewords each, is decoded to exactly the message it was drawn for |
| `SymbolDecoder.Mirror` | bridge/src/jsqr.js:806-813 | The double loop leaves exactly the mirror image |
| `SymbolDecoder.Decode` | bridge/src/jsqr.js:797-815 | A message that the symbol shows is the result of the first attempt; if that gives nothing the symbol is mirrored, and a message that its mirror image shows is the result |
| `MessageEncoding.PackedHolds` | bridge/src/jsqr.js:1055-1090 | Bits packed into bytes and padded with zeros are read back, with a terminator after them |
| `MessageEncoding.EncodedIff` | bridge/src/jsqr.js:720-795 | A message has an encoding, to which the decoding theorems apply, if and only if its segments can be written, its bits are within the data codewords, and no block has more than 255 symbols |
| `Keypunk.Keypunk.TryParseArtifact` | keypunkd/src/keypunk.rs:243-252 | The loop returns the summary of the first registered protocol, in the fixed order, that parses the artifact |
| `Keypunk.Keypunk.SignArtifact` | keypunkd/src/usecases.rs:180-196 | The loop returns the result of the first protocol that signs |
| `Keypunk.Keypunk.BulkExportViewingKeys` | keypunkd/src/usecases.rs:153-165 | Returns the keys of all paths in order, or the first error |
| `Keypunk.Keypunk.PreviewArtifact` | keypunkd/src/keypunk.rs:96-126 | The tag seals, under the key shared with the sender, the hash of artifact, summary and path run together |
| `Keypunk.Keypunk.AuthorizeArtifact` | keypunkd/src/keypunk.rs:128-241 | Equals its specification: open, parse, check the tag unless no protocol parses, unlock, sign, with each error in its order |
| `Keypunk.Keypunk.WriteStore` | keypunkd/src/usecases.rs:33-40 | Both blobs are written, or only the seed when the second write fails, or none |
| `Keypunk.Keypunk.HandleRequest` | keypunkd/src/keypunk.rs:350-414 | Every request takes the store and gives the response that the specification of the step says |
| `Keypunk.LongMnemonicKept` | keypunkd/src/usecases.rs:17-81 | In every run the stored mnemonic never decrypts to anything as short as a hash |
| `Keypunk.ShortSealingIsTag` | keypunkd/src/keypunk.rs:56-126 | Of all ciphertexts the daemon hands out only the tag of a preview is as short as a hash |
| `Keypunk.SignableIsParsable` | protocols/ethereum/src/signer.rs:30-106 | What some protocol signs, some protocol parses, unless it decodes it and cannot write the summary: signer and parser share a decoder |
| `Keypunk.TagCommits` | keypunkd/src/keypunk.rs:112-119 | The tag of an answered preview commits to what that request hashed |
| `Keypunk.SignedWasPreviewed` | keypunkd/src/keypunk.rs:96-252 | Over every run of requests: bytes that are signed have the artifact, summary and path, run together, of an earlier preview for a sender with the same shared key, although the check is skipped when parsing fails |
| `Keypunk.SameLengthSameArtifact` | keypunkd/src/keypunk.rs:111-115 | If previewed and signed artifact have the same length they are the same bytes, and with summaries of one length the paths are the same too |
| `Keypunk.MessageFixesArtifact` | keypunkd/src/keypunk.rs:111-115 | Where no artifact that parses begins another, the hashed bytes determine the artifact, whatever its length |
| `Keypunk.MessageOrdersArtifacts` | keypunkd/src/keypunk.rs:111-115 | Of two artifacts with the same hashed bytes one begins the other, and if they are equal so are summary and path run together |
| `Keypunk.SignedOrdersPreviewed` | keypunkd/src/keypunk.rs:96-252 | Over every run of requests: signed bytes begin those of an earlier preview for the same key or begin with them, so they are those exactly when the lengths agree; then summary and path agree too, with one protocol apart |
| `Keypunk.SignedArtifactWasPreviewed` | keypunkd/src/keypunk.rs:96-252 | Where no artifact begins another, they are byte for byte those of an earlier preview |
| `Keypunk.SignerIsParserIff` | keypunkd/src/keypunk.rs:243-252 | The summary that is checked is of the protocol that signs if and only if the first protocol that parses the artifact can sign it |
| `Keypunk.OtherProtocolSigns` | keypunkd/src/usecases.rs:180-196 | Otherwise: the first protocol parses and cannot sign, the second signs, and what was checked is the summary of the first |
| `Keypunk.PreviewThenAuthorize` | keypunkd/src/keypunk.rs:96-241 | A previewed artifact with its own tag passes the check exactly when the first protocol that parses it gives the previewed summary; then it is signed as if unchecked |
| `Keypunk.OnlySeedRequestsWrite` | keypunkd/src/keypunk.rs:350-414 | Only GenerateSeed and RestoreSeed change the seed store |
| `KeypunkLaws.AuthorizedIff` | keypunkd/src/keypunk.rs:128-241 | Over every run: signed bytes are answered if and only if the payload opens to the encoding of fields, the tag opens under the sender's key to the hash of artifact, first summary and path (or nothing parses), the stored seed decrypts under the password, and the first protocol that signs the decoded artifact with that seed at the path of the request gives those bytes |
| `KeypunkLaws.PreviewedIff` | keypunkd/src/keypunk.rs:96-126 | A preview is answered if and only if the protocol asked for summarizes the artifact, with the tag for this sender over artifact, summary and path |
| `KeypunkLaws.OneSenderPerKey` | keypunkd/src/keypunk.rs:116-118 | Where different peers share different keys, a tag's key belongs to one sender, and no sender counts as 32 zero bytes |
| `KeypunkLaws.BulkIff` | keypunkd/src/usecases.rs:153-165 | Bulk export succeeds with keys if and only if they are the viewing keys of the paths, one for each, in order |
| `KeypunkLaws.ExportedIff` | keypunkd/src/usecases.rs:84-151 | A viewing key is answered if and only if the password unlocks a seed whose key it is |
| `KeypunkLaws.VerifiedIff` | keypunkd/src/usecases.rs:84-106 | A password is confirmed if and only if it unlocks a seed |
| `KeypunkLaws.RestoredIsHeld` | keypunkd/src/usecases.rs:47-82 | After a restore the store holds the seed of the phrase sent, under the password sent |
| `KeypunkLaws.GeneratedIsHeld` | keypunkd/src/usecases.rs:17-45 | After a generation the store holds the seed whose phrase was answered |
| `KeypunkLaws.FailedWriteIs` | keypunkd/src/usecases.rs:33-40 | A failed request leaves the store as it was, except that a refused phrase leaves the new seed beside the old phrase |
| `KeypunkLaws.SeedStoredAlone` | keypunkd/src/usecases.rs:33-40 | And then it does |
| `KeypunkLaws.HeldIsUsed` | keypunkd/src/usecases.rs:84-165 | The keys and the phrase answered later under the same password are those of the seed held |
| `Signer.SignerState.HandleRequest` | signer/src-tauri/src/signer.rs:157-288 | Status, session and answer after a scanned request, in every branch |
| `Signer.SignerState.CompleteRegistration` | signer/src-tauri/src/signer.rs:290-336 | Succeeds exactly for a pending registration with all keys exported and the session key saved; a failure keeps the pending data |
| `Signer.SignerState.ApproveAndSign` | signer/src-tauri/src/signer.rs:342-381 | Succeeds exactly when a preview is pending and the key daemon signs; Signing is passed through |
| `Signer.SignerState.GenerateSeed` | signer/src-tauri/src/signer.rs:115-134 | Hands the request on and returns the encrypted mnemonic or the error |
| `Signer.SignerState.RestoreSeed` | signer/src-tauri/src/signer.rs:136-155 | Hands the request on |
| `Signer.SignerState.DeleteSeed` | signer/src-tauri/src/signer.rs:387-411 | Which files are gone after each failure, and that only a complete deletion clears the session and the status |
| `Signer.OnlyPreviewsPreview` | signer/src-tauri/src/signer.rs:241-262 | Only a preview request is answered with a preview, of its own artifact |
| `Signer.ChallengeVerifies` | paypunkd/src/usecases.rs:353-360 | The signed challenge of a registration opens on the other side to the hash of the challenge |
| `Signer.SignedOnlyFromPreview` | signer/src-tauri/src/signer.rs:342-381 | Signed is entered only by approving a pending preview; registration changes the status only from pending to idle |
| `Signer.ActionUsesPreview` | signer/src-tauri/src/signer.rs:157-411 | One action: an authorization is attempted exactly for an approval or a scanned request, and an approval uses up a preview shown |
| `Signer.ApprovalsNeedPreviews` | signer/src-tauri/src/signer.rs:157-411 | In every run from any seed store the authorizations that reach the key daemon are exactly the approvals and the requests scanned and handed on; approvals, and the preview that waits, are at most the previews shown; Signing is never a resting status |
| `Signer.ScannedAuthorizationIsForwarded` | signer/src-tauri/src/signer.rs:227-241 | The second summand is needed: a scanned authorization request reaches the key daemon with no preview at all |
| `Signer.StoreFollows` | signer/src-tauri/src/signer.rs:58-411 | The app's store is that of the key daemon, from the store found at the launch, after the requests that reached it and the files deleted |
| `Signer.SignedWasShown` | signer/src-tauri/src/signer.rs:157-381 | In every run from any seed store a signed artifact was previewed for the app before, by the theorem on the key daemon |
| `Signer.SignedOrdersShown` | signer/src-tauri/src/signer.rs:157-381 | In every run the signed artifact begins bytes that were previewed for the app, or begins with them |
| `Signer.SignedArtifactWasShown` | signer/src-tauri/src/signer.rs:157-381 | Where no artifact begins another, it was previewed byte for byte |
| `Signer.DisplayedIsTagged` | signer/src-tauri/src/signer.rs:241-288 | In every run what is on display parses to the summary displayed, which is readable, and carries a tag that seals the hash of exactly what is displayed |
| `Signer.SignsDisplayedIff` | signer/src-tauri/src/signer.rs:342-381 | A signed approval signs the artifact on display, with its summary and path run together, if and only if the tag in its payload opens to what the tag on display opens to and the artifacts have one length |
| `Signer.SignsDisplayedByTag` | signer/src-tauri/src/signer.rs:342-381 | Where no artifact begins another, if and only if the tags open to the same |
| `Signer.EarlierPreviewIsSigned` | signer/src-tauri/src/signer.rs:342-381 | Otherwise it does not: of two previews the second is on display, and the payload of the first is signed |
| `SignerLaws.RegisteredKeysIff` | signer/src-tauri/src/signer.rs:290-340 | The keys handed out are the viewing keys of the pending paths, one for each and in order, under the seed that the password unlocks |
| `SignerLaws.ScannedRegistration` | signer/src-tauri/src/signer.rs:157-340 | After a registration request is scanned: the keys are those of its paths, and the signed challenge opens at the payment daemon to the hash of its challenge |
| `SignerLaws.GeneratedIsRegistered` | signer/src-tauri/src/signer.rs:115-134 | A later registration hands out the keys of the seed that the app generated |
| `SignerLaws.RestoredIsRegistered` | signer/src-tauri/src/signer.rs:136-155 | Or restored |
| `SignerLaws.DeletedIs` | signer/src-tauri/src/signer.rs:387-411 | After a deletion neither file, session nor pending request is left; exactly what is kept when a file refuses |
| `SignerLaws.SessionIs` | signer/src-tauri/src/signer.rs:290-336 | A session key is made by the first registration that gets its keys and goes only with a deletion |
| `SignerLaws.ChallengeIsAnswered` | signer/src-tauri/src/signer.rs:195-224 | A scanned challenge is answered with its hash sealed under the session key, and changes nothing |
| `ChainSync.WalletDbActor.GetMinBirthday` | protocols/zcash/src/wallet_actor.rs:701-709 | The smallest birthday of the accounts, 0 without accounts |
| `ChainSync.WalletDbActor.WithBlocks` | protocols/zcash/src/wallet_actor.rs:492-527 | The loop hands on the blocks from a height, in order, up to the limit |
| `ChainSync.WalletDbActor.ApplyScan` | protocols/zcash/src/wallet_actor.rs:711-751 | Scan, then tip update: what is committed and reported after each failure, and that the flag stays up when the update of the tip fails |
| `ChainSync.WalletDbActor.RegisterAccount` | protocols/zcash/src/wallet_actor.rs:343-460 | Resolves the birthday, imports; rewinds where the import fails; lists the account where it is found |
| `ChainSync.ScanActor.SyncBlocksInChunks` | protocols/zcash/src/scan_actor.rs:145-182 | The chunk loop ends, and equals the chunk-by-chunk specification with its failures |
| `ChainSync.ScanActor.RunSync` | protocols/zcash/src/scan_actor.rs:63-106 | Where a synchronisation starts, when there is nothing to do, and the errors of the server and of the query for the tip passed on |
| `SyncAccounts.SmallestBirthday` | protocols/zcash/src/wallet_actor.rs:701-709 | The birthday a first synchronisation goes by is one of those listed and none is smaller |
| `SyncAccounts.SyncBeginsIff` | protocols/zcash/src/scan_actor.rs:63-106 | A synchronisation begins above the tip, or before it is set at height 2 or a listed birthday and above none of them; and exactly when it does not begin |
| `SyncAccounts.SyncScansWhatItPasses` | protocols/zcash/src/scan_actor.rs:63-106 | In every run a synchronisation that moves the tip past a height scans it, from 2 and from any listed birthday on |
| `SyncAccounts.ListedUntilRestart` | protocols/zcash/src/wallet_actor.rs:343-460 | A registered account is listed until a restart |
| `SyncAccounts.SelectedAre` | protocols/zcash/src/wallet_actor.rs:492-527 | The scanner gets exactly the blocks at or above the height, in order |
| `ChainSync.ScanActor.HandleSync` | protocols/zcash/src/scan_actor.rs:206-228 | A handler that is let in lowers the flag again whatever happens; one that finds it raised changes nothing |
| `ChainSync.ScanActor.HandleSyncNewAccount` | protocols/zcash/src/scan_actor.rs:230-252 | The same for the first scan of a new account |
| `SyncRuns.ChunkAdds` | protocols/zcash/src/scan_actor.rs:151-180 | With full or empty answers a chunk is passed over, fails, or scans its whole range, with the tip moved or not |
| `SyncRuns.ChunksAdd` | protocols/zcash/src/scan_actor.rs:145-182 | One synchronisation adds the scans of the chunks reached to any wallet and moves its tip to the end of each recorded one, never back |
| `SyncRuns.AddedAreChunks` | protocols/zcash/src/scan_actor.rs:145-182 | These are of 1 to 20 consecutive heights within the range asked for, and only the last can lack its tip |
| `SyncRuns.AddedIntervals` | protocols/zcash/src/scan_actor.rs:145-182 | With complete answers what is scanned and what is recorded are intervals from the first height asked for |
| `SyncRuns.StepCovers` | protocols/zcash/src/scan_actor.rs:63-182 | A synchronisation, registration or restart keeps the recorded heights one interval that ends at the tip, rewinding included |
| `SyncRuns.RecordedIsInterval` | protocols/zcash/src/scan_actor.rs:63-182 | Over every run of synchronisations, registrations and restarts the recorded heights, in order, are exactly one interval ending at the tip, each height once |
| `SyncRuns.IntervalStartsAtBirthday` | protocols/zcash/src/scan_actor.rs:63-140 | Over every run without rewinding, first scans of new accounts included, the interval starts where it was to when the tip was first set (the smallest birthday of the accounts then, at least 2, or the birthday of the new account if that is smaller), and every scan has 1 to 20 heights |
| `SyncRuns.AddedLost` | protocols/zcash/src/wallet_actor.rs:736-742 | A synchronisation adds a scan whose tip is not recorded exactly at the chunks it reaches with that outcome |
| `SyncRuns.RunLost` | protocols/zcash/src/wallet_actor.rs:736-742 | In every run such a scan is there exactly if some synchronisation reached that chunk with that outcome and no later registration rewound below it |
| `SyncRuns.ScannedOnceIff` | protocols/zcash/src/wallet_actor.rs:736-742 | Over every run of synchronisations, registrations and restarts: all heights scanned are, in order and each once, the interval up to the tip, if and only if no chunk was scanned without its tip being recorded, but for those rewound later |
| `SyncRuns.ScannedTwice` | protocols/zcash/src/wallet_actor.rs:736-742 | Such a run: heights 2 to 21 are scanned, the tip is not recorded, and the next synchronisation scans them again |
| `SyncRuns.SyncReachesTip` | protocols/zcash/src/scan_actor.rs:63-106 | Without failures one synchronisation reaches the latest height |
| `SyncGaps.SyncCoversIff` | protocols/zcash/src/scan_actor.rs:157-179 | Where answers may be empty: a synchronisation keeps the recorded heights one interval up to the tip if and only if no chunk answered with no blocks comes before a recorded one |
| `SyncGaps.EmptyAnswerLeavesGap` | protocols/zcash/src/scan_actor.rs:157-179 | Such a synchronisation: the first chunk is passed over and the tip moves past it |
| `SyncGaps.StepSolidIff` | protocols/zcash/src/scan_actor.rs:63-182 | Every message, the first scan of a new account included, leaves no height between the start of the wallet's interval and the tip unrecorded, unless it is a first scan whose first chunk is recorded and whose birthday is beyond the next height, or, before the tip is set, beyond where the accounts listed are to be scanned from; then it does |
| `SyncGaps.NeverGapIff` | protocols/zcash/src/scan_actor.rs:63-182 | Over every run of all messages no height between the start of the wallet's interval and the tip is ever unrecorded if and only if no message is such a first scan |
| `SyncGaps.NewAccountJumps` | protocols/zcash/src/scan_actor.rs:108-139 | Such a scan, with nothing failing: heights 120 to 199 stay out and the next synchronisation starts at 201 |
| `SyncGaps.NewAccountScannedIff` | protocols/zcash/src/scan_actor.rs:108-182 | The first scan of a new account covers every height from its birthday to the tip if and only if the birthday is beyond the old tip, or the server is not behind it and every chunk that starts at or below it is reached and scanned |
| `SyncGaps.NewAccountStopsHalfway` | protocols/zcash/src/scan_actor.rs:108-139 | Otherwise: heights 70 to 99 are not scanned for the new account, and the next synchronisation starts at 120 |
| `SyncGaps.NeverRevisited` | protocols/zcash/src/scan_actor.rs:63-106 | Over every continuation without a rewind or a first scan, all further scans are above the old tip, so what was left out stays out |
| `SyncAccounts.StepScans` | protocols/zcash/src/scan_actor.rs:63-182 | What one message, of any kind, does to the heights scanned since a point: a rewind takes those above it, a synchronisation or first scan adds one interval |
| `SyncAccounts.ScannedSinceIff` | protocols/zcash/src/scan_actor.rs:63-182 | Over every run: a height is among those scanned after a registration if and only if a later message scans it and none after that rewinds below it |
| `SyncAccounts.AccountScannedIff` | protocols/zcash/src/protocol.rs:391-405 | For every account of every run of all messages: all heights from its birthday to the tip are scanned after its registration if and only if a later message scans each height from the birthday on that is left out, either because the tip was there already at the registration or because a message moved the tip past it without asking for it |
| `SyncAccounts.OnlyFirstScansReturn` | protocols/zcash/src/scan_actor.rs:78-106 | Only the first scan of an account ever returns to a height at or below the tip |
| `SyncAccounts.SecondAccountFirst` | protocols/zcash/src/protocol.rs:391-405 | Such a run, with nothing failing: two accounts are registered and the one with the later birthday is scanned first; heights 50 to 99 stay out for the other, and the next synchronisation starts at 101 |
| `Ipc.FramesReadBack` | ipc/src/transport.rs:46-65 | Frames written back to back are read as the same frames if and only if every length is below 2^32 |
| `Ipc.Transport.ReadFrame` | ipc/src/transport.rs:46-55 | Reads the next length-prefixed frame, or ends with the stream |
| `Ipc.Transport.WriteFrame` | ipc/src/transport.rs:58-65 | Appends length and payload |
| `Ipc.Connection.HandleFrame` | ipc/src/receiver.rs:184-258 | The new authentication state and the reply, or closing, for every frame |
| `Ipc.Connection.HandleConnection` | ipc/src/receiver.rs:150-261 | For any bytes that arrive: the loop serves their frames in order, stops where it must, and writes exactly the replies |
| `Ipc.OnlyAuthenticatedDispatched` | ipc/src/receiver.rs:208-237 | What reaches the handler is exactly the authenticated messages among the frames taken: none before a registration, none with a wrong tag, each under the key registered last |
| `Ipc.ConnectionDispatches` | ipc/src/receiver.rs:150-261 | The same for a whole connection over any bytes |
| `Ipc.UnauthenticatedCloses` | ipc/src/receiver.rs:208-224 | An unauthenticated application frame closes the connection without a reply |
| `Ipc.Client.Handshake` | ipc/src/sender.rs:55-103 | Two frames written, two read, and the key derived, or the error of the step that failed |
| `Ipc.Client.Call` | ipc/src/sender.rs:108-148 | One authenticated frame written, one answer read and interpreted |
| `Ipc.CallsAnswered` | ipc/src/receiver.rs:229-249 | A registered server answers call k with the handler's k-th result |
| `Ipc.SessionDelivers` | ipc/src/sender.rs:55-148 | After the handshake both ends hold the same key (section 6.1 of RFC 7748), and the k-th call gets the k-th result, success or error intact |
| `Ipc.SessionOverSockets` | ipc/src/sender.rs:55-148 | The same through the two byte streams, for messages whose frames have lengths below 2^32 |
| `Ipc.AnswersAreCausal` | ipc/src/receiver.rs:165-259 | The replies to a list of frames are a prefix of the replies to any longer list, so waiting for each reply changes nothing |
| `IpcLaws.Answers` | ipc/src/receiver.rs:184-258 | Every kind of frame byte by byte: the public key, the key of a registration made of the shared secret, and what closes the connection |
| `IpcLaws.DispatchedIff` | ipc/src/receiver.rs:208-237 | A message is dispatched if and only if its tag is the code under the key made of what the server shares with the client registered last; otherwise the connection closes without a reply |
| `IpcLaws.ForeignKeyCloses` | ipc/src/receiver.rs:216-224 | A frame sealed under a key made of any other shared secret closes the connection, where the codes of the two keys do not collide |
| `IpcLaws.ForeignFrameNeverDispatched` | ipc/src/receiver.rs:216-224 | A frame under any key at all is dispatched only if its code is the one of the exchanged key |
| `IpcLaws.WireFormat` | ipc/src/transport.rs:58-65 | A frame on the wire byte by byte |
| `IpcLaws.Statuses` | ipc/src/receiver.rs:238-249 | Results and errors on the wire |
| `IpcLaws.LabelText` | ipc/src/receiver.rs:201-203 | The label of the key derivation |
| `Accounts.PathsDiffer` | api/src/functions.rs:22-27 | Different accounts of a protocol have different derivation paths |
| `Accounts.ListPaths` | api/src/functions.rs:92-99 | The nested loops list the paths of accounts 0 to n - 1 of each protocol |
| `Accounts.Paypunk.StoreKeys` | paypunkd/src/paypunk.rs:639-653 | The loop with its counters stores each key at the number of keys of its protocol before it |
| `Accounts.Paypunk.AddAccount` | paypunkd/src/usecases.rs:156-223 | The account made, or the first error, in order |
| `Accounts.Paypunk.HandleUnlock` | paypunkd/src/paypunk.rs:606-757 | Keys are derived only for a wallet without accounts; then the first account of each protocol is made |
| `Accounts.Paypunk.RegisterSigner` | paypunkd/src/usecases.rs:369-427 | The loop stores every key and makes its account, up to the first error |
| `Accounts.Paypunk.BulkDeriveAccounts` | paypunkd/src/usecases.rs:258-319 | The loop makes an account of every key with the path it came with, up to the first error, and returns those it made |
| `Accounts.StoredEntry` | paypunkd/src/paypunk.rs:639-653 | Entry j of a protocol is its j-th key, for every list of keys |
| `Accounts.BulkKeysAreDerived` | keypunkd/src/usecases.rs:153-165 | The key daemon returns, for each path in order, the viewing key of that path |
| `Accounts.FirstKeysAreOwn` | api/src/functions.rs:92-99 | For every list of protocols, the first n keys of each listed protocol are those of its paths 0 to n - 1 |
| `Accounts.StoredIsAligned` | paypunkd/src/paypunk.rs:639-653 | Every stored entry up to 29 is the key of the path with its index, whichever writes fail; if none fails all 30 are there |
| `Accounts.CreatedIsOwned` | paypunkd/src/usecases.rs:156-223 | A new account has the key of its own path exactly when its path and its index name the same key |
| `Accounts.RegisterStores` | paypunkd/src/usecases.rs:364-427 | Registering stores a prefix of the keys, all of them when it succeeds, and its accounts have the keys of their paths |
| `Accounts.DerivedAreOwned` | paypunkd/src/usecases.rs:258-319 | Accounts made in bulk have the keys of the paths they came with, whichever error ends it, and no pre-derived key changes |
| `Accounts.AccountsOwnTheirKeys` | paypunkd/src/paypunk.rs:606-785 | In every run of unlocking, registering signers, making accounts and deriving them in bulk, whatever seeds the keys come from, every account has the viewing key of its own derivation path under one of those seeds |
| `Accounts.OneSeedOwned` | paypunkd/src/paypunk.rs:606-785 | With one seed in the run it is the key under that seed |
| `Accounts.RepeatedProtocol` | paypunkd/src/usecases.rs:364-379 | Protocols must be distinct for that: a protocol listed twice at a registration puts the key of its path 0 at index 2 |
| `Accounts.OtherSignerIff` | paypunkd/src/usecases.rs:364-427 | After a signer with another seed is registered, a new account has its key under the first seed if and only if the signer was not registered for its protocol, or its index is 2 or more, or both seeds give it the same key |
| `Accounts.NextAccountsAreConsecutive` | tui/src/api/real.rs:269-314 | Asking for the account after those there are is never refused as a duplicate, and accounts are numbered without a gap |
| `Accounts.IndexFromDefaultPath` | paypunkd/src/usecases.rs:278-285 | The index read back from a default path is the account's on Zcash and always zero on Ethereum, so right exactly for Zcash or account 0 |
| `AccountLaws.UnlockMakes` | paypunkd/src/paypunk.rs:606-757 | Unlocking a wallet without accounts makes exactly the first accounts of the known protocols that have a stored key with an address and can be saved, in order; the others are missing |
| `AccountLaws.FirstKeyStored` | paypunkd/src/paypunk.rs:639-653 | The key of such an account is the first derived for its protocol, if the database took it |
| `AccountLaws.UnlockKeeps` | paypunkd/src/paypunk.rs:606-757 | A wallet with accounts, or without keys, is left as it is |
| `AccountLaws.CreatedIff` | paypunkd/src/usecases.rs:156-223 | An account is made if and only if none has its path, its index is below 30, and key, protocol, address and saving are there |
| `AccountLaws.RegisterMakes` | paypunkd/src/usecases.rs:364-427 | Registering makes the account of every key of a known protocol up to the first that fails, and succeeds if and only if none does |
| `AccountLaws.BulkMakes` | paypunkd/src/usecases.rs:258-319 | Bulk derivation makes the account of every key with its own path up to the first that fails, and succeeds if and only if none does |
| `AccountLaws.PathTexts` | api/src/functions.rs:22-27 | The derivation paths and account names by example |
| `Payload.RoundTrip` | keypunkd/src/keypunk.rs:149-174 | Decoding inverts encoding if and only if both lengths are below 2^32 |
| `Payload.DecodeExact` | keypunkd/src/keypunk.rs:149-174 | Whatever the parser accepts is the encoding of what it returns |
| `Payload.EncodeByExtending` | api/src/functions.rs:220-225 | The client's encoder, appending to a buffer, writes that encoding |
| `Payload.AssembleAuthorizePayload` | signer/src/pages/PreviewPage.tsx:21-35 | The signer page's encoder, writing at offsets into a fixed buffer, writes the same bytes |
| `Payload.LayoutExample` | api/src/functions.rs:220-225 | The bytes of a payload by example |
| `Wire.ByteOrder` | ipc/src/transport.rs:46-60 | Lengths are written least significant byte first |
| `Wire.Le32RoundTrip` | ipc/src/transport.rs:46-60 | A length comes back modulo 2^32 |
| `PendingIntents.SaveLoadRoundTrip` | cli/src/main.rs:35-83 | A saved intent loads again, whatever follows it, if and only if its lengths are below 2^32 |
| `PendingIntents.LoadExact` | cli/src/main.rs:51-83 | A file that loads begins with the encoding of what it loads to |
| `PendingIntents.TruncatedFileFails` | cli/src/main.rs:51-83 | A file cut short anywhere does not load |
| `PendingIntents.SavePendingIntent` | cli/src/main.rs:35-49 | The writer produces the encoding |
| `PendingIntents.LoadPendingIntent` | cli/src/main.rs:51-83 | The reader with its moving position equals the specification, out-of-bounds panics included |
| `PendingIntents.LayoutExample` | cli/src/main.rs:35-49 | The bytes of a file by example |
| `EthereumAmount.AmountIsFloor` | protocols/ethereum/src/protocol.rs:201-224 | For every numeral with its whole part in 64 bits: the exact value times 10^18 rounded down, below 2^124; every other numeral is refused |
| `EthereumAmount.AmountMonotone` | protocols/ethereum/src/protocol.rs:201-224 | A larger value never gives a smaller amount |
| `EthereumAmount.PrintedAmountParses` | protocols/ethereum/src/protocol.rs:201-224 | Parsing inverts an 18-digit printer for exactly the amounts whose whole part is in 64 bits |
| `EthereumAmount.AcceptedIff` | protocols/ethereum/src/protocol.rs:201-224 | Over all strings: accepted are exactly a whole part in 64 bits, alone or with a point and a fraction whose first 18 characters are digits, either with perhaps a plus sign before it; what follows those 18 is ignored |
| `EthereumAmount.PanicsIff` | protocols/ethereum/src/protocol.rs:201-224 | Over all strings the parser panics if and only if there are two parts, the first is a number in 64 bits and the second has a character whose bytes stand on both sides of its eighteenth byte |
| `EthereumAmount.PanicsOnce` | protocols/ethereum/src/protocol.rs:216-217 | Such a string: a whole part, a point, seventeen digits and U+00E9 |
| `EthereumAmount.SignedFraction` | protocols/ethereum/src/protocol.rs:216-219 | For all whole parts and fractions a sign at the start of the fraction is read as a zero digit |
| `EthereumAmount.SignedFractionIsFloor` | protocols/ethereum/src/protocol.rs:201-224 | So the amount is exactly the value with the sign read as a zero, rounded down, for fractions of any length |
| `Caip.ChainPrintsBack` | types/src/caip.rs:14-38 | Printing an accepted chain identifier returns the string |
| `Caip.AccountPrintsBack` | types/src/caip.rs:55-88 | The same for accounts, cut at the last colon |
| `Caip.AssetPrintsBack` | types/src/caip.rs:122-160 | The same for assets |
| `Caip.ChainParsesBack` | types/src/caip.rs:14-38 | A chain identifier survives its string if and only if its namespace is nonempty without a colon and its reference nonempty |
| `Caip.AccountParsesBack` | types/src/caip.rs:55-88 | An account survives if and only if its chain does and its address is nonempty without a colon |
| `Caip.AssetParsesBack` | types/src/caip.rs:122-160 | An asset survives if and only if its chain does and has no slash, and its namespace is nonempty without a colon and its reference nonempty |
| `Caip.NumberedAccountRoundTrip` | types/src/caip.rs:94-108 | A numbered account keeps its number, and its string if and only if its chain can be written |

## Left out

- TableField.GenericGF.InverseOf: the source throws at zero; here zero is excluded, and all callers are proved never to pass it. The same holds of LogarithmOf.
- TableField.GenericGF.constructor: only the field the decoder uses, 0x11D with 256 elements and generator base 0; the branch for another base (`bridge/src/jsqr.js:8231`) is not modelled.
- PolyOps.Normalise: coefficient arrays are sequences, so the sharing of one array by two polynomials is not modelled; no operation writes to a shared one.
- ReedSolomon.Decode: blocks are not empty and have at most 256 check symbols, as the tables of the source guarantee.
- SymbolDecoder.Decode: symbols are square, as the extraction of the symbol makes them; that the first attempt at a mirrored symbol gives nothing is not promised.
- SymbolDecoder.DecodeMatrix: alignment centers and block layouts of the versions are a parameter, with the conditions that hold of the source's table (`ValidTable`); the exact layouts are not.
- Segments.DecodeByte: the text of byte and kanji segments (UTF-8 and the Shift JIS table) is not modelled, only bytes and codes.
- Segments.DecodeKanji: the same, and so for DecodeBody, DecodeData and the results of SymbolDecoder.
- The image half of the QR decoder: floating point without an exact specification.
- X25519, AES-GCM, Blake2b, Argon2, BIP 32 and 39, Orchard proofs, RLP and postcard are foreign libraries and stand as functions with the laws named above.
- Keypunk.SignedWasPreviewed: an overflow of the fee product in the Ethereum summary (a panic in debug builds) is not modelled.
- Keypunk.SignedArtifactWasPreviewed: supposes that no artifact begins another; Keypunk.SignedOrdersPreviewed does not.
- Ipc.Connection.HandleConnection: a socket that fails while it is written to, and several connections to one handler at a time, are not modelled; the handler's answers are arbitrary.
- ChainSync.WalletDbActor.ApplyScan: blocks stand for their heights; notes, trees and balances belong to the wallet library. The recreation of a deleted database file is not modelled.
- SyncRuns.RecordedIsInterval: runs do not contain the first scan of a new account, which scans heights again; SyncAccounts.AccountScannedIff is the statement for runs with it.
- SyncGaps.NeverGapIff: counts from the start of the wallet's interval, which is set by the accounts listed when the tip is first set. Heights below it that are due to an account registered later, or forgotten by a restart before, are the matter of SyncAccounts.AccountScannedIff.
- ChainSync.WalletDbActor.RegisterAccount: checks of the viewing key and requests to the server are one outcome.
- Accounts.Paypunk.AddAccount: random identifiers, timestamps and birthdays of accounts are not modelled; nor is the synchronisation that follows.
- Accounts.AccountsOwnTheirKeys: a signer is registered for distinct protocols; Accounts.RepeatedProtocol shows what happens otherwise.
- Signer.SignerState.HandleRequest: serialization of requests and responses; the chain identifier of a preview, which nothing here depends on.
- PendingIntents.SaveLoadRoundTrip: strings are their UTF-8 bytes; reading and writing the file.
- EthereumAmount.AmountIsFloor: 256-bit arithmetic is unbounded here; results stay below 2^124.
- The conversion of Zcash amounts through floating point, token transfers, transaction building and broadcasting.
- Sockets, gRPC, JSON-RPC, SQLite, the actor runtime, the HTTP bridge, fountain codes, the terminal and web interfaces.
