# Emdros: a verified model of the EMdF layer's hard core

Emdros is a text database engine. Its EMdF layer stores objects made of *monads*
(integers), retrieves them through SQL back ends, keeps retrieved objects in
memory in a skip list, writes and reads XML, and carries its own LZMA coder. This
project models the parts of that layer whose correctness is not visible from any
one function, and proves what they are for. `dafny verify dfyconfig.toml` checks
everything.

**LZMA coder** (`EMdF/lzma_emdros.cpp`). `RangeCoder` holds the arithmetic coder
as pure functions, with the delayed carry measured against the exact
infinite-precision value of what has been written, and the decoder that mirrors
it although it normalises before a bit and the encoder after. `Contexts`,
`Symbols`, `SymbolCoders` and `PosSlots` build contexts, bit trees, matched
literals, lengths and distances on top of it. `Lz` and `LzRoundTrip` are the LZ
layer: for every input and every valid parse of it, decoding what was encoded
gives the input back. `EmptyStream` computes the bytes of the shortest stream, which fixes
what both sides have in common. `LzmaEncoder.Encoder` and `LzmaDecoder.Decoder` are the
imperative forms (byte cache, probability array, circular dictionary, split
copies), each method proved against those functions. `Margin` proves the header's
claim that no symbol takes more than 20 bytes, `Dummy` that the trial decoding without
adaptation finds what the real one does, and `Calls` the outer calls built on both, with
input supplied and output taken in pieces. `Hashes`, `MatchFinder`,
`MatchTree`, `MatchForest`, `Latest` and `Finders` are the match finder with its rebased
positions, as hash chains and as binary search trees split in place: what it reports
is true, and no less than what its tables and cutValue promise; `Backward`
is the in-place reversal of the chosen parse. `Lzma` puts the parts together:
matches found, any choice among them and the repeats coded, and the result decoded
in calls of any size gives the input, however it was read. Underneath, `Bytes` reads byte strings as
numbers and `Bits` has the machine-word operations.

**Retrieved objects** (`EMdF/inst.cpp`). `SkipList.List` is a heap of nodes with
up to 18 forward links each; whatever levels are drawn, it is a sorted sequence.

**Database** (`EMdF/emdfdb.cpp`, `EMdF/emdf_ffeatures.cpp`,
`EMdF/enum_const_cache.cpp`). `Monads` models sets of monads as the source keeps
them; `Retrieval`, `Batches` and `Plans` the three ways of asking for objects;
`Metadata` and `DatabaseStatements` the stored bounds those plans rely on, over
whole runs of statements; `Constraints` the printing of feature constraints and
WHERE clauses; `EnumCache` the cross-linked maps of enumeration constants.

**XML** (`EMdF/emdf_output.cpp`, `EMdF/qdxml.cpp`). `XmlWriter` prints,
`XmlReader` is the character state machine, `XmlInput` its input buffer, and
`XmlRoundTrip` shows that reading undoes writing. `XmlDocuments` says what the parser
makes of documents written with the freedom XML leaves. Two habits XML does not share
are kept: a tab is no blank inside a tag, and an end tag's name includes trailing blanks.

Some promises of the code or its comments hold only under a condition. Each is
stated with its exact condition, both ways:

- dropping the objects contained in a set of monads drops a contained object only
  if the set also holds the object's gaps (`Metadata.ContainedIsDroppedIff`; failing
  input `Metadata.ContainedNotDropped`);
- dropping an object type leaves `min_m` and `max_m` exact only if other types attain
  them (`Metadata.DropTypeExactIff`; failing run `Metadata.DropTypeCanBeStale`);
- end-of-line translation is that of section 2.11 of XML 1.0 only if no CR LF is
  followed by another CR (`XmlInput.TranslationIsStandardIff`; failing input
  `XmlInput.TranslationFails`);
- changing a cached enumeration constant's value keeps the cache coherent only if
  the new value is not held by another constant (`EnumCache.UpdateValidIff`; failing
  run `EnumCache.UpdateCanBreak`);
- adding a constant keeps the cache coherent only if its value is there already or
  its name is free: the exception for a taken name comes after the by-value map was
  changed (`EnumCache.InsertValidIff`; failing run `EnumCache.InsertCanBreak`);
- adding an enumeration keeps the two enumeration maps inverse only if its id is
  there already or its name is not in use (`EnumCache.AddEnumValidIff`; failing run
  `EnumCache.AddEnumCanBreak`);
- inclusion of sets of monads is decided rightly only if the first set is not empty or
  the second is one range within the sentinels of `first` and `last`; on other empty
  sets the test answers by the sentinels or reads the first element of an empty list
  (`Monads.PartOf`; failing input `Monads.PartOfFails`);
- `LzmaDec_DecodeToBuf` reports success, as `include/lzma_emdros.h` promises where the
  end marker comes before the output limit, only if nothing can be delivered, or all
  that is asked for fits before the dictionary's end and can be decoded from what was
  supplied; with the whole stream supplied, only if nothing is left, or what is asked for
  is left and fits (`Calls.DecodeToBuf`; failing call `Lzma.DecodeToBufFails`);
- a document with a document type declaration is read only if the declaration has a
  `]>`, which section 2.8 of XML 1.0 does not ask for: with none in the rest of the input
  the document is refused (`XmlDocuments.DoctypeNeedsSubset`), and with one the declaration
  ends at the first outside its comments and the document is read
  (`XmlDocuments.DocumentRoundTrip`);
- a printed feature constraint is readable SQL only if no IN list in it is empty
  (`Constraints.PrintPreservesMeaning`; failing input `Constraints.EmptyListFails`).

Conventions: the source's 32-bit quantities are `int`/`nat` with their bounds
stated; input exhaustion, failed reads and exceptions are result values; a read
callback, a random level, the order in which SQL lists object types and the
numeric-entity decoder are parameters.

## Model

| member | source | states |
|---|---|---|
| RangeCoder.AdaptKeepsBounds | EMdF/lzma_emdros.cpp:1323-1344 | whatever the bit, an adapted probability stays in 31..2017 |
| RangeCoder.AdaptMoves | EMdF/lzma_emdros.cpp:1323-1344 | after a bit, and only then, a probability has moved by a 32nd, rounded down, of its distance from the end the bit stands for: 2048 for a 0, 0 for a 1 |
| RangeCoder.BoundSplits | EMdF/lzma_emdros.cpp:2780-2784 | with such a probability both halves of the interval are non-empty and one 8-bit shift brings either back to at least 2^24 within 32 bits |
| RangeCoder.EncodeKeepsInv | EMdF/lzma_emdros.cpp:1308-1344 | every coding step keeps low, range, cache and pending count inside their machine widths |
| RangeCoder.EmitSettles | EMdF/lzma_emdros.cpp:1280-1299 | the bytes a shift emits are the cache plus carry and then the pending bytes, and together with what stays pending they are the settled bytes of before |
| RangeCoder.ShiftSettled | EMdF/lzma_emdros.cpp:1280-1299 | a shift appends the top byte of low to the settled bytes after adding the carry, which never overflows a byte already written |
| RangeCoder.ShiftValue | EMdF/lzma_emdros.cpp:1280-1299 | carry correctness: a shift multiplies the exact value of everything written and pending by 256 |
| RangeCoder.FlushNames | EMdF/lzma_emdros.cpp:1301-1306 | five shifts write the exact value out completely, and the first byte of the stream is 0 |
| RangeCoder.EncodeWithin | EMdF/lzma_emdros.cpp:1308-1344 | each step's interval lies inside the one before, for model bits and direct bits |
| RangeCoder.PrefixWithin | EMdF/lzma_emdros.cpp:1280-1306 | every prefix of the finished stream lies in the interval the encoder had at that length |
| RangeCoder.ChoosesHalf | EMdF/lzma_emdros.cpp:2780-2792 | a code register inside one half of the interval makes the decoder choose that half |
| RangeCoder.InitMirrors | EMdF/lzma_emdros.cpp:3460-3465 | the five bytes read at the start put the decoder in step with a fresh encoder |
| RangeCoder.DecodeMirrors | EMdF/lzma_emdros.cpp:2780-2792 | reading one event with the encoder's probability returns the encoder's bit and stays in step, although the decoder normalises before and the encoder after |
| RangeCoder.EndMirrors | EMdF/lzma_emdros.cpp:1301-1306 | at the end nothing is left over: code register 0, every byte consumed |
| Contexts.LayoutSize | EMdF/lzma_emdros.cpp:2824-2870 | the decoder's probability offsets follow one another without gap up to the literal block |
| Contexts.IndexInjective | EMdF/lzma_emdros.cpp:2824-2870 | every context has a slot of the decoder's array and no two contexts share one |
| Symbols.RunOk | EMdF/lzma_emdros.cpp:1308-1344 | over every run the encoder's invariant and every probability's bounds hold |
| Symbols.PendingBound | EMdF/lzma_emdros.cpp:1280-1299 | over every run the pending count grows by at most one per step, so that its 32 bits suffice for fewer than 2^32 - 1 steps |
| Symbols.FreshIsEven | EMdF/lzma_emdros.cpp:1026-1028 | in a context not coded yet a 0 and a 1 share the range in halves that differ by less than 2048 |
| Symbols.FreshReadIsEven | EMdF/lzma_emdros.cpp:3668-3668 | a freshly started decoder shares the range in the same halves at any entry of its array |
| Symbols.ReadBit | EMdF/lzma_emdros.cpp:2780-2790 | on any input whatever, a bit read keeps the decoder's range, code and probabilities in bounds |
| Symbols.SyncStep | EMdF/lzma_emdros.cpp:2780-2792 | reading a step in the context it was coded in returns its bit and adapts the decoder's array as the encoder's map was adapted |
| Symbols.StreamReady | EMdF/lzma_emdros.cpp:3460-3465 | a freshly started decoder is ready for everything that was encoded, and byte 0 of the stream is 0 |
| Symbols.ReadyRefill | EMdF/lzma_emdros.cpp:3172-3176 | normalising early changes nothing for what is still to be read |
| Symbols.RangeCoderRoundTrip | EMdF/lzma_emdros.cpp:1242-1344 | for every list of model and direct bits the decoder returns exactly these bits, ends with the encoder's probabilities, at the last byte, with code 0 |
| SymbolCoders.ReadTreeOk | EMdF/lzma_emdros.cpp:1437-1449 | a bit tree written for any symbol and depth is read back as that symbol |
| SymbolCoders.ReadReverseOk | EMdF/lzma_emdros.cpp:1451-1462 | a reverse bit tree written for any symbol and depth is read back, added to its base |
| SymbolCoders.ReadDirectsOk | EMdF/lzma_emdros.cpp:3085-3106 | direct bits are read back in order behind the bits already there |
| SymbolCoders.ReadMatchedFrom | EMdF/lzma_emdros.cpp:2941-2953 | the decoder's masked walk (offs &= bit or its complement) visits the encoder's contexts (offs &= ~(matchByte ^ symbol)) from any point of the byte on |
| SymbolCoders.ReadLiteralOk | EMdF/lzma_emdros.cpp:1346-1369 | plain and matched literals are read back for every byte and every predicted byte |
| SymbolCoders.ReadLenOk | EMdF/lzma_emdros.cpp:1504-1525 | the three-range length code is read back for every length and position state |
| PosSlots.SlotBounds | EMdF/lzma_emdros.cpp:1044-1070 | the slot of a distance is the one whose base is at most it with the next base above |
| PosSlots.SlotUnique | EMdF/lzma_emdros.cpp:1044-1070 | it is the only such slot |
| PosSlots.FastPosInit | EMdF/lzma_emdros.cpp:1044-1056 | the table filled slot by slot holds the slot of every index |
| PosSlots.GetPosSlot | EMdF/lzma_emdros.cpp:1059-1070 | for every position below 2^27 the table-and-shift lookup gives the position's slot |
| PosSlots.SpecPosFits | EMdF/lzma_emdros.cpp:3056-3080 | the contexts of a modelled slot lie inside the array |
| PosSlots.SpecPosDisjoint | EMdF/lzma_emdros.cpp:3056-3080 | the context ranges of different modelled slots are disjoint |
| PosSlots.ReadFooterOk | EMdF/lzma_emdros.cpp:3056-3122 | footer and alignment bits rebuild the part of a distance below its slot's base, in each of the three slot ranges |
| PosSlots.ReadDistanceOk | EMdF/lzma_emdros.cpp:2550-2568 | slot plus footer rebuild every 32-bit distance in the decoder |
| PosSlots.DistForm | EMdF/lzma_emdros.cpp:2544-2568 | a distance takes six steps for its slot and one for each bit below its two leading ones, of which those above the lowest four are without a context from the distance 128 on, and none below it |
| PosSlots.EndMarkerSteps | EMdF/lzma_emdros.cpp:2375-2377 | the end marker's bits are those of distance 2^32 - 1, which lies above every match distance |
| Lz.ReadToken | EMdF/lzma_emdros.cpp:2922-3138 | on any input, reading a symbol keeps the decoder's state machine, distances and probabilities in bounds |
| Lz.Next | EMdF/lzma_emdros.cpp:2922-3170 | on any input, one byte of decoding either fails, ends or leaves a sound state |
| LzRoundTrip.LiteralStates | EMdF/lzma_emdros.cpp:1228-1230 | the decoder's arithmetic on the 12 states is the encoder's tables |
| LzRoundTrip.SymbolOk | EMdF/lzma_emdros.cpp:2491-2575 | reading back one operation of any kind gives its token and the encoder's next state, with the decoder's distances one above the encoder's |
| LzRoundTrip.NextOnTrack | EMdF/lzma_emdros.cpp:2922-3170 | a decoder in step with the input produces its next byte and stays in step, inside copies as well as between symbols |
| LzRoundTrip.ParseStepsOk | EMdF/lzma_emdros.cpp:2451-2600 | every step written for a valid parse is in a context the decoder has |
| LzRoundTrip.DecodeNOnTrack | EMdF/lzma_emdros.cpp:2922-3170 | after n further bytes the output is the first n more bytes of the input |
| LzRoundTrip.RoundTrip | EMdF/lzma_emdros.cpp:2893-3170 | main theorem: for every input, valid parse and dictionary size the output after n bytes is the input's first n bytes, and then the end marker is met with every byte consumed |
| LzRoundTrip.LiteralsParse | EMdF/lzma_emdros.cpp:2491-2507 | every input has a valid parse |
| EmptyStream.EvenSteps | EMdF/lzma_emdros.cpp:1323-1344 | on a range that is a power of two, n bits of probability one half, or without a context, leave low and range as stated |
| EmptyStream.MarkerSteps | EMdF/lzma_emdros.cpp:2371-2377 | the end marker of an empty message is, step by step, a one, five zeros, six ones, 26 ones without a context and four ones, each in the context given |
| EmptyStream.StreamOfNothing | EMdF/lzma_emdros.cpp:2366-2378 | the compression of no data is the ten bytes 00 83 FF FB FF FF C0 00 00 00 |
| Margin.TwentyBytesSuffice | include/lzma_emdros.h:152-155 | 22 context bits and 26 direct bits, or 23 context bits, each shrinking the range as far as it can, leave it as wide as it was once 20 bytes were taken |
| Margin.SymbolTakesTwenty | include/lzma_emdros.h:152-155 | on any input, however corrupt, a symbol with the shift behind it takes at most 20 bytes when the range is full before |
| Margin.PendingTakesOneMore | EMdF/lzma_emdros.cpp:3173-3174 | and at most 21 when a shift is still pending: why the loop may begin a symbol as long as the input limit is not reached |
| Dummy.SymbolPeeked | EMdF/lzma_emdros.cpp:3250-3438 | decoding a symbol without adapting finds its kind and the registers that the real decoding finds, or stops where that would pass the limit: no symbol asks twice in one context |
| Dummy.MatchIsLong | EMdF/lzma_emdros.cpp:3307-3316 | what the trial calls a match is at least two bytes long or the end marker |
| Dummy.DummyTells | EMdF/lzma_emdros.cpp:3250-3438 | DUMMY_ERROR comes exactly when the symbol, with the shift behind it, does not end within the input |
| Dummy.TwentyAreEnough | EMdF/lzma_emdros.cpp:3523-3538 | with 20 bytes there it never comes, so that the 20 bytes of the buffer always suffice for what is put by |
| LzmaEncoder.Encoder.constructor | EMdF/lzma_emdros.cpp:1242-1258 | a fresh encoder is the initial coder state |
| LzmaEncoder.Encoder.ShiftLow | EMdF/lzma_emdros.cpp:1280-1299 | the cache-and-count loop writes exactly what the specified shift writes |
| LzmaEncoder.Encoder.EncodeBit | EMdF/lzma_emdros.cpp:1323-1344 | coding a bit appends one model step to the run; one probability moves towards the bit by a 32nd of the way, and before the first bit of a context the range is halved |
| LzmaEncoder.Encoder.EncodeDirectBits | EMdF/lzma_emdros.cpp:1308-1321 | coding direct bits appends them as steps, highest first |
| LzmaEncoder.Encoder.FlushData | EMdF/lzma_emdros.cpp:1301-1306 | flushing makes the output the stream of all steps coded |
| LzmaEncoder.Encoder.TreeEncode | EMdF/lzma_emdros.cpp:1437-1449 | appends the tree steps of the symbol |
| LzmaEncoder.Encoder.ReverseEncode | EMdF/lzma_emdros.cpp:1451-1462 | appends the reverse-tree steps of the symbol |
| LzmaEncoder.Encoder.LitEncode | EMdF/lzma_emdros.cpp:1346-1355 | the shifted register loop appends the literal's steps |
| LzmaEncoder.Encoder.LitEncodeMatched | EMdF/lzma_emdros.cpp:1357-1369 | the masked register loop appends the matched literal's steps |
| LzmaEncoder.Encoder.LenEncode | EMdF/lzma_emdros.cpp:1504-1525 | appends the length's steps in its range |
| LzmaEncoder.Encoder.DistEncode | EMdF/lzma_emdros.cpp:2550-2568 | appends slot, footer and alignment steps of the distance |
| LzmaEncoder.Encoder.CodeLit | EMdF/lzma_emdros.cpp:2491-2507 | codes a literal operation and moves to its next state |
| LzmaEncoder.Encoder.BringForward | EMdF/lzma_emdros.cpp:2521-2535 | the distance used again becomes the latest, those before it move back by one |
| LzmaEncoder.Encoder.CodeRep | EMdF/lzma_emdros.cpp:2508-2543 | codes a repetition or short repetition and reorders the distances |
| LzmaEncoder.Encoder.CodeMatch | EMdF/lzma_emdros.cpp:2544-2575 | codes a match and pushes its distance |
| LzmaEncoder.Encoder.CodeMarker | EMdF/lzma_emdros.cpp:2371-2377 | the end marker appends the steps of a match of length 2 at distance 2^32 - 1 |
| LzmaEncoder.Encoder.CodeEnd | EMdF/lzma_emdros.cpp:2366-2378 | codes the end marker and flushes: the output is the stream of all steps coded |
| LzmaEncoder.Encoder.Encode | EMdF/lzma_emdros.cpp:2698-2710 | the bytes written for a parse are the specified compression of the input, of which RoundTrip speaks; for no data they are the ten bytes of StreamOfNothing |
| LzmaDecoder.Decoder.constructor | EMdF/lzma_emdros.cpp:3661-3671 | a started decoder is the specified initial one, with each of its 1846 + 768 * 8 probabilities at 1024 of 2048 |
| LzmaDecoder.Decoder.DecodeBit | EMdF/lzma_emdros.cpp:2780-2788 | the macro's assignments are the specified bit read: one probability moves towards the bit by a 32nd of the way, and one of 1024 halves the range |
| LzmaDecoder.Decoder.TreeDecode | EMdF/lzma_emdros.cpp:2790-2806 | the tree loop is the specified tree read |
| LzmaDecoder.Decoder.MatchedDecode | EMdF/lzma_emdros.cpp:2941-2953 | the matched-literal loop is the specified read |
| LzmaDecoder.Decoder.LenDecode | EMdF/lzma_emdros.cpp:3023-3054 | the three-range length code is the specified read |
| LzmaDecoder.Decoder.DistanceDecode | EMdF/lzma_emdros.cpp:3056-3122 | slot, footer, direct and alignment bits are the specified distance read |
| LzmaDecoder.Decoder.DictByte | EMdF/lzma_emdros.cpp:2940-2940 | the circular dictionary, wrapped or not, holds the byte that was written that far back |
| LzmaDecoder.Decoder.PutByte | EMdF/lzma_emdros.cpp:2955-2957 | writing a byte at dicPos extends the history by it and keeps the dictionary's latest bytes |
| LzmaDecoder.Decoder.LitSymbolDecode | EMdF/lzma_emdros.cpp:2923-2957 | the literal branch is the specified literal symbol |
| LzmaDecoder.Decoder.MatchSymbolDecode | EMdF/lzma_emdros.cpp:3056-3135 | the match branch is the specified match symbol, distance checks and end marker included |
| LzmaDecoder.Decoder.RepSymbolDecode | EMdF/lzma_emdros.cpp:2969-3021 | the repetition branches are the specified symbols with the distances rotated |
| LzmaDecoder.Decoder.TokenDecode | EMdF/lzma_emdros.cpp:2922-3138 | one symbol decoded in place is the specified one |
| LzmaDecoder.Decoder.TryDummy | EMdF/lzma_emdros.cpp:3250-3438 | the trial decoding on copies of the registers, dictionary reads included, is the specified one and changes nothing |
| LzmaDecoder.Decoder.CopyBytes | EMdF/lzma_emdros.cpp:3142-3168 | the copy, straight or wrapping and possibly overlapping itself, extends the history byte by byte from the distance back |
| LzmaDecoder.Decoder.WriteRem | EMdF/lzma_emdros.cpp:3190-3214 | a copy that a limit cut short is finished later with the bytes it would have had |
| LzmaDecoder.Decoder.Turns | EMdF/lzma_emdros.cpp:2922-3170 | the main loop, whatever its limits, walks the byte-by-byte decoder up to a shift still pending, and takes nothing behind the bytes supplied when the first symbol is there and 20 bytes lie behind the input limit |
| LzmaDecoder.Decoder.DecodeReal | EMdF/lzma_emdros.cpp:2893-3188 | a call, whatever its limits, is a number of steps of the byte-by-byte decoder, or reports a failure that decoder has |
| LzmaDecoder.Decoder.DecodeReal2 | EMdF/lzma_emdros.cpp:3216-3240 | alternating DecodeReal and WriteRem walks the same decoder, stops only at its limits or the end marker, and takes nothing behind the bytes supplied under the same condition |
| LzmaDecoder.Decoder.WrapIfFull | EMdF/lzma_emdros.cpp:3599-3600 | resetting a full dictionary's position loses nothing the decoder can refer to |
| LzmaDecoder.DecodeSymbolCopy | EMdF/lzma_emdros.cpp:3142-3168 | a symbol and k bytes of its copy are k steps of the byte-by-byte decoder |
| LzmaDecoder.CallOnTrack | EMdF/lzma_emdros.cpp:3216-3240 | on a compressed stream every call's output continues the input exactly and never meets a failure |
| LzmaDecoder.NeverFails | EMdF/lzma_emdros.cpp:3216-3240 | on a compressed stream the failure report of DecodeReal2 is impossible |
| Calls.SupplyAll | EMdF/lzma_emdros.cpp:3468-3585 | with the whole stream supplied exactly what is left of the data can be decoded |
| Calls.DecodeMore | EMdF/lzma_emdros.cpp:3216-3240 | on a compressed stream a call of DecodeReal2 succeeds exactly when it has room or the data is complete, and takes no byte that is not supplied |
| Calls.FromInput | EMdF/lzma_emdros.cpp:3520-3549 | a turn from the input decodes at least a symbol, or puts by fewer than 20 bytes that do not hold one, or fails only at a limit set by LZMA_FINISH_END |
| Calls.FromStash | EMdF/lzma_emdros.cpp:3551-3578 | a turn from the buffer takes all that had been put by, so that giving back what was looked ahead never runs below 0 |
| Calls.DecodeToDic | EMdF/lzma_emdros.cpp:3468-3585 | whatever input is supplied the output goes on with the data, every byte of input is decoded, put by or given back, the status says why the call ended, and only LZMA_FINISH_END can make it fail, with data left at the limit |
| Calls.Outcome | EMdF/lzma_emdros.cpp:3617-3628 | bytes delivered are none or all that were asked for if and only if none can be delivered or all can |
| Calls.DecodeToBuf | EMdF/lzma_emdros.cpp:3587-3628 | the bytes delivered are the next ones of the data; success is reported if and only if nothing can be delivered, or all that is asked for fits before the dictionary's end and can be decoded from what was supplied |
| Calls.Decompress | EMdF/lzma_emdros.cpp:3587-3628 | calls of any size, with input supplied in pieces of any size, deliver exactly the data up to the end marker |
| Hashes.Index2Tells | EMdF/lzma_emdros.cpp:387-391 | equal two-byte hash and equal first byte mean equal second byte, for any CRC table |
| Hashes.Index3Tells | EMdF/lzma_emdros.cpp:387-391 | equal three-byte hash and equal first byte mean equal second and third bytes |
| Hashes.Mix2Bits | EMdF/lzma_emdros.cpp:387-391 | the two-byte hash is the low ten bits of the first byte's table word, changed exactly where the second byte has ones |
| Hashes.Mix3Bits | EMdF/lzma_emdros.cpp:387-391 | the three-byte hash is its low sixteen bits, changed where the second byte and, eight bits up, the third have ones |
| Hashes.Mix4Bits | EMdF/lzma_emdros.cpp:387-391 | the four-byte hash is the whole word, changed likewise and by the fourth byte's table word five bits up |
| Latest.HeadsInserted | EMdF/lzma_emdros.cpp:872-876 | after the three stores every entry of the hash tables is the latest inserted position with its hash, as far as the window goes |
| Latest.ChainGrows | EMdF/lzma_emdros.cpp:612-612 | after the store at the cyclic position every link is the latest position before its owner with the owner's four-byte hash |
| Latest.HeadsRebased | EMdF/lzma_emdros.cpp:588-595 | rebasing loses no position of the window from the hash tables |
| Latest.ChainRebased | EMdF/lzma_emdros.cpp:588-595 | rebasing loses no position of the window from the chains |
| MatchFinder.ShortGenuine | EMdF/lzma_emdros.cpp:870-893 | a two- or three-byte candidate whose first byte alone was compared is a true repetition |
| MatchFinder.ShortMatches | EMdF/lzma_emdros.cpp:878-904 | the short candidates give at most two true repetitions of ascending length, the last extended as far as it goes: nothing longer is reported of either candidate only if the three-byte one was extended in its place |
| MatchFinder.Extend | EMdF/lzma_emdros.cpp:896-898 | extends a repetition to its full length within the limit |
| MatchFinder.RebasedDistances | EMdF/lzma_emdros.cpp:574-585 | rebasing keeps every distance inside the window and every entry outside it outside |
| MatchFinder.ItemsRebased | EMdF/lzma_emdros.cpp:574-595 | so does every table rebased item by item |
| MatchFinder.NormalizeItems | EMdF/lzma_emdros.cpp:574-585 | the loop rebases every item of the table |
| MatchFinder.HashRebased | EMdF/lzma_emdros.cpp:588-595 | after rebasing each hash entry still names an inserted position with that hash |
| MatchFinder.SonRebased | EMdF/lzma_emdros.cpp:588-595 | after rebasing each link in the window still leads to an earlier inserted position |
| MatchFinder.SonInserted | EMdF/lzma_emdros.cpp:608-613 | a new link at the circular position leaves all links in the window intact |
| MatchTree.Between | EMdF/lzma_emdros.cpp:640-694 | between two positions in lexicographic order at least as many leading bytes agree as at the farther one: why the search may start comparing at the shorter known prefix |
| MatchTree.OrderedWeaker | EMdF/lzma_emdros.cpp:640-694 | a search tree stays one when positions leave the window or fewer bytes are compared |
| MatchTree.GoRight | EMdF/lzma_emdros.cpp:678-684 | going right at a smaller position keeps the search ready: the subtree is ordered and agrees with the current position as far as the new known prefixes say |
| MatchTree.GoLeft | EMdF/lzma_emdros.cpp:685-691 | the mirror image for a greater position |
| MatchTree.Replaced | EMdF/lzma_emdros.cpp:670-675 | a position equal in all bytes compared is replaced, its children becoming the two parts, and nothing else is lost |
| MatchTree.Narrowed | EMdF/lzma_emdros.cpp:678-691 | what a turn of the search leaves behind agrees with the current position in no more bytes than the position just compared |
| MatchTree.BackFromRight | EMdF/lzma_emdros.cpp:678-684 | with the right subtree taken apart, the smaller position and its left subtree complete the smaller part, and what the subtree kept is kept |
| MatchTree.Unwind | EMdF/lzma_emdros.cpp:640-694 | whatever path the loop took, the whole tree has been split into an ordered tree of smaller and one of greater positions, nothing shared and nothing else written, and nothing lost if nothing was lost at the last turn |
| MatchForest.NewRoot | EMdF/lzma_emdros.cpp:645-656 | the two parts become the children of the current position in an ordered tree |
| MatchForest.ForestInserted | EMdF/lzma_emdros.cpp:640-694 | inserting into the tree of one hash leaves the trees of all other hashes as they were |
| MatchForest.ForestForgets | EMdF/lzma_emdros.cpp:588-595 | rebasing keeps every tree ordered with the same positions in the window |
| MatchForest.NewRootFull | EMdF/lzma_emdros.cpp:640-694 | unless some window held more than cutValue positions of the hash, every inserted position of the window is in the new root's tree, or an equal later one is |
| MatchForest.ForestFullInserted | EMdF/lzma_emdros.cpp:640-694 | inserting a position loses no other of the window from any tree, with the same exception |
| MatchForest.ForestFullForgets | EMdF/lzma_emdros.cpp:588-595 | rebasing loses no position of the window from any tree |
| MatchFinder.SearchTree | EMdF/lzma_emdros.cpp:640-694 | the matches reported are true repetitions of strictly increasing length although comparison starts at a prefix that is only known to agree, and the tree is split in place around the current position; the last length is at least the common length, when that is above three, with every position compared, the root among them, and with every position of a tree of at most cutValue, which is then kept whole |
| Finders.Finder.constructor | EMdF/lzma_emdros.cpp:494-572 | empty tables with positions starting at the window size are valid although the links are not initialised |
| Finders.Finder.ReadBlock | EMdF/lzma_emdros.cpp:411-436 | whatever sizes the reads have, more than keepSizeAfter bytes are ahead afterwards, or all there are |
| Finders.Finder.SetLimits | EMdF/lzma_emdros.cpp:468-491 | up to posLimit neither 32-bit positions, the circular array nor the bytes read run out |
| Finders.Finder.LenLimitIs | EMdF/lzma_emdros.cpp:468-491 | matches are sought over matchMaxLen bytes or all that are left, however the input was read, and bytes run out only at its end |
| Finders.Finder.Normalize | EMdF/lzma_emdros.cpp:588-595 | positions and all entries are rebased by the same amount, below the 32-bit limit: every distance in the window is as before, and the tables stay valid |
| Finders.Finder.CheckLimits | EMdF/lzma_emdros.cpp:597-606 | rebasing, reading and wrapping at a limit keep the finder valid at the same byte |
| Finders.Finder.FollowChain | EMdF/lzma_emdros.cpp:608-637 | following the chain adds only true repetitions inside the window, each longer than all before; the last length is at least the common length, when that is above three, with each of the cutValue latest positions of the window that have the four-byte hash |
| Finders.Finder.HcGetMatches | EMdF/lzma_emdros.cpp:863-910 | every reported pair is a true repetition inside the window and lengths strictly increase; the last is at least the common length with the latest position of the same two-byte hash, with that of the same three-byte hash and, when above three, with each of the cutValue latest of the same four-byte hash in the window |
| Finders.Finder.BtGetMatches | EMdF/lzma_emdros.cpp:816-861 | in btMode every reported pair is a true repetition inside the window and lengths strictly increase; the last is at least the common length with the latest position of the same two-byte hash, with that of the same three-byte hash and, when above three, with that of the same four-byte hash, and with every one of the window as long as no window has held more than cutValue of them |
| Finders.Finder.Skip | EMdF/lzma_emdros.cpp:958-973 | skipping positions keeps the tables valid and inserts them: nothing of the window is lost |
| Finders.ChainIsGreatest | EMdF/lzma_emdros.cpp:863-910 | with at most cutValue positions of the hash in the window, the last length the chain mode reports is the greatest that any position of the window has in common, if that is above three |
| Finders.TreeIsGreatest | EMdF/lzma_emdros.cpp:816-861 | the same of btMode when no window before held more than cutValue positions of the hash |
| Lzma.GenuineIsRepeats | EMdF/lzma_emdros.cpp:608-637 | the match finder's repetitions are exactly the repetitions the coder may copy |
| Lzma.FoundIsValid | EMdF/lzma_emdros.cpp:816-910 | every match reported, whole or shortened, is a valid operation of the encoder |
| Lzma.RepsStayOk | EMdF/lzma_emdros.cpp:2508-2575 | the last four distances stay inside the dictionary and behind the position, so that comparing at them never reads before the data |
| Lzma.RepLen | EMdF/lzma_emdros.cpp:1735-1750 | the repeat at a distance is measured as far as it goes, and is 0 exactly when its first two bytes do not agree |
| Lzma.RepLens | EMdF/lzma_emdros.cpp:1735-1750 | all four repeats measured are true repetitions |
| Lzma.ValidCanBeChosen | EMdF/lzma_emdros.cpp:1735-1750 | every literal, short repeat and repeat that is valid at a position, and every part of a match found there, is a choice |
| Lzma.Parse | EMdF/lzma_emdros.cpp:2451-2600 | whatever is chosen among literals, short repeats, repeats and matches found, in either mode of the finder and however the input is read, is a valid parse, and each operation is the choice made among the repeats of its position and matches as the finder must report them |
| Lzma.CompressThenDecompress | EMdF/lzma_emdros.cpp:2698-2710 | main theorem: for every input, choice of operations and dictionary size, and whatever the sizes in which input is read, stream supplied and output taken, finding, coding and decoding give the input back |
| Lzma.DecodeToBufFails | EMdF/lzma_emdros.cpp:3617-3628 | on the sound stream of one byte a call for two delivers the one and reports failure |
| Backward.PathConnects | EMdF/lzma_emdros.cpp:1660-1694 | for every strictly decreasing chain, compounds expanded, the path leads from 0 to its end without a gap |
| Backward.NodeStepsMean | EMdF/lzma_emdros.cpp:1660-1677 | the literal of a compound node is one byte with the code 2^32 - 1, between the steps with the node's own two codes |
| Backward.ExpandedPath | EMdF/lzma_emdros.cpp:1667-1677 | writing a compound's literal and match into the nodes between leaves the rest of the path unchanged |
| Backward.Optimum.Backward | EMdF/lzma_emdros.cpp:1660-1694 | afterwards every step of the expanded path is found at the node it starts from, and the first is returned |
| Backward.Optimum.NextStep | EMdF/lzma_emdros.cpp:1706-1713 | hands out the next step as length and code |
| Backward.Optimum.TakePath | EMdF/lzma_emdros.cpp:1660-1713 | the lengths and codes handed out are exactly the path's steps in order, and the lengths sum to the end |
| SkipList.InsertSorted | EMdF/inst.cpp:597-635 | inserting at the place the comparison gives keeps the sequence sorted by first monad and id |
| SkipList.InsertMultiset | EMdF/inst.cpp:610-635 | insertion adds exactly the new object |
| SkipList.InsertAllSorted | EMdF/inst.cpp:610-635 | any order of insertions gives the sorted sequence of the multiset inserted |
| SkipList.Relinked | EMdF/inst.cpp:610-635 | rewiring the update nodes level by level gives the links of the longer list |
| SkipList.LevelReaches | EMdF/inst.cpp:610-635 | each level reaches every later node that has that level |
| SkipList.HigherLevelSkips | EMdF/inst.cpp:610-635 | every higher level is a subsequence of the one below |
| SkipList.List.constructor | EMdF/inst.cpp:553-585 | a new list is empty and valid |
| SkipList.List.Search | EMdF/inst.cpp:637-647 | returns the first node whose key is at least the one sought |
| SkipList.List.FindUpdate | EMdF/inst.cpp:610-625 | on every level the update node is the last before the new object's place |
| SkipList.List.Insert | EMdF/inst.cpp:610-635 | whatever level is drawn, the contents become the sorted insertion and all levels stay linked |
| SkipList.List.EqualRange | EMdF/inst.cpp:650-680 | returns exactly the run of nodes with the key, and whether it is non-empty |
| SkipList.List.HasObject | EMdF/inst.cpp:684-708 | is true exactly when that key and id were inserted |
| SkipList.List.AdvanceToNextKey | EMdF/inst.cpp:470-491 | moves to the first node with a greater key |
| SkipList.List.NextAtHigherKey | EMdF/inst.cpp:395-409 | moves the iterator past all objects of its key |
| SkipList.List.ObjectsAt | EMdF/inst.cpp:234-241 | positions at the objects that start at a monad, if there are any |
| SkipList.List.Purge | EMdF/inst.cpp:710-725 | empties the list |
| Monads.Canonical | EMdF/monads.cpp:193-220 | under the stated invariant a set of monads has one representation only |
| Monads.AddMse | EMdF/monads.cpp:2346-2433 | adding a range by any of the six branches gives the union, normalised |
| Monads.AbsorbFrom | EMdF/monads.cpp:2394-2418 | the careful insertion loop absorbs exactly the ranges that overlap or touch |
| Monads.FillOne | EMdF/monads.cpp:2732-2748 | a turn adds a range, with the gap before it exactly when that is shorter than min_gap |
| Monads.FillGaps | EMdF/monads.cpp:2712-2752 | the result is the set plus exactly its gaps shorter than min_gap, and leaves gaps of at least min_gap |
| Monads.IsMemberFast | EMdF/monads.cpp:2552-2580 | the upper_bound lookup decides membership |
| Monads.HasMonadsInRange | EMdF/monads.cpp:2597-2629 | the upper_bound lookup decides whether a range meets the set |
| Monads.OverlapFast | EMdF/monads.cpp:2487-2506 | decides whether two sets share a monad |
| Monads.IsMember | EMdF/monads.cpp:933-948 | the scan decides membership |
| Monads.Intersect | EMdF/monads.cpp:1262-1353 | one pass over both lists by six cases gives the intersection, normalised |
| Monads.PartOf | EMdF/monads.cpp:676-731 | one pass by six cases decides inclusion if and only if the first set is not empty or the second is one range within the sentinels; otherwise it answers by the sentinels or reads the first element of an empty list |
| Monads.PartOfFails | EMdF/monads.cpp:676-731 | the empty set against a set of two ranges |
| Retrieval.Meets | EMdF/emdfdb.cpp:5389-5432 | the three tests by range type all decide whether object and set share a monad |
| Retrieval.ExecWindow | EMdF/emdfdb.cpp:5302-5518 | a window's query adds exactly its rows that pass the pre-query and meet the set, none twice |
| Retrieval.WindowCovers | EMdF/emdfdb.cpp:5695-5770 | given the stored bounds, a row sharing a monad with a range is in that range's window |
| Retrieval.WindowsDisjoint | EMdF/emdfdb.cpp:5753-5770 | with gaps of at least the largest object length no row is in two windows, as the comment claims |
| Retrieval.GetThroughWindows | EMdF/emdfdb.cpp:6144-6214 | the windows come from the filled set, whose gaps are at least the largest length, and the rows returned are those some window selects |
| Retrieval.GetSingleUnique | EMdF/emdfdb.cpp:5922-6018 | the fast path returns the same objects without looking at their monads |
| Retrieval.GetObjectsHavingMonadsIn | EMdF/emdfdb.cpp:6054-6221 | returns exactly the objects that pass the pre-query and share a monad with the set, each once, on either path |
| Retrieval.BoundsAreNeeded | EMdF/emdfdb.cpp:5758-5770 | a row is found through each of its monads if and only if min_m and the largest length bound it |
| Batches.WhereKeeps | EMdF/emdfdb.cpp:5062-5095 | the WHERE clause loses no object that shares a monad with the batch |
| Batches.LeastOfBatch | EMdF/emdfdb.cpp:5154-5172 | for an object not seen before, the least monad shared with the batch is the least shared with all batches so far |
| Batches.RunBatch | EMdF/emdfdb.cpp:5049-5193 | a batch extends the report from the monads done to those done and the batch |
| Batches.GetObjectsHavingMonadsInMonadSet | EMdF/emdfdb.cpp:5227-5300 | every overlapping object is reported exactly once, with the least monad it shares with the whole set, and no other object is |
| Plans.Fetch | EMdF/emdfdb.cpp:6950-7092 | the row loop returns the rows that the plan's query and test let through |
| Plans.NoPlanLoses | EMdF/emdfdb.cpp:6668-6737 | no plan's query or test rejects an object related to the substrate |
| Plans.PlanForMeans | EMdF/emdfdb.cpp:6712-6737 | the query is constrained exactly when the range asked for falls short of min_m..max_m by more than a fifth of it on either side |
| Plans.KeepRelated | EMdF/monads.cpp:676-746 | keeping part_of or starts_in objects keeps exactly the related ones |
| Plans.GetInst | EMdF/emdfdb.cpp:6592-7113 | whatever plan is taken, fetching and then keeping the related objects gives exactly the related objects, each once |
| Plans.UnfilteredExact | EMdF/emdfdb.cpp:7029-7060 | given min_m and max_m, the two unconstrained plans are exact for a one-range substrate without further filtering |
| Plans.ConstrainedExcess | EMdF/emdfdb.cpp:6668-6705 | the SQL constraint returns exactly the objects starting in the range, so that its excess for part_of is those that end after it |
| Metadata.HullMeans | EMdF/emdfdb.cpp:974-1010 | the drop constraint selects exactly the objects whose whole extent lies in the set |
| Metadata.ContainedIsDroppedIff | EMdF/emdfdb.cpp:8645-8664 | an object contained in the set is dropped if and only if the set also holds its gaps |
| Metadata.ContainedNotDropped | EMdF/emdfdb.cpp:8645-8664 | a contained object that is not dropped |
| Metadata.CreateOk | EMdF/emdfdb.cpp:8389-8417 | creating objects keeps the stored bounds valid and the cache equal to the table |
| Metadata.CreateExact | EMdF/emdfdb.cpp:8389-8405 | creating objects keeps exact min_m and max_m exact |
| Metadata.CreateMeans | EMdF/emdfdb.cpp:8301-8432 | after CREATE OBJECT or CREATE OBJECTS exactly the old rows and the given ones stand, in every type, monads included; min_m, max_m and the largest length widen to the new rows and no further |
| Metadata.DropOk | EMdF/emdfdb.cpp:8553-8629 | dropping an object keeps the stored bounds valid and the cache equal to the table |
| Metadata.DropExact | EMdF/emdfdb.cpp:8592-8606 | recomputing only when the object touched min_m or max_m keeps both exact |
| Metadata.DropMeans | EMdF/emdfdb.cpp:8557-8564 | after DROP OBJECT exactly the rows of before stand but the one with that type and id; other types are untouched |
| Metadata.DropKeepsLargest | EMdF/emdfdb.cpp:8553-8629 | DROP OBJECT leaves the stored largest length as it was |
| Metadata.LargestFromRowsOk | EMdF/emdfdb.cpp:1466-1525 | the recomputed largest length bounds all objects and one of them has it |
| Metadata.DropInMonadsOk | EMdF/emdfdb.cpp:8665-8783 | dropping by monads keeps the invariant |
| Metadata.DropInMonadsMeans | EMdF/emdfdb.cpp:8665-8783 | after DROP OBJECTS IN MONADS exactly the rows of before stand but those of the type whose extent lies in one range of the set; other types are untouched |
| Metadata.DropInMonadsLargest | EMdF/emdfdb.cpp:8665-8783 | and the largest length is then that of the longest row left, or 0 |
| Metadata.StepKeeps | EMdF/emdfdb.cpp:1621-1690 | every successful statement keeps the invariant, and exactness unless it drops an object type |
| Metadata.RunKeeps | EMdF/emdfdb.cpp:9604-9666 | in every state of every run from a new database the bounds hold and the cache equals the table; without DROP OBJECT TYPE min_m and max_m are exact |
| Metadata.RunServesRetrieval | EMdF/emdfdb.cpp:1541-1606 | in every reachable state each table meets what windowed retrieval requires, read through the cache |
| Metadata.DropTypeExactIff | EMdF/emdfdb.cpp:1357-1432 | after dropping a type min_m and max_m are exact if and only if other types attain them |
| Metadata.TypeStatementMeans | EMdF/emdfdb.cpp:1149-1432 | CREATE OBJECT TYPE adds the type with the given range, no rows and length 0, DROP OBJECT TYPE removes it, and neither changes another type, min_m or max_m |
| Metadata.DropTypeCanBeStale | EMdF/emdfdb.cpp:1357-1432 | a run of three statements from a new database after which they are not |
| DatabaseStatements.Database.SetMin | EMdF/emdfdb.cpp:9992-10023 | min_m becomes the lesser of itself and the candidate, or the candidate when forced |
| DatabaseStatements.Database.SetMax | EMdF/emdfdb.cpp:9888-9919 | max_m becomes the greater of itself and the candidate, or the candidate when forced |
| DatabaseStatements.Database.GetLargest | EMdF/emdfdb.cpp:1541-1606 | what the cache or the table gives is the stored length |
| DatabaseStatements.Database.SetLargestIfNecessary | EMdF/emdfdb.cpp:1621-1690 | table and cache get the greater length, or the given one when forced |
| DatabaseStatements.Database.SetFromType | EMdF/emdfdb.cpp:9684-9814 | an empty type changes nothing, another widens the bounds to its own extremes |
| DatabaseStatements.Database.SetFromTypes | EMdF/emdfdb.cpp:9604-9666 | resetting and visiting all types in any order makes min_m and max_m exact |
| DatabaseStatements.Database.ObjectTypeExists | EMdF/emdfdb.cpp:1835-1944 | a type that is found enters the cache with the length stored |
| DatabaseStatements.Database.CreateObjectType | EMdF/emdfdb.cpp:1149-1327 | CREATE OBJECT TYPE is the specified step: one type more, of the given range and without rows |
| DatabaseStatements.Database.DropObjectType | EMdF/emdfdb.cpp:1357-1432 | DROP OBJECT TYPE is the specified step: that type and its rows are gone, and nothing else |
| DatabaseStatements.Database.CreateOne | EMdF/emdfdb.cpp:8301-8432 | CREATE OBJECT is the specified step: exactly the old rows and the new one stand, with its id and monads |
| DatabaseStatements.Database.CreateMany | EMdF/emdfdb.cpp:8818-8939 | CREATE OBJECTS, rows in rounds and metadata from candidates over all of them, is the specified step: exactly the old rows and the given ones stand |
| DatabaseStatements.Database.DropOne | EMdF/emdfdb.cpp:8536-8643 | DROP OBJECT is the specified step, for ids that are not there too: exactly the rows of before stand but the one with that id in that type |
| DatabaseStatements.Database.DropMany | EMdF/emdfdb.cpp:8665-8783 | DROP OBJECTS IN MONADS is the specified step and returns the ids dropped: exactly the rows whose extent lies in one range of the set are gone |
| Constraints.MakeList | EMdF/emdf_ffeatures.cpp:150-190 | the loop prints the numbers in order with commas between them |
| Constraints.ReadComparison | EMdF/emdf_ffeatures.cpp:112-192 | a printed comparison is read back as itself, an IN list with its numbers in order; an empty list is not readable |
| Constraints.AnyIsOne | EMdF/emdf_ffeatures.cpp:150-190 | a list of equalities joined by OR holds exactly when the feature is one of the listed values |
| Constraints.ReadFactor | EMdF/emdf_ffeatures.cpp:228-240 | a printed factor is read back, before any following text |
| Constraints.ReadFeatures | EMdF/emdf_ffeatures.cpp:316-327 | a printed disjunction is read as that disjunction, before any text that does not start with AND |
| Constraints.PrintPreservesMeaning | EMdF/emdf_ffeatures.cpp:112-327 | for every tree and every row the printed text, read with SQL precedence, has the tree's truth value; it is readable if and only if no IN list is empty |
| Constraints.EmptyListFails | EMdF/emdf_ffeatures.cpp:150-168 | a comparison with an empty list prints as text that cannot be read |
| Constraints.WhereIsConjunction | EMdF/emdfdb.cpp:5595-5615 | both assemblies of the WHERE clause let a row through exactly when every part is readable and the row meets each part that is present |
| Constraints.InstPrints | EMdF/emdfdb.cpp:6754-6912 | doGetInst's branches print the present parts joined by AND, the pre-query in parentheses, and nothing when there are none |
| Constraints.ParenthesesNeeded | EMdF/emdfdb.cpp:5604-5610 | without its parentheses a pre-query with OR escapes the join |
| EnumCache.LookupsAgree | EMdF/enum_const_cache.cpp:180-239 | lookups by value and by name reach the same objects |
| EnumCache.LookupsMeet | EMdF/enum_const_cache.cpp:180-239 | a constant is found under its name exactly when it is found under its value, and every name and value in the maps leads to a constant of that name or value |
| EnumCache.AddEnumValidIff | EMdF/enum_const_cache.cpp:138-148 | adding an enumeration keeps the cache valid if and only if its id is there already or its name is not in use |
| EnumCache.AddEnumCanBreak | EMdF/enum_const_cache.cpp:138-148 | a run of one addition after which a second enumeration of the same name leaves the cache incoherent |
| EnumCache.AddEnumMeans | EMdF/enum_const_cache.cpp:138-148 | adding an enumeration leaves every lookup of a constant as it was |
| EnumCache.InsertValidIff | EMdF/enum_const_cache.cpp:86-135 | adding a constant leaves the cache valid exactly when it does not throw, and throws exactly when the value is free and the name taken |
| EnumCache.InsertCanBreak | EMdF/enum_const_cache.cpp:86-135 | a run of one addition after which adding its name under another value throws and leaves the cache incoherent |
| EnumCache.InsertMeans | EMdF/enum_const_cache.cpp:86-135 | what is added is found under its name and its value exactly as given, default flag included, and every other lookup is as before; a value that is there already changes nothing |
| EnumCache.AddValidIff | EMdF/enum_const_cache.cpp:86-148 | adding enumeration and constant together leaves the cache valid if and only if nothing is thrown and no second id takes a name in use |
| EnumCache.DropEnumValid | EMdF/enum_const_cache.cpp:150-176 | dropping an enumeration deletes its objects and no other's |
| EnumCache.DropEnumMeans | EMdF/enum_const_cache.cpp:150-176 | no constant of the enumeration is found any more, and every lookup in another is as before |
| EnumCache.DropValid | EMdF/enum_const_cache.cpp:309-366 | dropping a constant removes it from both maps and deletes it |
| EnumCache.DropMeans | EMdF/enum_const_cache.cpp:309-366 | the constant is found no more under its name or its value, and every other lookup is as before |
| EnumCache.UpdateValidIff | EMdF/enum_const_cache.cpp:368-423 | changing a value keeps the cache valid if and only if the value is not held by another constant |
| EnumCache.UpdateCanBreak | EMdF/enum_const_cache.cpp:368-423 | a run of two additions from the empty cache after which such a change makes it incoherent |
| EnumCache.UpdateMeans | EMdF/enum_const_cache.cpp:368-423 | the constant is found with the new value, name and default flag unchanged, under that value only, and every other lookup is as before |
| EnumCache.SetDefaultValid | EMdF/enum_const_cache.cpp:425-448 | changing the default keeps the cache valid |
| EnumCache.SetDefaultMeans | EMdF/enum_const_cache.cpp:425-448 | every lookup finds the constant of before, flagged default exactly if it has the given name in the given enumeration; other enumerations are as before |
| EnumCache.DefaultIsUnique | EMdF/enum_const_cache.cpp:425-448 | after setNewDefault of a cached name that constant and no other is the default |
| EnumCache.Cache.AddEnum | EMdF/enum_const_cache.cpp:138-148 | the code's map insertions are the specified ones; every lookup of a constant is as before, and the cache is valid afterwards exactly when the id was there or the name not in use |
| EnumCache.RunValid | EMdF/enum_const_cache.cpp:86-448 | in every state of every run with unique names and free values the four maps agree and the live objects are exactly theirs: nothing dangles, nothing leaks |
| EnumCache.Cache.AddEci | EMdF/enum_const_cache.cpp:86-135 | the constant is cached as given under its name and value, and every other lookup is as before; it throws exactly when the value is free and the name taken, and leaves the cache valid exactly when an enumeration that is there has the value or not the name, or a new one has a free name |
| EnumCache.Cache.Insert | EMdF/enum_const_cache.cpp:100-135 | inserting by value and then by name, with the exception between them: what is added is cached as given, and every other lookup is as before |
| EnumCache.Cache.DropEnum | EMdF/enum_const_cache.cpp:150-176 | no constant of the enumeration is found any more, and every lookup in another is as before |
| EnumCache.Cache.Drop | EMdF/enum_const_cache.cpp:309-366 | the constant is found no more, and every other lookup is as before |
| EnumCache.Cache.UpdateValue | EMdF/enum_const_cache.cpp:368-423 | the constant is found with the new value and otherwise unchanged, and every other lookup is as before |
| EnumCache.Cache.SetNewDefault | EMdF/enum_const_cache.cpp:425-448 | visiting the objects in any order sets the flag of exactly the named one and changes no lookup otherwise |
| EnumCache.Cache.FindByName | EMdF/enum_const_cache.cpp:180-200 | finds the constant of that name, if it is cached |
| EnumCache.Cache.FindByValue | EMdF/enum_const_cache.cpp:203-239 | finds the constant of that value in the enumeration of that name, if it is cached |
| EnumCache.Cache.GetDefault | EMdF/enum_const_cache.cpp:242-273 | returns a default if one is cached, nothing exactly when none is |
| EnumCache.NewDefaultIsFound | EMdF/enum_const_cache.cpp:242-448 | after setNewDefault of a cached name getDefault returns that constant |
| XmlWriter.Output.OutCharData | EMdF/emdf_output.cpp:170-207 | escapes &, <, > and " when one of &, < and " occurs, otherwise writes the C string as it is |
| XmlWriter.CStrMeans | EMdF/emdf_output.cpp:204-206 | what is written as a C string is the text up to its first NUL |
| XmlWriter.Output.EmitAttributes | EMdF/emdf_output.cpp:70-86 | writes all attributes in order |
| XmlWriter.Output.StartTag | EMdF/emdf_output.cpp:279-317 | writes the tag, after a line break at the current indent unless compact |
| XmlWriter.Output.StartSingleTag | EMdF/emdf_output.cpp:331-365 | likewise for a tag without content |
| XmlWriter.Output.EndTag | EMdF/emdf_output.cpp:378-389 | writes the end tag one level further out and fails below level 0 |
| XmlWriter.WriteNode | EMdF/emdf_output.cpp:279-389 | the calls that write a tree in compact XML print that tree |
| XmlRoundTrip.RunText | EMdF/qdxml.cpp:123-144 | character data written between tags is collected as the text it was |
| XmlRoundTrip.RunAttribute | EMdF/qdxml.cpp:145-186 | a written attribute is stored under its name with its value normalised |
| XmlRoundTrip.RunNode | EMdF/qdxml.cpp:103-563 | for every tree, its printed form takes the parser through the tree's events back to the state before |
| XmlRoundTrip.RunDecl | EMdF/qdxml.cpp:341-398 | the printed declaration is accepted and leaves no trace |
| XmlRoundTrip.DeliverMerges | EMdF/qdxml.cpp:131-142 | collecting text until the next tag merges adjacent text and drops empty text |
| XmlRoundTrip.RoundTrip | EMdF/qdxml.cpp:103-563 | main theorem: for every tree the parser delivers exactly its start, text and end events in order, adjacent text merged, and stops whatever follows |
| XmlRoundTrip.NormalizedId | EMdF/qdxml.cpp:147-154 | an attribute value comes back unchanged if and only if it has no line feed and no tab |
| XmlRoundTrip.CollectedMeans | EMdF/qdxml.cpp:160-167 | with distinct names every attribute is delivered under its name, and no other |
| XmlRoundTrip.WriteThenParse | EMdF/qdxml.cpp:103-563 | the round trip through the output stream, the input buffer and end-of-line translation |
| XmlDocuments.RunLetters | EMdF/qdxml.cpp:504-563 | letters written raw, as any of the five predefined entities or as numeric references are collected as the characters they stand for, in text and in values of either quote |
| XmlDocuments.RunAttr | EMdF/qdxml.cpp:145-186 | an attribute with any blanks around its name and equals sign and with either quote is stored under its name with its meaning |
| XmlDocuments.RunTag | EMdF/qdxml.cpp:187-261 | a tag with any such attributes and blanks has exactly them, the first of equal names counting |
| XmlDocuments.RunEnd | EMdF/qdxml.cpp:326-340 | an end tag is reported with what stands between its brackets, trailing blanks included |
| XmlDocuments.RunRemarkEnd | EMdF/qdxml.cpp:424-438 | a comment reaches to its first --> and is reported with it |
| XmlDocuments.RunVerbatimEnd | EMdF/qdxml.cpp:439-451 | a CDATA section reaches to its first ]]> and is delivered as it stands |
| XmlDocuments.RunDoctype | EMdF/qdxml.cpp:452-470 | a document type declaration reaches to its first ]> outside comments and delivers nothing but those comments |
| XmlDocuments.RunDeclaration | EMdF/qdxml.cpp:341-398 | an XML declaration with any attributes and blanks, behind anything without a less-than sign, is accepted and leaves no trace |
| XmlDocuments.DocumentRoundTrip | EMdF/qdxml.cpp:103-563 | main theorem: for every document, however its letters, values, tags, comments, CDATA sections and declarations are written, the parser delivers exactly what it says and stops whatever follows |
| XmlDocuments.DoctypeNeedsSubset | EMdF/qdxml.cpp:452-470 | a document type declaration without ]> makes the parser refuse any document, whatever follows |
| XmlDocuments.ReadDocument | EMdF/qdxml.cpp:103-495 | the same through the input buffer, for any input whose line ends translate to the document's |
| XmlInput.TranslationIsStandardIff | EMdF/qdxml.cpp:565-603 | end-of-line translation is the standard's if and only if CR LF CR does not occur |
| XmlInput.TranslationFails | EMdF/qdxml.cpp:565-603 | an input for which it is not |
| XmlInput.Scanner.ReadIntoBuffer | EMdF/qdxml.cpp:622-634 | reading a piece loses and repeats no character and marks the end once the stream is dry; throws exactly when there is no room for a piece |
| XmlInput.Scanner.MoveToFront | EMdF/qdxml.cpp:646-649 | characters not used yet move to the front without loss |
| XmlInput.Scanner.FillBuffer | EMdF/qdxml.cpp:636-660 | refilling, a remainder included, keeps the characters still to be read, or throws exactly when the remainder leaves no room |
| XmlInput.Scanner.HandleEol | EMdF/qdxml.cpp:565-603 | on a line end delivers the translated character, the one behind a line feed that follows a carriage return |
| XmlInput.Scanner.GetNextChar | EMdF/qdxml.cpp:565-616 | delivers the translated characters one by one, then NUL, and has more input until then |
| XmlInput.ParseStream | EMdF/qdxml.cpp:103-495 | the parse loop over the buffer has the outcome of the parser on the translated characters, of which DocumentRoundTrip speaks |

## Left out

- Bt2 and Bt3 match finders: they use the same tree search with two and three hash bytes and are never selected.
- Finders.Finder.Skip: SkipMatchesSpec is GetMatchesSpec1 with the matches thrown away, and is modelled as such.
- GetOptimum and GetOptimumFast pricing: what to code at a position is an arbitrary choice among what was found there; of the search only the path reversal and hand-out are modelled.
- LzmaDec_InitRc: the first five bytes are there at once, so that needFlush is not modelled; a corrupt stream is covered for single symbols and by the failure of DecodeReal2, not through the outer calls.
- Write buffer, callbacks, allocation, CRC, header and trailer of the LZMA stream.
- RangeCoder.ShiftValue: the pending-byte count is unbounded; it stays within its 32 bits for fewer than 2^32 - 1 steps (`Symbols.PendingBound`), and the wrap beyond is not modelled.
- LzmaEncoder.Encoder.EncodeBit: the encoder's probability arrays are a map from contexts with the initial value as default; lc = 3, lp = 0, pb = 2 as the source sets them.
- Finders.Finder.ReadBlock: the sliding buffer (memmove, block sizes) is an index into the stream, so that a read is not cut by the buffer's end; read errors are not modelled.
- SkipList: object arena, aggregates and the bigUnion members of InstContents.
- Monads: sets are values, so that aliasing between SetOfMonads objects is not captured; difference, removal and the compact-string forms are not modelled.
- Retrieval.ExecWindow: the result Inst is the sequence of rows added; features, and monad sets that are features, are not modelled.
- Metadata: only successful statements are steps; rollback and the partial effects of a failing CREATE OBJECTS are not modelled.
- Metadata.StepKeeps: schema versions before 1.2.0.pre208, which have no largest_object_length column, are not modelled.
- Constraints.PrintPreservesMeaning: works on tokens, so that a feature name, an operator and a value (with its quoting or LIKE pattern) are one token each.
- XmlReader: numeric character references are a parameter; m_encoding is not modelled; events delivered before an exception are not kept in its result.
- XmlRoundTrip.RoundTrip: of what the writer prints; comments, DOCTYPE and CDATA, which it never prints, are covered by XmlDocuments.DocumentRoundTrip.
- XmlDocuments.DocumentRoundTrip: tag names that begin with an exclamation mark or a question mark, and the exceptions for other malformed documents, are left to the state machine.
- XmlWriter: console and JSON output are not modelled.
- XmlInput.Scanner.MoveToFront: memcpy is taken to copy in ascending order, since its areas may overlap.
- EnumCache: heap objects are cells of a store under addresses; the order in which a map is traversed is left open.
- DatabaseStatements: SQL text, DDL, indices, sequences and error reporting.
