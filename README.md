# minni core, modelled in Dafny

This project models the on-device core of the minni framework and proves
properties of that model. The core is written in C++ and covers:

- **The vector store** (`VectorStore`). It holds embeddings keyed by string
  id, either as raw floats or quantized to int8. It searches by cosine
  similarity. It saves itself to a binary file (optionally XOR-encrypted),
  loads that file back, and writes a separate memory-mappable "flat" file.
- **The flat vector store** (`FlatVectorStore`). It maps a flat file
  read-only, validates its header and searches it without copying.
- **The knowledge graph** (`KnowledgeGraph`).
  - It interns entity and relation names.
  - It keeps subject→relation→object facts as adjacency lists with set
    semantics.
  - It attaches float or int8 embeddings to entities and finds similar
    entities.
  - It persists itself in its own binary format.
- **The rule engine** (`RuleEngine`). It parses `IF (a > 1) & (b == 'x') THEN
  c=y` rules and fires the first rule whose conditions all hold.
- **The SAT solver** (`SatSolver`). It parses a CNF formula such as
  `A|B & !A|C` and decides it with DPLL: unit propagation, then branching on
  the first free variable.
- **The signal processor** (`SignalProcessor`). It loads a real signal,
  applies a window, transforms it and takes magnitudes.
- **The quantizer** (`Quantizer`), the **XOR cipher** (`SecurityManager`)
  and the **POSIX memory mapper** (`MemoryMapper`).

State that the C++ changes in place is modelled by Dafny classes:
`VectorStore`, `FlatVectorStore`, `KnowledgeGraph`, `RuleEngine`,
`SatSolver`, `SignalProcessor` and `MemoryMapper`. Each method is proved
against a specification function on values. The properties, such as
round trips, set semantics and DPLL soundness and completeness, are proved
as lemmas about those functions.

The file formats are modelled byte for byte over `seq<byte>`:

- little-endian integers (`ByteCodec`);
- IEEE-754 binary32 fields (`Float32`);
- `std::istream` read semantics, including the sticky failure state
  (`Stream`);
- `std::map` with its ordered keys (`OrderedMap`).

Floating-point arithmetic is modelled over `real`. Cosine similarity, the
FFT kernel, `std::sqrt` and `std::stod` are function parameters. The
operating system enters through explicit oracle values.

Modules: `ByteCodec`, `Float32`, `Stream`, `OrderedMap`, `Text`, `Ranking`
(shared pieces); `Quantizer`, `Cipher`, `MemoryMapping`, `Signal`;
`VectorStoreFormat` and `HeapVectorStore` (the heap store); `FlatFormat`
and `FlatStore` (the flat file and its reader); `GraphModel`, `GraphFormat`
and `GraphStore` (the knowledge graph); `Rules`; `Sat`.

## Model

| member | source | states |
|---|---|---|
| MemoryMapping.MemoryMapper.constructor | src/core/platform/MemoryMapper.cpp:16 | a new mapper holds nothing: null pointer, size 0, no descriptor, nothing released |
| MemoryMapping.MemoryMapper.Moved | src/core/platform/MemoryMapper.cpp:22-24 | the move constructor takes over the other mapper's pointer, size and descriptor and leaves the other empty without releasing anything |
| MemoryMapping.MemoryMapper.Unmap | src/core/platform/MemoryMapper.cpp:127-153 | unmap gives back the mapping (munmap of its size) and then the descriptor (close), only those that are held, and leaves the mapper empty |
| MemoryMapping.MemoryMapper.Map | src/core/platform/MemoryMapper.cpp:46-125 | map first releases what is held; it succeeds exactly when open, fstat and mmap succeed and the file is non-empty; on success the mapper exposes exactly the file's bytes and keeps the descriptor; on failure it is empty and the descriptor open returned has been closed |
| MemoryMapping.MemoryMapper.MoveAssign | src/core/platform/MemoryMapper.cpp:26-44 | self-assignment changes nothing; otherwise this mapper's own resources are released, the other's are taken over, and the other is left empty without releasing them |
| MemoryMapping.MemoryMapper.Size | src/core/platform/MemoryMapper.cpp:159-161 | size() is the length of the mapped bytes, 0 when nothing is mapped |
| MemoryMapping.MemoryMapper.IsMapped | src/core/platform/MemoryMapper.cpp:163-165 | is_mapped() holds exactly when data() is not null |
| MemoryMapping.UnmapTwice | src/core/platform/MemoryMapper.cpp:127-153 | after a successful map, unmap releases the mapping then the descriptor; a second unmap releases nothing more |
| MemoryMapping.ZeroLengthRejected | src/core/platform/MemoryMapper.cpp:107-111 | an empty file is refused, its descriptor is closed, and size() is 0 |
| MemoryMapping.MapExposesFile | src/core/platform/MemoryMapper.cpp:155-161 | after a successful map, data() holds exactly the file's bytes and size() is their count |
| MemoryMapping.MoveTransfers | src/core/platform/MemoryMapper.cpp:26-44 | a moved mapping is exposed by the target, the source is no longer mapped, and nothing is released |
| MemoryMapping.SelfMoveKeeps | src/core/platform/MemoryMapper.cpp:27 | a mapper move-assigned to itself keeps its mapping |
| MemoryMapping.RemapReleasesOld | src/core/platform/MemoryMapper.cpp:47 | mapping again first unmaps and closes the previous file |
| Cipher.XorStream | src/core/security/SecurityManager.cpp:8-17 | the ciphertext has the plaintext's length |
| Cipher.Encrypt | src/core/security/SecurityManager.cpp:8-17 | an empty key returns the data unchanged; otherwise byte i is data[i] XOR key[i mod key length] |
| Cipher.Decrypt | src/core/security/SecurityManager.cpp:19-22 | decryption is the same key stream as encryption |
| Cipher.RoundTrip | src/core/security/SecurityManager.cpp:19-22 | decrypting with the encryption key gives back the plaintext, for every key including the empty one |
| Cipher.WrongKeyChangesByte | src/core/security/SecurityManager.cpp:19-22 | decrypting with a key whose key stream differs from the encrypting key's at a position gets that byte wrong |
| Cipher.StringBytesRoundTrip | src/core/security/SecurityManager.cpp:25-27 | converting a byte string to bytes and back is the identity |
| Cipher.EncryptString | src/core/security/SecurityManager.cpp:24-28 | the encrypted string is a byte string of the input's length |
| Cipher.DecryptString | src/core/security/SecurityManager.cpp:30-34 | the decrypted string is a byte string of the input's length |
| Cipher.StringRoundTrip | src/core/security/SecurityManager.cpp:24-34 | decrypt_string undoes encrypt_string under the same key |
| Cipher.CharsetIsAlphanumeric | src/core/security/SecurityManager.cpp:37-40 | the key alphabet has 62 characters, all digits or ASCII letters |
| Cipher.GenerateKey | src/core/security/SecurityManager.cpp:36-53 | the key has the requested length and character i is the alphabet entry of the i-th random draw, so it is alphanumeric |
| Quantizer.Round | src/core/optimization/Quantizer.cpp:32 | std::round lands within 1/2 of its argument |
| Quantizer.RoundMonotone | src/core/optimization/Quantizer.cpp:63 | rounding preserves order |
| Quantizer.Clamp | src/core/optimization/Quantizer.cpp:66-67 | the result is in [-128, 127] and values already in that range are kept |
| Quantizer.QuantizeScalar | src/core/optimization/Quantizer.cpp:61-69 | the quantized value is always an int8 |
| Quantizer.QuantizeMonotone | src/core/optimization/Quantizer.cpp:61-69 | for a positive scale, quantization never maps a larger value below a smaller one |
| Quantizer.QuantizeSaturates | src/core/optimization/Quantizer.cpp:61-67 | values beyond the representable range saturate at 127 or -128 instead of wrapping, as long as the rounded quotient fits the int32 it is cast to |
| Quantizer.ScalarRoundTrip | src/core/optimization/Quantizer.cpp:61-74 | quantizing a dequantized int8 gives it back |
| Quantizer.QuantizeAll | src/core/optimization/Quantizer.cpp:41-49 | one code per input value |
| Quantizer.Quantize | src/core/optimization/Quantizer.cpp:41-49 | the loop yields one int8 code per input value, in order, each the scalar quantization of that value |
| Quantizer.DequantizeAll | src/core/optimization/Quantizer.cpp:51-59 | one value per code |
| Quantizer.Dequantize | src/core/optimization/Quantizer.cpp:51-59 | the loop yields one real per code, in order, each the scalar dequantization of that code |
| Quantizer.Min | src/core/optimization/Quantizer.cpp:14-20 | the minimum is an element and no element is below it |
| Quantizer.Max | src/core/optimization/Quantizer.cpp:14-20 | the maximum is an element and no element is above it |
| Quantizer.RangeParamsValid | src/core/optimization/Quantizer.cpp:23-36 | the parameters for any range have a positive scale and an int8 zero point |
| Quantizer.RangeParamsShape | src/core/optimization/Quantizer.cpp:23-32 | a range narrower than 1e-6 gets scale 1 and zero point 0; a wider one gets scale (hi - lo) / 255 and the zero point that maps lo to -128 |
| Quantizer.ParamsAsWrittenValid | src/core/optimization/Quantizer.cpp:9-39 | calculate_params as written always yields a positive scale and an int8 zero point |
| Quantizer.AsWrittenAgreesWhenRangeHasZero | src/core/optimization/Quantizer.cpp:31-36 | when the data's range contains 0 the zero-point clamp never fires and the written and intended parameters agree |
| Quantizer.RoundTripErrorBound | src/core/optimization/Quantizer.cpp:9-74 | with the corrected parameters (range widened to contain 0), every value within the data's range dequantizes to within scale / 2 of itself |
| Quantizer.ClampedZeroPointLosesRange | src/core/optimization/Quantizer.cpp:31-36 | for data [10, 11] the clamped zero point is -128; 10 quantizes to 127, which dequantizes to 1.0, an error far beyond scale / 2 |
| Quantizer.UnitTestParams | testing/unit/core/optimization/test_quantizer.cpp:10-16 | the unit test's data [-1, -0.5, 0, 0.5, 1] gets scale 2/255 and zero point -1 |
| Quantizer.UnitTestSaturation | testing/unit/core/optimization/test_quantizer.cpp:37-44 | with those parameters 1000 quantizes to 127 and -1000 to -128 |
| Quantizer.CalculateParams | src/core/optimization/Quantizer.cpp:9-39 | the min/max loop yields the parameters of exactly the data's range, zero point clamped to int8, which are always valid; when the range contains 0 they coincide with the corrected ones |
| Quantizer.ParamsValid | src/core/optimization/Quantizer.cpp:9-39 | the corrected parameters (range widened to contain 0) are valid for every input, including the empty one |
| Signal.BitAnd | src/core/signal/SignalProcessor.cpp:33 | the bitwise AND is at most either operand |
| Signal.BitAndSelf | src/core/signal/SignalProcessor.cpp:33 | n & n is n |
| Signal.PowerOfTwoTest | src/core/signal/SignalProcessor.cpp:33 | for n > 0, (n & (n - 1)) == 0 holds exactly when n is a power of two, so fft's guard admits exactly the power-of-two lengths |
| Signal.Zeros | src/core/signal/SignalProcessor.cpp:13 | n samples, all zero |
| Signal.WindowOnes | src/core/signal/SignalProcessor.cpp:16-26 | a window of ones leaves the signal unchanged |
| Signal.WindowCompose | src/core/signal/SignalProcessor.cpp:16-26 | applying two windows in turn equals applying their sample-wise product once |
| Signal.Norm2 | src/core/signal/DSPKernel.cpp:45 | the squared magnitude re^2 + im^2 is never negative |
| Signal.MagnitudesOfReal | src/core/signal/SignalProcessor.cpp:38-54 | when the square root is the true one, a purely real signal's magnitudes are non-negative and are its absolute values |
| Signal.Transform | src/core/signal/SignalProcessor.cpp:28-36 | the transform keeps both buffers at the signal's length |
| Signal.SignalProcessor.constructor | src/core/signal/SignalProcessor.cpp:8 | a new processor holds an empty signal |
| Signal.SignalProcessor.Load | src/core/signal/SignalProcessor.cpp:11-14 | the data becomes the real part and the imaginary part is as many zeros |
| Signal.SignalProcessor.ApplyWindow | src/core/signal/SignalProcessor.cpp:16-26 | a window of the wrong length changes nothing; otherwise each real sample is multiplied in place by its window value and the imaginary part is untouched |
| Signal.SignalProcessor.Fft | src/core/signal/SignalProcessor.cpp:28-36 | an empty signal or one whose length is not a power of two is left alone; otherwise both buffers are replaced by the kernel's transform |
| Signal.SignalProcessor.Magnitude | src/core/signal/SignalProcessor.cpp:38-54 | an empty signal is left alone; otherwise each real sample becomes the magnitude of its complex sample, computed in place, and the imaginary part is zeroed |
| Signal.SignalProcessor.GetOutput | src/core/signal/SignalProcessor.cpp:56-58 | the output is the real buffer |
| Signal.SignalProcessor.Size | src/core/signal/SignalProcessor.cpp:60-62 | the size is the number of samples |
| Signal.WindowExample | testing/unit/core/signal/test_signal_processor.cpp:39-53 | the window test: [1, 1, 1, 1] under a window of halves gives [0.5, 0.5, 0.5, 0.5] |
| Signal.ChainExample | testing/unit/core/signal/test_signal_processor.cpp:16-37 | the chain test: load, fft and magnitude on [1, 1, 1, 1] give [4, 0, 0, 0] when the kernel puts the sum 4 in bin 0 and the square root takes 16 to 4 |
| Signal.ConstantSpectrum | testing/unit/core/signal/test_signal_processor.cpp:25-26 | under that kernel the transform of the constant signal is [4, 0, 0, 0] with a zero imaginary part |
| Signal.ConstantMagnitudes | testing/unit/core/signal/test_signal_processor.cpp:28-29 | the magnitudes of that spectrum are [4, 0, 0, 0] |
| ByteCodec.DecodeEncodeLE | src/core/logic/VectorStore.cpp:127-132 | reading back k little-endian bytes written for a value below 256^k gives the value |
| ByteCodec.EncodeDecodeLE | src/core/logic/VectorStore.cpp:254-259 | re-encoding the value read from k bytes gives those bytes back, so every byte pattern is some value's encoding |
| ByteCodec.U16RoundTrip | src/core/logic/KnowledgeGraph.cpp:319 | a uint16 field reads back as the value written |
| ByteCodec.U32RoundTrip | src/core/logic/VectorStore.cpp:127-128 | a uint32 field reads back as the value written |
| ByteCodec.U64RoundTrip | src/core/logic/VectorStore.cpp:130-132 | a uint64 field reads back as the value written |
| ByteCodec.I32RoundTrip | src/core/logic/VectorStore.cpp:148 | an int32 field (two's complement) reads back as the value written |
| ByteCodec.I8RoundTrip | src/core/logic/VectorStore.cpp:151 | an int8 code reads back as the code written |
| ByteCodec.XorTwice | src/core/security/SecurityManager.cpp:14 | XOR-ing a byte twice with the same key byte gives it back |
| ByteCodec.XorCancel | src/core/security/SecurityManager.cpp:14 | XOR by a fixed byte is injective: two key bytes give the same output only when they are equal |
| ByteCodec.Zeros | src/core/logic/VectorStore.cpp:352 | n zero bytes, what seekp past the end leaves behind |
| Float32.UnpackPack | src/core/logic/VectorStore.cpp:164 | a float vector written back to back is read back whole |
| Float32.PackAt | src/core/logic/FlatVectorStore.cpp:105-108 | float i of a packed vector is read from bytes 4i to 4i+4 |
| Float32.Vals | src/core/logic/VectorStore.cpp:80-82 | one real per float, in order, each the float's value |
| Stream.From | src/core/logic/VectorStore.cpp:220 | a fresh stream is good and positioned where it is opened |
| Stream.Read | src/core/logic/VectorStore.cpp:239-289 | istream::read always fills n bytes of its zeroed buffer; the stream stays good only if it was good and n bytes remained, and then it delivers exactly those bytes |
| Stream.ReadNext | src/core/logic/VectorStore.cpp:239-289 | a good stream whose next bytes are b delivers b and moves past them |
| Stream.BadStaysBad | src/core/logic/VectorStore.cpp:288 | once bad, a stream delivers only zeros and stays bad |
| Stream.AtSplit | src/core/logic/VectorStore.cpp:239-289 | reading a prefix of what lies ahead leaves the stream at the rest |
| Stream.AtAfter | src/core/logic/VectorStore.cpp:220-229 | a stream opened past a prefix of the data is at the rest of the data |
| OrderedMap.LessIrreflexive | src/core/logic/VectorStore.cpp:42-45 | no string is below itself under std::string's ordering |
| OrderedMap.LessTransitive | src/core/logic/VectorStore.cpp:42-45 | std::string's ordering is transitive |
| OrderedMap.LessTotal | src/core/logic/VectorStore.cpp:42-45 | any two distinct strings are ordered one way or the other |
| OrderedMap.LessAsymmetric | src/core/logic/VectorStore.cpp:42-45 | the ordering is asymmetric |
| OrderedMap.Get | src/core/logic/VectorStore.cpp:27 | map::find finds nothing exactly when the key is absent, and otherwise an entry stored under that key |
| OrderedMap.PutKeys | src/core/logic/VectorStore.cpp:42-45 | after operator[] assignment the keys are the old keys plus the new one |
| OrderedMap.PutSorted | src/core/logic/VectorStore.cpp:42-45 | assignment keeps the entries in ascending key order |
| OrderedMap.PutGet | src/core/logic/VectorStore.cpp:42-45 | after assignment the key maps to the new value and every other key to its old value |
| OrderedMap.PutSize | src/core/logic/VectorStore.cpp:42-45 | assignment grows the map by one exactly when the key is new |
| OrderedMap.PutTwice | src/core/logic/VectorStore.cpp:278-279 | assigning a key twice is the same as assigning only the second value |
| OrderedMap.PutEntries | src/core/logic/VectorStore.cpp:42-45 | every entry after assignment is the new entry or an old one |
| OrderedMap.PutAfterLast | src/core/logic/VectorStore.cpp:278-284 | a key above every existing key is appended at the end |
| OrderedMap.GetIndex | src/core/logic/VectorStore.cpp:60-63 | in an ordered map, looking up entry i's key finds entry i's value |
| Ranking.SelectTop | src/core/logic/FlatVectorStore.cpp:129-140 | partial_sort plus resize selects a top-k: at most k results, best first, drawn from the candidates, none better left out; with k at least the candidate count it is a permutation of them |
| Ranking.ArgMax | src/core/logic/FlatVectorStore.cpp:129-140 | the position found holds a best remaining candidate |
| Ranking.PrefixIsTopK | src/core/logic/FlatVectorStore.cpp:129-140 | a permutation whose first min(k, n) positions hold the best candidates, best first, yields a top-k when truncated |
| Ranking.TruncateSorted | src/core/logic/VectorStore.cpp:87-96 | the first k of a full descending sort of the candidates are a top-k |
| Ranking.SortThenTruncate | src/core/logic/VectorStore.cpp:87-96 | std::sort by descending score followed by resize(limit) yields a top-limit selection of the candidates |
| Ranking.TopKFirstIsBest | src/core/logic/KnowledgeGraph.cpp:265-273 | for k > 0 the first result scores at least as high as every candidate |
| Ranking.DistinctCount | src/core/logic/FlatVectorStore.cpp:150-160 | in a sequence without repeats each value occurs at most once |
| Ranking.RelabelTopK | src/core/logic/FlatVectorStore.cpp:150-160 | a top-k over candidate indices, relabelled through a repeat-free candidate list, is a top-k over that list |
| GraphModel.Resize | src/core/logic/KnowledgeGraph.cpp:471 | vector::resize yields n elements, the old ones first and the fill value after them |
| GraphModel.GrowTo | src/core/logic/KnowledgeGraph.cpp:191-203 | the guarded resize reaches index id (exactly id + 1 long if it was too short), keeping the old elements and filling the rest |
| GraphModel.GrowAdj | src/core/logic/KnowledgeGraph.cpp:72-74 | growing the adjacency lists to reach a subject keeps every old list, adds only empty ones and adds no fact |
| GraphModel.EntityIndexLookup | src/core/logic/KnowledgeGraph.cpp:443-451 | the rebuilt entity map holds a name exactly when the table does, and maps it to a position that holds that name |
| GraphModel.RelationIndexLookup | src/core/logic/KnowledgeGraph.cpp:458-466 | the same for the relation map, while the table fits uint16 ids |
| GraphModel.AddEntityInterns | src/core/logic/KnowledgeGraph.cpp:21-38 | add_entity keeps the graph valid and returns an id that names the entity; a known name changes nothing; a new name gets the next id and the entity count grows by one |
| GraphModel.AddEntityKeepsFacts | src/core/logic/KnowledgeGraph.cpp:31-35 | add_entity grows the adjacency lists to reach a new id, keeps the old lists and adds no fact |
| GraphModel.AddEntityIdempotent | src/core/logic/KnowledgeGraph.cpp:22-25 | interning the same name twice gives the same id and the second call changes nothing |
| GraphModel.AddRelationInterns | src/core/logic/KnowledgeGraph.cpp:51-61 | add_relation keeps the graph valid and returns an id that names the relation; a known name changes nothing; a new one gets the next id; entities and facts are untouched |
| GraphModel.UnknownIdIsEmpty | src/core/logic/KnowledgeGraph.cpp:40-45 | an entity or relation id beyond its table names the empty string |
| GraphModel.AddFactSetSemantics | src/core/logic/KnowledgeGraph.cpp:70-92 | after add_fact the edge is in the subject's list; the fact count grows by one exactly when the edge was new; a fact already present changes nothing |
| GraphModel.AddFactOthersUnchanged | src/core/logic/KnowledgeGraph.cpp:70-92 | add_fact leaves every other subject's list as it was (empty if it lay beyond the lists) |
| GraphModel.AddFactKeepsValid | src/core/logic/KnowledgeGraph.cpp:70-92 | add_fact keeps the graph's invariants |
| GraphModel.AddFactKeepsSets | src/core/logic/KnowledgeGraph.cpp:80-91 | no adjacency list ever holds the same edge twice |
| GraphModel.QueryObjectsExact | src/core/logic/KnowledgeGraph.cpp:101-114 | query_objects returns x exactly when the subject has the edge (pred, x) |
| GraphModel.QueryObjectsAfterAdd | src/core/logic/KnowledgeGraph.cpp:89-91 | a new fact's object is appended after the subject's earlier objects for that predicate |
| GraphModel.QuerySubjectsExact | src/core/logic/KnowledgeGraph.cpp:116-130 | query_subjects returns x exactly when x's list has the edge (pred, obj), and lists subjects in ascending order |
| GraphModel.AddFactByName | src/core/logic/KnowledgeGraph.cpp:94-99 | after the string add_fact both entities and the relation exist, the object is among the subject's objects for that relation, and the fact count grows by at most one |
| GraphModel.AddFactByNameValid | src/core/logic/KnowledgeGraph.cpp:94-99 | the string add_fact keeps the graph valid while the tables have room |
| GraphModel.SetEmbeddingAccepts | src/core/logic/KnowledgeGraph.cpp:176-208 | set_embedding succeeds exactly for a known entity and a non-empty vector of the graph's dimension (any length while none is set); a refusal changes nothing; success fixes the dimension and fills the entity's slot; names and facts are untouched |
| GraphModel.SetEmbeddingKeepsValid | src/core/logic/KnowledgeGraph.cpp:176-208 | set_embedding keeps the graph's invariants |
| GraphModel.GetAfterSet | src/core/logic/KnowledgeGraph.cpp:176-223 | after set_embedding, get_embedding returns the vector's values, or in quantized mode the codes quantize gave it under calculate_params of the vector, dequantized with those parameters |
| GraphModel.GetWithoutEmbedding | src/core/logic/KnowledgeGraph.cpp:210-223 | get_embedding is empty for an unknown entity and for an entity without a vector |
| GraphModel.CandidatesHaveVectors | src/core/logic/KnowledgeGraph.cpp:236-263 | the candidates are exactly the (name, similarity) pairs of the slots holding a vector |
| GraphModel.SimilarCoversEmbedded | src/core/logic/KnowledgeGraph.cpp:225-276 | every entity with a vector is a candidate of the similarity search |
| GraphFormat.NamesBack | src/core/logic/KnowledgeGraph.cpp:443-451 | the name-reading loop gives back every name save wrote (lines 293-297) and stops right after them |
| GraphFormat.EdgesBack | src/core/logic/KnowledgeGraph.cpp:480-486 | the edge-reading loop gives back every edge written at lines 317-321 and stops right after them |
| GraphFormat.ListsBack | src/core/logic/KnowledgeGraph.cpp:473-487 | the list-reading loop gives back every adjacency list written at lines 314-322 |
| GraphFormat.FloatSlotsBack | src/core/logic/KnowledgeGraph.cpp:517-526 | the float-slot loop gives back every slot written at lines 352-359, empty slots included |
| GraphFormat.QuantSlotsBack | src/core/logic/KnowledgeGraph.cpp:501-514 | the quantized-slot loop gives back every slot's codes and parameters written at lines 333-346 |
| GraphFormat.NameTableBack | src/core/logic/KnowledgeGraph.cpp:439-451 | a name table written by save (lines 290-297) reads back as the same names, and the stream moves past it |
| GraphFormat.AdjacencyBack | src/core/logic/KnowledgeGraph.cpp:469-487 | the adjacency lists written by save (lines 311-322) read back unchanged |
| GraphFormat.EmbeddingsBack | src/core/logic/KnowledgeGraph.cpp:490-527 | the embedding section written by save (lines 325-360) reads back as the same dimension and slots, in either mode |
| GraphFormat.SerializeRoundTrip | src/core/logic/KnowledgeGraph.cpp:415-530 | loadFromStream on the stream save builds (lines 278-360) rebuilds exactly the valid graph that was saved and reports a good stream |
| GraphFormat.SerializeMagic | src/core/logic/KnowledgeGraph.cpp:282 | the plain stream starts with "MKG1" and so never with "MKGE" |
| GraphFormat.SaveLoadRoundTrip | src/core/logic/KnowledgeGraph.cpp:278-413 | loading the file save wrote, with the same key or with none, restores the graph and reports success |
| GraphFormat.EncryptedNeedsKey | src/core/logic/KnowledgeGraph.cpp:391-392 | an encrypted file is refused without a key and the graph is left as it was |
| GraphFormat.WrongKeyRefused | src/core/logic/KnowledgeGraph.cpp:394-404 | a file saved under one key and loaded with a key whose key stream differs within the first four bytes fails the inner "MKG1" check, the graph left as it was |
| GraphFormat.UnknownMagicRefused | src/core/logic/KnowledgeGraph.cpp:387-412 | a file too short for a header or starting with neither "MKG1" nor "MKGE" is refused, the graph left as it was |
| GraphFormat.BadStreamReadsEmpty | src/core/logic/KnowledgeGraph.cpp:439-527 | once the stream is bad, every table reads as empty and the dimension as zero |
| GraphFormat.HeaderOnlyFile | src/core/logic/KnowledgeGraph.cpp:415-530 | a file holding only "MKG1" clears the graph, switches it to float mode and reports failure |
| GraphFormat.FlagBit | src/core/logic/KnowledgeGraph.cpp:285-286 | bit 0 of the flag byte save writes is the quantization mode that load reads back (line 430) |
| GraphStore.KnowledgeGraph.constructor | src/core/logic/KnowledgeGraph.cpp:16-17 | a new graph is empty, in the requested mode |
| GraphStore.KnowledgeGraph.AddEntity | src/core/logic/KnowledgeGraph.cpp:21-38 | the fields and the id are those of GraphModel.AddEntity, whose interning properties are proved in GraphModel |
| GraphStore.KnowledgeGraph.GetEntityName | src/core/logic/KnowledgeGraph.cpp:40-45 | the name stored at that id, or the empty string for an id beyond the table |
| GraphStore.KnowledgeGraph.HasEntity | src/core/logic/KnowledgeGraph.cpp:47-49 | true exactly when the name is interned, i.e. is in the name table |
| GraphStore.KnowledgeGraph.AddRelation | src/core/logic/KnowledgeGraph.cpp:51-61 | the fields and the id are those of GraphModel.AddRelation |
| GraphStore.KnowledgeGraph.GetRelationName | src/core/logic/KnowledgeGraph.cpp:63-68 | the relation name stored at that id, or the empty string |
| GraphStore.KnowledgeGraph.AddFactIds | src/core/logic/KnowledgeGraph.cpp:70-92 | the new state is GraphModel.AddFactIds of the old one: the list grown to reach the subject, the edge appended unless the scan finds it |
| GraphStore.KnowledgeGraph.AddFact | src/core/logic/KnowledgeGraph.cpp:94-99 | subject, predicate and object are interned in that order and the edge is added, as GraphModel.AddFact |
| GraphStore.KnowledgeGraph.QueryObjects | src/core/logic/KnowledgeGraph.cpp:101-114 | the result holds x exactly when the subject has the edge (pred, x), in list order |
| GraphStore.KnowledgeGraph.QuerySubjects | src/core/logic/KnowledgeGraph.cpp:116-130 | the subjects holding (pred, obj), in ascending order |
| GraphStore.KnowledgeGraph.NumEntities | src/core/logic/KnowledgeGraph.cpp:132-134 | the number of interned entities |
| GraphStore.KnowledgeGraph.NumFacts | src/core/logic/KnowledgeGraph.cpp:136-142 | the summing loop returns the total length of the adjacency lists |
| GraphStore.KnowledgeGraph.SetEmbedding | src/core/logic/KnowledgeGraph.cpp:176-208 | the new state and result are GraphModel.SetEmbedding's (in quantized mode the slot gets calculate_params and quantize of the vector), and the two quantized tables keep one length |
| GraphStore.KnowledgeGraph.StoreCodes | src/core/logic/KnowledgeGraph.cpp:189-198 | both quantized tables are resized to reach the id, and the slot holds calculate_params of the vector and the codes quantize gives with them |
| GraphStore.KnowledgeGraph.StoreVector | src/core/logic/KnowledgeGraph.cpp:199-205 | the float table is resized to reach the id and the slot holds the vector |
| GraphStore.KnowledgeGraph.GetEmbedding | src/core/logic/KnowledgeGraph.cpp:210-223 | the stored values (dequantized in quantized mode), empty for an unknown entity |
| GraphStore.KnowledgeGraph.FindSimilar | src/core/logic/KnowledgeGraph.cpp:225-276 | the result is a top-limit selection of the (name, similarity) pairs of the slots holding a vector, and empty when the query's length is not the set dimension |
| GraphStore.KnowledgeGraph.Save | src/core/logic/KnowledgeGraph.cpp:278-381 | the bytes written are the graph's file image: the plain stream, or "MKGE" and the stream encrypted under the key |
| GraphStore.KnowledgeGraph.Load | src/core/logic/KnowledgeGraph.cpp:383-413 | a file that cannot be opened is refused with the graph untouched; otherwise the state and result are GraphFormat.LoadFile's |
| GraphStore.KnowledgeGraph.LoadFromStream | src/core/logic/KnowledgeGraph.cpp:415-530 | every field is replaced by what the stream holds, and the result says whether the stream stayed good |
| GraphStore.ReadGraph | src/core/logic/KnowledgeGraph.cpp:427-529 | loadFromStream's reads, in order, give GraphFormat.ParseGraph's graph |
| GraphStore.ContainsEdge | src/core/logic/KnowledgeGraph.cpp:80-87 | the duplicate scan finds the edge exactly when the list holds it |
| GraphStore.QuantizeVector | src/core/logic/KnowledgeGraph.cpp:196-198 | calculate_params as written, then quantize, give the payload VectorStoreFormat.QuantizedPayload defines: one code per value |
| GraphStore.WriteNameTable | src/core/logic/KnowledgeGraph.cpp:290-297 | the loop writes the count and then each name's length and bytes |
| GraphStore.WriteAdjacency | src/core/logic/KnowledgeGraph.cpp:311-322 | the loop writes the list count and then each list |
| GraphStore.WriteEdgeList | src/core/logic/KnowledgeGraph.cpp:315-321 | the inner loop writes a list's length and then each edge's predicate (uint16) and object (uint32) |
| GraphStore.WriteEmbeddings | src/core/logic/KnowledgeGraph.cpp:325-360 | the dimension and slot count, then the active mode's slots |
| GraphStore.WriteQuantSlots | src/core/logic/KnowledgeGraph.cpp:330-346 | each quantized slot's flag byte and, for a full slot, its scale, zero point and first d codes |
| GraphStore.WriteFloatSlots | src/core/logic/KnowledgeGraph.cpp:349-359 | each float slot's flag byte and, for a full slot, its first d floats |
| GraphStore.LoadEntityTable | src/core/logic/KnowledgeGraph.cpp:439-451 | the loop reads the name table and maps each name to its position |
| GraphStore.LoadRelationTable | src/core/logic/KnowledgeGraph.cpp:454-466 | the same for relations, with ids narrowed to uint16 |
| GraphStore.LoadAdjacency | src/core/logic/KnowledgeGraph.cpp:469-487 | the loop reads the list count and then each list |
| GraphStore.LoadEdgeList | src/core/logic/KnowledgeGraph.cpp:474-486 | the inner loop reads a list's edge count and then each edge |
| GraphStore.LoadEmbeddings | src/core/logic/KnowledgeGraph.cpp:490-527 | the dimension and count, then the active mode's slots |
| GraphStore.LoadQuantSlots | src/core/logic/KnowledgeGraph.cpp:497-514 | both tables are sized to the count and each slot is read in turn |
| GraphStore.LoadFloatSlots | src/core/logic/KnowledgeGraph.cpp:515-526 | the table is sized to the count and each slot's flag and, when set, its d floats are read |
| GraphStore.LoadQuantSlot | src/core/logic/KnowledgeGraph.cpp:502-513 | one slot: the flag, then for a set flag the parameters and d codes; otherwise value-initialised parameters |
| VectorStoreFormat.QuantizedPayload | src/core/logic/VectorStore.cpp:39-40 | quantized mode stores one int8 code per value, and the zero point calculate_params computes for the vector's own range |
| VectorStoreFormat.Candidates | src/core/logic/VectorStore.cpp:58-85 | one (id, score) per stored vector, in ascending id order, each scored by the similarity of the query and the vector's values (dequantized in quantized mode) |
| VectorStoreFormat.AddAccepts | src/core/logic/VectorStore.cpp:23-49 | add_vector succeeds exactly when the vector is non-empty, the id is in neither map and the dimension is unset or matches; a refusal changes nothing; success fixes the dimension |
| VectorStoreFormat.AddStores | src/core/logic/VectorStore.cpp:37-46 | an accepted vector is stored under its id (in quantized mode as calculate_params of the vector and quantize's codes with them), the size grows by one and every other id keeps its entry |
| VectorStoreFormat.AddQuantizedPayload | src/core/logic/VectorStore.cpp:39-40 | each stored code is the value quantized with calculate_params of the whole vector, which are valid; when the vector's range contains 0 every code dequantizes to within half a step of its value |
| VectorStoreFormat.AddKeepsValid | src/core/logic/VectorStore.cpp:23-49 | add_vector keeps the maps sorted and the code and parameter maps over the same ids |
| VectorStoreFormat.AddKeepsUniform | src/core/logic/VectorStore.cpp:29-35 | every stored vector keeps the store's dimension |
| VectorStoreFormat.Int8RoundTrip | src/core/logic/VectorStore.cpp:151 | int8 codes written as raw bytes read back unchanged (line 276) |
| VectorStoreFormat.ReadIdBack | src/core/logic/VectorStore.cpp:264-268 | an id written as its uint32 length and bytes (lines 142-144) reads back, and the stream moves past it |
| VectorStoreFormat.ParseFloatRecordsBack | src/core/logic/VectorStore.cpp:262-286 | the record loop rebuilds the float map from the records written at lines 154-165 |
| VectorStoreFormat.ParseQuantRecordsBack | src/core/logic/VectorStore.cpp:262-286 | the record loop rebuilds the code and parameter maps from the records written at lines 136-152 |
| VectorStoreFormat.HeaderBack | src/core/logic/VectorStore.cpp:240-259 | the flag byte, dimension and count written at lines 119-132 read back, and the records follow at byte 13 |
| VectorStoreFormat.SerializeRoundTrip | src/core/logic/VectorStore.cpp:239-289 | loadFromStream on the stream save builds (lines 112-166) gives back the store and stays good |
| VectorStoreFormat.SaveLoadRoundTrip | src/core/logic/VectorStore.cpp:112-237 | loading the file save wrote, with the same key or with none, restores the store and reports success |
| VectorStoreFormat.EncryptedNeedsKey | src/core/logic/VectorStore.cpp:206-210 | an encrypted file is refused without a key and the store is left as it was |
| VectorStoreFormat.WrongKeyRefused | src/core/logic/VectorStore.cpp:213-227 | a file saved under one key and loaded with a key whose key stream differs within the first four bytes fails the inner "MVS1" check, the store left as it was |
| VectorStoreFormat.UnknownMagicRefused | src/core/logic/VectorStore.cpp:201-236 | a file too short for a header or starting with neither "MVS1" nor "MVE1" is refused, the store left as it was |
| VectorStoreFormat.ParseRecordsValid | src/core/logic/VectorStore.cpp:262-286 | whatever the records hold, the maps rebuilt from them stay sorted and consistent, in the file's mode and dimension |
| VectorStoreFormat.LoadKeepsValid | src/core/logic/VectorStore.cpp:196-289 | load leaves a store that keeps the invariant, whether it succeeds or not |
| VectorStoreFormat.BadStreamRecords | src/core/logic/VectorStore.cpp:262-286 | on a bad stream every further record is the empty id with zero floats, which only overwrites itself |
| VectorStoreFormat.TruncatedLoad | src/core/logic/VectorStore.cpp:239-289 | a float header promising records the file lacks makes load report failure, yet the old contents are gone and the store holds one record under the empty id, with dim zero floats |
| VectorStoreFormat.TruncatedRecords | src/core/logic/VectorStore.cpp:264-286 | the first record read at the end of the stream is the empty id with dim zero floats, and the stream goes bad |
| HeapVectorStore.VectorStore.constructor | src/core/logic/VectorStore.cpp:18-19 | a new store is empty, in the requested mode |
| HeapVectorStore.VectorStore.AddVector | src/core/logic/VectorStore.cpp:23-49 | the new state and the result are VectorStoreFormat.Add's (calculate_params and quantize in quantized mode), whose acceptance and storage are proved in AddAccepts and AddStores |
| HeapVectorStore.VectorStore.Search | src/core/logic/VectorStore.cpp:51-99 | the result is empty on a dimension mismatch or an empty store, and otherwise a top-limit selection of the candidates, best first |
| HeapVectorStore.VectorStore.Size | src/core/logic/VectorStore.cpp:101-103 | the number of entries in the active mode's map |
| HeapVectorStore.VectorStore.Clear | src/core/logic/VectorStore.cpp:105-110 | all three maps are emptied and the dimension reset; the mode stays |
| HeapVectorStore.VectorStore.Save | src/core/logic/VectorStore.cpp:112-194 | the bytes written are the store's file image: the plain record stream, or "MVE1" and the stream encrypted under the key |
| HeapVectorStore.VectorStore.Load | src/core/logic/VectorStore.cpp:196-237 | a file that cannot be opened is refused with the store untouched; otherwise the state and result are VectorStoreFormat.LoadFile's |
| HeapVectorStore.VectorStore.LoadFromStream | src/core/logic/VectorStore.cpp:239-289 | the store adopts the stream's mode and dimension and holds exactly the records read; the result says whether the stream stayed good |
| HeapVectorStore.VectorStore.ReadRecord | src/core/logic/VectorStore.cpp:262-286 | one loop iteration reads one record into the active mode's maps, consistent with reading all remaining records |
| HeapVectorStore.VectorStore.SaveFlat | src/core/logic/VectorStore.cpp:293-413 | the bytes written are the flat image of the store |
| HeapVectorStore.WriteQuantRecords | src/core/logic/VectorStore.cpp:135-152 | the loop writes each quantized record with the parameters found under its id |
| HeapVectorStore.WriteFloatRecords | src/core/logic/VectorStore.cpp:153-166 | the loop writes each float record in map order |
| HeapVectorStore.WriteFlat | src/core/logic/VectorStore.cpp:293-413 | the header, vector section, zero gap, parameter table and id section together form the flat image |
| HeapVectorStore.FlatLayout | src/core/logic/VectorStore.cpp:315-333 | the offsets computed up front, including the padding loop, are the flat layout of the store |
| HeapVectorStore.FlatHeaderBytes | src/core/logic/VectorStore.cpp:336-346 | the 64-byte header holds the magic, version, dimension, flags, count and the three offsets |
| HeapVectorStore.WriteVectors | src/core/logic/VectorStore.cpp:352-363 | the first loop writes each vector's bytes in map order |
| HeapVectorStore.WriteParams | src/core/logic/VectorStore.cpp:366-373 | the parameter loop writes each id's scale then zero point, in map order |
| HeapVectorStore.WriteIds | src/core/logic/VectorStore.cpp:376-409 | the offset table holds each id's running offset, starting past the table and growing by the id's length plus its NUL; then come the NUL-terminated ids |
| HeapVectorStore.ScoreQuantized | src/core/logic/VectorStore.cpp:58-73 | the quantized scoring loop yields exactly the candidates, each vector dequantized with the parameters found under its id |
| HeapVectorStore.ScoreFloats | src/core/logic/VectorStore.cpp:74-85 | the float scoring loop yields exactly the candidates |
| HeapVectorStore.ParamsOf | src/core/logic/VectorStore.cpp:63 | quant_params_.at(id) finds the parameters of the i-th code vector |
| HeapVectorStore.CandidatesSnoc | src/core/logic/VectorStore.cpp:72 | each iteration appends the next id with its score |
| FlatFormat.FlattenSnoc | src/core/logic/VectorStore.cpp:352-409 | one more write() appends its block after everything written before |
| FlatFormat.FlattenPrefix | src/core/logic/VectorStore.cpp:352-409 | the blocks written first are a prefix of the file |
| FlatFormat.FlattenBlock | src/core/logic/VectorStore.cpp:352-409 | block i lies right after the blocks written before it |
| FlatFormat.FlattenUniform | src/core/logic/VectorStore.cpp:352-363 | among blocks of one width w, block i starts at i * w |
| FlatFormat.AlignUp4Least | src/core/logic/VectorStore.cpp:327-328 | the padded size is the least multiple of four not below the raw size |
| FlatFormat.PadStops | src/core/logic/VectorStore.cpp:328 | the padding loop stops exactly when the params table would start on a four-byte boundary |
| FlatFormat.HeaderLayout | src/core/logic/VectorStore.cpp:336-346 | the header is 64 bytes with each field at the offset FlatVectorStore.cpp:47-60 reads it from |
| FlatFormat.Placement | src/core/logic/VectorStore.cpp:352-409 | the file save_flat writes has every vector, params entry, offset-table entry and id where its header says |
| FlatFormat.ReadHeaderBack | src/core/logic/FlatVectorStore.cpp:47-60 | load reads back the magic, version and header fields save_flat wrote |
| FlatFormat.CStringOf | src/core/logic/FlatVectorStore.cpp:157-159 | std::string(ptr) at a written id reads exactly that id, which is NUL-terminated inside the file |
| FlatFormat.IdEntry | src/core/logic/FlatVectorStore.cpp:156-159 | offset-table entry i leads to id i written at VectorStore.cpp:379-409, NUL-terminated inside the file |
| FlatFormat.FlatInBounds | src/core/logic/FlatVectorStore.cpp:96-160 | everything search reads from a save_flat file lies inside it |
| FlatFormat.AcceptedOf | src/core/logic/FlatVectorStore.cpp:35-78 | load accepts a file laid out for a store exactly when the store is non-empty (an empty store's 64-byte file fails the offset check) |
| FlatFormat.FlatAccepted | src/core/logic/FlatVectorStore.cpp:35-78 | load accepts the file save_flat writes exactly when the store was non-empty |
| FlatFormat.FlatCandidates | src/core/logic/FlatVectorStore.cpp:96-125 | one (index, score) per vector of the file, the i-th carrying index i |
| FlatFormat.Resolve | src/core/logic/FlatVectorStore.cpp:150-160 | one id per ranked index, the score kept |
| FlatFormat.DecodeBlock | src/core/logic/FlatVectorStore.cpp:105-108 | the blocks save_flat writes for vector i (VectorStore.cpp:352-373) decode to the heap store's vector i |
| FlatFormat.VectorBack | src/core/logic/FlatVectorStore.cpp:100-124 | vector i read from the file is the stored vector i, dequantized as the heap store does |
| FlatFormat.FlatAgreesWithHeap | src/core/logic/FlatVectorStore.cpp:83-163 | on a save_flat file, the flat store's candidates with each index resolved to its id are exactly the heap store's candidates (VectorStore.cpp:51-99) |
| FlatStore.FlatVectorStore.constructor | src/core/logic/FlatVectorStore.cpp:13 | a new flat store maps nothing and holds no vectors |
| FlatStore.FlatVectorStore.Close | src/core/logic/FlatVectorStore.cpp:18-25 | close unmaps, resets the three pointers, the count and the dimension |
| FlatStore.FlatVectorStore.Load | src/core/logic/FlatVectorStore.cpp:27-81 | load succeeds exactly when the file maps and passes the size, magic, version and offset checks, and then exposes the file's header; a map failure returns before anything is reset, so the old count and dimension stay; any later failure closes the store |
| FlatStore.FlatVectorStore.Search | src/core/logic/FlatVectorStore.cpp:83-163 | nothing when no file is mapped, the file holds no vectors or the query has the wrong length; otherwise the ids of a top-limit selection of the file's candidates |
| FlatStore.ReadFlatHeader | src/core/logic/FlatVectorStore.cpp:35-78 | load's checks in their order accept exactly the files with a valid header, and yield the header load keeps |
| FlatStore.ScoreFile | src/core/logic/FlatVectorStore.cpp:96-125 | the scoring loop yields exactly the file's candidates |
| FlatStore.ReadVector | src/core/logic/FlatVectorStore.cpp:100-124 | vector i is read at vectors_ptr + i * dim and dequantized with params entry i in quantized mode |
| FlatStore.ResolveIds | src/core/logic/FlatVectorStore.cpp:150-160 | the id loop resolves each ranked index through the offset table |
| FlatStore.ReadCString | src/core/logic/FlatVectorStore.cpp:157-159 | the bytes up to the first NUL |
| FlatStore.IdsDistinct | src/core/logic/VectorStore.cpp:354-409 | the ids save_flat writes are pairwise different, because the maps are strictly sorted |
| FlatStore.ResolvedTopK | src/core/logic/FlatVectorStore.cpp:129-160 | a top-k over indices, resolved to distinct ids, is a top-k over the resolved candidates |
| FlatStore.FlatTopK | src/core/logic/FlatVectorStore.cpp:83-163 | on a save_flat file, a top-k over the file's indices resolved to ids is a top-k over the heap store's candidates |
| FlatStore.SearchSavedFlat | src/core/logic/FlatVectorStore.cpp:27-163 | a file written by save_flat loads exactly when the store was non-empty, and a search of it returns a top-limit selection of the heap store's own candidates |
| FlatStore.StaleSizeAfterFailedLoad | src/core/logic/FlatVectorStore.cpp:28-30 | after a good load, a load whose map fails leaves nothing mapped, yet size() (lines 165-167) still reports the old count and search answers nothing |
| FlatStore.AcceptedButOutOfBounds | src/core/logic/FlatVectorStore.cpp:62-78 | a 65-byte file announcing two one-float vectors passes every check load makes, yet its vectors lie past its end |
| FlatStore.ValidateFlat | src/core/logic/FlatVectorStore.cpp:35-78 | the load checks with the missing bounds checks added accept exactly the files with a valid header whose every vector, params entry and id lies inside the file |
| FlatStore.SavedFlatValidates | src/core/logic/VectorStore.cpp:293-413 | every non-empty file save_flat writes passes the full check |
| Rules.ParseOperator | src/core/logic/RuleEngine.cpp:32-40 | any text other than an operator's own falls back to Equal |
| Rules.ParseOperatorInverts | src/core/logic/RuleEngine.cpp:32-40 | every operator's text parses back to that operator |
| Rules.OperatorTextsComplete | src/core/logic/RuleEngine.cpp:75 | the texts parse_line searches for are exactly the six operators' texts, each parsing to the operator it names |
| Rules.FirstOperator | src/core/logic/RuleEngine.cpp:75-82 | nothing exactly when no text occurs in the segment; otherwise the first text in search order that occurs, at its first occurrence |
| Rules.StripParens | src/core/logic/RuleEngine.cpp:67-69 | removing the parentheses never lengthens a segment (the guarded form, total on the empty segment) |
| Rules.StripParensAgrees | src/core/logic/RuleEngine.cpp:67-69 | wherever front() and back() are defined, the guarded removal is the code's removal |
| Rules.LineRuleExists | src/core/logic/RuleEngine.cpp:42-121 | a line yields a rule exactly when it contains "THEN" and the trimmed text after it contains '='; the rule's key contains no '=' |
| Rules.TrimSlice | src/core/logic/RuleEngine.cpp:13-18 | trim only keeps characters of its input |
| Rules.ConditionOperator | src/core/logic/RuleEngine.cpp:75-86 | a condition's operator is the first one found in search order, and its variable is the trimmed text before it |
| Rules.ConditionValue | src/core/logic/RuleEngine.cpp:86-109 | a segment with an operator yields a condition exactly when its value is quoted or stod accepts it; a quoted value becomes the string without its quotes, anything else the number stod gives |
| Rules.BlankSegmentDropped | src/core/logic/RuleEngine.cpp:63-84 | an empty or all-whitespace segment yields no condition |
| Rules.DoubleAmpersandReachesEmptySegment | src/core/logic/RuleEngine.cpp:63-68 | a premise with "&&" delivers a segment that trims to the empty string, on which line 68 calls front() |
| Rules.CheckSpec | src/core/logic/RuleEngine.cpp:123-153 | a number never matches a string; strings support only == and !=, which are exact complements; on numbers each order operator is the complement of its converse, == holds within 1e-9, and == and != are never both true and both fail at a distance of exactly 1e-9 |
| Rules.FirstMatch | src/core/logic/RuleEngine.cpp:155-177 | nothing exactly when no rule matches; otherwise the result value of the first rule, in load order, whose every condition names a present, satisfied input |
| Rules.Lift | src/core/logic/RuleEngine.cpp:179-184 | the same keys, each value becoming a number |
| Rules.NumbersNeverMatchStrings | src/core/logic/RuleEngine.cpp:179-186 | through the numeric overload, a rule comparing any variable with a string never matches |
| Rules.FindOperator | src/core/logic/RuleEngine.cpp:75-82 | the operator loop finds the first operator in search order |
| Rules.RuleEngine.constructor | src/core/logic/RuleEngine.cpp:9 | a new engine holds no rules |
| Rules.RuleEngine.LoadRules | src/core/logic/RuleEngine.cpp:20-30 | the rules become those of the text's non-empty lines, in order; the result is true exactly when at least one rule was kept |
| Rules.RuleEngine.ParseLine | src/core/logic/RuleEngine.cpp:42-121 | appends the line's rule, if it has one, and nothing else |
| Rules.RuleEngine.Evaluate | src/core/logic/RuleEngine.cpp:155-177 | returns the first match over the loaded rules |
| Rules.RuleEngine.EvaluateNumbers | src/core/logic/RuleEngine.cpp:179-186 | returns the first match over the inputs as numbers |
| Rules.ParseConditions | src/core/logic/RuleEngine.cpp:63-111 | the segment loop collects one condition per segment that yields one, in order |
| Rules.ParseSegment | src/core/logic/RuleEngine.cpp:64-110 | the loop body yields the segment's condition, if any |
| Rules.RuleHolds | src/core/logic/RuleEngine.cpp:157-170 | the condition loop answers whether the rule matches the inputs |
| Sat.NegateSpec | src/core/logic/SatSolver.cpp:79-81 | negation is an involution that changes the literal, and a literal and its negation are never both true (exactly one is, once the variable is assigned) |
| Sat.FirstVar | src/core/logic/SatSolver.cpp:133 | the literal dpll splits on names a variable of the formula |
| Sat.Reduce | src/core/logic/SatSolver.cpp:90-101 | a literal remains in the clause exactly when it was there and is not the negation of the unit |
| Sat.PropagateMembers | src/core/logic/SatSolver.cpp:84-108 | the propagated formula's clauses are exactly the reduced clauses that did not contain the unit |
| Sat.PropagateVars | src/core/logic/SatSolver.cpp:84-108 | propagation removes the unit's variable and adds none |
| Sat.PropagateBack | src/core/logic/SatSolver.cpp:84-108 | an assignment making the unit true and satisfying the propagated formula satisfies the original one |
| Sat.PropagateSat | src/core/logic/SatSolver.cpp:84-108 | an assignment satisfying the formula and not making the unit false satisfies the propagated formula |
| Sat.FirstUnit | src/core/logic/SatSolver.cpp:121-127 | a unit literal found is a clause of the formula on its own; none is found exactly when no clause has one literal |
| Sat.SolveFrame | src/core/logic/SatSolver.cpp:111-142 | dpll changes the assignment only at variables of its formula |
| Sat.SolveSound | src/core/logic/SatSolver.cpp:111-142 | when dpll answers true, the assignment it leaves satisfies the formula |
| Sat.SatisfiedHasNoEmptyClause | src/core/logic/SatSolver.cpp:115-117 | a satisfiable formula has no empty clause, so the conflict check never rejects one |
| Sat.SolveComplete | src/core/logic/SatSolver.cpp:111-142 | dpll answers true on every formula some assignment satisfies, from any starting assignment |
| Sat.SolveCorrect | src/core/logic/SatSolver.cpp:111-142 | dpll answers true exactly when the formula is satisfiable, and then leaves a satisfying assignment |
| Sat.PropagateFormula | src/core/logic/SatSolver.cpp:84-108 | propagate's two loops compute the propagated formula |
| Sat.ReduceClause | src/core/logic/SatSolver.cpp:87-101 | the literal loop reports the clause satisfied exactly when it holds the unit, and otherwise yields the reduced clause |
| Sat.Dpll | src/core/logic/SatSolver.cpp:111-142 | the recursive procedure computes dpll's answer and the assignment it leaves |
| Sat.ClauseOf | src/core/logic/SatSolver.cpp:48-61 | a clause has at most one literal per '|'-separated piece |
| Sat.ClausesOf | src/core/logic/SatSolver.cpp:42-65 | the parsed formula never holds an empty clause |
| Sat.ParseLiteralSpec | src/core/logic/SatSolver.cpp:50-60 | a piece yields no literal exactly when it is all whitespace; otherwise the literal is the trimmed piece, without its '!' when negative |
| Sat.ParseCnfShape | src/core/logic/SatSolver.cpp:36-66 | the parsed formula has no empty clause and no variable name contains '&' or '|' |
| Sat.SplitChars | src/core/logic/SatSolver.cpp:42-48 | each piece getline delivers is made of characters of the string it splits |
| Sat.SimpleFormulaParse | src/core/logic/SatSolver.cpp:34-35 | "A \| B & !A" parses to (A or B) and (not A) |
| Sat.SimpleFormulaSolve | src/core/logic/SatSolver.cpp:111-142 | on (A or B) and (not A), dpll answers true with A false and B true |
| Sat.ContradictionParse | src/core/logic/SatSolver.cpp:36-66 | "A & !A" parses to A and (not A) |
| Sat.ContradictionSolve | src/core/logic/SatSolver.cpp:111-142 | dpll answers false on A and (not A) |
| Sat.ParseClause | src/core/logic/SatSolver.cpp:43-61 | the literal loop builds the clause of the segment's pieces |
| Sat.SatSolver.constructor | src/core/logic/SatSolver.cpp:9 | a new solver has no assignment and no formula |
| Sat.SatSolver.Reset | src/core/logic/SatSolver.cpp:16-19 | clears the assignment and the formula |
| Sat.SatSolver.ParseFormula | src/core/logic/SatSolver.cpp:36-66 | replaces the formula by the parsed one |
| Sat.SatSolver.Check | src/core/logic/SatSolver.cpp:68-77 | the formula becomes the parsed one; the answer is Satisfiable exactly when it is satisfiable, and then the assignment left satisfies it |
| Sat.SatSolver.GetModel | src/core/logic/SatSolver.cpp:25-31 | one entry per assigned variable, "true" or "false" as assigned |
| Text.Lead | src/core/logic/RuleEngine.cpp:14 | find_first_not_of: the leading characters counted are whitespace and the next one is not |
| Text.Trail | src/core/logic/RuleEngine.cpp:16 | find_last_not_of: the trailing characters counted are whitespace and the one before them is not |
| Text.InnerSpec | src/core/logic/RuleEngine.cpp:13-18 | trimming a string that is not all whitespace leaves a non-empty slice whose ends are not whitespace, with only whitespace outside it |
| Text.TrimIdempotent | src/core/logic/RuleEngine.cpp:13-18 | trimming twice equals trimming once, for both trims |
| Text.StripIsTrim | src/core/logic/SatSolver.cpp:50-51 | the solver's erase pair differs from the rule engine's trim only on all-whitespace strings, which it empties |
| Text.FindFrom | src/core/logic/RuleEngine.cpp:46 | find returns the first position at or after the start where the pattern occurs, and nothing when there is none |
| Text.IndexOf | src/core/logic/RuleEngine.cpp:115 | the first position holding the character, or the length when none does |
| Text.IndexOfIs | src/core/logic/RuleEngine.cpp:115 | a position holding the character with none before it is the one found |
| Text.TrimIs | src/core/logic/RuleEngine.cpp:13-18 | both trims yield the slice with non-whitespace ends and only whitespace outside it |
| Text.Split | src/core/logic/RuleEngine.cpp:63 | getline delivers no piece exactly for the empty text, and no piece contains the delimiter |
| Text.SplitAt | src/core/logic/SatSolver.cpp:42 | the first piece runs up to the first delimiter, the rest is split after it |
| Text.SplitLast | src/core/logic/SatSolver.cpp:48 | a non-empty text without the delimiter is one piece |
| Text.SplitTwo | src/core/logic/SatSolver.cpp:48 | a text with one delimiter, not at its end, is two pieces |
| Text.JoinCons | src/core/logic/RuleEngine.cpp:24 | joining a first piece in front of the others puts the delimiter between them |
| Text.SplitJoin | src/core/logic/RuleEngine.cpp:24 | the pieces getline delivers, joined with the delimiter, give the text back apart from a final delimiter |

## Left out

- Floating point: every `float` and `double` is a `real`, with no overflow, NaN or infinity. In the file formats a binary32 field stays its four bytes. `Float32.Val` reads those bytes as a real. `Float32.FromReal`, the rounding back, truncates toward zero instead of rounding to nearest even, so the model does not reproduce the exact bit patterns the C++ writes for computed values.
- Cosine similarity, the FFT kernel, `std::sqrt` and `std::stod` are function parameters. The DSP kernel's numerics and its NEON code are not part of this model; only the dot-product norm the signal processor relies on is stated.
- File and OS I/O: file contents are byte sequences. A file that cannot be opened is `None`, and open, fstat and mmap enter as oracle answers. Failed writes partway through an `ofstream` are not modelled.
- The `_WIN32` branch of the memory mapper is not modelled; only the POSIX branch is.
- `generate_key` draws from `std::random_device` and `std::mt19937`; here the draws are a parameter, and the key is stated in terms of them.
- `KnowledgeGraph::memory_usage_bytes` is an estimate based on container capacity, which the C++ library defines, so it is not modelled.
- `SatSolver::initialize` and `SatSolver::set_param` do nothing and are not modelled.
- Iteration order of the `std::unordered_map` that `get_model` returns: the model is a map, without an order.
- The mechanics of `std::stringstream` and `std::getline` are modelled only by the pieces they deliver (`Text.Split`).
- The SAT parser keeps parentheses as part of variable names, as the code does; the model does not strip them either.
- The in-place `std::sort` and `std::partial_sort` of the search results are modelled as a selection over a local sequence. The order of equal scores is left open, since neither sort is stable.
- Integer widths: counts, lengths and dimensions are unbounded. Where a `uint32_t` or `uint64_t` field or loop counter would wrap, members require the value to fit instead.
- Quantizer.QuantizeScalar: the rounded quotient is cast to `int32_t` before the int8 clamp (Quantizer.cpp:63). That cast is undefined in C++ once the quotient leaves the int32 range. For example, on x86 a huge positive value comes back as -128. The model clamps the unbounded integer instead, and Quantizer.QuantizeSaturates states saturation only where the cast is defined.
- Quantizer.RangeParams: the zero point's `static_cast<int32_t>` (Quantizer.cpp:32) is undefined in the same way when min / scale leaves the int32 range, for example for a very narrow range far from 0. The model clamps the unbounded integer.
- VectorStoreFormat.LoadFile: allocation failures are not modelled. A hostile file can make `std::string id(id_len, '\0')` or `std::vector vec(vector_dim_)` (VectorStore.cpp:267, 275, 281) throw `std::bad_alloc` after `clear()` has already emptied the store; the model always returns a state and a flag.
- VectorStoreFormat.LoadFile: a quantized record read from a stream that has already failed leaves `QuantizationParams params` (VectorStore.cpp:271) uninitialised in C++. The model stores zero parameters there instead.
- GraphFormat.ParseGraph: allocation failures are not modelled. The `reserve` and `resize` calls sized by counts read from the file (KnowledgeGraph.cpp:442-523) can throw `std::bad_alloc` after the graph has been reset; the model always returns a graph and a flag.
- HeapVectorStore.VectorStore.SaveFlat: requires every vector to have the store's dimension and that dimension to fit in 32 bits, which `add_vector` maintains but the class does not carry as an invariant.
- GraphStore.KnowledgeGraph.QuerySubjects: requires fewer than 2^32 adjacency lists, since the `uint32_t` loop counter would otherwise never reach the end.
- GraphStore.KnowledgeGraph.FindSimilar: requires fewer than 2^32 embedding slots, for the same `uint32_t` counter.
- FlatStore.FlatVectorStore.Search: requires that every vector, params entry and id of the mapped file lies inside it. `load` does not guarantee this (see Findings); a file that breaks it makes the C++ read out of bounds.
- Ids containing NUL bytes are not covered by the flat-format round trip. The NUL-terminated id section cannot represent them, so the round-trip lemmas require ids without NUL.
- KalmanFilter, ModelRunner (a TensorFlow Lite wrapper), the JNI bridge, the Java and Kotlin wrappers, the Android services and the benchmarks are not part of this model.
- Destructors are not modelled separately; the unmap and close they call are.

## Findings

| source | as written | input that shows it | evidently intended | confidence | as-written member | corrected member |
|---|---|---|---|---|---|---|
| src/core/optimization/Quantizer.cpp:31-36 | the zero point is clamped to the int8 range, so a data range that does not include 0 loses its low end | the vector [10.0, 11.0]: the zero point is clamped to -128, 10.0 quantizes to 127 and dequantizes to 1.0 | widen the range to include 0 before computing scale and zero point, so the zero point needs no clamp and every value round-trips within half a scale step | not executed | Quantizer.ClampedZeroPointLosesRange | Quantizer.RoundTripErrorBound |
| src/core/logic/FlatVectorStore.cpp:63-78 | load checks only that each section offset is below the file size, not that the sections fit | a 65-byte file with count 2, dim 1, vectors at 64 and ids at 64 passes every check, yet its two vectors need bytes 64-71 | check that the vectors, params table, offset table and ids all lie inside the file | not executed | FlatStore.AcceptedButOutOfBounds | FlatStore.ValidateFlat |
| src/core/logic/RuleEngine.cpp:64-69 | front() and back() are called on the trimmed segment even when it is empty | the premise "x&&y" delivers an empty middle segment, on which front() is undefined | skip empty segments before removing parentheses | not executed | Rules.DoubleAmpersandReachesEmptySegment | Rules.BlankSegmentDropped |

The vector store and the knowledge graph quantize with `calculate_params` as written, so their saved files and scores follow the code. The corrected parameters (`Quantizer.ParamsFor`) are used only to state the repaired round-trip bound.
