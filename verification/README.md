# Verification of the block, transaction and receipt data layer

This project models the wrapper classes of bcos-tars-protocol over their schema-defined records, and
proves what they keep, lose and return. It has four parts.

**The codec** (`TarsWire`, `TarsCodec`, `TarsBytes`, `TarsMalformed`, `TarsEvolution`,
`TarsCanonical`, `Records`, `RecordCodec`, `HashedBytes`, `BetweenNodes`). The generated `writeTo`
and `readFrom` are not in the repository, so they are modelled from the schemas and the public Tars
data encoding: one writer and one reader, driven by a schema value. A writer may leave out any
optional field that holds its default; which ones it leaves out is a predicate on the path to the
field, and every theorem holds for every such predicate. Sizes are converted to signed 32-bit
integers as the stream does, so decoding an encoding gives the record back *if and only if* its
lengths fit: lists and byte vectors below 2^31 elements, strings below 2^32 bytes. Two writers agree
on the bytes exactly when they leave out the same defaults, so nodes with different writers agree on
every header hash, and on a transaction hash unless the recipient is empty. The bytes are pinned
down as numbers, field by field for every record. A value cut short or of another type, and a record
without a required field, are refused.

**The caches** (`TransactionState`, `TransactionViews`, `HeaderState`, `ReceiptState`,
`BlockState`). Each wrapper is a state machine: its record, its buffers and its lazily filled lists.
For each call there is a guard that says exactly when the call keeps the caches in agreement with
the record; the run theorems follow from it, and so do the cases where the code does not keep them:

- a setter of a transaction's envelope after the full buffer was filled is missing from `encode`;
- a header setter after `hash` leaves the old hash in place until `clear`;
- a header view that has read the parent list does not see a list set through another view;
- `decode` and `setInner` leave the data buffer and the lazily decoded lists alone, and so does a record
  put in place under a view: a view of a transaction that has hashed, asked again after `setTransaction`
  with an empty memo, stores the hash of the old data in the new record, and the receiver of the block
  gets it;
- new log entries after `hash` leave the old hash of a receipt in place;
- `nonceList` on a list with a text that is not a number throws once, and then returns the numbers
  before that text as if they were the whole list;
- `setSignatureList` appends.

**The objects** (`BufferWriter`, `SharedRecords`, `TransactionImplementation`,
`BlockHeaderImplementation`, `HeaderInterleaving`, `ReceiptImplementation`, `BlockImplementation`,
`BlockViews`). The wrappers as classes on the heap. A getter is either to a record of its own or
into a shared block, by index; it looks the element up on every use. Each method is proved to do to
the heap what the state machine does to its state, also when several wrappers share a record.

**The converters** (`Converters`) between the framework's ledger and gateway records and their wire
forms.

From outside come, as parameters: the hash and signature functions, the framework's reading of a
topic of any length as a 32-byte value (32 bytes are taken to be read as they are), the omission
choices of the generated writer, the growth policy of the output stream and the walk order of hash
maps. The hash is arbitrary; where a statement needs it not to collide, it says so of the two
encodings concerned.

In the transaction round trips the code and the wording of its tests agree. Where they might be read
to differ, the code is followed: a writer's `_buf_len` equals the size of its vector after
`swap(vector)` only if the caller's vector was empty, although the fields are named as if always.

## Model

| member | source | states |
|---|---|---|
| `TarsWire.ReadHeadOfWriteHead` | README.md:12 | Head bytes of the Tars data encoding: a reader recovers the type code and the tag, in the one-byte form (tag below 15) and the two-byte form |
| `TarsWire.ReadIntOfPayload` | bcos-tars-protocol/tars/Block.tars:7-28 | Every 64-bit integer, in the form it is written in, is read back by any reader wide enough for it |
| `TarsWire.ReadSizeOfWriteSize` | bcos-tars-protocol/tars/Block.tars:41-45 | A size comes back if it is below 2^31; above that the conversion to a signed 32-bit size makes the reader fail or see another size |
| `TarsBytes.IntegerBytes` | README.md:12 | The bytes of every integer: code 12 alone for zero, else code 0, 1, 2 or 3 and one, two, four or eight bytes of two's complement, most significant first, the narrowest that holds it; the tag in the head byte below 15, in a byte of its own otherwise |
| `TarsBytes.NarrowestForm` | README.md:12 | No integer form whose width holds the number is shorter than the one written; the lengths are 1, 2, 3, 5 or 9, one more for tags from 15 |
| `TarsBytes.SizeBytes` | README.md:12 | Sizes are integers with tag 0, byte for byte |
| `TarsBytes.TextBytes` | README.md:12 | Text of up to 255 bytes has code 6 and a length byte, longer text code 7 and four length bytes |
| `TarsBytes.BlobBytes` | README.md:12 | Byte vectors have code 13, an element head, their size and their bytes |
| `TarsBytes.NestedBytes` | README.md:12 | Lists have code 9, their size and their elements; structures stand between codes 10 and 11 |
| `TarsBytes.IntegerExamples` | README.md:12 | Six integers and their bytes |
| `TarsMalformed.WrongTag` | bcos-tars-protocol/protocol/BlockImpl.cpp:26-32 | A value with another tag than the one asked for is refused |
| `TarsMalformed.WrongKind` | bcos-tars-protocol/protocol/BlockImpl.cpp:26-32 | A value of another kind of type is refused |
| `TarsMalformed.TooWide` | bcos-tars-protocol/protocol/BlockImpl.cpp:26-32 | A number that needs eight bytes is refused where 32 bits are asked for |
| `TarsMalformed.SizeOfInteger` | bcos-tars-protocol/protocol/BlockImpl.cpp:26-32 | A size must be a 32-bit integer and not negative |
| `TarsMalformed.WrongElements` | bcos-tars-protocol/protocol/BlockImpl.cpp:26-32 | A byte vector with elements of another type, and the end of a structure in place of a value, are refused |
| `TarsMalformed.CutShort` | bcos-tars-protocol/protocol/BlockImpl.cpp:26-32 | No value of any schema type can be read from a proper beginning of its bytes |
| `TarsMalformed.ReadTaggedExtends` | bcos-tars-protocol/protocol/BlockImpl.cpp:26-32 | What has been read does not depend on the bytes behind it |
| `TarsCodec.ReadTaggedOfWrite` | bcos-tars-protocol/tars/Transaction.tars:2-20 | A value of any schema type, followed by any bytes, is read back with exactly those bytes left, precisely if all its lengths fit; otherwise it is never returned |
| `TarsCodec.ReadFieldsOfWriteFields` | bcos-tars-protocol/tars/Transaction.tars:12-20 | Fields in ascending tag order are read back field by field, an omitted optional field as its default |
| `TarsCodec.FieldsAreBeyond` | bcos-tars-protocol/tars/Transaction.tars:16-19 | After the fields up to a tag have been read or left out, no field of that tag or a smaller one follows; this is what makes an omitted field recognisable |
| `TarsCodec.DecodeOfEncode` | bcos-tars-protocol/protocol/BlockImpl.cpp:26-40 | For every schema and every writer (every choice of default-valued optional fields left out, at any depth), decoding an encoding gives the record back if and only if its lengths fit |
| `TarsCodec.EncodeInjective` | bcos-tars-protocol/protocol/TransactionImpl.cpp:41-42 | Two different records that fit never have the same encoding, not even from different writers |
| `TarsEvolution.SkipOfWrite` | bcos-tars-protocol/tars/Block.tars:31-46 | Skipping an unknown field of any type consumes exactly what its writer produced |
| `TarsEvolution.DecodeAcrossVersions` | bcos-tars-protocol/tars/Transaction.tars:12-20 | A reader and a writer with different versions of a schema: decoding succeeds if and only if the writer has written every field the reader requires, and then every field of the reader holds the value the writer gave that tag, or its default if the writer has no such tag |
| `TarsEvolution.MissingRequiredField` | bcos-tars-protocol/tars/Block.tars:16-29 | An encoding by a writer without a tag that the reader requires never decodes |
| `TarsEvolution.SkipFloats` | README.md:12 | Unknown floating point values are skipped |
| `TarsEvolution.SkipMap` | README.md:12 | Unknown maps of any key and value types are skipped |
| `TarsCanonical.SameEncoding` | bcos-tars-protocol/protocol/TransactionImpl.cpp:40-42 | Two writers encode the same fitting value to the same bytes if and only if they leave out the same defaults, at every depth; for every schema and value |
| `TarsCanonical.LeftOutOrWritten` | bcos-tars-protocol/tars/Transaction.tars:12-20 | A writer that leaves a default out and one that writes it never produce the same bytes, whatever follows |
| `TarsCanonical.NoChoice` | bcos-tars-protocol/tars/Block.tars:16-29 | A schema without optional fields at any depth leaves a writer no choice |
| `Records.BlockForth` | bcos-tars-protocol/tars/Block.tars:37-46 | The typed block record is recovered from its schema value |
| `Records.BlockBack` | bcos-tars-protocol/tars/Block.tars:37-46 | Every value of the block schema is that of exactly one typed block record |
| `RecordCodec.BlockWellFormed` | bcos-tars-protocol/tars/Block.tars:5-46 | The block schema and all nested schemas have ascending tags |
| `HashedBytes.TransactionDataLayout` | bcos-tars-protocol/tars/Transaction.tars:2-10 | The hashed bytes of a transaction, field by field: tags 1 to 7 in order, the recipient left out only when empty |
| `HashedBytes.TransactionLayout` | bcos-tars-protocol/tars/Transaction.tars:12-20 | The bytes of a whole transaction, field by field; the sender, tag 7, comes last although declared fourth |
| `HashedBytes.ReceiptDataLayout` | bcos-tars-protocol/tars/TransactionReceipt.tars:8-16 | The hashed bytes of a receipt, field by field: contract address, output and logs are the only fields that may be left out, and only when empty |
| `HashedBytes.HeaderDataLayout` | bcos-tars-protocol/tars/Block.tars:16-29 | The hashed bytes of a header are its twelve required fields, tags 2 to 13 in order, none left out even when it holds its default |
| `HashedBytes.LogEntryLayout` | bcos-tars-protocol/tars/TransactionReceipt.tars:2-6 | The bytes of a log entry, field by field |
| `HashedBytes.ReceiptLayout` | bcos-tars-protocol/tars/TransactionReceipt.tars:18-21 | The bytes of a whole receipt, field by field |
| `HashedBytes.MetaDataLayout` | bcos-tars-protocol/tars/TransactionMetaData.tars:2-7 | The bytes of transaction metadata, field by field |
| `HashedBytes.ParentInfoLayout` | bcos-tars-protocol/tars/Block.tars:6-9 | The bytes of a parent info, field by field |
| `HashedBytes.SignatureLayout` | bcos-tars-protocol/tars/Block.tars:11-14 | The bytes of a signature, field by field |
| `HashedBytes.HeaderLayout` | bcos-tars-protocol/tars/Block.tars:31-35 | The bytes of a whole header, field by field |
| `HashedBytes.BlockLayout` | bcos-tars-protocol/tars/Block.tars:37-46 | The bytes of a block, field by field |
| `HashedBytes.TransactionExample` | bcos-tars-protocol/tars/Transaction.tars:2-10 | Twenty bytes that are hashed for a small transaction |
| `HashedBytes.HeaderBytesAreCanonical` | bcos-tars-protocol/protocol/BlockHeaderImpl.cpp:43-56 | The bytes hashed for a header are the same from every writer |
| `HashedBytes.TransactionBytesAreCanonical` | bcos-tars-protocol/protocol/TransactionImpl.cpp:38-43 | The bytes hashed for a transaction are the same from two writers if and only if the recipient is not empty or both treat an empty one alike |
| `HashedBytes.ReceiptBytesAreCanonical` | bcos-tars-protocol/protocol/TransactionReceiptImpl.cpp:46-57 | Those hashed for a receipt, if and only if both treat alike whatever is empty among contract address, output, log entries and the fields of each log entry |
| `BetweenNodes.HeaderMemoTravels` | bcos-tars-protocol/protocol/BlockHeaderImpl.cpp:43-56 | A header hash that is right for one node is right for every node with the same hash function |
| `BetweenNodes.TransactionMemoTravels` | bcos-tars-protocol/protocol/TransactionImpl.cpp:64-74 | A transaction hash that is right for one node is right for another exactly in the case above, unless the hash collides on what the two write |
| `BetweenNodes.ReceiptMemoTravels` | bcos-tars-protocol/protocol/TransactionReceiptImpl.cpp:46-57 | Likewise for receipts |
| `RecordCodec.ReceiptFitsVal` | bcos-tars-protocol/tars/TransactionReceipt.tars:2-21 | Fitting, spelled out as bounds on the lists, strings and byte vectors of a receipt and its log entries |
| `RecordCodec.HeaderFitsVal` | bcos-tars-protocol/tars/Block.tars:5-35 | Fitting, spelled out as bounds on the lists, strings and byte vectors of a header |
| `RecordCodec.TransactionFitsVal` | bcos-tars-protocol/tars/Transaction.tars:12-20 | Fitting, spelled out as bounds on the strings and byte vectors of a transaction |
| `RecordCodec.TransactionRoundTrip` | bcos-tars-protocol/protocol/TransactionImpl.cpp:26-62 | Decode of encode gives a transaction back if and only if its lengths fit |
| `RecordCodec.DecodedTransactionFits` | bcos-tars-protocol/protocol/TransactionImpl.cpp:26-34 | What was decoded can be encoded again |
| `RecordCodec.TransactionDataInjective` | bcos-tars-protocol/protocol/TransactionImpl.cpp:40-42 | The hashed encoding determines the transaction data |
| `RecordCodec.TransactionDataNonEmpty` | bcos-tars-protocol/protocol/TransactionImpl.cpp:38-43 | The data encoding is never empty, so an empty data buffer soundly means "not computed" |
| `RecordCodec.HashedTransactionNonEmpty` | bcos-tars-protocol/protocol/TransactionImpl.cpp:51-58 | A transaction with its hash filled in never encodes to nothing, so an empty full buffer soundly means "not computed" |
| `RecordCodec.ReceiptRoundTrip` | bcos-tars-protocol/protocol/TransactionReceiptImpl.cpp:26-39 | Decode of encode gives a receipt back if and only if its lengths fit |
| `RecordCodec.HeaderRoundTrip` | bcos-tars-protocol/protocol/BlockHeaderImpl.cpp:27-41 | Decode of encode gives a header back if and only if its lengths fit |
| `RecordCodec.HeaderDataInjective` | bcos-tars-protocol/protocol/BlockHeaderImpl.cpp:47-48 | The hashed encoding determines the header data |
| `RecordCodec.ReceiptDataInjective` | bcos-tars-protocol/protocol/TransactionReceiptImpl.cpp:50-53 | The hashed encoding determines the receipt data |
| `RecordCodec.DecodedReceiptFits` | bcos-tars-protocol/protocol/TransactionReceiptImpl.cpp:26-32 | What was decoded can be encoded again |
| `RecordCodec.DecodedHeaderFits` | bcos-tars-protocol/protocol/BlockHeaderImpl.cpp:27-33 | What was decoded can be encoded again |
| `RecordCodec.BlockRoundTrip` | bcos-tars-protocol/protocol/BlockImpl.cpp:26-40 | Any numbers of transactions, receipts, metadata, nonces, sealers and signatures: decode of encode gives the block back if and only if its lengths fit, for every writer |
| `RecordCodec.DefaultRecords` | bcos-tars-protocol/protocol/BlockHeaderImpl.cpp:58-62 | The reset records hold the defaults of their schemas at every depth |
| `RecordCodec.TransactionDecodesFromNothing` | bcos-tars-protocol/protocol/TransactionFactoryImpl.h:36-48 | Empty input decodes to the default transaction |
| `RecordCodec.HeaderDecodesFromNothing` | bcos-tars-protocol/protocol/BlockHeaderImpl.cpp:27-33 | Empty input decodes to the default header |
| `RecordCodec.ReceiptDecodesFromNothing` | bcos-tars-protocol/protocol/TransactionReceiptImpl.cpp:26-32 | Empty input decodes to the default receipt |
| `RecordCodec.BlockDecodesFromNothing` | bcos-tars-protocol/protocol/BlockImpl.cpp:26-32 | Empty input decodes to the default block |
| `Decimal.PrintIsDecimal` | bcos-tars-protocol/protocol/TransactionFactoryImpl.h:70 | The printed text is canonical decimal (no leading zero unless it is "0") and its value is the number |
| `Decimal.PrintOfValue` | bcos-tars-protocol/protocol/TransactionImpl.cpp:78-81 | Every canonical text is the print of its value: printing is a bijection onto canonical texts |
| `Decimal.ParseOfPrint` | bcos-tars-protocol/protocol/TransactionImpl.cpp:76-83 | A 256-bit number survives being stored as text |
| `Decimal.PrintOfParse` | bcos-tars-protocol/protocol/TransactionImpl.cpp:76-83 | A parsed canonical text is the print of the result if and only if its value is below 2^256 |
| `Decimal.PrintInjective` | bcos-tars-protocol/protocol/BlockImpl.cpp:100-103 | Different numbers print differently |
| `Decimal.U256Length` | bcos-tars-protocol/protocol/BlockHeaderImpl.h:113-116 | 78 digits always suffice and are needed by the largest number |
| `Decimal.ParseOfAnyPrint` | bcos-tars-protocol/protocol/TransactionImpl.cpp:76-83 | A printed number beyond 256 bits is read modulo 2^256 |
| `Decimal.PrintExample` | bcos-tars-protocol/protocol/BlockImpl.cpp:100-103 | The digits are those of ASCII |
| `BufferWriter.BufferWriterByteVector.constructor` | bcos-tars-protocol/Common.h:60-68 | A new writer is empty |
| `BufferWriter.BufferWriterByteVector.Reset` | bcos-tars-protocol/Common.h:72 | Forgets what was written |
| `BufferWriter.BufferWriterByteVector.Reserve` | bcos-tars-protocol/Common.h:63-76 | Grows through the reserve callback to at least the request and keeps what was written |
| `BufferWriter.BufferWriterByteVector.WriteBuf` | bcos-tars-protocol/Common.h:74-79 | Appends the bytes, whatever the growth policy |
| `BufferWriter.BufferWriterByteVector.GetByteBuffer` | bcos-tars-protocol/Common.h:81-90 | Returns exactly the bytes written; the writer stays usable if and only if it was full |
| `BufferWriter.BufferWriterByteVector.SwapVector` | bcos-tars-protocol/Common.h:93-100 | Hands the bytes out and starts afresh; capacity equals the size of the vector afterwards if and only if the caller's vector was empty |
| `BufferWriter.BufferWriterByteVector.SwapWriter` | bcos-tars-protocol/Common.h:101-107 | Two writers exchange contents, length and capacity |
| `BufferWriter.WriteTo` | bcos-tars-protocol/protocol/BlockImpl.cpp:36-38 | Writing a record field by field appends exactly its encoding to the stream |
| `BufferWriter.Serialize` | bcos-tars-protocol/protocol/BlockImpl.cpp:34-40 | A fresh stream, writeTo and the stream's buffer give exactly the encoding |
| `RecordStreams.WriteBlock` | bcos-tars-protocol/protocol/BlockImpl.cpp:34-40 | The bytes a block is serialised to |
| `TransactionState.StepKeepsInv` | bcos-tars-protocol/protocol/TransactionImpl.cpp:26-83 | Each call keeps "every cache is empty or agrees with the data" if and only if it meets an explicit guard on its argument and on which caches are filled; only decode and setInner can break it for lack of invalidation |
| `TransactionState.RunKeepsInv` | bcos-tars-protocol/protocol/TransactionImpl.cpp:26-83 | Throughout a run of any calls the caches agree with the record if and only if every call meets its guard |
| `TransactionState.EnvelopeRun` | bcos-tars-protocol/protocol/TransactionImpl.cpp:36-74 | Over any run of reading calls and envelope setters the data is unchanged, the caches stay right and the hash returned is the hash of the data |
| `TransactionState.EncodesRecordWhen` | bcos-tars-protocol/protocol/TransactionImpl.cpp:36-62 | Where the caches agree with the data, what encode returns decodes to the current record with its hash if and only if the full buffer is empty or decodes to that |
| `TransactionState.StepKeepsFresh` | bcos-tars-protocol/protocol/TransactionImpl.cpp:36-62 | A call leaves encode returning the current record with its hash if and only if, while the full buffer is filled, it changes nothing but the memo; a decoded record must bring its memo unless the input is empty |
| `TransactionState.RunKeepsFresh` | bcos-tars-protocol/protocol/TransactionImpl.cpp:36-62 | Throughout a run encode returns the current record with its hash if and only if every call meets that guard |
| `TransactionState.FullEncoding` | bcos-tars-protocol/protocol/TransactionImpl.cpp:36-62 | The full encoding decodes to exactly the current record with its hash filled in; encoding again gives the same bytes, and after takeEncoded the same record |
| `TransactionState.QuietRun` | bcos-tars-protocol/protocol/TransactionImpl.cpp:36-62 | If no setter comes between filling the full buffer and taking it, every call of the run meets its guard |
| `TransactionState.FactoryRunEncodes` | bcos-tars-protocol/protocol/TransactionImpl.cpp:36-62 | From a factory object, after any such run, the full encoding decodes to the record as it is then with its hash |
| `TransactionState.SetterAfterEncodeIsLost` | bcos-tars-protocol/protocol/TransactionImpl.h:62-86 | The failing case: what any of the five envelope setters changes after the full buffer was filled is missing from what encode returns |
| `TransactionState.SetterIsSent` | bcos-tars-protocol/protocol/TransactionImpl.h:50-86 | While the full buffer is empty, and after takeEncoded, what any of the five envelope setters was given is in what encode returns next, in its field, and nothing else there has changed |
| `TransactionState.HashOfCoherent` | bcos-tars-protocol/protocol/TransactionImpl.cpp:64-74 | With agreeing caches the hash returned is the hash of the data, memoised or not |
| `TransactionState.MemoFilledElsewhere` | bcos-tars-protocol/protocol/BlockImpl.cpp:56-61 | Another wrapper of the same record may fill the memo without disturbing this wrapper's caches |
| `TransactionState.EqualityIsDataEquality` | bcos-tars-protocol/protocol/TransactionImpl.h:47 | Where the hash does not collide on the two encodings, equality holds if and only if the data records are equal |
| `TransactionState.SignEncodeDecode` | bcos-tars-protocol/protocol/TransactionFactoryImpl.h:56-90 | For all arguments that fit: the signed hash is the hash of the data bytes of the transaction decoded from the full encoding, which carries that signature, the nonce, and in the field of its name every argument it was built with |
| `TransactionImplementation.TransactionImpl.Decode` | bcos-tars-protocol/protocol/TransactionImpl.cpp:26-34 | Replaces buffer and record, leaves the data buffer; on failure the buffer is already replaced |
| `TransactionImplementation.TransactionImpl.Encode` | bcos-tars-protocol/protocol/TransactionImpl.cpp:36-62 | The whole new state and the returned bytes, in both modes |
| `TransactionImplementation.TransactionImpl.TakeEncoded` | bcos-tars-protocol/protocol/TransactionImpl.h:51 | Returns and empties the full buffer |
| `TransactionImplementation.TransactionImpl.Hash` | bcos-tars-protocol/protocol/TransactionImpl.cpp:64-74 | The whole new state and the returned hash |
| `TransactionImplementation.TransactionImpl.Nonce` | bcos-tars-protocol/protocol/TransactionImpl.cpp:76-83 | The number stored, the cached one if none is stored, none if the cast throws |
| `TransactionImplementation.TransactionImpl.SetImportTime` | bcos-tars-protocol/protocol/TransactionImpl.h:62 | Writes the field of the record the getter denotes and nothing else of its block |
| `TransactionImplementation.TransactionImpl.ForceSender` | bcos-tars-protocol/protocol/TransactionImpl.h:72-75 | Likewise for the sender |
| `TransactionImplementation.TransactionImpl.SetSignatureData` | bcos-tars-protocol/protocol/TransactionImpl.h:77-80 | Likewise for the signature |
| `TransactionImplementation.TransactionImpl.SetAttribute` | bcos-tars-protocol/protocol/TransactionImpl.h:82-83 | Likewise for the attribute, which survives the signed field |
| `TransactionImplementation.TransactionImpl.SetSource` | bcos-tars-protocol/protocol/TransactionImpl.h:85-86 | Likewise for the source |
| `TransactionImplementation.TransactionImpl.SetInner` | bcos-tars-protocol/protocol/TransactionImpl.h:89 | Replaces the record and leaves all caches |
| `TransactionImplementation.TransactionImpl.Equals` | bcos-tars-protocol/protocol/TransactionImpl.h:47 | Equality on the heap, also between wrappers of one record or of one block: true if and only if the data are equal |
| `TransactionImplementation.CreateFromBytes` | bcos-tars-protocol/protocol/TransactionFactoryImpl.h:36-48 | The decoding flow without signature check |
| `TransactionImplementation.Create` | bcos-tars-protocol/protocol/TransactionFactoryImpl.h:56-74 | The building flow |
| `TransactionImplementation.CreateAndSign` | bcos-tars-protocol/protocol/TransactionFactoryImpl.h:76-90 | The build-and-sign flow: every argument in its field, the hash of those data in the memo, and the signature over that hash |
| `TransactionImplementation.SendAndReceive` | bcos-tars-protocol/protocol/TransactionFactoryImpl.h:36-90 | Sign, encode and decode on the heap: the receiver has the record of the sender, with the signed hash, the signature and every argument in its field |
| `HeaderState.ViewsShareTheRecord` | bcos-tars-protocol/protocol/BlockImpl.cpp:42-54 | Any interleaving of calls through any number of views changes the record as the same calls through one view |
| `HeaderState.LastWriteSeen` | bcos-tars-protocol/protocol/BlockImpl.cpp:42-54 | After any interleaving each data field holds what the last call touching it wrote, through whichever view |
| `HeaderState.LastSetterSeen` | bcos-tars-protocol/protocol/BlockHeaderImpl.h:88-142 | After any interleaving the field of each setter holds what its last call was given (version, number, timestamp, sealer, lists, roots, extra data, gas, weights), whichever view it came through |
| `HeaderState.StoredAtOnce` | bcos-tars-protocol/protocol/BlockHeaderImpl.h:88-142 | Each of the twelve data setters stores its argument in the field of its name |
| `HeaderState.StoredStays` | bcos-tars-protocol/protocol/BlockHeaderImpl.h:88-142 | No other call changes it, unless it replaces the record |
| `HeaderState.GettersReadSetters` | bcos-tars-protocol/protocol/BlockHeaderImpl.h:88-141 | Parent infos, gas, weights and roots are read back as they were set |
| `HeaderState.SignaturesAccumulate` | bcos-tars-protocol/protocol/BlockHeaderImpl.cpp:140-150 | setSignatureList appends, so it sets the list if and only if the header had none |
| `HeaderState.StepKeepsHeader` | bcos-tars-protocol/protocol/BlockHeaderImpl.cpp:27-62 | A call keeps the header encodable with a right memo if its argument fits and, with the memo filled, it sets only what is there already; only if, unless the hash collides on the data before and after |
| `HeaderState.RunKeepsHeader` | bcos-tars-protocol/protocol/BlockHeaderImpl.cpp:27-62 | Over whole runs: hash returns the hash of the current data and encode decodes to the current header throughout, if and (without such collisions) only if every call meets its guard |
| `HeaderState.DisciplinedRun` | bcos-tars-protocol/protocol/BlockHeaderImpl.cpp:43-62 | If no data setter follows a hash without a clear between them, hash returns the hash of the data as it is then |
| `HeaderState.HashIsStable` | bcos-tars-protocol/protocol/BlockHeaderImpl.cpp:35-56 | Signing, encoding and reading never change what hash returns |
| `HeaderState.FilledMemoStays` | bcos-tars-protocol/protocol/BlockHeaderImpl.cpp:43-56 | A hash that has been filled in is returned after any run that neither clears nor replaces the record |
| `HeaderState.HashSharedByViews` | bcos-tars-protocol/protocol/BlockImpl.cpp:42-54 | A memo filled through one view is what all views return, whatever is set through any of them afterwards |
| `HeaderState.StaleAfterSetter` | bcos-tars-protocol/protocol/BlockHeaderImpl.h:88-141 | The failing case: a data setter after hash leaves the old hash in place |
| `HeaderState.StepKeepsCaches` | bcos-tars-protocol/protocol/BlockHeaderImpl.cpp:58-79 | A call keeps every view's parent list cache right if and only if the caches it does not clear are empty or hold the new list already |
| `HeaderState.RunKeepsCaches` | bcos-tars-protocol/protocol/BlockHeaderImpl.cpp:64-79 | The caches of all views are right throughout a run if and only if every call meets that condition; then every view returns the parent list of the record |
| `HeaderState.SingleViewIsCoherent` | bcos-tars-protocol/protocol/BlockHeaderImpl.cpp:118-129 | A header changed only through one view, and never replaced, always meets that condition |
| `HeaderState.OtherViewIsStale` | bcos-tars-protocol/protocol/BlockHeaderImpl.cpp:118-129 | The failing case: a second view's new parent list is not seen by a view that has read the old one |
| `HeaderState.ReplacedUnderTheCache` | bcos-tars-protocol/protocol/BlockHeaderImpl.h:153-154 | The failing case of setInner: the view goes on returning the parent list of the record that was replaced |
| `HeaderState.ReadOfStoreParents` | bcos-tars-protocol/protocol/BlockHeaderImpl.cpp:64-129 | Stored parent infos are read back |
| `BlockHeaderImplementation.BlockHeaderImpl.Decode` | bcos-tars-protocol/protocol/BlockHeaderImpl.cpp:27-33 | Replaces the record, leaves the parent list cache |
| `BlockHeaderImplementation.BlockHeaderImpl.Encode` | bcos-tars-protocol/protocol/BlockHeaderImpl.cpp:35-41 | Returns the encoding of the record as it is now |
| `BlockHeaderImplementation.BlockHeaderImpl.Hash` | bcos-tars-protocol/protocol/BlockHeaderImpl.cpp:43-56 | The new record and the returned hash |
| `BlockHeaderImplementation.BlockHeaderImpl.Clear` | bcos-tars-protocol/protocol/BlockHeaderImpl.cpp:58-62 | Resets record and cache |
| `BlockHeaderImplementation.BlockHeaderImpl.ParentInfo` | bcos-tars-protocol/protocol/BlockHeaderImpl.cpp:64-79 | The cached list, or the list decoded from the record, which is then cached |
| `BlockHeaderImplementation.BlockHeaderImpl.SetParentInfo` | bcos-tars-protocol/protocol/BlockHeaderImpl.cpp:118-129 | Replaces the stored list and clears this view's cache |
| `BlockHeaderImplementation.BlockHeaderImpl.SetSealerList` | bcos-tars-protocol/protocol/BlockHeaderImpl.cpp:131-138 | Replaces the stored list |
| `BlockHeaderImplementation.BlockHeaderImpl.SetSignatureList` | bcos-tars-protocol/protocol/BlockHeaderImpl.cpp:140-150 | Appends to the stored list |
| `BlockHeaderImplementation.BlockHeaderImpl.GasUsed` | bcos-tars-protocol/protocol/BlockHeaderImpl.cpp:109-116 | The number whose print is stored, zero if nothing is stored |
| `BlockHeaderImplementation.BlockHeaderImpl.TxsRoot` | bcos-tars-protocol/protocol/BlockHeaderImpl.cpp:81-88 | The stored root, zero if none is stored |
| `BlockHeaderImplementation.BlockHeaderImpl.StateRoot` | bcos-tars-protocol/protocol/BlockHeaderImpl.cpp:90-97 | Likewise |
| `BlockHeaderImplementation.BlockHeaderImpl.ReceiptsRoot` | bcos-tars-protocol/protocol/BlockHeaderImpl.cpp:99-107 | Likewise |
| `BlockHeaderImplementation.BlockHeaderImpl.SetGasUsed` | bcos-tars-protocol/protocol/BlockHeaderImpl.h:113-116 | Stores the printed number |
| `BlockHeaderImplementation.BlockHeaderImpl.SetConsensusWeights` | bcos-tars-protocol/protocol/BlockHeaderImpl.h:125-128 | Stores the weights in signed fields |
| `BlockHeaderImplementation.BlockHeaderImpl.SetNumber` | bcos-tars-protocol/protocol/BlockHeaderImpl.h:109-112 | Stores the number in its field of the shared record and changes nothing else of the record or its block |
| `BlockHeaderImplementation.BlockHeaderImpl.SetVersion` | bcos-tars-protocol/protocol/BlockHeaderImpl.h:88 | Stores the version in its field and changes nothing else |
| `BlockHeaderImplementation.BlockHeaderImpl.SetTxsRoot` | bcos-tars-protocol/protocol/BlockHeaderImpl.h:97-100 | Stores the root in its field and changes nothing else |
| `BlockHeaderImplementation.BlockHeaderImpl.SetReceiptsRoot` | bcos-tars-protocol/protocol/BlockHeaderImpl.h:101-104 | Likewise |
| `BlockHeaderImplementation.BlockHeaderImpl.SetStateRoot` | bcos-tars-protocol/protocol/BlockHeaderImpl.h:105-108 | Likewise |
| `BlockHeaderImplementation.BlockHeaderImpl.SetTimestamp` | bcos-tars-protocol/protocol/BlockHeaderImpl.h:117 | Stores the timestamp in its field and changes nothing else |
| `BlockHeaderImplementation.BlockHeaderImpl.SetSealer` | bcos-tars-protocol/protocol/BlockHeaderImpl.h:118 | Stores the sealer index in its field and changes nothing else |
| `BlockHeaderImplementation.BlockHeaderImpl.SetExtraData` | bcos-tars-protocol/protocol/BlockHeaderImpl.h:135-142 | Stores the extra data in its field and changes nothing else |
| `BlockHeaderImplementation.BlockHeaderImpl.SetInner` | bcos-tars-protocol/protocol/BlockHeaderImpl.h:153-154 | Replaces the record and leaves the cache |
| `HeaderInterleaving.Interleave` | bcos-tars-protocol/protocol/BlockImpl.cpp:42-54 | On the heap: any sequence of calls through any number of aliased wrappers leaves the shared record and each private cache as the state machine says, and the rest of the block as it was |
| `ReceiptState.ReadOfStoreLogs` | bcos-tars-protocol/protocol/TransactionReceiptImpl.h:65-112 | Log entries, nested topic lists included, are read back as stored |
| `ReceiptState.ReceiptStepKeeps` | bcos-tars-protocol/protocol/TransactionReceiptImpl.h:89-112 | A call keeps the receipt encodable with right memo and log cache if, with the memo filled, new log entries are those stored already, and a new record agrees with the cache; only if, unless the hash collides |
| `ReceiptState.ReceiptRunKeeps` | bcos-tars-protocol/protocol/TransactionReceiptImpl.cpp:26-57 | The same over whole runs, in which hash returns the hash of the current data and encode decodes to the current receipt |
| `ReceiptState.StaleAfterSetLogs` | bcos-tars-protocol/protocol/TransactionReceiptImpl.h:94-112 | The failing case: new log entries after hash leave the old hash in place |
| `ReceiptState.ReplacedUnderTheCache` | bcos-tars-protocol/protocol/TransactionReceiptImpl.h:89-90 | The failing case of setInner: log entries read before are returned for the new record |
| `ReceiptState.LogsAreLastSet` | bcos-tars-protocol/protocol/TransactionReceiptImpl.h:65-112 | In every run of setters, getters and hashes the lazy list is the last list set and what the record decodes to |
| `ReceiptState.ReceiptTransport` | bcos-tars-protocol/protocol/TransactionReceiptFactoryImpl.h:53-75 | A built receipt keeps hash, gas, log entries and every other argument, each in its field, across encode and decode, hashed before or not |
| `ReceiptImplementation.TransactionReceiptImpl.Decode` | bcos-tars-protocol/protocol/TransactionReceiptImpl.cpp:26-32 | Replaces the record, leaves the cache |
| `ReceiptImplementation.TransactionReceiptImpl.Encode` | bcos-tars-protocol/protocol/TransactionReceiptImpl.cpp:34-39 | Returns the encoding of the record as it is now |
| `ReceiptImplementation.TransactionReceiptImpl.Hash` | bcos-tars-protocol/protocol/TransactionReceiptImpl.cpp:46-57 | The new record and the returned hash |
| `ReceiptImplementation.TransactionReceiptImpl.GasUsed` | bcos-tars-protocol/protocol/TransactionReceiptImpl.cpp:59-66 | The number whose print is stored, zero if nothing is stored |
| `ReceiptImplementation.TransactionReceiptImpl.LogEntries` | bcos-tars-protocol/protocol/TransactionReceiptImpl.h:65-84 | The cached list, or the list decoded by the nested loops, which is then cached |
| `ReceiptImplementation.TransactionReceiptImpl.SetLogEntries` | bcos-tars-protocol/protocol/TransactionReceiptImpl.h:94-112 | Clears the cache and stores the list by nested loops |
| `ReceiptImplementation.TransactionReceiptImpl.SetInner` | bcos-tars-protocol/protocol/TransactionReceiptImpl.h:89-90 | Replaces the record, leaves the cache |
| `ReceiptImplementation.CreateReceipt` | bcos-tars-protocol/protocol/TransactionReceiptFactoryImpl.h:53-75 | The building flow: every argument in its field, log entries and topics in their order |
| `BlockState.SetReceiptRoom` | bcos-tars-protocol/protocol/BlockImpl.cpp:79-88 | The indexed assignment is in bounds if and only if the index is below the receipt or the transaction count, and then the resize drops no receipt |
| `BlockState.StepHolds` | bcos-tars-protocol/protocol/BlockImpl.cpp:79-94 | Each call refines a reference that keeps the last write to every slot of transactions, receipts and metadata, to the header, its version, the type and the nonce texts; counts never shrink |
| `BlockState.RunHolds` | bcos-tars-protocol/protocol/BlockImpl.cpp:79-94 | The same over whole runs from any block |
| `BlockState.LastWriteWins` | bcos-tars-protocol/protocol/BlockImpl.cpp:79-94 | From an empty block every slot and field holds its last write, receipt slots in a gap a default |
| `BlockState.ViewsSurvive` | bcos-tars-protocol/protocol/BlockImpl.cpp:56-94 | Elements i of both lists are still there after any run, unchanged unless the run wrote to that index |
| `BlockState.TransportKeepsHashes` | bcos-tars-protocol/protocol/BlockImpl.cpp:26-68 | For every block, also without transactions or receipts: the header hash and every transaction and receipt hash read from the decoded block are those of the original, whichever coherent memos were filled before encoding |
| `BlockState.NonceStepKeeps` | bcos-tars-protocol/protocol/BlockImpl.cpp:96-139 | Exactly when a call keeps the nonce cache in agreement with the stored texts, decode and a throwing read included |
| `BlockState.NoncesAreLastSet` | bcos-tars-protocol/protocol/BlockImpl.cpp:96-139 | In every run of sets and reads a read returns the last list set |
| `BlockState.NoncesAreTransported` | bcos-tars-protocol/protocol/BlockImpl.cpp:26-139 | And so does a fresh block decoded from the encoding of a block with the texts that run has left |
| `BlockState.StoredNoncesRead` | bcos-tars-protocol/protocol/BlockImpl.cpp:119-139 | Texts each of which is a printed number or empty are read as those numbers, zero for the empty ones |
| `BlockState.ReplacedUnderTheNonces` | bcos-tars-protocol/protocol/BlockImpl.cpp:26-32 | The failing case of decode and setInner: the nonce list read before is returned for the new record |
| `BlockState.SecondReadIsTruncated` | bcos-tars-protocol/protocol/BlockImpl.cpp:119-139 | The failing case: after a read that throws past the first text, the next read silently returns the numbers before the bad text |
| `BlockState.SecondReadExample` | bcos-tars-protocol/protocol/BlockImpl.cpp:119-139 | A concrete input for it |
| `BlockState.ParsedPrefixOfPrinted` | bcos-tars-protocol/protocol/BlockImpl.cpp:96-139 | Stored nonces are read back |
| `BlockImplementation.BlockImpl.constructor` | bcos-tars-protocol/protocol/BlockImpl.h:42-47 | A new block with a default record of its own |
| `BlockImplementation.BlockImpl.Decode` | bcos-tars-protocol/protocol/BlockImpl.cpp:26-32 | Replaces the record, leaves the nonce cache |
| `BlockImplementation.BlockImpl.Encode` | bcos-tars-protocol/protocol/BlockImpl.cpp:34-40 | Returns the encoding of the shared record as it is now |
| `BlockImplementation.BlockImpl.BlockHeader` | bcos-tars-protocol/protocol/BlockImpl.cpp:42-54 | A new view of the shared header with a cache of its own |
| `BlockImplementation.BlockImpl.Transaction` | bcos-tars-protocol/protocol/BlockImpl.cpp:56-61 | A new view of the element with that index, looked up on each use |
| `BlockImplementation.BlockImpl.Receipt` | bcos-tars-protocol/protocol/BlockImpl.cpp:63-68 | Likewise for receipts |
| `BlockImplementation.BlockImpl.SetBlockHeader` | bcos-tars-protocol/protocol/BlockImpl.cpp:70-77 | Copies the header whole: data, memo and signatures; a null header changes nothing |
| `BlockImplementation.BlockImpl.SetTransaction` | bcos-tars-protocol/protocol/BlockImpl.h:78-82 | Copies into the slot, also from a view of the same block |
| `BlockImplementation.BlockImpl.AppendTransaction` | bcos-tars-protocol/protocol/BlockImpl.h:83-87 | Copies to the end |
| `BlockImplementation.BlockImpl.SetReceipt` | bcos-tars-protocol/protocol/BlockImpl.cpp:79-88 | Resizes if needed and copies into the slot |
| `BlockImplementation.BlockImpl.AppendReceipt` | bcos-tars-protocol/protocol/BlockImpl.cpp:90-94 | Copies to the end |
| `BlockImplementation.BlockImpl.AppendTransactionMetaData` | bcos-tars-protocol/protocol/BlockImpl.cpp:154-159 | Copies to the end |
| `BlockImplementation.BlockImpl.SetVersion` | bcos-tars-protocol/protocol/BlockImpl.h:54-55 | Writes the version of the header, not of the block record |
| `BlockImplementation.BlockImpl.SetBlockType` | bcos-tars-protocol/protocol/BlockImpl.h:70-73 | Writes the type field |
| `BlockImplementation.BlockImpl.SetNonceList` | bcos-tars-protocol/protocol/BlockImpl.cpp:96-118 | Stores the printed numbers and clears the cache |
| `BlockImplementation.BlockImpl.NonceList` | bcos-tars-protocol/protocol/BlockImpl.cpp:119-139 | The cached list, or the list read by the loop, with zero for every empty text; none when a cast throws, with the prefix left in the cache |
| `BlockImplementation.BlockImpl.SetInner` | bcos-tars-protocol/protocol/BlockImpl.h:105-106 | Replaces the record and leaves the cache |
| `TransactionViews.OtherViews` | bcos-tars-protocol/protocol/BlockImpl.cpp:56-61 | To every other view of a transaction a call is the replacement of its record |
| `TransactionViews.StepKeepsViews` | bcos-tars-protocol/protocol/BlockImpl.cpp:56-61 | A call keeps record, memo and the buffers of all views in agreement if and only if other data are put in place only while no view has filled a buffer |
| `TransactionViews.RunKeepsViews` | bcos-tars-protocol/protocol/BlockImpl.cpp:56-61 | The same over whole runs; after such a run every view returns the hash of the current data |
| `TransactionViews.HasEncodedMeans` | bcos-tars-protocol/protocol/TransactionImpl.cpp:36-47 | That a view has encoded the same bytes means that it has encoded the same data |
| `TransactionViews.StepKeepsHashes` | bcos-tars-protocol/protocol/TransactionImpl.cpp:36-74 | A call leaves every view, old and new, returning the hash of the current data if a new record brings the right memo, or none while no view has encoded other data; only if, unless the hash collides on what the views have encoded |
| `TransactionViews.RunKeepsHashes` | bcos-tars-protocol/protocol/TransactionImpl.cpp:36-74 | The same over whole runs, whatever else is stale |
| `TransactionViews.StaleViewFillsTheMemo` | bcos-tars-protocol/protocol/BlockImpl.h:78-82 | The failing case: setTransaction with an empty memo under a view that has encoded the old data; asked again, that view stores the hash of the OLD data, and every view returns it |
| `TransactionViews.StaleMemoIsWrong` | bcos-tars-protocol/protocol/BlockImpl.h:78-82 | That hash is not the hash of the data whenever the data differ and the hash does not collide on them |
| `BlockViews.GrowUnderViews` | bcos-tars-protocol/protocol/BlockImpl.cpp:56-94 | On the heap: views made before any run of calls on the block are live exactly when their index exists after it, show what the run left there, and what was there before unless the run wrote to that index; the block is what the run of the state machine gives |
| `BlockViews.OpenHeaderViews` | bcos-tars-protocol/protocol/BlockImpl.cpp:42-47 | Any number of header views of one block, with empty caches |
| `BlockViews.EncodeAfterViews` | bcos-tars-protocol/protocol/BlockImpl.cpp:34-54 | After any interleaving of calls through any number of header views, the block encodes, and its receiver decodes, exactly the header those calls make through one view, with the argument of every last setter in its field, and nothing else of the block has changed |
| `BlockViews.HashThroughViews` | bcos-tars-protocol/protocol/BlockImpl.cpp:42-54 | The hash one view returns is the one any view returns after any calls through any of them that neither clear nor replace |
| `BlockViews.InterleaveTransaction` | bcos-tars-protocol/protocol/BlockImpl.cpp:56-61 | On the heap: any sequence of calls through any number of views of one transaction, and of replacements under them, does what the state machine says and nothing else to the block |
| `BlockViews.HashAfterCalls` | bcos-tars-protocol/protocol/BlockImpl.cpp:56-61 | After every run that meets the guards any view returns the hash of the data that are there then |
| `BlockViews.ReplaceUnderAView` | bcos-tars-protocol/protocol/BlockImpl.h:78-82 | The failing case end to end: the view, a new view and the receiver of the block all return the hash of the data that was replaced |
| `BlockViews.SendNonces` | bcos-tars-protocol/protocol/BlockImpl.cpp:26-139 | The nonce list last set is what the block and the receiver of its encoding read |
| `BlockViews.SendStoredNonces` | bcos-tars-protocol/protocol/BlockImpl.cpp:26-139 | Stored texts, printed or empty, are read as the same numbers by the block and by the receiver of its encoding, zero for every empty one |
| `BlockViews.SendAfterRun` | bcos-tars-protocol/protocol/BlockImpl.cpp:26-118 | After any run of calls on the block the receiver of its encoding has the last write to every slot and field |
| `BlockViews.SendHeader` | bcos-tars-protocol/protocol/BlockImpl.cpp:70-77 | After setBlockHeader the receiver of the block has that header whole, and the rest of the block as it was |
| `Converters.WeightsSurvive` | bcos-tars-protocol/Common.h:234 | Unsigned 64-bit weights survive the signed field and back |
| `Converters.ToConsensusNodeList` | bcos-tars-protocol/Common.h:186-199 | Order, length, IDs and weights of the nodes |
| `Converters.ToTarsConsensusNodeList` | bcos-tars-protocol/Common.h:225-238 | Order, length, IDs and weights of the nodes |
| `Converters.ToLedgerConfig` | bcos-tars-protocol/Common.h:201-223 | Every field; a hash of fewer than 32 bytes reads as zero, a longer one is cut |
| `Converters.ToTarsLedgerConfig` | bcos-tars-protocol/Common.h:239-254 | Every field |
| `Converters.SameConfigDetermines` | bcos-tars-protocol/Common.h:201-254 | Corresponding ledger configurations determine each other apart from the hash |
| `Converters.LedgerRoundTrips` | bcos-tars-protocol/Common.h:201-254 | Framework to wire and back is the identity; wire to framework and back is the identity if and only if the hash has 32 bytes |
| `Converters.ToTarsGatewayInfo` | bcos-tars-protocol/Common.h:267-291 | One wire entry per group, in the order the map is walked; defaults for a null pointer |
| `Converters.FromTarsGatewayInfo` | bcos-tars-protocol/Common.h:304-318 | The groups of the list, each with the node IDs of its last entry |
| `Converters.GatewayRoundTrip` | bcos-tars-protocol/Common.h:267-318 | Whatever the walk order of the map and of the sets, the map comes back |

## Left out

- DecodeAcrossVersions: tags shared by the two versions have the same type, nested structures the same schema, on both sides.
- GetByteBuffer: a write after it, with capacity left over, is not modelled; the contract says when the writer is still good.
- Decode: a failed decode leaves the record unspecified, where the runtime leaves the fields read so far; a caller of the throwing decode has no object to use.
- CreateFromBytes: without the signature check of the source's default path; `verify()` belongs to a framework class that is not part of this model.
- Parse: accepts canonical decimal text only; the further forms Boost accepts (hexadecimal, octal, signs) are not part of this model.
- The limit the Tars runtime puts on string lengths below 2^32, and vectors of bytes sent as plain lists.
- Maps, floating point fields and enumerations of the Tars encoding: no modelled schema has them (the skipper handles the first two).
- Reinterpretation of raw memory (`sealerList`, `signatureList`, `consensusWeights`, stored hashes): the model converts element by element and requires stored hashes to be empty or at least 32 bytes.
- Arguments that alias the record they are written to, as in setting a header's sealer list to its own span.
- Moved-from records after the rvalue overloads of `setInner` and `takeEncoded`: a moved-from vector is taken to be empty.
- `verify()`, key factories and all cryptography: a node ID is its bytes, signing is a function of key and hash.
- `TransactionMetaDataImpl` and `transactionMetaData(i)`: metadata are values here; the wrapper has no cache.
- The port of a gateway endpoint is carried as it is; the conversion inside the framework's endpoint class is not shown in the repository.
- The typing of `blockType` as an enumeration, plain getters, and the group and chain node converters: easy members.
- The RPC clients, connection checks, `StorageService.tars`, service interfaces, error and result wrappers and the trivial factories.
- Thread interleavings: runs are sequential; the mutex of the block is never used in the code.
