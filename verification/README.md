# FastForward: verified wire codecs, checkpoints and kernels

FastForward forwards logs. It receives OTLP protobuf, projects it straight into columns, and sends batches on through
its sinks; a checkpoint per source records how much of the input is safely delivered. This project models the parts of
it that are hard to get right and proves what they promise, for every input, every run and every reachable state. All
`.dfy` files belong together: `dafny verify dfyconfig.toml`.

**The receiver** (`Bytes`, `Options`, `Varint`, `Wire`, `Walk`, `Preflight`, `Utf8`, `AsciiScan`, `Decode`, `Inline`,
`Request`, `Faults`, `ListBodies`, `WrittenLists`, `Schema`, `FieldCache`). A bounded base-128 reader, a group skipper
with an explicit 64-slot stack, a table-driven preflight scan, the last-one-wins decoders and the closure-free decoder that production runs. The wire format is the Protocol Buffers
encoding guide ("Base 128 Varints", "Message Structure", "Groups", "Last One Wins"). The main results
are `Request.PreflightIsSound`, that behind an accepting preflight the two pair decoders agree and neither they nor the
visitors fail on anything but text that is not UTF-8, and `Faults.PreflightLeavesLists`, that the whole decode, which
also renders lists as JSON, fails on something else exactly when it reaches a list that the JSON writer refuses.
`Schema` says field by field of the protos what the preflight takes and refuses, without its table.
`FieldCache.CacheIsTransparent` says that the cache of attribute keys, which skips validation on a hit, changes no answer
over any batches and records.

**The JSON writer** (`Json`, `JsonText`, `JsonUtf8`). Nested values become JSON text. The text is the rendering of the
decoded tree, a parser written from sections 2 to 7 of RFC 8259 reads it back, it is well-formed UTF-8, and it is written
exactly when no value sits under more than 64 lists; on malformed values the error is exact too.

**The sink** (`Encode`, `RowEncoder`, `Messages`, `BatchEncoder`, `Grouping`, `BatchWriter`). The generated row encoder and
the batch encoder around it, which groups rows by resource and scope and writes every length before the bytes it counts.
The main result is `BatchWriter.SinkToReceiver`: the receiver's preflight accepts what the sink sends, and its decoder
returns every row of the batch exactly once, each with what the row's own fields say (`BatchWriter.RowArrives`).

**The OTAP envelope** (`Otap`). Precomputed lengths against the naive encoder, byte for byte, and the round trip. The
round trip is false for some negative batch ids; the exact condition is proved, and so is the exact set of byte strings
on which its varint reader and the receiver's agree.

**Checkpoints** (`Checkpoint`, `Pipeline`, `Linearizability`). The sequential model of the linearizability checker, the
pipeline machine with its out-of-order acknowledgements, and the refinement between the two:
`Linearizability.AcceptedInEveryOrder` says for which offsets the checker accepts every history of the machine, and
`Linearizability.CheckpointNeverGoesBack` for which offsets the machine's checkpoint never moves back.

**Kernels and columns** (`Hex`, `Bitmap`, `Columns`, `Conflicts`). Word-at-a-time kernels against the simple loops, on
bit-vectors of the real width; detaching of string views and flattening of type-conflict structs.

**The backpressure simulator** (`Backpressure`). Its stages stay within their capacities, nothing is lost between them, and
in any run a stopped output blocks the input within 33 ticks, reports it, and has OTLP batches refused.

## Where the code differs from what is said about it

- `decode_varint` (crates/ffwd-core/src/otlp.rs:229-248) checks the payload limit of ten-byte varints on the ninth byte
  instead of the tenth. Batch ids from -2^63 + 2^57 up to -1 are therefore encoded and then refused, and an overlong
  tenth byte is accepted (`Otap.BatchRoundTrip`, `Otap.MinusOneIsRefused`, `Otap.TenthByteUnchecked`);
  `Otap.ReadersAgreeExactly` says on which bytes it reads what the projection reads.
- `decode_kv_inline` is meant as a drop-in for `decode_key_value_wire`. It does not range-check field numbers and refuses
  groups that carry a known number. The two agree exactly under the conditions of `Inline.InlineFollowsReference` and
  `Inline.ReferenceFollowsInline`, and always behind the preflight (`Request.InlineOnFitPairs`).
- The preflight never returns `Unsupported` (`Preflight.NeverUnsupported`), and it does not look into array and
  key-value-list values. Their framing, wire types and depth are found out only while they are rendered as JSON, so an
  accepted request can still fail there (`ListBodies.BrokenArrayPasses`); `Faults.PreflightLeavesLists` says exactly when.
- The checker demands that a resolve that does not move the watermark reports no advance. The runtime reports one whenever
  the machine commits, also when the offset is the one before. Histories with tied offsets, or with offset 0 first, are
  rejected (`Linearizability.AckedInOrder`).
- The checkpoint of a source can move back if batches are sent out of the order of their ids
  (`Pipeline.OutOfOrderGoesBack`): exactly when a batch is sent whose id is not past the last commit
  (`Pipeline.GoesForwardExactly`), although a later commit can hide that (`Pipeline.LateSendCanHide`).
- The watermark of the checker can stand past an open batch if submits come out of sequence order
  (`Checkpoint.OutOfOrderCanOvertake`): exactly when a submit undercuts the acked prefix (`Checkpoint.ShrinksExactly`,
  `Checkpoint.NeverShrinksExactly`).
- The documentation of `detach` speaks of all levels; `cast_column` looks at direct struct children only
  (`Columns.ViewsLeftExactly`).
- The documentation of `normalize_conflict_columns` says that a cell is non-null whenever a child is; a `bool` child that
  is not boolean and a second child of one name are not read (`Conflicts.UntypedBoolIsLost`,
  `Conflicts.SecondChildIsLost`), and a value that the library casts to null, such as binary data that is not UTF-8, is
  lost too (`Conflicts.InvalidBinaryIsLost`). `Conflicts.LosesNothingExactly` says for which schemas the documentation is
  right.
- The documentation of `resolve_dynamic` says that observed kinds accumulate; a hit in the key cache does not observe
  (`FieldCache.SecondKindIsHidden`, `FieldCache.SamePlanExactly`). Nothing that builds the batch reads them.
- There are two merge rules for an empty later value: the pair decoder and the record body keep the
  earlier value, the JSON pair writer erases it. Each is modelled as it is.
- `scripts/generate_otap_fast_proto.py` and the checked-in `crates/ffwd-output/src/generated/otap_fast_v1.rs` differ in
  overflow checks on positions; with unbounded positions both are the model.

## Model

| member | source | states |
|---|---|---|
| Varint.ReadVarintExact | scripts/generate_otlp_projection.py:1524-1540 | a read succeeds with value v and n bytes exactly when the first n bytes are a varint of at most ten bytes below 2^64 whose base-128 sum is v |
| Varint.ReadUndoesPush | scripts/generate_otlp_projection.py:537-543 | for every u64 and any following bytes, reading undoes writing and leaves exactly the following bytes |
| Varint.ReadVarintMultibyte | crates/ffwd-io/src/otlp_receiver/projection/wire.rs:186-202 | the ten-round loop computes that read, truncation and overflow included |
| Varint.ReadVarintFast | crates/ffwd-io/src/otlp_receiver/projection/wire.rs:171-180 | the one-byte fast path changes nothing |
| Varint.VarintLenIsPushed | crates/ffwd-core/src/otlp.rs:139-152 | the length computed from thresholds is the number of bytes written |
| Wire.GroupBodyExact | scripts/generate_otlp_projection.py:1471-1509 | a group body of n bytes is recognised exactly when those bytes derive from the group grammar: balanced, matching end tags, at most 64 open groups |
| Wire.SkipGroup | scripts/generate_otlp_projection.py:1471-1509 | the loop over the 64-slot stack finds exactly that body, stops behind its end tag and stays inside the stack |
| Walk.ForEachField | crates/ffwd-io/src/otlp_receiver/projection/wire.rs:36-88 | the walk hands every field to the visitor, in order, and stops with its first error |
| Walk.WalkConcat | crates/ffwd-io/src/otlp_receiver/projection/wire.rs:36-88 | the fields of a followed by b are those of a, then those of b at shifted positions |
| Walk.WalkInPlace | crates/ffwd-io/src/otlp_receiver/projection/wire.rs:260-278 | every payload is a slice of the message at its recorded position, and positions increase without overlap |
| Preflight.ScanMessage | scripts/generate_otlp_projection.py:1365-1403 | the recursive scan computes the two-phase verdict: split into fields, then check the table |
| Preflight.ScanAnyValue | scripts/generate_otlp_projection.py:1405-1437 | the specialised scan of a value gives the verdict of the general one |
| Preflight.ClassifyProjectionSupport | scripts/generate_otlp_projection.py:1353-1355 | the preflight is the scan of the export request |
| Preflight.ScanExact | scripts/generate_otlp_projection.py:1365-1437 | the scan accepts exactly the messages that are framed and fit the field table at every level |
| Preflight.ScanConcat | scripts/generate_otlp_projection.py:1365-1403 | if it accepts a, it accepts a followed by b exactly when it accepts b |
| Preflight.DepthBounded | scripts/generate_otlp_projection.py:1365-1437 | no input makes it nest more than six message scans |
| Preflight.NeverUnsupported | scripts/generate_otlp_projection.py:466-488 | no table entry leads to the fallback decoder |
| Schema.EnvelopeFields | crates/ffwd-io/src/otlp_receiver/projection/generated.rs:91-200 | each field of the request, resource, scope and their log messages is taken with any payload of its proto type, a fit one if that is a message, and refused with a wire-type error in every other form, groups included; schema URLs, dropped counts, entity refs and scope attributes among them |
| Schema.RecordFields | crates/ffwd-io/src/otlp_receiver/projection/generated.rs:202-280 | the same of the eleven fields of a log record, event name and dropped count among them |
| Schema.ValueFields | crates/ffwd-io/src/otlp_receiver/projection/generated.rs:282-366 | the same of pairs, values and the two lists; an array or key-value list inside a value is taken whatever its bytes |
| Schema.OtherFieldsPass | crates/ffwd-io/src/otlp_receiver/projection/generated.rs:91-366 | a number that the message does not have is taken in every form |
| Schema.FieldByField | scripts/generate_otlp_projection.py:1365-1403 | a message put together from framed fields is taken exactly when each of them is |
| AsciiScan.RequireUtf8 | crates/ffwd-io/src/otlp_receiver/projection/wire.rs:217-244 | the word-mask fast path accepts exactly the UTF-8 inputs |
| Utf8.Utf8Exact | crates/ffwd-io/src/otlp_receiver/projection/wire.rs:217-244 | the texts that are accepted are exactly those that encode code points up to 10FFFF without surrogates by the table of section 3 of RFC 3629 |
| Decode.DecodeLogRecordFields | scripts/generate_otlp_projection.py:778-886 | the record loop visits every field once in order and stops at the first bad one; the laws of the result follow |
| Decode.RecordLastWins | scripts/generate_otlp_projection.py:778-886 | a record decodes exactly when it is framed and every known field is good; scalars come from the last occurrence, the body from the last non-empty value |
| Decode.RangesSliceAttributes | scripts/generate_otlp_projection.py:858-865 | the recorded ranges are in bounds, ordered and disjoint, and cut out exactly the attribute payloads |
| Decode.RecordConcat | scripts/generate_otlp_projection.py:778-886 | decoding a followed by b merges the two records, the ranges of b shifted by the length of a |
| Decode.AnyIsLastKnown | scripts/generate_otlp_projection.py:405-436 | a value decodes exactly when it is framed and each of its fields 1 to 7 says a value: string, bool, two's-complement integer, double, array, key-value list, bytes; the last of them is the value |
| Decode.PairLastWins | scripts/generate_otlp_projection.py:438-462 | a pair has the last key and the last value that is not empty, and without one there is no pair |
| Decode.ScopeLastWins | scripts/generate_otlp_projection.py:732-776 | merging a scope takes its last name and version and keeps what it does not mention |
| Inline.DecodeAnyValueInline | crates/ffwd-io/src/otlp_receiver/projection/wire.rs:385-536 | the value loop stops at the first known field with another wire type, and otherwise the last written value wins |
| Inline.DecodeKvInline | crates/ffwd-io/src/otlp_receiver/projection/wire.rs:291-376 | the pair loop does the same one level up: the last key and the last non-empty value win |
| Inline.InlineAnyIsLastKnown | crates/ffwd-io/src/otlp_receiver/projection/wire.rs:385-536 | the inline value decoder too succeeds exactly when every known field says a value, and the last one is the value |
| Inline.InlineFollowsReference | crates/ffwd-io/src/otlp_receiver/projection/wire.rs:291-376 | where the reference decoder succeeds, the inline one agrees exactly when no group carries a known number |
| Inline.ReferenceFollowsInline | scripts/generate_otlp_projection.py:438-462 | where the inline decoder succeeds, the reference one agrees exactly when all field numbers are in range |
| Inline.KnownGroupDiffers | crates/ffwd-io/src/otlp_receiver/projection/wire.rs:291-376 | a pair on which the reference succeeds and the inline decoder fails |
| Inline.NumberZeroDiffers | crates/ffwd-io/src/otlp_receiver/projection/wire.rs:291-376 | a pair on which the inline decoder succeeds and the reference fails |
| Inline.WrappedNumberDiffers | crates/ffwd-io/src/otlp_receiver/projection/wire.rs:385-536 | a field number beyond the range is refused by the reference and taken modulo 2^32 inline |
| Request.InlineOnFitPairs | crates/ffwd-io/src/otlp_receiver/projection/wire.rs:291-376 | on every pair that fits the table both decoders return the same |
| Request.PreflightIsSound | crates/ffwd-io/src/otlp_receiver/projection/decode.rs:17-228 | after an accepting preflight the inline and the reference pair decoder lead to the same rows or the same error, and visitors and pair decoders fail on nothing but invalid UTF-8: with a JSON writer that fails on nothing else, neither does the decode |
| Faults.DecodeFailsAtFirstFault | crates/ffwd-io/src/otlp_receiver/projection/decode.rs:17-228 | on any bytes the decode fails with the first fault among what it reads and what it hands to the writer, in their order, and succeeds if there is none |
| Faults.PreflightLeavesLists | crates/ffwd-io/src/otlp_receiver/projection/decode.rs:17-228 | after an accepting preflight the decode succeeds exactly when every value handed over is taken, and fails other than on text exactly when the first value that is not taken is a list whose framing, wire types or depth the JSON writer refuses |
| ListBodies.ListBodyIsNotScanned | crates/ffwd-io/src/otlp_receiver/projection/write.rs:12-27 | whatever bytes an array or key-value list as body holds, the preflight accepts the request, and the decode fails exactly as the JSON writer does on them |
| ListBodies.BrokenArrayPasses | crates/ffwd-io/src/otlp_receiver/projection/write.rs:12-27 | an array body of one byte 0xFF passes the preflight and fails the decode with a truncated varint |
| WrittenLists.ListBodyArrives | crates/ffwd-io/src/otlp_receiver/projection/decode.rs:17-228 | a body that is a list of scalars, or of keys and scalars, passes the preflight and arrives as JSON text that parses to the array of exactly those values, or of objects with exactly those k and v, in order |
| WrittenLists.ScalarBodyIsWritten | scripts/generate_otlp_projection.py:1042-1090 | a scalar body is always written, as text that stands for it: true or false, digits of that integer, the formatted double or NaN, inf, -inf, lower-case hex |
| WrittenLists.ListsAreRendered | scripts/generate_otlp_projection.py:1018-1090 | lists go through the JSON writer and fail with it, bytes become lower-case hex, other attributes are stored as they are |
| FieldCache.Resolver.ResolveName | crates/ffwd-arrow/src/columnar/plan.rs:271-301 | one lookup in the hash index finds the column of the name, or adds it behind the others |
| FieldCache.Resolver.ResolveRecordAttrField | crates/ffwd-io/src/otlp_receiver/projection/decode.rs:246-281 | on a hit the cached handle is returned unvalidated; otherwise the key is validated, resolved and stored |
| FieldCache.Resolver.BeginBatch | crates/ffwd-io/src/otlp_receiver/projection.rs:150-160 | dynamic columns are dropped and every cached handle is forgotten, keys kept |
| FieldCache.CacheIsTransparent | crates/ffwd-io/src/otlp_receiver/projection/decode.rs:246-281 | over any batches, positions and keys the cached resolver gives the answers of the uncached one, errors included, and ends with the same columns under the same handles |
| FieldCache.AttrsDecodeAlike | crates/ffwd-io/src/otlp_receiver/projection/decode.rs:204-220 | with any sound cache the attributes of a record decode as without one, each written to the column named by its key, unless there are 2^32 columns |
| FieldCache.RecordsDecodeAlike | crates/ffwd-io/src/otlp_receiver/projection/decode.rs:204-281 | over any sequence of records with one cache each is decoded as if it were alone |
| FieldCache.SamePlanExactly | crates/ffwd-io/src/otlp_receiver/projection/decode.rs:246-281 | at every point of a run the plan is that of the uncached resolver, observed kinds included, exactly when no hit brings a kind its column has not observed |
| FieldCache.SecondKindIsHidden | crates/ffwd-arrow/src/columnar/plan.rs:271-301 | an attribute that is first an integer and then text leaves one observed kind instead of two |
| FieldCache.KindIsWritten | scripts/generate_otlp_projection.py:996-1001 | a column is resolved for the kind that is then written to it |
| Json.WriteJsonEscapedBytes | crates/ffwd-io/src/otlp_receiver/projection/write.rs:29-48 | the escape loop appends the escaped text |
| Json.WriteAnyExact | scripts/generate_otlp_projection.py:1123-1273 | on every value and at any depth the writer yields the rendering of the decoded tree or the first decoding error, unless it first comes to a value nested too deep, where it yields the depth error |
| Json.ReachIsHeight | scripts/generate_otlp_projection.py:1123-1273 | on a value that decodes, the depth it comes to is the height of the tree |
| Json.WriteWireAnyJsonDepth | scripts/generate_otlp_projection.py:1123-1170 | the recursive writer appends that text to the buffer |
| Json.WriteListJson | scripts/generate_otlp_projection.py:1172-1230 | both list loops append the bracketed, comma-separated elements |
| Json.WriteElementJson | scripts/generate_otlp_projection.py:1232-1273 | a key-value pair becomes an object with k and v; a missing value becomes null |
| Json.JsonPairLastWins | scripts/generate_otlp_projection.py:1232-1273 | a pair in a list has the last key and the last value, which erases earlier ones even if it is empty |
| Json.WriteWireAnyJson | scripts/generate_otlp_projection.py:1115-1121 | the text is appended exactly when the value decodes and no value sits under more than 64 lists |
| JsonText.RenderRoundTrip | scripts/generate_otlp_projection.py:1115-1273 | a parser written with the literals of RFC 8259 reads the rendered text of every tree, stops right behind it and yields a value that stands for the tree: numbers by their value, hex digits by their bytes, pairs as objects with exactly k and v |
| JsonText.StringRoundTrip | crates/ffwd-io/src/otlp_receiver/projection/write.rs:29-48 | an escaped string parses back to the same bytes |
| JsonText.DecimalIsNumber | scripts/generate_otlp_projection.py:1123-1170 | the decimal form of every integer is a JSON number |
| JsonUtf8.EscapeKeepsUtf8 | crates/ffwd-io/src/otlp_receiver/projection/write.rs:29-48 | byte-wise escaping never breaks a character |
| JsonUtf8.WrittenJsonIsUtf8 | scripts/generate_otlp_projection.py:1115-1273 | whatever bytes arrive, the JSON written for a decoded value is well-formed UTF-8 |
| Encode.LenTextHasItsSize | crates/ffwd-core/src/otlp.rs:200-209 | the size computed for a length-delimited field is the size written |
| Encode.AppendField | crates/ffwd-core/src/otlp.rs:157-218 | appending one written field to a message makes the walk visit exactly that field next |
| RowEncoder.PairSizeIsRight | crates/ffwd-output/src/otlp_sink/encode.rs:551-699 | the size announced for a pair, short-string shortcut included, is the size written |
| RowEncoder.EncodeColAttr | crates/ffwd-output/src/otlp_sink/encode.rs:551-699 | writing both length prefixes ahead of the bytes gives the pair; nulls and unsigned values beyond i64 write nothing |
| RowEncoder.EncodeRow | scripts/generate_otlp_fast_encoder.py:178-229 | the encoder appends the record text, field by field in its order |
| RowEncoder.PairTextDecodes | crates/ffwd-output/src/otlp_sink/encode.rs:551-699 | both pair decoders return the column's name and value, and the preflight accepts the pair |
| RowEncoder.RowRoundTrip | scripts/generate_otlp_fast_encoder.py:178-229 | every encoded row passes the preflight and decodes to the same record and the same attributes in order; severity survives exactly below 2^31 |
| Messages.ForEachPart | scripts/generate_otlp_projection.py:948-964 | over a message of written fields the generated visitor sees exactly the fields of its number, in order |
| Messages.WireOrderDoesNotMatter | crates/ffwd-io/src/otlp_receiver/projection/decode.rs:53-143 | resources may stand behind their scopes and scopes behind their records: only the order within each kind counts |
| BatchEncoder.ResourceDecodes | crates/ffwd-output/src/otlp_sink/encode.rs:191-235 | the resource message decodes to the attributes of its columns behind the receiver's prefix |
| BatchEncoder.ScopeDecodes | crates/ffwd-output/src/otlp_sink/encode.rs:287-306 | the scope message decodes to its name and version, defaults included |
| BatchEncoder.RequestDecodes | crates/ffwd-output/src/otlp_sink/encode.rs:252-315 | a request of groups passes the preflight and decodes to the rows of its groups with their scopes and resources |
| Grouping.SameValueRef | crates/ffwd-output/src/otlp_sink/columns.rs:62-109 | two resource cells fall together exactly when they bring the same value, so a null and an unsigned value beyond i64 do |
| Grouping.GroupRowsGroups | crates/ffwd-output/src/otlp_sink/encode.rs:96-159 | each key of resource values and scope has one group, and it holds exactly the rows with that key, in their order |
| Grouping.GroupingKeepsRows | crates/ffwd-output/src/otlp_sink/encode.rs:96-159 | the groups together hold exactly the rows of the batch, their resource cells as values |
| BatchWriter.GroupRecords | crates/ffwd-output/src/otlp_sink/encode.rs:116-159 | the hash-map loop builds those groups, as ranges that cut each record out of the record buffer |
| BatchWriter.PlainRecords | crates/ffwd-output/src/otlp_sink/encode.rs:101-115 | the fast path writes all records in order, each behind its range |
| BatchWriter.PlainBacks | crates/ffwd-output/src/otlp_sink/encode.rs:101-115 | without resource and scope columns its one group is what grouping gives |
| BatchWriter.EncodeKeyValue | crates/ffwd-output/src/otlp_sink/encode.rs:497-548 | the resource writers, with sizes computed ahead, write the pair |
| BatchWriter.EncodeResource | crates/ffwd-output/src/otlp_sink/encode.rs:191-235 | the two loops write the attributes of the batch, then the resource columns that have a value |
| BatchWriter.SizeGroup | crates/ffwd-output/src/otlp_sink/encode.rs:161-250 | the sizes computed bottom-up are those of the messages |
| BatchWriter.WriteGroup | crates/ffwd-output/src/otlp_sink/encode.rs:252-315 | writing behind the precomputed lengths gives the group's message |
| BatchWriter.EncodeBatch | crates/ffwd-output/src/otlp_sink/encode.rs:65-316 | the three phases write the request of the grouped rows, and the reserved size is its size |
| BatchWriter.RowArrives | crates/ffwd-output/src/otlp_sink/encode.rs:65-316 | what a receiver gets for a row, by the row's own fields: its scope name or "ff", its scope version or the batch's, cell i of the resource under prefixed name i, its attributes, body, times, severity, ids and flags |
| BatchWriter.StoredArrives | crates/ffwd-io/src/otlp_receiver/projection/decode.rs:158-202 | a row without a timestamp gets the observed time at the receiver, times of 2^63 and more are dropped, and numbers that are not positive and empty scope names are left out |
| BatchWriter.SinkToReceiver | crates/ffwd-output/src/otlp_sink/encode.rs:65-316 | the receiver accepts what the sink sends and gets every row once, group by group in order, and each as `RowArrives` says |
| Otap.DecodeVarintExact | crates/ffwd-core/src/otlp.rs:229-248 | decoding undoes encoding exactly for values below 2^63 or with bits 57 to 62 clear, and refuses all others |
| Otap.DecodeVarintAt | crates/ffwd-core/src/otlp.rs:229-248 | the loop with its shift counter computes that read |
| Otap.DecodeFields | scripts/generate_otap_fast_proto.py:185-282 | the decode loops visit the fields of the envelope in order |
| Otap.PayloadSizeIsRight | scripts/generate_otap_fast_proto.py:50-63 | the precomputed payload length is the number of bytes written |
| Otap.PayloadsLenIsRight | scripts/generate_otap_fast_proto.py:83-120 | so is the length of all payload fields together |
| Otap.EncodeArrowPayloadInto | scripts/generate_otap_fast_proto.py:65-81 | the payload writer appends the payload message |
| Otap.EncodeBatchFast | scripts/generate_otap_fast_proto.py:83-120 | the fast encoder appends the envelope, and what it reserves is its exact size |
| Otap.EncodeBatchNaive | crates/ffwd-bench/benches/otap_proto.rs:18-55 | the encoder that builds and measures a sub-buffer appends the same bytes |
| Otap.PayloadRoundTrip | scripts/generate_otap_fast_proto.py:185-230 | every payload decodes back, all-empty ones included |
| Otap.BatchRoundTrip | scripts/generate_otap_fast_proto.py:232-282 | id, payloads in order and headers come back exactly when the id survives; otherwise the batch is refused |
| Otap.IdSurvivesExact | crates/ffwd-core/src/otlp.rs:229-248 | the ids that survive, as a range of i64 |
| Otap.MinusOneIsRefused | crates/ffwd-core/src/otlp.rs:229-248 | batch id -1 is encoded and then refused |
| Otap.ReadersAgreeExactly | crates/ffwd-core/src/otlp.rs:229-248 | on every byte string this reader and the projection's give the same result exactly when nine continued bytes, if there are any, are followed as both expect: by a tenth byte above 1 if the ninth payload is above 1, and otherwise by none, by 0 or 1, or by one that continues |
| Otap.TenthByteUnchecked | crates/ffwd-core/src/otlp.rs:229-248 | an overflowing tenth byte is accepted here and refused by the projection |
| Otap.StatusRoundTrip | scripts/generate_otap_fast_proto.py:122-183 | a batch status comes back exactly when its id survives |
| Otap.UnknownFieldsAreSkipped | crates/ffwd-core/src/otlp.rs:264-300 | the three decoders skip fixed-width fields of any number and fields of any type that they do not know |
| Checkpoint.RunStep | scripts/linearizability/main.go:111-214 | the step function on a cloned state, with its prefix loop, accepts and computes what the transition relation says |
| Checkpoint.VerdictByOutcome | scripts/linearizability/main.go:140-189 | a delivered or rejected batch is accepted only as ackable and is acked, each of the six failures only as not ackable and is not, an unknown outcome never; the rest of the verdict is source, watermark and report |
| Checkpoint.OtherVerdicts | scripts/linearizability/main.go:111-214 | exactly which submits, flushes and reads are accepted, and what they change |
| Checkpoint.RunHasOneSource | scripts/linearizability/main.go:116-139 | in every accepted run all batches are from one source |
| Checkpoint.StableSortSorts | scripts/linearizability/main.go:133-138 | the sort orders by sequence number and keeps every id |
| Checkpoint.StableSortKeepsSorted | scripts/linearizability/main.go:133-138 | it leaves a sorted order alone, ties included |
| Checkpoint.RunIsSound | scripts/linearizability/main.go:185-210 | in every accepted run the durable value is absent or at most the watermark |
| Checkpoint.RunNeverGoesBack | scripts/linearizability/main.go:140-210 | between any two points of an accepted run neither the watermark nor the durable value moves back or disappears |
| Checkpoint.DurableIsLastFlush | scripts/linearizability/main.go:190-210 | every durable read returns the watermark of the latest successful flush; failed flushes change nothing |
| Checkpoint.AdvancesIncrease | scripts/linearizability/main.go:140-189 | the reported advances strictly increase, and the last one is the watermark |
| Checkpoint.CommitsOnlyPrefix | scripts/linearizability/main.go:161-189 | even out of sequence order, no step commits from a batch at or behind an unresolved or non-ackable one |
| Checkpoint.ShrinksExactly | scripts/linearizability/main.go:116-138 | an accepted submit shrinks the acked prefix exactly when it undercuts it, that is when its sequence number is below that of the last batch in the prefix; otherwise the prefix stays as it is |
| Checkpoint.NeverShrinksExactly | scripts/linearizability/main.go:111-214 | over every accepted run, in whatever order sequence numbers come, the acked prefix never shrinks exactly when no submit undercuts it |
| Checkpoint.CommittedIsPrefixOffset | scripts/linearizability/main.go:116-189 | over every accepted run without such a submit the watermark ends the longest resolved and ackable prefix, 0 if it is empty |
| Checkpoint.InOrderNeverUndercuts | scripts/linearizability/main.go:116-138 | submits in sequence order never undercut |
| Checkpoint.RunDetermined | scripts/linearizability/main.go:111-189 | order and batches of every accepted run are determined by its submits and the set of its resolves |
| Checkpoint.ResolveOrderDoesNotMatter | scripts/linearizability/main.go:140-189 | two accepted histories that are never undercut, with the same submits and the same resolves, however interleaved, end with the same order, batches and watermark |
| Checkpoint.GuardNeverRejects | scripts/linearizability/main.go:174-184 | if offsets never fall either, the regression guard never rejects |
| Checkpoint.OutOfOrderCanOvertake | scripts/linearizability/main.go:116-189 | out of sequence order the watermark can stand past an open batch |
| Pipeline.CommitLoop | crates/ffwd-types/src/pipeline/lifecycle.rs:220-239 | the loop takes acknowledgements as the drain function says and reports an advance exactly when it takes one |
| Pipeline.DrainExact | crates/ffwd-types/src/pipeline/lifecycle.rs:220-239 | it takes exactly those that no earlier batch in flight blocks, and commits the checkpoint of the last of them |
| Pipeline.SendSettles | crates/ffwd-types/src/pipeline/lifecycle.rs:130-137 | sending keeps the invariant that acknowledgements wait only behind an earlier flight |
| Pipeline.AckSettles | crates/ffwd-types/src/pipeline/lifecycle.rs:187-256 | acknowledging keeps it, in any order and for unknown batches too |
| Pipeline.NoFlightsNoPending | tla/README.md:615-627 | an empty in-flight map implies empty pending acknowledgements |
| Pipeline.AckCommitsBehindFlights | crates/ffwd-types/src/pipeline/lifecycle.rs:187-256 | a new checkpoint is that of an acknowledged batch with every batch in flight behind it |
| Pipeline.SendStaysAhead | crates/ffwd-types/src/pipeline/lifecycle.rs:130-137 | a send keeps everything tracked past the last commit exactly when its id is past it |
| Pipeline.CommitsGoForward | crates/ffwd-types/src/pipeline/lifecycle.rs:187-256 | with everything tracked past the last commit, an acknowledgement that commits does so at a later batch and leaves everything tracked past that |
| Pipeline.LateSendGoesBack | crates/ffwd-types/src/pipeline/lifecycle.rs:130-256 | a batch sent at or behind the last commit becomes the checkpoint as soon as it is acknowledged |
| Pipeline.GoesForwardExactly | crates/ffwd-types/src/pipeline/lifecycle.rs:130-256 | at every point of a run commits go forward in id order, whatever is acknowledged next and in whatever order, exactly when no batch of the run is sent at or behind the last commit |
| Pipeline.LateSendCanHide | crates/ffwd-types/src/pipeline/lifecycle.rs:130-256 | a run with a late send whose commits, seen only from its end, all go forward |
| Pipeline.OutOfOrderGoesBack | crates/ffwd-types/src/pipeline/lifecycle.rs:130-256 | without it the checkpoint can move back |
| Pipeline.PipelineMachine.constructor | crates/ffwd-types/src/pipeline/lifecycle.rs:71-80 | a new machine tracks nothing |
| Pipeline.PipelineMachine.BeginSend | crates/ffwd-types/src/pipeline/lifecycle.rs:130-137 | puts the batch in flight in its own lane and leaves all others alone |
| Pipeline.PipelineMachine.ApplyAck | crates/ffwd-types/src/pipeline/lifecycle.rs:187-256 | moves one lane as the acknowledgement function says, reports the advance and the checkpoint, and leaves all other lanes alone |
| Pipeline.PipelineMachine.Stop | crates/ffwd-types/src/pipeline/lifecycle.rs:273-294 | stops exactly when no source has a batch in flight |
| Linearizability.RunMatches | scripts/linearizability/main.go:99-214 | as long as the checker accepts, it and the machine agree on every batch and on the checkpoint |
| Linearizability.OutcomesSplit | scripts/linearizability/main.go:148-156 | a sent batch is acked when it is delivered or rejected, and held after each of the six failures |
| Linearizability.AcceptedExactly | crates/ffwd-runtime/src/pipeline/run.rs:451-516 | the checker rejects the next event exactly when the machine reports an advance that is not past the watermark |
| Linearizability.GrowingOffsetsAccepted | crates/ffwd-runtime/src/pipeline/run.rs:451-516 | with growing offsets it accepts every run, whatever the order of acknowledgements and holds |
| Linearizability.CheckpointNeverGoesBack | crates/ffwd-types/src/pipeline/lifecycle.rs:187-256 | over every run that sends given offsets the machine's checkpoint never moves back exactly when the offsets never fall, ties and a first offset of 0 included |
| Linearizability.AckedInOrder | crates/ffwd-runtime/src/pipeline/run.rs:451-516 | acknowledged in order, batches are accepted exactly as far as their offsets grow |
| Linearizability.AcceptedInEveryOrder | scripts/linearizability/main.go:174-184 | the checker accepts every run that sends given offsets exactly when they strictly increase and start above 0 |
| Hex.HexEncodeInto | crates/ffwd-bench/benches/hot_path_kernels.rs:25-34 | the table loop appends two digits per byte |
| Hex.HexEncodeU64Into | crates/ffwd-bench/benches/hot_path_kernels.rs:40-78 | the word-at-a-time encoder appends the same bytes for every length, tail included |
| Hex.EncodeChunk | crates/ffwd-bench/benches/hot_path_kernels.rs:46-67 | one word writes its sixteen digits |
| Hex.LanesAreDigits | crates/ffwd-bench/benches/hot_path_kernels.rs:48-58 | in each lane the word arithmetic looks up the digit table, so nothing carries between lanes |
| Hex.SpreadNeverOverflows | crates/ffwd-bench/benches/hot_path_kernels.rs:48-58 | none of its sums and products leaves 64 bits |
| Hex.DecodeUndoesEncode | crates/ffwd-bench/benches/hot_path_kernels.rs:25-34 | the digits determine the bytes |
| Hex.EncodeWritesDigits | crates/ffwd-bench/benches/hot_path_kernels.rs:25-34 | only lower-case hex digits are written |
| Bitmap.BuildValidityBytes | crates/ffwd-bench/benches/hot_path_kernels.rs:144-153 | bit r is set exactly when r is a listed row in range, for unordered, repeated and out-of-range facts |
| Bitmap.BuildValidityU64Chunked | crates/ffwd-bench/benches/hot_path_kernels.rs:158-175 | the same of the word-chunked builder |
| Bitmap.FillWords | crates/ffwd-bench/benches/hot_path_kernels.rs:159-166 | the word loop sets exactly those bits in words |
| Bitmap.ValidityIsUnique | crates/ffwd-bench/benches/hot_path_kernels.rs:144-175 | there is one such bitmap, so both builders return the same bytes |
| Columns.CastColumn | crates/ffwd-arrow/src/materialize.rs:123-172 | the loops that rebuild struct children compute the cast whose laws the lemmas below state |
| Columns.CastViews | crates/ffwd-arrow/src/materialize.rs:109-120 | casts every column and keeps row count and metadata |
| Columns.Detach | crates/ffwd-arrow/src/materialize.rs:34-39 | the shortcut for batches without views changes nothing |
| Columns.CastKeepsValues | crates/ffwd-arrow/src/materialize.rs:123-172 | detaching keeps every value, name, flag and row count |
| Columns.ViewsLeftExactly | crates/ffwd-arrow/src/materialize.rs:134-140 | a view survives exactly where it lies under a struct without a view among its own children |
| Columns.ScalarsLeaveNoView | crates/ffwd-arrow/src/materialize.rs:123-172 | with scalar struct children no view is left |
| Columns.NestedViewSurvives | crates/ffwd-arrow/src/materialize.rs:134-140 | a nested struct whose view survives |
| Columns.CastTwice | crates/ffwd-arrow/src/materialize.rs:123-172 | detaching is idempotent |
| Conflicts.MergeToUtf8 | crates/ffwd-arrow/src/conflict_schema.rs:190-255 | each merged cell is the first of int, float, bool and str that is not null |
| Conflicts.MergedIsFirst | crates/ffwd-arrow/src/conflict_schema.rs:190-255 | a merged cell is the text of the first child in the order int, float, bool, str that is read and has one, with true and false for booleans |
| Conflicts.NormalizeConflictColumns | crates/ffwd-arrow/src/conflict_schema.rs:125-185 | every conflict struct becomes its merged text column; the fast path changes nothing |
| Conflicts.NormalizeTwice | crates/ffwd-arrow/src/conflict_schema.rs:125-185 | no conflict struct is left, and normalizing is idempotent |
| Conflicts.NormalizeKeeps | crates/ffwd-arrow/src/conflict_schema.rs:125-185 | names, metadata, row counts and all other columns stay, and the result is a well-formed batch |
| Conflicts.DetachAndNormalizeCommute | crates/ffwd-arrow/src/conflict_schema.rs:125-255 | detach and normalize commute on every batch, and either order panics exactly when the other does |
| Conflicts.MergedNullExactly | crates/ffwd-arrow/src/conflict_schema.rs:190-255 | in every conflict struct that does not panic a merged cell is null exactly when every child that is read, the first of its name and if named bool boolean, is null there or casts to null |
| Conflicts.LosesNothingExactly | crates/ffwd-arrow/src/conflict_schema.rs:125-255 | for a schema, no data ever lose a value exactly when all its children are read and no value of their types casts to null |
| Conflicts.TypedLosesNothing | crates/ffwd-arrow/src/conflict_schema.rs:190-255 | on a struct whose children have the types of their names no cast panics and no value is lost |
| Conflicts.UntypedBoolIsLost | crates/ffwd-arrow/src/conflict_schema.rs:223 | a bool child that holds text is dropped |
| Conflicts.SecondChildIsLost | crates/ffwd-arrow/src/conflict_schema.rs:190-255 | so is the second of two children of one name |
| Conflicts.InvalidBinaryIsLost | crates/ffwd-arrow/src/conflict_schema.rs:203-218 | so is a value of a read child that the library casts to null |
| Backpressure.DrainTakes | book/src/scripts/backpressure-sim.ts:111-120 | the drain takes exactly what it may and leaves every worker within its bounds |
| Backpressure.DispatchKeeps | book/src/scripts/backpressure-sim.ts:122-129 | dispatching loses nothing and overfills no worker |
| Backpressure.DrainsInOrder | book/src/scripts/backpressure-sim.ts:115-120 | workers are emptied one after the other, and those behind are not touched |
| Backpressure.DispatchesInOrder | book/src/scripts/backpressure-sim.ts:122-129 | a worker that gets less than it could take leaves nothing for those behind it |
| Backpressure.WorkerTakes | book/src/scripts/backpressure-sim.ts:122-129 | a worker takes what fits up to 1, at most 0.8 a tick and what there is |
| Backpressure.FlowRates | book/src/scripts/backpressure-sim.ts:107-146 | what moves in one tick at every stage, in units |
| Backpressure.NextFlowBalanced | book/src/scripts/backpressure-sim.ts:107-150 | a tick keeps all fills within capacity and produced equal to delivered plus pipeline plus workers |
| Backpressure.RunIsSound | book/src/scripts/backpressure-sim.ts:95-200 | over any ticks, resets and changes of speed or source these hold, read never passes written, and at most 19 units are between production and delivery |
| Backpressure.FileLag | book/src/scripts/backpressure-sim.ts:152-161 | the unread part of a file grows by 0.55 a tick and shrinks by at most 1.02 if the input is open; wrapping around changes nothing about it |
| Backpressure.UdpBalance | book/src/scripts/backpressure-sim.ts:162-165 | of 1.8 datagrams a tick at most 1.32 are taken if the input is open, 16 are kept, and exactly the others are counted as dropped |
| Backpressure.TickAnswers | book/src/scripts/backpressure-sim.ts:166-176 | in OTLP mode every sixth tick answers one batch, with 200 if the input is open and 429 if it is not |
| Backpressure.CountersAreAnswers | book/src/scripts/backpressure-sim.ts:166-176 | over any run without a reset the counters are the numbers of 200 and 429 answers given |
| Backpressure.CeilIs | book/src/scripts/backpressure-sim.ts:187-194 | the fill that a transition of the pipeline reports is rounded up |
| Backpressure.StageColours | book/src/scripts/backpressure-sim.ts:178-185 | when each stage is blocked, pressured or fine, by its fills |
| Backpressure.TransitionsTellTheState | book/src/scripts/backpressure-sim.ts:178-198 | over any run the reported transitions of a stage lead without gap or repetition to the state it is in |
| Backpressure.StoppedOutputBlocksInput | book/src/scripts/backpressure-sim.ts:107-150 | from any state, once the output stops the input is blocked from the 33rd tick on |
| Backpressure.StoppedRunBlocksInput | book/src/scripts/backpressure-sim.ts:107-198 | in any run, from the 33rd tick after the output stops the input stage is blocked, its last reported transition says so, and the next tick accepts no OTLP batch and answers one that arrives with 429 |
| Backpressure.DrainFills | book/src/scripts/backpressure-sim.ts:115-120 | the in-place drain loop computes the drained fills and the amount taken |
| Backpressure.DispatchFills | book/src/scripts/backpressure-sim.ts:122-129 | the in-place dispatch loop computes the filled workers and what is left |
| Backpressure.ClampFills | book/src/scripts/backpressure-sim.ts:148-150 | the clamp loop finds nothing to change |
| Backpressure.Sim.constructor | book/src/scripts/backpressure-sim.ts:77-93 | a new simulator is empty and sound |
| Backpressure.Sim.ResetState | book/src/scripts/backpressure-sim.ts:95-105 | reset empties everything but the two settings |
| Backpressure.Sim.StepFlow | book/src/scripts/backpressure-sim.ts:111-150 | the flow part with its clamps is the flow part without them |
| Backpressure.Sim.StepSource | book/src/scripts/backpressure-sim.ts:152-176 | file, UDP and OTLP sources move as their functions say, with the OTLP answers |
| Backpressure.Sim.TickOnce | book/src/scripts/backpressure-sim.ts:107-201 | a tick moves the whole state by the clamp-free tick and returns its events |

## Left out

- Varint.ReadVarintMultibyte: digits are added, not or-ed, and shifted by multiplication; they never overlap, so the values are the same.
- Otap.DecodeVarintAt: as above, with the bits that a shift by 63 loses written out.
- RowEncoder.EncodeRow: starts from resolved row values; column resolution, timestamp, severity and hex parsing are left out.
- BatchWriter.EncodeBatch: starts from resolved rows and asks that every message fits below 2^63 bytes, the limit of a Rust allocation; the record-buffer capacity estimate has no effect on the bytes.
- JsonText.RenderRoundTrip: the formatter of finite doubles (`ryu`) is a parameter that must return JSON numbers, and doubles are bit patterns. The parser accepts the escapes of RFC 8259 section 7 with code points below 128 only; the writer emits no others.
- Otap.BatchRoundTrip: the lossy conversion of schema ids is a parameter that keeps valid UTF-8; positions are unbounded.
- Conflicts.MergeToUtf8: the library's casts to text are parameters, and those of types other than integers, floats, booleans and text may yield null; a cast that the library does not support is a precondition, since the code panics there.
- FieldCache.Resolver.ResolveName: starts from a plan with distinct names; `declare_planned` and the column storage behind a handle are left out.
- Columns.Detach: a column is a sequence of optional values, so buffers, offsets and sharing are not modelled, nor is `detach_if_attached`.
- Backpressure.Sim.TickOnce: reals instead of floating point.
- Pipeline.PipelineMachine.ForceStop: does not model the count of abandoned batches; like `Start`, `CreateBatch` and `BeginDrain` it is there to complete the machine and has no row.
- Request.PreflightIsSound: the errors of the column builder itself are left out; a row is what is decoded, with lists and bodies as the text that is written; `Request.Store` says what of it the fixed columns get.
- `Hex.HexEncodeInto` and `Json` write the same digits over different byte types; the production `write_hex_bytes_lower` is not part of this model.
- Compression, gRPC framing, HTTP, retries and authentication of the sinks.
- The worker pool, fanout, file tailing, reload and the TLA+ specifications themselves.
- Config loading, the dashboard, benchmarks other than the kernels, doc validators and build tooling.
- Scanner and SQL transform internals.
