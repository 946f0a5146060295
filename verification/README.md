# ddns: a verified model

ddns resolves names to endpoints over multicast DNS, HTTP and H3. This project models its hard core in
Dafny and proves what that core is for:

* the DNS message codec with name compression (section 4.1.4 of RFC 1035; header and record layout from
  sections 4.1.1 to 4.1.3 of RFC 1035; class bits from sections 5.4 and 10.2 of RFC 6762);
* the E record (type 266), an endpoint address with optional cluster sequence, agent, load and signature,
  its variable-length integers (section 16 of RFC 9000), and the parser that still accepts older layouts;
* the multi-record response body;
* publishing for an authority, and grouping, selecting, limiting and merging what lookups return;
* the set of multicast resolvers as a concurrent protocol, and its reconciliation;
* the merged lookup stream, the packet router and the lookup cache, over all their runs.

| file | about |
|---|---|
| `bytes.dfy`, `varint.dfy` | big-endian words, parser results, variable-length integers |
| `names.dfy`, `name_codec.dfy`, `name_roundtrip.dfy` | names, `put_name`, `be_name`, and runs of a writer |
| `certificate.dfy`, `endpoint.dfy`, `endpoint_proofs.dfy` | E records, their updates, modern and legacy layouts |
| `packet.dfy`, `packet_proofs.dfy` | whole messages, sections and recovery |
| `multi_response.dfy` | the response body |
| `wire_examples.dfy` | the bytes of some messages and records, field by field |
| `picking.dfy`, `grouping.dfy`, `merge.dfy` | groups, selection, candidates, merging |
| `publish.dfy`, `publish_proofs.dfy`, `decode_proofs.dfy` | publishing, decoding, and publish-then-look-up |
| `resolver_set.dfy`, `reconcile.dfy` | the resolver set |
| `lookup_stream.dfy`, `router.dfy`, `cache.dfy` | stream, router, cache |

`dafny verify dfyconfig.toml` checks everything.

## How to read the model

* Code that changes things step by step is a method or a class, proved against a function; the properties
  are proved about that function. Code made of expressions is a function.
* A parser returns `Parsed<T>`: a value with the remaining input, `Incomplete`, a recoverable `Error` with the
  input it points at, or a `Failure`. Parsers never index outside their input: that is part of every proof.
* Concurrent parts are total step functions, and the results hold for every sequence of actions, that is, for
  every interleaving. Critical sections of a lock, and single atomic loads and stores, are one step each.
* Integers are bounded by their types (`byte`, `u16`, `u32`, `varint`); casts that truncate are written out.
* Outcomes that come from outside are parameters: whether a bind or a stop succeeds, what a signer returns,
  whether a signature verifies and which chain a certificate names, the scheduler, and the clock.
* Hash map and hash set iteration visits elements in an arbitrary order.
* IP addresses are their octets, a load is the bit pattern of its float, the header flags are one 16-bit word,
  and labels are byte strings, so that lossy UTF-8 decoding is the identity.
* The largest certificate sequence belongs to another library; it is a constant of unknown value, at least
  16384, that fits 32 bits.

## Where the code and its promises differ

* A label over 63 bytes is only warned about: its length byte is truncated and the name is written.
  `NameRoundTrip.RoundTripIffShort` shows that exactly the names without such a label survive;
  `LongLabelExample` is one that does not.
* The comment on the compatibility parser says RDLENGTH tells legacy from modern records. The code tries a
  complete modern parse first. `EndpointProofs.LegacyIffNotModern` gives the exact condition under which a
  legacy record is read as one, and `AmbiguousExample` a legacy record that is not.
* A record of unknown TYPE is skipped, but one of unknown CLASS is skipped twice:
  `PacketProofs.UnknownClassSkipsTwice` shows that the section then stays in step exactly if RDLENGTH is zero;
  `UnknownClassExample` is a message where it does not.
* `set_clustered(true)`, `set_signed` and a failed signing can leave flags that announce absent fields.
  `EndpointProofs.UpdateKeepsAgreementIffSafe` says exactly when, and `UnsafeExamples` shows each case.
* Signing an endpoint address ignores an error of the signer and returns a record with SIGNED set and no signature.
  Such a record cannot be read: a section stops there, the answers behind it are lost, and a lookup rejects the
  message (`PacketProofs.UnfinishedStopsSection`, `PublishProofs.FailedSigningRejected`, `FailedSigningExample`).
* Flow information and scope of an IPv6 address are not written. An endpoint comes back without them, and is
  unchanged exactly if it had neither (`EndpointProofs.ReadStripped`, `EndpointProofs.StrippedSame`,
  `PublishProofs.StripAllIff`).
* Dropping a response stream removes whatever is registered under its id, also a later stream.
  `Router.RegisteredIffUndisturbed` says exactly when a stream stays registered; `SharedIdExample` is a run
  where it does not.
* A published name is read back in normal form, but a lookup compares it with its own spelling:
  `PublishProofs.PublishThenLookup` finds the endpoints for the normal form and nothing for any other;
  `OtherSpellingExample` is an authority that publishes as "a." and is not found as "a.".
* The answer count of a published message is 16 bits wide. The model lets it wrap around, as release builds do
  (a debug build stops there): `PublishProofs.PublishThenLookup` also says that the lookup then fails, and exactly
  then; `WrappedCountExample` is an authority with 65536 endpoints that is not found.
* A get of the cache looks, lets go of the table, and only then removes what it found expired. If an insert of
  the same key comes between, the new answer is removed. `Cache.GetMissesIffRace` says that a live answer is
  missed exactly in that case; `RaceExample` is such a run.

## Model

| member | source | states |
|---|---|---|
| VarInt.BeVarIntValue | src/core/parser/varint.rs:197-211 | parsing succeeds exactly if the announced length is there; the value is that of the masked bytes and the rest is untouched |
| VarInt.RoundTrip | src/core/parser/varint.rs:82-232 | every value reads back from its encoding, whatever follows, and takes `encoding_size` bytes |
| VarInt.EncodeIsShortest | src/core/parser/varint.rs:217-232 | the writer uses the shortest of the four lengths that holds the value |
| VarInt.EveryLengthReads | src/core/parser/varint.rs:197-211 | every value is read back from every announced length that holds it, minimal or not, whatever follows |
| VarInt.OnlyLengthsRead | src/core/parser/varint.rs:197-211 | and from no other bytes: what a successful parse consumed is the value in the announced length |
| Names.LabelsOfJoin | src/core/parser/name.rs:54-81 | joining labels with dots and splitting again gives the same labels |
| Names.LabelsTrailingDot | src/core/parser/name.rs:42-51 | a trailing dot does not change the labels of a name |
| Names.SplitThenJoin | src/core/parser/name.rs:53-56 | splitting a name at its dots loses nothing: joining the parts gives it back |
| Names.NonEmptyParts | src/core/parser/name.rs:56-65 | the labels are exactly the parts that are not empty |
| Names.NormalIdempotent | src/core/parser/name.rs:121-131 | the normal form of a name keeps its labels and is its own normal form |
| NameCodec.NameCompression.RememberSuffix | src/core/parser/name.rs:15-34 | the first offset of a suffix is kept, later ones are ignored |
| NameCodec.SplitLabels | src/core/parser/name.rs:42-65 | the loop yields the non-empty dot-separated parts in order, none for the root |
| NameCodec.Suffixes | src/core/parser/name.rs:71-81 | the backward loop yields the dotted form of every suffix, longest first |
| NameCodec.PutLabel | src/core/parser/name.rs:90-102 | one label is appended with its length byte, and its suffix remembered only while the offset fits a pointer |
| NameCodec.PutLabels | src/core/parser/name.rs:82-105 | the loop over labels appends the encoding of the label sequence, ending in a pointer or the root |
| NameCodec.PutName | src/core/parser/name.rs:39-106 | appends the encoding of the name, leaves its context, and reports exactly the bytes added |
| NameCodec.PointerProgress | src/core/parser/name.rs:133-173 | following an accepted pointer strictly shrinks the set of offsets not on the visited stack |
| NameCodec.BeNameLabels | src/core/parser/name.rs:133-173 | terminates on every input and origin, with a stack that never holds a repeated or outside offset, restored on success; computes the recursive meaning of label runs and pointers |
| NameRoundTrip.MeaningParses | src/core/parser/name.rs:121-173 | a run whose pointers strictly descend parses to what it stands for, consuming up to its terminator or pointer |
| NameRoundTrip.MeaningGrows | src/core/parser/name.rs:133-173 | appending to the message changes neither the meaning nor the length of a run |
| NameRoundTrip.EncodeLabelsSound | src/core/parser/name.rs:82-105 | halfway through a name the context promises suffixes that are not there yet; when the name ends every promise holds and every pointer leads before the name |
| NameRoundTrip.WriteNameSound | src/core/parser/name.rs:39-106 | writing a name keeps buffer and context in agreement, and its bytes mean its labels, with pointers strictly before its start |
| NameRoundTrip.ReadName | src/core/parser/name.rs:8-173 | a written name reads back in normal form from every extension of the message, leaving what follows |
| NameRoundTrip.LongLabelNeverRead | src/core/parser/name.rs:97-102 | a name with a label over 63 bytes is not the result of any parse of any input |
| NameRoundTrip.RoundTripIffShort | src/core/parser/name.rs:39-173 | a name survives writing and reading exactly if no label is over 63 bytes |
| NameRoundTrip.LongLabelExample | src/core/parser/name.rs:97-102 | a name of one 64-byte label is written and does not come back |
| NameRoundTrip.ParseConsumes | src/core/parser/name.rs:133-173 | every successful name parse consumes input |
| NameRoundTrip.EncodedLength | src/core/parser/name.rs:39-106 | compressed or not, a name takes at most two bytes more than its dotted form |
| NameRoundTrip.CompressedExactly | src/core/parser/name.rs:82-105 | exactly the labels before the first remembered suffix are written, then two bytes that point to it, or the terminator if none is remembered |
| NameRoundTrip.RememberedIff | src/core/parser/name.rs:90-93 | a name adds to the context nothing longer than itself, changes no entry, and adds itself exactly if it starts at an offset of at most 0x3FFF |
| NameRoundTrip.RepeatCostsTwo | src/core/parser/name.rs:82-93 | a name written before at such an offset costs two bytes the next time, wherever that is |
| NameRoundTrip.PointersFollowed | src/core/parser/name.rs:133-173 | with pointers in any direction, a name reads as it would without a visited stack, exactly if following them comes to an end; otherwise it is an error |
| NameRoundTrip.ForwardPointerExample | src/core/parser/name.rs:133-173 | a pointer forward is followed |
| NameRoundTrip.SelfPointerExample | src/core/parser/name.rs:133-173 | a pointer to itself is an error |
| NameRoundTrip.StepCommutes | src/core/parser/packet.rs:186-207 | what a writer appends does not depend on the bytes before it, so a later patch can be made earlier |
| NameRoundTrip.Resolve | src/core/parser/packet.rs:186-207 | every run with patches outside names is the run that wrote the patched bytes in the first place |
| NameRoundTrip.EveryNameReadsBack | src/core/parser/name.rs:39-173 | in every run of names, other bytes and patches, each name reads back from the final message at its start, in normal form, consuming exactly the reported bytes, over pointers to strictly earlier offsets |
| Endpoint.EndpointAddr.Direct | src/core/parser/record/endpoint.rs:132-154 | a direct endpoint: only the family flag, no optional field |
| Endpoint.EndpointAddr.Nat | src/core/parser/record/endpoint.rs:156-178 | an endpoint behind an agent: family and NAT flags, and the agent |
| Endpoint.EndpointAddr.SetMain | src/core/parser/record/endpoint.rs:307-313 | changes the MAIN flag and nothing else |
| Endpoint.EndpointAddr.SetClustered | src/core/parser/record/endpoint.rs:200-207 | changes the CLUSTERED flag; clearing it clears the sequence |
| Endpoint.EndpointAddr.SetLoad | src/core/parser/record/endpoint.rs:209-216 | sets the load and its flag together |
| Endpoint.EndpointAddr.SetSequence | src/core/parser/record/endpoint.rs:376-384 | keeps flags and fields in agreement, and the normalised sequence is the one set |
| Endpoint.EndpointAddr.SetSigned | src/core/parser/record/endpoint.rs:320-327 | changes the SIGNED flag and nothing else |
| Endpoint.EndpointAddr.SignWithAuthority | src/core/parser/record/endpoint.rs:218-239 | sets the flag before the signer answers, attaches what it returns, and leaves the signed bytes the same |
| Endpoint.BeBase | src/core/parser/record/endpoint.rs:471-535 | whatever it returns has flags that agree with its fields and nothing that is not written |
| Endpoint.BeEndpoint | src/core/parser/record/endpoint.rs:471-535 | whatever the modern parser returns is well-formed, also from non-minimal varints |
| EndpointProofs.FlagsByteRoundTrip | src/core/parser/record/endpoint.rs:123-130 | the flags byte determines every flag |
| EndpointProofs.FlagWeights | src/core/parser/record/endpoint.rs:123-130 | the bit each flag occupies in the byte |
| EndpointProofs.ReadEndpoint | src/core/parser/record/endpoint.rs:457-535 | decoding inverts encoding on well-formed endpoints; a signed one may be followed by more bytes |
| EndpointProofs.RoundTripIffWellFormed | src/core/parser/record/endpoint.rs:416-535 | an endpoint survives the round trip exactly if it is well-formed |
| EndpointProofs.StrippedSame | src/core/parser/record/endpoint.rs:682-714 | clearing flow information and scope changes neither the written nor the signed bytes, and changes the endpoint exactly if there was something to clear |
| EndpointProofs.ReadStripped | src/core/parser/record/endpoint.rs:457-535 | every endpoint whose flags agree comes back with only flow information and scope cleared |
| EndpointProofs.MissingSignatureIncomplete | src/core/parser/record/endpoint.rs:647-667 | a record with SIGNED set and no signature asks for more input |
| EndpointProofs.MissingSignatureCompat | src/core/parser/record/endpoint.rs:544-570 | through the compatibility parser it is not read, or at a legacy length misread as a legacy record |
| EndpointProofs.ReencodeParsed | src/core/parser/record/endpoint.rs:471-535 | any value ever parsed re-encodes to bytes that read back to it |
| EndpointProofs.SizeIsLength | src/core/parser/record/endpoint.rs:329-357 | the computed size is the encoded length whenever the address flags fit the addresses |
| EndpointProofs.SignedDataDetermines | src/core/parser/record/endpoint.rs:416-451 | equal signed bytes mean equal records, up to signature and SIGNED bit |
| EndpointProofs.SignedPrefix | src/core/parser/record/endpoint.rs:443-469 | what is signed is what a signed record puts before its signature, whether or not it was signed before; an unsigned record puts none |
| EndpointProofs.SignedFirstByte | src/core/parser/record/endpoint.rs:443-451 | the signed bytes have the SIGNED bit set |
| EndpointProofs.UpdateKeepsAgreementIffSafe | src/core/parser/record/endpoint.rs:200-239 | an update keeps flags and fields in agreement exactly under the stated condition, which a caller can evaluate beforehand, except for a signing, where it is the answer of the signer |
| EndpointProofs.UnsafeExamples | src/core/parser/record/endpoint.rs:200-239 | a bare CLUSTERED flag, a bare SIGNED flag and a failed signing each break the agreement of a fresh endpoint |
| EndpointProofs.UpdateSets | src/core/parser/record/endpoint.rs:200-384 | each update makes its field what was asked for |
| EndpointProofs.UpdateOverwrites | src/core/parser/record/endpoint.rs:200-384 | of two updates of one kind the last decides |
| EndpointProofs.UpdateIdle | src/core/parser/record/endpoint.rs:200-384 | setting what is there already changes nothing, so each update touches only its own field |
| EndpointProofs.Conversions | src/core/parser/record/endpoint.rs:733-784 | which addresses become records and which records become addresses, both exactly, and the first byte of a fresh record |
| EndpointProofs.UpdatesStayWellFormed | src/core/parser/record/endpoint.rs:200-384 | every sequence of such updates keeps an endpoint decodable, and well-formed if it was |
| EndpointProofs.UpdatesKeepAddress | src/core/parser/record/endpoint.rs:757-784 | no sequence of updates changes the transport address |
| EndpointProofs.BuiltEndpointsRoundTrip | src/core/parser/record/endpoint.rs:733-784 | every endpoint built from an address by safe updates agrees with its flags, encodes in its computed size, reads back with only flow information and scope cleared (unchanged exactly if the address had neither), signs the same bytes afterwards and converts back to the address |
| EndpointProofs.CompatReadsModern | src/core/parser/record/endpoint.rs:544-570 | the compatibility parser reads every modern record, of whatever length, with only flow information and scope cleared, so a well-formed one unchanged |
| EndpointProofs.BaseTaken | src/core/parser/record/endpoint.rs:471-535 | the part before the signature is readable exactly if the length announced by flags and sequence prefix is there |
| EndpointProofs.SignatureTaken | src/core/parser/record/endpoint.rs:647-667 | the signature fills the record exactly if its announced length does |
| EndpointProofs.ModernIffLength | src/core/parser/record/endpoint.rs:471-535 | a complete modern parse succeeds exactly if the length computed from flags, sequence and signature prefix is the length |
| EndpointProofs.LegacyParse | src/core/parser/record/endpoint.rs:573-645 | every record of a legacy length reads as its addresses, with nothing left |
| EndpointProofs.AmbiguousFlags | src/core/parser/record/endpoint.rs:544-570 | a modern record is never 6 bytes long, and of another legacy length only if signed, or clustered with a load |
| EndpointProofs.LegacyIffNotModern | src/core/parser/record/endpoint.rs:544-645 | a record of a legacy length is read as legacy exactly if its bytes do not add up to a modern one |
| EndpointProofs.LegacyByFirstByte | src/core/parser/record/endpoint.rs:544-645 | so is every 6-byte record, and every other whose first byte has SIGNED clear and not both CLUSTERED and LOAD set |
| EndpointProofs.OtherLengthsModern | src/core/parser/record/endpoint.rs:544-570 | data of no legacy length is read as modern or not at all |
| EndpointProofs.EndpointOutcomes | src/core/parser/record/endpoint.rs:471-535 | a sequence out of range is fatal, bytes behind an unsigned record are an error that points at them, and any other failure asks for more input |
| EndpointProofs.AmbiguousExample | src/core/parser/record/endpoint.rs:544-570 | a legacy record that the parser takes for a modern one |
| Packet.ParseLoop | src/core/parser/packet.rs:276-298 | the section loop computes the recursive section parse: it continues where a recoverable error points and stops at any other |
| Packet.WriteBase | src/core/parser/record/endpoint.rs:416-441 | appends the bytes before the signature |
| Packet.PutEndpointAddr | src/core/parser/record/endpoint.rs:457-469 | appends the record, with its signature only if flag and signature are both there |
| Packet.PutSrv | src/core/parser/packet.rs:210-215 | appends priority, weight, port and the compressed target |
| Packet.PutRecord | src/core/parser/packet.rs:174-208 | writing a placeholder and patching RDLENGTH afterwards equals writing the right length at once |
| Packet.WriteQuestion | src/core/parser/packet.rs:118-126 | appends a question with its unicast bit |
| Packet.WriteRecords | src/core/parser/packet.rs:128-136 | appends a section of records, threading one compression context |
| Packet.ToBytes | src/core/parser/packet.rs:112-139 | the message is header and four sections over one compression context |
| PacketProofs.ReadHeader | src/core/parser/header.rs:141-175 | the header reads back |
| PacketProofs.Codes | src/core/parser/record.rs:95-191 | type and class codes invert their encodings, with the cache-flush bit |
| PacketProofs.TypeTable | src/core/parser/record.rs:152-191 | the known record types with their codes; all of 266 to 269 are E records, and every other code is unknown |
| PacketProofs.ClassTable | src/core/parser/record.rs:95-125 | the known classes with their codes, the top bit aside |
| PacketProofs.QueryCodes | src/core/parser/question.rs:72-162 | query type and class codes invert their encodings, with the unicast bit |
| PacketProofs.QueryTable | src/core/parser/question.rs:72-162 | the known query types and classes with their codes; here 266 to 269 are told apart |
| PacketProofs.ReadQuestion | src/core/parser/question.rs:164-193 | a written question reads back, its name in normal form |
| PacketProofs.QuestionOutcome | src/core/parser/question.rs:164-193 | a question of unknown type or class is an error that points behind it |
| PacketProofs.ReadHead | src/core/parser/record.rs:218-236 | owner, type, class, lifetime and RDLENGTH read back |
| PacketProofs.ReadSrv | src/core/parser/record/srv.rs:40-54 | SRV data reads back, its target in normal form, and keeps the context sound |
| PacketProofs.ReadData | src/core/parser/record.rs:281-300 | RDATA of every type reads back from exactly its bytes and keeps the context sound |
| PacketProofs.ItemStep | src/core/parser/record.rs:218-279 | one record reads back from any extension of the message, and a record of unknown type is an error that points just behind it |
| PacketProofs.SectionStarts | src/core/parser/packet.rs:276-298 | a section starts with exactly the known records of what is written first and goes on from there |
| PacketProofs.SectionRoundTrip | src/core/parser/packet.rs:276-298 | a section of well-formed records interleaved with records of unknown type decodes to exactly the well-formed ones, in order |
| PacketProofs.QuestionsRoundTrip | src/core/parser/packet.rs:217-240 | a question section decodes to its questions, in order |
| PacketProofs.PacketRoundTrip | src/core/parser/packet.rs:112-240 | every well-formed message is read back in full, with no byte left, names in normal form and addresses without flow information and scope |
| PacketProofs.CountedAnswersRead | src/core/parser/packet.rs:217-240 | a message whose header counts only its first answers reads as exactly those, and bytes are left over exactly if there are more |
| PacketProofs.EveryCodeReads | src/core/parser/record.rs:152-176 | under each of the codes 266 to 269, modern or legacy data reads as its endpoint, in every message |
| PacketProofs.OlderCodeExample | src/core/parser/record.rs:166-167 | a legacy IPv4 address under code 267 |
| PacketProofs.RecordDataExact | src/core/parser/record.rs:236-279 | data that is not used up makes a record an error that points behind it; data that is used up makes it the record |
| PacketProofs.RecordCutShort | src/core/parser/record.rs:238-243 | a record whose data is cut short asks for more input |
| PacketProofs.LeftoverExample | src/core/parser/record.rs:246-252 | an address record with five bytes of data is an error |
| PacketProofs.SectionRecovers | src/core/parser/packet.rs:276-298 | a section goes on behind a recoverable error and stops at any other |
| PacketProofs.UnfinishedIncomplete | src/core/parser/record.rs:236-247 | an endpoint record with SIGNED set and no signature, of no legacy length, asks for more input wherever it stands |
| PacketProofs.UnfinishedStopsSection | src/core/parser/packet.rs:276-298 | a section stops at such a record and loses everything behind it |
| PacketProofs.UnfinishedCutsMessage | src/core/parser/packet.rs:217-240 | a message with such an answer reads as the answers before it, with bytes left over |
| PacketProofs.QuestionConsumes | src/core/parser/question.rs:164-193 | each successful question consumes at least 5 bytes, on any input |
| PacketProofs.RecordConsumes | src/core/parser/record.rs:218-279 | each successful record consumes at least 11 bytes, on any input |
| PacketProofs.CountsNeverReject | src/core/parser/packet.rs:217-274 | the count check rejects no message whose sections all parse, so the message is accepted |
| PacketProofs.CountsReject | src/core/parser/packet.rs:242-274 | a message is accepted exactly if it holds its header and 5 bytes for each question and 11 for each record counted; otherwise it fails before any section is parsed |
| PacketProofs.UnknownClassExample | src/core/parser/record.rs:255-266 | a text record of class 9 with one byte of data: the parser goes on one byte too far |
| PacketProofs.UnknownClassSkipsTwice | src/core/parser/record.rs:255-266 | a record of known type and unknown class moves the section on by RDLENGTH too much; it stays in step exactly if RDLENGTH is zero |
| WireExamples.ResponseExample | src/core/parser/header.rs:204-226 | the bytes of a response with one question and one answer, field by field, with the pointer to its name |
| WireExamples.ServiceExample | src/core/parser/record/srv.rs:40-54 | priority, weight and port stand before the target |
| WireExamples.EndpointExample | src/core/parser/record/endpoint.rs:416-469 | the bytes of an E record with every optional field |
| WireExamples.ResponseBodyExample | src/core/wire.rs:131-150 | the bytes of a response body with one record |
| MultiResponse.PutResponseRecord | src/core/wire.rs:139-150 | appends the five length-prefixed fields in order |
| MultiResponse.Encode | src/core/wire.rs:99-103 | the loop yields count and records |
| MultiResponse.EncodeRecords | src/core/wire.rs:105-123 | the streaming encoder with its patched count yields the same bytes as `encode` |
| MultiResponse.DecodeLoop | src/core/wire.rs:152-173 | the decoding loop computes the recursive decoder |
| MultiResponse.RoundTrip | src/core/wire.rs:99-179 | decoding inverts encoding and leaves trailing bytes untouched |
| MultiResponse.SizeIsLength | src/core/wire.rs:81-97 | the computed size is the encoded length, for any records |
| MultiResponse.StrictPrefixIncomplete | src/core/wire.rs:152-179 | no strict prefix of an encoding decodes: the decoder asks for more |
| Grouping.GroupedEndpointCandidates | src/resolvers/endpoint_candidates.rs:195-222 | the loop with in-place insertion yields the groups defined without it |
| Grouping.GroupsArePartition | src/resolvers/endpoint_candidates.rs:195-222 | chains are distinct and primary, no group is empty, and each holds exactly the kept records of its chain, in order |
| Grouping.GroupingConserves | src/resolvers/endpoint_candidates.rs:195-237 | over all groups nothing is lost and nothing invented, counting repetitions |
| Grouping.KeptMeans | src/resolvers/endpoint_candidates.rs:228-237 | a record marked primary speaks for itself, one with only a sequence is secondary, one with neither belongs to its publisher; exactly when a record is kept |
| Grouping.MembersAt | src/resolvers/endpoint_candidates.rs:195-222 | the members of a chain stand in the order of its kept records |
| Grouping.KeysAt | src/resolvers/endpoint_candidates.rs:195-222 | the groups come in the order in which their first records do |
| Grouping.FilterMembersKeeps | src/resolvers/endpoint_candidates.rs:97-122 | filtering by family keeps each matching member as often as it was there, and no other |
| Grouping.FilterGroupsKeeps | src/resolvers/endpoint_candidates.rs:111-122 | what is left are exactly the groups with a member of the family, cut down to those |
| Grouping.FilterEndpointCandidateGroups | src/resolvers/endpoint_candidates.rs:111-122 | the loop computes that filter, and does nothing without a family |
| Grouping.Families | src/resolvers/endpoint_candidates.rs:97-105 | the family of an endpoint is that of the address a peer connects to |
| Grouping.FilteredAt | src/resolvers/endpoint_candidates.rs:111-118 | filtering keeps the order of members |
| Grouping.FilterGroupsLast | src/resolvers/endpoint_candidates.rs:111-122 | and of groups |
| Grouping.SelectGroupPairs | src/resolvers/endpoint_candidates.rs:145-158 | without an exact sequence the selection is a prefix: at most three groups by default, at most the limit, or all |
| Grouping.ExactSelection | src/resolvers/endpoint_group.rs:50-82 | an exact sequence selects at most one group, the one the find-first selector returns, with all members of that chain |
| Grouping.FirstSelection | src/resolvers/endpoint_group.rs:50-82 | without a sequence all members of the chain of the first kept record are selected |
| Grouping.FirstMembersDistinct | src/api.rs:104-122 | deduplication keeps each address once, loses none and invents none |
| Grouping.FirstMembersAt | src/api.rs:104-122 | of each address the first member is kept, in order |
| Grouping.RetainedLimit | src/api.rs:107-112 | the limit cuts the deduplicated list, and nothing else does |
| Grouping.RetainedStep | src/mdns.rs:566-583 | checking the limit before each push keeps the same members as cutting the deduplicated list at the end |
| Grouping.LocalCandidate | src/mdns.rs:566-588 | the local loop for one group keeps the deduplicated, limited addresses, and every source once |
| Grouping.SourcesOnce | src/mdns.rs:566-575 | the sources of a group are those of its members, each once |
| Grouping.SourcesGrow | src/mdns.rs:566-575 | sources come in the order in which they first appear |
| Grouping.RemoteCandidate | src/api.rs:104-128 | the remote loop, which passes addresses not seen before and stops at the limit, keeps the same addresses, and lowers the lifetime only by records it keeps |
| Grouping.RetainedFull | src/api.rs:107-112 | once the limit is reached nothing that follows is kept, so stopping early loses nothing |
| Grouping.LeastTtlIsMinimum | src/api.rs:114-117 | the running lifetime is the minimum, and is reached |
| Grouping.Freshness | src/api.rs:206-239 | the lifetime left is zero if storing is forbidden or all is used up, and otherwise the smaller of DNS lifetime and max-age, less the age |
| Grouping.RemoteAnswer | src/api.rs:84-138 | the answer has every selected group in order and a lifetime no longer than that of any record it keeps; with no group it says whether records were rejected |
| Grouping.AnswerAt | src/api.rs:101-128 | one candidate for each selected group, in order |
| Grouping.AnswerTtlIsMinimum | src/api.rs:101-138 | over all groups of an answer the lifetime is the least of the kept records |
| Grouping.LocalAnswer | src/mdns.rs:552-591 | a candidate for every selected group, in order, none dropped as empty |
| Grouping.LocalIsAnswer | src/mdns.rs:552-591 | the local candidates have the chains of the selected groups and the addresses kept of each |
| Grouping.AnswersAgree | src/api.rs:84-138 | for the same records and lookup, what the remote and what the local pipeline return have the same length and, at each place, the same chain and endpoints |
| Merge.Retain | src/resolvers.rs:238-243 | drops exactly what is already there, keeping the order |
| Merge.WithoutHas | src/resolvers.rs:238-243 | what is left is exactly what was not there |
| Merge.WithoutConcat | src/resolvers.rs:238-243 | and it keeps its order |
| Merge.MergeGroup | src/mdns.rs:593-611 | the in-place merge of one group equals the merge function |
| Merge.MergeGroups | src/mdns.rs:593-611 | merging a result into what was merged before equals merging all groups in arrival order |
| Merge.LookupEndpointCandidates | src/resolvers.rs:201-263 | succeeds exactly if some report does; then each chain, endpoint and source is there exactly if a successful report has it; otherwise every resolver is named, those without candidate lookup first, then the reports in order |
| Merge.MergeAllKeeps | src/mdns.rs:593-611 | merged chains are distinct and their lists free of duplicates |
| Merge.MergeAllHas | src/resolvers.rs:232-256 | a merged chain has an endpoint or source exactly if some result had it |
| Merge.MergeAllAppends | src/mdns.rs:593-611 | merging only appends: what arrived first keeps its place, among groups and within them |
| Merge.OutcomeKeeps | src/resolvers.rs:232-263 | the outcome has distinct chains and no duplicates if the successful reports have none |
| Merge.LocalDuplicateFree | src/mdns.rs:552-591 | what the local pipeline returns is free of duplicates, so it can be merged |
| Merge.RemoteDuplicateFree | src/api.rs:84-138 | so is what the remote pipeline returns |
| Merge.ArrivalOrderIrrelevant | src/resolvers.rs:232-256 | any two arrival orders of the same reports agree: both fail, naming the same resolvers as often, or both succeed with the same chains, endpoints and sources |
| Publish.DnsEndpointsForAuthority | src/publishers/packet.rs:27-58 | all endpoints marked primary with the authority's sequence, or the first applicable error |
| Publish.SignEndpointAddress | src/core/parser/record/endpoint.rs:786-799 | a convertible address becomes an endpoint with the server's sequence, primary for server 0, signed if there is an authority, whose error is ignored |
| Publish.Answer | src/core/parser/packet.rs:99-110 | the nested loops build a response with every record in order, whose count is their number modulo 65536 |
| Publish.DnsPacketForAuthority | src/publishers/packet.rs:61-71 | succeeds exactly for the authority's own name, a chain, convertible endpoints and, if there are any, a primary chain; the bytes are those of the published message |
| Publish.CollectLoop | src/api.rs:165-199 | the loop over response records computes the collection that `DecodeProofs.DecodesExactly` and `DecodeStops` characterise |
| DecodeProofs.DecodesExactly | src/api.rs:140-204 | of up to 256 records whose messages parse, the groups are those of exactly the E answers for the name, in order, each with its own lifetime and the chain of its certificate, in the records that are unsigned or verify; the number of the others is reported |
| DecodeProofs.ForgedRejected | src/api.rs:169-179 | a record with signature fields that do not verify contributes nothing and is counted |
| DecodeProofs.DecodeStops | src/api.rs:180-190 | the first accepted record that does not parse, or leaves bytes, decides the error of the whole |
| DecodeProofs.DecodeRefuses | src/api.rs:149-163 | more than 256 announced records, a short body and trailing bytes are refused |
| PublishProofs.SignedAgrees | src/core/parser/record/endpoint.rs:786-799 | flags and fields of the result agree exactly if the signer did not fail |
| PublishProofs.SignedChain | src/core/parser/record/endpoint.rs:786-799 | a signed address is primary for server 0 and secondary for every other, under the sequence of the server |
| PublishProofs.FailedSigningUnfinished | src/core/parser/record/endpoint.rs:786-799 | after a failed signing the record is never of a legacy length and is not readable |
| PublishProofs.FailedSigningRejected | src/api.rs:140-204 | a published message with one such answer is rejected as a whole, for every lookup |
| PublishProofs.FailedSigningExample | src/api.rs:140-204 | a single endpoint whose signing failed, published as "a", is not found |
| PublishProofs.PublishedOk | src/publishers/packet.rs:43-50 | a published endpoint is decodable in at most 45 bytes, converts back to its address and carries the primary chain of the sequence |
| PublishProofs.PublishedPacketReads | src/publishers/packet.rs:61-71 | the published message reads back in full, with its name in normal form and flow information and scope cleared, exactly if it has fewer than 65536 answers |
| PublishProofs.AnswerReads | src/core/parser/packet.rs:99-110 | the answer to a list of hosts reads back with the id, the response flag, every answer counted, and all answers in order |
| PublishProofs.HostRecordsConcat | src/core/parser/packet.rs:103-108 | the answers to several hosts are those of each, one after the other |
| PublishProofs.HostAnswers | src/core/parser/packet.rs:103-108 | every answer is an E record of class IN with a lifetime of 300 seconds |
| PublishProofs.OneGroup | src/resolvers/endpoint_candidates.rs:195-237 | records of one authority make one group, in order, whatever chain the certificate suggests |
| PublishProofs.LegacyTakesPublisherChain | src/resolvers/endpoint_candidates.rs:228-237 | a legacy record is grouped under the chain of its publisher's certificate, and dropped without one |
| PublishProofs.PublishThenLookup | src/api.rs:140-204 | what a primary authority publishes, unsigned or verifying, decodes to one group with its sequence and the endpoints in publish order, less flow information and scope, for a lookup of the name's normal form, and to nothing for any other spelling; it fails exactly if the answer count wrapped |
| PublishProofs.OtherSpellingExample | src/api.rs:140-204 | what is published as "a." is found as "a" and not as "a." |
| PublishProofs.StripAllIff | src/core/parser/record/endpoint.rs:688-692 | the endpoints found are the published ones exactly if none has flow information or a scope |
| PublishProofs.WrappedCountExample | src/core/parser/packet.rs:158-171 | 65536 endpoints published as "a" are not found: the response is rejected |
| PublishProofs.AnswersLength | src/core/parser/packet.rs:174-208 | a bound on the length of a published message, from its name and the number of its endpoints |
| ResolverSet.RunKeepsShut | src/mdns.rs:274-341 | no step reopens the set, and none adds to the map once it is closed |
| ResolverSet.EveryRunPlaces | src/mdns.rs:274-341 | in every interleaving identities are never reused, and no two upserts hold one candidate |
| ResolverSet.NoResolverLost | src/mdns.rs:274-341 | every resolver ever bound is in exactly one of the map, an undecided upsert, or handed to its shutdown |
| ResolverSet.DrainedForever | src/mdns.rs:423-440 | once a shutdown has drained the map it stays empty and closed, whatever runs afterwards |
| ResolverSet.FinishedShutdownDrained | src/mdns.rs:423-440 | in every run, once a shutdown has finished, the set is closed, the map empty, and every resolver ever bound was handed to its shutdown or is a candidate still undecided |
| ResolverSet.EveryRunFaithful | src/mdns.rs:274-341 | in every run the map is what the recorded decisions, removals and drains leave, and no decision replaces a registration |
| ResolverSet.SuccessWasDecided | src/mdns.rs:274-327 | every successful upsert returns the resolver of a decision it made |
| ResolverSet.UpsertsAgree | src/mdns.rs:274-327 | two decisions for one binding with no removal or drain between them settle on the same resolver |
| ResolverSet.EveryRunDecidesOnce | src/mdns.rs:274-327 | in every run, a task that has decided returns that resolver and no other, or the error of its candidate's shutdown |
| ResolverSet.SuccessesAgree | src/mdns.rs:274-327 | two successful upserts of one binding return the same resolver if it is not removed and the map not drained between their decisions, and each has such a decision |
| ResolverSet.SuccessesAgreeUndisturbed | src/mdns.rs:274-327 | so do any two in a run without removal of the binding or drain |
| Reconcile.SerialUpsert | src/mdns.rs:274-327 | the atomic steps of an upsert that nothing interrupts add up to the upsert of the set, and retire nothing |
| Reconcile.SerialRemove | src/mdns.rs:329-341 | those of a removal add up to the removal, with the instance handed to its shutdown even if that fails |
| Reconcile.SerialShutdown | src/mdns.rs:423-440 | those of a shutdown leave the set closed and empty, with exactly what was in the map handed to its shutdown |
| Reconcile.OvertakenUpsert | src/mdns.rs:293-327 | an upsert that finds the set closed or its binding taken shuts its own candidate down, leaves the map alone, and reports the closed set or returns the other resolver, unless that shutdown fails |
| Reconcile.MdnsResolverSet.Shutdown | src/mdns.rs:423-440 | all entries are stopped even if one fails, and a failure is reported exactly if there was one |
| Reconcile.MdnsResolverSet.Upsert | src/mdns.rs:274-327 | refuses on a closed set, returns what is registered, and otherwise registers a new instance if it binds |
| Reconcile.MdnsResolverSet.Remove | src/mdns.rs:329-341 | the entry leaves the map whether or not its shutdown succeeds |
| Reconcile.MdnsResolverSet.RetireObsolete | src/mdns.rs:354-362 | exactly the desired entries stay, with their identity; an error for each obsolete one whose shutdown failed |
| Reconcile.MdnsResolverSet.BindMissing | src/mdns.rs:363-367 | what was there stays, and every other desired binding is registered or reported once |
| Reconcile.MdnsResolverSet.Reconcile | src/mdns.rs:349-369 | the registered keys become the desired set minus the reported bind errors, kept instances keep their identity, obsolete ones leave even if their shutdown fails, and a set that matches is left alone |
| LookupStream.StepKeepsInv | src/resolvers.rs:265-347 | every step keeps each record of a completed source yielded or still to come |
| LookupStream.StepProgress | src/resolvers.rs:306-347 | every step brings the stream nearer to its end |
| LookupStream.NotStuck | src/resolvers.rs:306-347 | while the stream is not over some step is possible |
| LookupStream.EveryInterleaving | src/resolvers.rs:265-347 | nothing is yielded twice, every run is bounded, an ended stream has yielded exactly the union of all successful resolvers, and a lookup fails only if all fail, reporting each once |
| LookupStream.EveryRunInOrder | src/resolvers.rs:306-347 | each resolver is read in its own order, to its end if the stream ended, and what is yielded are the first appearances in the order of delivery |
| LookupStream.FirstsAt | src/resolvers.rs:342-345 | the first appearances are exactly the deliveries of a record not delivered before, in order |
| LookupStream.Lookup | src/resolvers.rs:265-302 | fails exactly if every resolver fails, and otherwise returns a stream that has yielded nothing |
| LookupStream.NextUniqueRecord | src/resolvers.rs:306-347 | returns a record not seen before, or ends with every source exhausted |
| LookupStream.Drain | src/resolvers.rs:306-347 | a consumer gets every record of the successful resolvers exactly once |
| Router.PacketRouter.ReceiveQuery | src/mdns/protocol.rs:172-176 | takes the oldest request |
| Router.PacketRouter.RegisterQuery | src/mdns/protocol.rs:178-215 | a new live stream, registered under its id |
| Router.PacketRouter.NextResponse | src/mdns/protocol.rs:188-197 | takes the oldest response of a stream |
| Router.PacketRouter.DropResponses | src/mdns/protocol.rs:199-205 | unregisters its id, then closes the stream |
| Router.PacketRouter.Deliver | src/mdns/protocol.rs:217-240 | undisturbed, a request is always queued as the newest, evicting the oldest if the queue is full; a response goes to the live stream of its non-zero id if there is room |
| Router.EveryRunQueues | src/mdns/protocol.rs:217-240 | in every run the queue is a run of consecutive requests, all before it consumed or dropped in order |
| Router.RequestsInOrder | src/mdns/protocol.rs:217-240 | the queue never exceeds 64, requests are consumed in delivery order, the newest is never dropped, and none is lost otherwise |
| Router.EveryRunRoutes | src/mdns/protocol.rs:178-240 | streams hold only responses with their own non-zero id, and no more than 64 |
| Router.ResponseRouted | src/mdns/protocol.rs:217-233 | a response is appended to the queue of the stream registered under its non-zero id, while its channel is there and holds fewer than 64; nothing else changes |
| Router.EveryRunDelivers | src/mdns/protocol.rs:178-233 | in every run, what was taken from a stream followed by its queue is, in order, exactly the responses delivered for it while it was registered and had room |
| Router.DropsOnlyWhenFull | src/mdns/protocol.rs:234-240 | a request is dropped only by an eviction due to 64 waiting requests |
| Router.RegisteredStep | src/mdns/protocol.rs:178-240 | a step unregisters a stream it does not drop exactly if it registers its id again or drops another live stream of that id |
| Router.RegisteredIffUndisturbed | src/mdns/protocol.rs:178-240 | over every run, a stream that is not dropped is registered exactly if nothing of that kind happened |
| Router.LiveStaysRegistered | src/mdns/protocol.rs:178-240 | with distinct live ids every stream stays registered until it is dropped |
| Router.SharedIdExample | src/mdns/protocol.rs:199-205 | with a shared id, dropping one stream unregisters the other, which lives on |
| Cache.MatchIsNormal | src/h3/cache.rs:14-67 | an entry matches an invalidated name exactly if both names have the same normal form |
| Cache.KeysShared | src/h3/cache.rs:14-21 | two lookups share an entry exactly if they ask for the same and their names differ at most in case and in dots at the end |
| Cache.TrimDotsMeans | src/h3/cache.rs:14-21 | all dots at the end of a name are removed, and nothing else |
| Cache.LookupCache.Get | src/h3/cache.rs:35-44 | undisturbed, a get answers only before the expiry, and is a look followed by the removal of what it found expired |
| Cache.LookupCache.Insert | src/h3/cache.rs:46-61 | stores with its expiry, and does nothing for a zero lifetime |
| Cache.LookupCache.InvalidateName | src/h3/cache.rs:63-67 | removes exactly the entries of the name, whatever their lookup |
| Cache.LookupCache.Clear | src/h3/cache.rs:69-71 | removes everything |
| Cache.LatestMeans | src/h3/cache.rs:34-71 | the specification picks the insert with no later insert, clear or invalidation for its key, and none only if every insert was followed by one |
| Cache.RunExact | src/h3/cache.rs:34-71 | in every interleaving and on any clock, the table holds the latest insert exactly until a get removes it |
| Cache.LookExact | src/h3/cache.rs:35-44 | a look answers what the history says exactly unless a removal took an answer that still lives |
| Cache.GetMissesIffRace | src/h3/cache.rs:35-61 | for every interleaving whose accesses read the clock before, in whatever order, a live answer is missed exactly if a get that found an older one expired removes it after the insert; otherwise every look answers what the history says |
| Cache.GetAgreesWithHistory | src/h3/cache.rs:35-71 | if no other access comes between a look and its removal, every get answers exactly what the history says |
| Cache.RaceExample | src/h3/cache.rs:35-61 | a run in which a get removes an answer stored after it looked |

## Left out

- MultiResponse.EncodeRecords: more records than fit a 32-bit count are excluded, because the program panics there.
- PacketProofs.SectionRoundTrip: nothing is claimed about errors raised inside RDATA or behind a pointer, where the error does not point at the rest of the section.
- Router.PacketRouter.Deliver: a queued request is its number in delivery order; what else it holds is not carried along.
- Invalidation and clearing of the cache are one step each; their passes over the shards of the map are not modelled.
- The endpoints to publish come as a list; reading of the iterator stops at the first that does not convert, and what is not read is not modelled.
- LookupStream.Drain: streams are finite, and dropping the stream before its end is not modelled.
- Reconcile.MdnsResolverSet.Reconcile: no other task runs during a call, as its documentation asks of the caller.
- How many more bytes an `Incomplete` result asks for.
- Sockets, multicast groups, interfaces, tasks and timers of the multicast service, and the periodic `maintain` loop.
- HTTP and H3 requests, URLs, retries, timeouts and leases; the text of cache headers, of which only the parsed numbers enter.
- Signatures, digests, base64 and certificate parsing: what they decide is a parameter.
- Sockets and lookups of one multicast resolver, and the shutdown of one instance: only their outcome enters.
- The fan-out of `Publishers`, resolver configuration, formatting, error types, the build script, examples and documentation.
