# Verified models of the AVB tools

Dafny models of five parts of the AVB repository, with proofs of what they promise:

- the entity compiler (`flatten`), its inverse (`unflatten`), and the descriptor storage blob;
- the collector of localized strings and the codecs of control values;
- the ACF message walker with its checksum and CRC trailers;
- the ACMP controller's table of commands in flight;
- the OWLM analysis: byte ranges, streaming aggregation, percentiles, loss and bursts.

`dafny verify dfyconfig.toml` checks the whole project.

## How the models are built

**Entity compiler.** A node of the entity tree keeps its own fields as octets (`head`, `tail`); what the
compiler computes (indices, numbers, bases, the count table, the identify bit) is modelled down to the octet.
`pools.dfy` specifies the walk as functions that only append to per-type pools. `flatten.dfy` and
`compiler.dfy` are the imperative compiler, with counters, lists, sorting and patching, proved against those
functions; `walk_order.dfy` shows that the order of lists that own nothing does not matter to them.
`unflatten.dfy` specifies the assembly and `decompiler.dfy` is the imperative one, with its set of referenced
controls. `fields.dfy` and `utf8.dfy` say which values a field gives back. `layouts.dfy` gives every descriptor
type its layout, field by field with constants, counts, lists and payloads, and with it what its parser keeps of
its octets; `Written` asks of a tree only that constants, offsets, counts and list lengths are those its
serializer writes. `settle.dfy`, `roundtrip*.dfy`, `recompile.dfy`, `aem_theorems.dfy` and `aem_trips.dfy` hold
the theorems that join the two directions, `coverage.dfy` the partition of children by ranges. `compiled_octets.dfy`,
`nesting_octets.dfy`, `layout_octets.dfy`, `survival_octets.dfy` and `blob_octets.dfy` say what all this comes to in
the octets of a compiled list or a blob, with the offsets and type codes written out.

**Strings and controls.** `strings.dfy` is the collector class; `string_theorems.dfy` follows a reference
through the compiled configuration to the octets of a STRINGS descriptor. `control_values.dfy` has the codec,
the count derived from octets, and the dissector's walk.

**ACF.** `acf.dfy`, `checksum.dfy` and `crc.dfy`; `acf_octets.dfy` tells the same from the octets. The table of
message types is a parameter; what the walk needs of it is `WfSpec`.

**ACMP.** `acmp.dfy` is the controller class; `acmp_runs.dfy` runs it as a state machine beside a history of
every accepted command. `container_slot_table.hpp` is not part of this model: a table is a dense sequence,
an add appends, and a removal moves the last entry into the hole, as
`statusbar/atdecc/atdecc_aecp_aem_controller.cpp:100` says. The transmit callback is a parameter with three
cases (not set, refusing, accepting); time is whole milliseconds.

**OWLM.** The `owlm_*.dfy` files; `owlm_meaning.dfy` says what is reported in terms of the rows of a capture.
Integers are unbounded, with the int64 extremes as the sentinels of the source; bin edges are any increasing reals
from 100 ns to 1 s; the CSV reader is a function from lines to rows.

## Where promises fail

- The docstring of `_derive_gaps` (`python/owlm/owlm_analyze.py:2276-2279`) calls its loss model identical to
  the summary's. `LatePacketDisagrees` is a capture on which the two differ; `AgreeExactly` says when they do not.
- `_parse_mixer` (`python/aemxml/unflatten.py:510-522`) reads the number of sources from the field before it
  (`MixerCountMisread`).
- A negative number, such as a signed log interval, is read back unsigned (`FieldRoundTrip`); its octets are kept
  (`FieldReserializes`).
- A name longer than 64 octets can be cut inside a character (`CutInACharacter`); what is read then packs to other
  octets. `FieldComesBack` says exactly when it does not, `TwoTripsSettle` that it stops.
- `_parse_control` (`python/aemxml/unflatten.py:460-475`) takes the value count for a length in octets, and the
  format octets of video and sensor clusters are not read. `OneValueIsCut` is a control that loses its value;
  `RecompileChangesNothing` says exactly which entities compile to the same octets again, `RecompileIsPointwise`
  what becomes of the others, and `TripsComeToRest` that repeating it ends.
- `NanoAvbAcmpController::tick` (`statusbar/nanoavb/nanoavb_acmp.cpp:417-434`) reads the entry it reports after
  removing it. `MisreportedTimeout` says exactly when it reports the right command, and `MisreportIsReachable` is a
  run of two sends and two timeouts after which it reports a command that is still waiting.
- `_serialize_video_cluster` and `_serialize_sensor_cluster` (`python/aemxml/flatten.py:951-999`) write 86 for the place
  after the fixed fields, which is 90; the word points at itself (`SizedDescriptor`).
- A localized reference beyond slot 57343 does not survive packing (`ReferencesPack`).

## Model

| member | source | states |
|---|---|---|
| Wire.PackUnpack | python/aemxml/wire.py:10-36 | a checked field is refused exactly outside [-2^(8n-1), 2^(8n)); an accepted value reads back from inside any buffer as itself or its two's complement |
| Wire.FromToBE | python/aemxml/wire.py:57-70 | reading big-endian octets inverts writing them, for every width |
| Wire.ToFromBE | python/aemxml/wire.py:57-70 | writing a value read from octets gives the same octets |
| Wire.PlaceValue | python/aemxml/wire.py:23-36 | octet i of n counts the multiples of 256 to the power n - 1 - i: most significant first |
| Wire.ShorthandsArePack | python/aemxml/wire.py:27-32 | the 16- and 32-bit forms used by the descriptor codec are the checked fields |
| Wire.UntilNulUnique | python/aemxml/wire.py:73-78 | reading stops at the first NUL, and only there |
| Utf8.RepairedIsWellFormed | python/aemxml/wire.py:78 | what decoding with replacement gives is well-formed UTF-8, and free of NUL if the octets were |
| Utf8.EncodedIsWellFormed | python/aemxml/wire.py:39-41 | the UTF-8 octets of any characters, code points up to U+10FFFF but for surrogates, are well formed |
| Utf8.WellFormedIsEncoded | python/aemxml/wire.py:78 | and nothing else is: well-formed octets are the encoding of some characters |
| Utf8.RepairedAfter | python/aemxml/wire.py:78 | well-formed octets are kept as they are, whatever follows them |
| Utf8.CutLeaves | python/aemxml/wire.py:39-41 | cutting a well-formed string leaves whole characters and at most one unfinished one, which decodes to one U+FFFD |
| Utf8.String64RoundTrip | python/aemxml/wire.py:39-41 | a string survives the 64-octet field, wherever it stands, if and only if it has no NUL and at most 64 octets, or ends in U+FFFD one or two octets later |
| Utf8.FieldComesBack | python/aemxml/wire.py:73-78 | a field read and packed again is the same if and only if only NUL follows its first NUL and what precedes is well formed, or all but the first octets of a U+FFFD at the end of a full field |
| Utf8.TwoTripsSettle | python/aemxml/wire.py:73-78 | a field read and packed twice stays as it is from then on |
| Utf8.CutInACharacter | python/aemxml/wire.py:39-41 | 63 octets and a letter of two: half of the letter is kept, and it packs to another octet the next time |
| Wire.RefRoundTrip | python/aemxml/wire.py:52-54 | a localized reference survives packing if and only if its offset fits 13 bits and its index 3 |
| Wire.RefBits | python/aemxml/wire.py:52-54 | the offset stands in the upper 13 bits of the word, the index in the lower three |
| Fields.FieldRoundTrip | python/aemxml/wire.py:10-92 | a field gives a value back if and only if it is not negative, fits its octets, and as a string is one a 64-octet field gives back |
| Fields.FieldReserializes | python/aemxml/wire.py:10-92 | written again, what was read gives the same octets, even where the value itself did not survive; for a string if and only if its field is clean |
| Fields.CanonKeepsNumbers | python/aemxml/wire.py:57-92 | any octets of a number, EUI or reference come back from parsing and serializing, whoever wrote them |
| Fields.FieldInPlace | python/aemxml/unflatten.py:126-155 | a field is read from the octets written for it, wherever the descriptor stands |
| Fields.LayoutRoundTrip | python/aemxml/unflatten.py:131-155 | all fields of a descriptor come back if and only if each value is one its field gives back |
| Fields.LayoutReserializes | python/aemxml/unflatten.py:131-155 | serializing what was parsed gives the same octets if and only if every string field is clean |
| Fields.EntityOffsets | python/aemxml/unflatten.py:134-155 | the ENTITY parser reads every field where the serializer wrote it |
| Fields.AvbInterfaceOffsets | python/aemxml/unflatten.py:257-276 | the same for AVB_INTERFACE |
| Fields.ClockSourceOffsets | python/aemxml/unflatten.py:279-288 | the same for CLOCK_SOURCE |
| Fields.MemoryObjectOffsets | python/aemxml/unflatten.py:313-324 | the same for MEMORY_OBJECT |
| Fields.AudioClusterOffsets | python/aemxml/unflatten.py:368-381 | the same for AUDIO_CLUSTER |
| Fields.ControlOffsets | python/aemxml/unflatten.py:460-475 | the same for the fixed part of CONTROL |
| Fields.MixerCountMisread | python/aemxml/unflatten.py:510-522 | the MIXER parser reads the number of sources right if and only if there are 88 |
| Layouts.PiecesUnchanged | python/aemxml/unflatten.py:134-712 | the fields of a descriptor come back if and only if each one does |
| Layouts.HeadsKept | python/aemxml/unflatten.py:134-712 | the octets before a descriptor's number/base pairs come back if and only if its strings are clean |
| Layouts.ControlsKept | python/aemxml/unflatten.py:460-475 | a CONTROL comes back if and only if its name is clean and its payload fits |
| Layouts.ClustersKept | python/aemxml/unflatten.py:431-457 | a VIDEO_CLUSTER or SENSOR_CLUSTER comes back if and only if its name is clean and it has no format octets |
| Layouts.TailsKept | python/aemxml/unflatten.py:134-712 | the octets a serializer writes after the pairs, with every constant, count, list and payload of all 32 types, come back if and only if strings are clean, a control's payload fits and a cluster has no formats |
| LayoutTrips.ControlCut | python/aemxml/unflatten.py:460-475 | a CONTROL parsed and serialized: the payload cut to as many octets as it counted values, counted again, the type kept |
| LayoutTrips.KeptWritten | python/aemxml/flatten.py:195-1087 | what parsing and serializing leaves is again what the serializer writes: counts, offsets and list lengths right |
| LayoutTrips.KeptNotLonger | python/aemxml/flatten.py:195-1087 | and it is not longer |
| LayoutTrips.TailsComeToRest | python/aemxml/unflatten.py:460-475 | after at least two trips, and more than there are octets, the octets of any descriptor survive |
| Pools.PortPools | python/aemxml/flatten.py:1637-1721 | a port's controls, clusters and maps are appended to their pools, in order, before the port takes the next index of its own type |
| Pools.UnitPools | python/aemxml/flatten.py:1615-2014 | a unit's own controls come before those of its ports, and the unit is the last of its type |
| Pools.UnitsGrow | python/aemxml/flatten.py:1103-2811 | emitting units only appends: no index or descriptor already given out ever changes |
| Pools.ExtendsTransitive | python/aemxml/flatten.py:1116-1132 | the running counters only move forward over any stretch of the walk |
| Counts.CountTableIsExact | python/aemxml/flatten.py:1134-1239 | the count computed for each type before the walk is the number of descriptors of that type the walk emits |
| Counts.NothingOutsideTable | python/aemxml/flatten.py:1134-1239 | the walk emits no type that the count table does not list |
| Codec.DecodeEncode | python/aemxml/flatten.py:187-192 | splitting a serialized descriptor at its number/base pairs gives back the octets around them and every pair |
| Codec.RangesReadBack | python/aemxml/unflatten.py:196-213 | each number/base pair is read back from the offset it was written at |
| Stages.ConfigurationEncodable | python/aemxml/flatten.py:1240-2811 | once the counts fit 16 bits, every number/base pair the walk writes fits too |
| Stages.StagesAreTheWalk | python/aemxml/flatten.py:1254-2811 | the nine stages used in the proofs are the walk over a configuration |
| Stages.StagesSkip | python/aemxml/flatten.py:1254-2811 | a type keeps its pool over stages that do not emit it |
| Flatten.Walker.constructor | python/aemxml/flatten.py:1116-1132 | the walk over a configuration starts with every counter at zero and nothing emitted |
| Flatten.Walker.Emit | python/aemxml/flatten.py:1254-1269 | one emission: the next index of the type, the serialized octets, the symbol if any, and the counter moved by one |
| Flatten.Walker.WalkPort | python/aemxml/flatten.py:1637-1721 | a port with its children, with the bases recorded before the children were emitted |
| Flatten.Walker.WalkPortLists | python/aemxml/flatten.py:1637-2012 | the six port lists of a unit in their order |
| Flatten.Walker.WalkUnit | python/aemxml/flatten.py:1615-2014 | a unit after its children, with one number/base pair for its controls and each kind of port |
| Flatten.Walker.WalkOwners | python/aemxml/flatten.py:1316-1348 | interfaces and control blocks after their controls; hand-written numbers are kept when there are no inline controls |
| WalkOrder.ParentLast | python/aemxml/flatten.py:1589-1613 | a PTP instance may be emitted after its ports: the same descriptors at the same indices |
| WalkOrder.OrderDoesNotMatter | python/aemxml/flatten.py:1254-1613 | walking streams, jacks, clocks, selectors, matrices, memory objects and timings between the interfaces, locales and control blocks gives the same pools as walking them first |
| Flatten.Walker.WalkGroups | python/aemxml/flatten.py:1374-1399 | a locale before its STRINGS, a PTP instance after its ports, each with the base taken before its members |
| Flatten.Walker.Walk | python/aemxml/flatten.py:1103-2811 | the whole walk, list by list in the order of the source, emits exactly the pools of the configuration: every descriptor, octets and index, and every symbol |
| Compiler.CountAllControls | python/aemxml/flatten.py:2893-2922 | the summing loop over every level gives the number of CONTROL descriptors |
| Compiler.CheckCounts | python/aemxml/flatten.py:1134-1239 | the table packs if and only if every count fits 16 bits |
| Compiler.HasDuplicateCode | python/aemxml/flatten.py:2869-2890 | the dictionary pass finds a repeated symbol code if and only if there is one |
| Compiler.DeriveIdentify | python/aemxml/flatten.py:2832-2858 | the capability bit is set in the first ENTITY descriptor exactly when configuration 0 has an IDENTIFY control; nothing else changes |
| Compiler.FlattenEntity | python/aemxml/flatten.py:1103-2823 | compiling succeeds if and only if all numbers fit and symbol codes are distinct; the result is strictly sorted by (configuration, type, index) and lists exactly the descriptors and symbols of the entity (what their octets are: CompiledOctets, NestingOctets, LayoutOctets) |
| Compiler.PatchedListIsFlat | python/aemxml/flatten.py:2813-2823 | sorting and patching leave exactly the emitted descriptors, keys unique |
| CompiledOctets.HeaderWords | python/aemxml/flatten.py:1254-1269 | every descriptor of a compiled list starts with its type and its index, and no part of a key exceeds 16 bits |
| CompiledOctets.KeysAscend | python/aemxml/flatten.py:2813-2817 | configuration, type and index, read as one number, ascend along the list |
| CompiledOctets.EntityDescriptor | python/aemxml/flatten.py:137-163 | the one ENTITY descriptor: 312 octets, the author's fields, the number of configurations at 308, and in the word at 20 the author's bits, with bit 14 set also if a CONTROL of configuration 0 has 90-E0-F0-00-00-00-00-01 at 82 |
| CompiledOctets.CountTableOctets | python/aemxml/flatten.py:166-185 | every CONFIGURATION descriptor of a compiled list, by its octets: the table stands at 74 and fills the rest, its types ascend, next to each type stands how many descriptors of that type the list has for the configuration, and no type is missing |
| NestingOctets.PortPairs | python/aemxml/flatten.py:410-480 | a port has the number and first index of its controls at 8, a stream port those of its clusters at 12 and maps at 16; the first index of none is 0 |
| NestingOctets.UnitPairs | python/aemxml/flatten.py:195-252 | a unit has those of its six port lists from 72 on and of its controls at 96 |
| NestingOctets.OwnerPairs | python/aemxml/flatten.py:312-349 | an interface at 98, a control block at 70: inline controls, else the hand-written numbers as 16 bits, else zeros |
| NestingOctets.GroupPairs | python/aemxml/flatten.py:385-395 | a locale at 68, a PTP instance at 86: its members and the index the first gets or would get |
| NestingOctets.OneParent | python/aemxml/flatten.py:1615-2811 | read from the octets of a compiled list, every port, STRINGS and PTP_PORT descriptor lies in the range of exactly one unit, locale or PTP instance of its configuration, and no range reaches past the list |
| NestingOctets.OnePort | python/aemxml/flatten.py:1637-1721 | every cluster and map lies in the range of exactly one stream port that lies in the range of a unit of its own kind, and no such range reaches past the list |
| NestingOctets.ControlParents | python/aemxml/flatten.py:1254-2811 | with no hand-written numbers, the configuration's own controls come first and lie in no range, every other one lies in exactly one |
| NestingOctets.KindsInOrder | python/aemxml/flatten.py:1615-2811 | the ports of audio units are numbered before those of video units, and those before the ports of sensor units |
| LayoutOctets.SizedDescriptor | python/aemxml/flatten.py:195-1087 | how long every one of the 32 types of descriptor is, given the counts in it, and that the offset words point at the lists and payloads; in video and sensor clusters, whose fixed part is 90 octets, at octet 86 |
| LayoutOctets.SizedList | python/aemxml/flatten.py:195-1087 | the same of every descriptor of a compiled list |
| AemModel.SortedListUnique | python/aemxml/flatten.py:2813-2817 | a strictly sorted list is determined by its members |
| Decompiler.TakeControls | python/aemxml/unflatten.py:816-823 | every index of the range is marked as referenced, and the controls found there are taken in order |
| Decompiler.AssemblePorts | python/aemxml/unflatten.py:826-905 | the ports of a range, each with its own children, skipping missing indices |
| Decompiler.AssembleUnit | python/aemxml/unflatten.py:907-940 | a unit's controls and six port lists from its seven ranges, with every control index they reference marked |
| Decompiler.AssembleConfiguration | python/aemxml/unflatten.py:942-1036 | the configuration from the parsed descriptors alone: configuration-level controls are those no unit or port referenced |
| Decompiler.UnflattenEntity | python/aemxml/unflatten.py:715-741 | the entity, every descriptor with the octets its parser keeps; an error exactly when the ENTITY is missing or a number, or an element of a list, lies beyond the end of its descriptor |
| AemTheorems.ParserNeeds | python/aemxml/unflatten.py:165-682 | how many octets the parsers insist on: 144 for an audio unit, 24 for external and internal ports, 82 for a control block, 104 for a control, none for STRINGS |
| AemTheorems.WrittenIsReadable | python/aemxml/unflatten.py:134-712 | what a serializer wrote is never too short for its parser |
| Settle.SettlingAllocatesTheSame | python/aemxml/flatten.py:1103-2811 | a tree whose every descriptor was parsed and serialized once allocates the same descriptors at the same indices with the same pairs, each with its octets as kept |
| RoundTripUnits.UnitRoundTrip | python/aemxml/unflatten.py:907-940 | from parsed descriptors that hold what the walk allocated, a unit is rebuilt from its ranges with every port, cluster, map and control in its place |
| RoundTrip.UnitsRoundTrip | python/aemxml/unflatten.py:942-958 | in the same way all units of a kind are rebuilt in order |
| RoundTrip.GroupsRoundTrip | python/aemxml/unflatten.py:1018-1034 | locales and PTP instances get exactly their own members back |
| RoundTrip.OwnersRoundTrip | python/aemxml/unflatten.py:257-276 | interfaces and control blocks keep their number/base pair and lose their inline controls |
| RoundTrip.ClaimedAreTheUnits | python/aemxml/unflatten.py:960-963 | the controls referenced by units and ports are exactly those emitted with the units |
| RoundTrip.ConfigurationRoundTrip | python/aemxml/unflatten.py:750-1036 | rebuilding the descriptors of a configuration, once they hold what their parsers keep, gives exactly its normal form |
| NormalForm.NormalFormWellFormed | python/aemxml/unflatten.py:816-963 | the normal form is again a configuration the compiler accepts in shape |
| Recompile.NormalFormAllocatesTheSame | python/aemxml/flatten.py:1103-2811 | the normal form of a settled configuration allocates the same indices with the same octets and pairs, symbols aside |
| AemTheorems.GroupedIsPools | python/aemxml/unflatten.py:723-728 | grouping a compiled list by configuration and type finds each configuration's pools, complete and nothing else |
| AemTheorems.BodiesKept | python/aemxml/unflatten.py:134-712 | a whole descriptor comes back if and only if it survives; what comes back can be serialized again |
| AemTheorems.DecompileCompiled | python/aemxml/unflatten.py:715-1036 | decompiling a compiled entity always succeeds and gives exactly its normal form: nesting and order kept, every descriptor with the octets its parser keeps, symbols erased, the identify bit kept, interface and block controls appended after the configuration's own |
| AemTheorems.IdentifyKept | python/aemxml/flatten.py:2832-2858 | an IDENTIFY control stays one even when its payload is cut |
| AemTheorems.TripEntityWire | python/aemxml/flatten.py:2832-2858 | the derived bit is in the normal form, deriving it again changes nothing, and the ENTITY descriptor is the same if and only if its strings are clean |
| AemTrips.NormalEntityCompiles | python/aemxml/flatten.py:1103-2823 | what decompiling gives can always be compiled again |
| AemTrips.RecompileChangesNothing | python/aemxml/flatten.py:1103-2823 | the recompiled descriptor list equals the first one, octet for octet, if and only if every control payload fits, no video or sensor cluster has formats and every string field is clean |
| SurvivalOctets.BodyComesBack | python/aemxml/unflatten.py:134-712 | a descriptor survives its parser if and only if, by its octets, its 64-octet strings are clean, a control is 104 octets long, or 105 and of a type beyond SELECTOR, and a video or sensor cluster is 90 long with a zero format count |
| SurvivalOctets.RecompiledSame | python/aemxml/flatten.py:1103-2823 | the recompiled list equals the first one if and only if this holds of every descriptor in it |
| AemTrips.RecompileIsPointwise | python/aemxml/flatten.py:1103-2823 | whatever the entity, the recompiled list is the first one with each descriptor parsed and serialized on its own, in place: same keys, same order, same pairs, nothing longer |
| AemTrips.NormalFormIsFixed | python/aemxml/unflatten.py:715-1036 | a second compile and decompile changes nothing if and only if everything the first one left survives |
| AemTrips.TripsComeToRest | python/aemxml/unflatten.py:715-1036 | from any entity, once there have been two trips and more than any descriptor has octets after its pairs, everything survives and compiling gives the same list again |
| Coverage.StagesCover | python/aemxml/flatten.py:187-192 | over any stretch of stages that own a type, the ranges written partition the children emitted |
| Coverage.ControlsPartitioned | python/aemxml/flatten.py:1254-2811 | with no hand-written numbers, every control after the configuration's own lies in the range of exactly one interface, block, unit or port, and no range reaches outside |
| Coverage.PortsPartitioned | python/aemxml/flatten.py:1615-2811 | every port of each of the six types lies in the range of exactly one unit |
| Coverage.ClustersPartitioned | python/aemxml/flatten.py:410-432 | every cluster and map of a kind lies in the range of exactly one stream port |
| Coverage.MembersPartitioned | python/aemxml/flatten.py:1374-1399 | every STRINGS descriptor lies in the range of exactly one locale and every PTP port in that of exactly one instance |
| Blob.WriteBlob | python/aemxml/blob_writer.py:17-71 | the writer fails if and only if a field does not fit; otherwise the blob is header, table of contents, symbols and data |
| Blob.ComputeOffsets | python/aemxml/blob_writer.py:25-30 | each offset is the end of the tables plus the lengths of the descriptors before it |
| Blob.ReadBlob | python/aemxml/blob_reader.py:17-55 | reading fails if and only if the blob is short, the magic is wrong or an entry leaves the blob; otherwise the lists are what the entries say |
| Blob.Layout | python/aemxml/blob_writer.py:25-71 | descriptor octets lie end to end, in order, from the end of the tables to the end of the blob |
| BlobOctets.HeaderOctets | python/aemxml/blob_writer.py:32-42 | the blob starts with AEM1, the number of descriptors, 20, the number of symbols and where they start |
| BlobOctets.EntryOctets | python/aemxml/blob_writer.py:44-56 | entry i stands at 20 + 12 * i: type, index, configuration, length, and the place where exactly those octets stand |
| BlobOctets.PlacesFollow | python/aemxml/blob_writer.py:25-30 | the first place is behind the tables, each next one behind the octets before, and the last octets end the blob |
| BlobOctets.SymbolOctets | python/aemxml/blob_writer.py:58-68 | symbol i stands behind the descriptor entries, ten octets each: type, index, configuration, code |
| Blob.BlobRoundTrip | python/aemxml/blob_reader.py:17-55 | whatever the writer accepts, the reader gives back in order, and no other lists fit the blob |
| BlobTheorems.CompiledKeysFit | python/aemxml/blob_writer.py:45-66 | every type, index and configuration number of a compiled entity fits its blob field |
| BlobTheorems.EntityThroughTheBlob | python/aemxml/blob_reader.py:17-55 | compile, store, load, decompile gives the normal form; compiling that can be stored again with the same symbols, and gives the same blob if and only if everything in the entity survives its parser |
| Strings.AsEntry | python/aemxml/json_reader.py:85-98 | every accepted value becomes a non-empty dictionary with distinct keys |
| Strings.StringForMeaning | python/aemxml/json_reader.py:101-109 | the text shown is the one for the language; without one the language-independent text; only without either the first listed |
| Strings.AddKeepsTable | python/aemxml/json_reader.py:129-138 | an add keeps all earlier slots, gives equal dictionaries one slot, and never touches slots 0 and 1 |
| Strings.LocalizedStrings.constructor | python/aemxml/json_reader.py:124-127 | vendor and model take slots 0 and 1, outside the sharing |
| Strings.LocalizedStrings.Add | python/aemxml/json_reader.py:129-138 | the new table, the reference (slot / 7, slot % 7), and the authored flag; an empty dictionary is an error that changes nothing |
| Strings.LocalizedStrings.BuildLocales | python/aemxml/json_reader.py:140-157 | one locale for each language, all laid out alike |
| Strings.CollectedMeaning | python/aemxml/json_reader.py:141-148 | the languages are exactly those some entry speaks, each once |
| Strings.CollectedInOrder | python/aemxml/json_reader.py:141-146 | and they come in the order in which they are first spoken |
| Strings.DefaultLanguage | python/aemxml/json_reader.py:147-148 | where none is spoken there is one locale, en |
| Strings.ChunkHolds | python/aemxml/json_reader.py:150-155 | seven to a descriptor, string s is string s % 7 of descriptor s / 7 |
| Strings.SlotsStayValid | python/aemxml/json_reader.py:129-138 | after any later adds a slot still holds the dictionary it was handed out for, and slots 0 and 1 their names |
| Strings.ReferencesPack | python/aemxml/json_reader.py:80-82 | no reference packs to NO_STRING; a reference survives packing if and only if its slot is below 7 * 8192 |
| StringTheorems.StringReadsBack | python/aemxml/flatten.py:398-407 | each of the seven 64-octet strings reads back from its place |
| StringTheorems.GroupInPlace | python/aemxml/flatten.py:1374-1399 | the k-th member of the i-th locale stands at that locale's base plus k |
| StringTheorems.SlotResolves | python/aemxml/flatten.py:1374-1399 | a slot resolves, in every locale of the compiled configuration, to what a 64-octet field gives back of the text of that locale's language: the text itself if and only if it fits |
| StringTheorems.ReferenceResolves | python/aemxml/json_reader.py:112-157 | every reference ever handed out resolves, after all adds and in every locale, to the authored text for a language of its dictionary and otherwise to one of that dictionary's texts |
| ControlValues.EncodeDecode | python/aemxml/control_values.py:126-157 | every in-range element of every integer type reads back |
| ControlValues.CodeTable | python/aemxml/control_values.py:37-54 | the integer types: LINEAR from 0 and SELECTOR from 0x0A, in pairs of a signed and an unsigned one of 1, 2, 4 and 8 octets, whatever the flag bits; no other type is one |
| ControlValues.SignOf | python/aemxml/control_values.py:125-150 | an element with its top bit set is below zero if its type is even, and not if it is odd |
| ControlValues.LinearOrder | python/aemxml/control_values.py:11-14 | a LINEAR item on the wire: minimum, maximum, step, default, current, unit, string |
| ControlValues.SelectorOrder | python/aemxml/control_values.py:16-20 | a SELECTOR on the wire: current and default first, unit last |
| ControlValues.SelectorOption | python/aemxml/control_values.py:16-20 | and option i behind i + 2 elements |
| ControlValues.SerializeLinear | python/aemxml/control_values.py:318-334 | fails if and only if a field is out of range; otherwise the items in wire order |
| ControlValues.ParseLinear | python/aemxml/control_values.py:287-315 | as many items as asked for and as fit, each read from its place |
| ControlValues.SerializeSelector | python/aemxml/control_values.py:362-385 | fails unless there is exactly one item and every field fits |
| ControlValues.WalkValues | python/wireshark_schema/decode_atdecc.py:63-108 | where the dissector's cursor ends in full mode, and every element it shows |
| ControlValues.LinearRoundTrip | python/aemxml/control_values.py:405-424 | for every integer LINEAR type, with any flag bits: the count is recovered from the octets, parsing with it returns the values, the dissector consumes exactly the octets and shows every element in order |
| ControlValues.SelectorRoundTrip | python/aemxml/control_values.py:337-359 | the same for SELECTOR types with the count of options |
| ControlValues.PayloadSurvives | python/aemxml/unflatten.py:460-475 | a CONTROL payload of any type, floating-point ones included, survives compiling and decompiling if and only if it is empty, or one octet of neither a LINEAR nor a SELECTOR type; any other comes back shorter |
| ControlValues.OneValueIsCut | python/aemxml/unflatten.py:460-475 | nine octets of one LINEAR value: one comes back, and none the next time |
| Checksum.OnesComplementChecksum | python/wireshark_schema/decode.py:97-105 | the summing and folding loops end with the specified checksum |
| Checksum.FoldIs | python/wireshark_schema/decode.py:103-104 | folding is reduction modulo 65535 into 1..65535, except that zero stays zero |
| Checksum.ChecksumMeaning | python/wireshark_schema/decode.py:97-105 | the complement is congruent to the word sum modulo 65535 and is zero only for a message of zeros |
| Checksum.ChecksumOfOctets | python/wireshark_schema/decode.py:97-105 | the same from the octets: those at even positions count 256 times |
| Checksum.ReorderedWordsUnnoticed | python/wireshark_schema/decode.py:97-105 | messages with the same words in any order have the same checksum |
| Checksum.OneWordChanged | python/wireshark_schema/decode.py:97-105 | changing one word goes unnoticed if and only if it changes between 0x0000 and 0xFFFF and another word is not zero |
| Crc.Crc32Reflected | python/wireshark_schema/decode.py:108-114 | the bitwise loops compute the register function (whose values EmptyAndOnes and CheckValues fix) |
| Crc.EmptyAndOnes | python/wireshark_schema/decode.py:108-114 | the CRC of no octets is 0 and that of four octets of ones is all ones, for every polynomial: the register starts with ones and is complemented at the end |
| Crc.LeadingZeroShows | python/wireshark_schema/decode.py:108-117 | with either polynomial a zero octet in front of any message changes its CRC |
| Crc.CheckValues | python/wireshark_schema/decode.py:108-117 | the CRC of the digits 1 to 9 is 0xCBF43926 for type 0 and 0x1697D06A for type 1; there is none for any other type |
| Crc.StepIsBijection | python/wireshark_schema/decode.py:108-117 | for a polynomial with its top bit set, which both have, the bit step is a bijection on 32-bit states |
| Crc.StepLinear | python/wireshark_schema/decode.py:111-113 | the bit step is linear over exclusive or |
| Crc.RegisterIsFeed | python/wireshark_schema/decode.py:108-114 | folding in octets is feeding the message bit by bit, least significant first |
| Crc.BurstDetected | python/wireshark_schema/decode.py:108-117 | two messages of one length that differ only within some 32 consecutive bits never have the same CRC, whatever surrounds them |
| Crc.FourOctetsDetected | python/wireshark_schema/decode.py:108-117 | the same for a change confined to four consecutive octets |
| Acf.WalkIsFraming | python/wireshark_schema/decode.py:137-147 | visited messages are as long as their headers say, lie end to end from the start, and the walk stops only on under 2 octets, a zero length or an overrun (which octets give the length: WalkFromOctets) |
| Acf.WalkInvertsFraming | python/wireshark_schema/decode.py:137-147 | any framed messages followed by octets that cannot go on are walked back exactly: there is one framing |
| AcfOctets.WalkFromOctets | python/wireshark_schema/decode.py:137-147 | a header of octets 2t + q / 256 and q % 256 is followed for 4q octets, and stops the walk if q is 0 or they are not there |
| AcfOctets.OneMessage | python/wireshark_schema/decode.py:137-147 | a message of type t and q quadlets is walked as itself if and only if it is 4q octets long, and is then shown with that type and length |
| Acf.LastAt | python/wireshark_schema/decode.py:31-37 | no field read leaves its message |
| Acf.FieldsOf | python/wireshark_schema/decode.py:23-55 | the decoded layout holds exactly the shown fields, each with its value: octets, string, two's-complement or masked number |
| AcfOctets.FieldMeaning | python/wireshark_schema/decode.py:23-55 | every field is shown by the octets of its last repetition: as they are, as text, as a two's-complement number, or as the digits its mask keeps |
| Acf.PayloadMeaning | python/wireshark_schema/decode.py:120-160 | a shown payload starts after the fixed part, ends in the message, and has the length the pad, bit_width or sensor rule gives; none is shown if and only if there is no room for it |
| Acf.DecodeLayout | python/wireshark_schema/decode.py:23-55 | the loop over the fields decodes the layout |
| Acf.DecodeAcf | python/wireshark_schema/decode.py:137-180 | the loop ends on every payload and shows exactly the messages of the walk, in order |
| Acf.LastWriteWins | python/wireshark_schema/decode.py:137-180 | under every key stands what the last message of the walk to write it wrote, or what stood there before if none did |
| AcfOctets.ChecksumOnTheWire | python/wireshark_schema/decode.py:161-167 | EC 01 and two octets behind any message: shown as a checksum with those octets as its value, valid if and only if they are the checksum of that message |
| AcfOctets.CrcOnTheWire | python/wireshark_schema/decode.py:168-179 | EE 02, an octet, the type in the low half of the next and four octets: valid if and only if they are the CRC of the message before with the polynomial of the type; of other types no verdict |
| Acf.DamageShows | python/wireshark_schema/decode.py:168-179 | a message followed by its CRC trailer is marked valid wherever it stands, whatever messages without a CRC trailer follow and however the walk ends; a still framed message differing from it within 32 bits is marked invalid |
| Acmp.TimeoutFor | statusbar/atdecc/atdecc_acmp.cpp:94-114 | the timeout of every message type lies between 200 and 4500 ms |
| Acmp.Controller.constructor | statusbar/atdecc/atdecc_acmp_controller_sm.hpp:64-71 | an empty table whose capacity is the soft cap, clamped to 16 |
| Acmp.Controller.FindInflight | statusbar/atdecc/atdecc_acmp_controller_sm.hpp:103-113 | the first slot whose command has the controller and id of the response and the message type one below, or not found if and only if there is none |
| Acmp.Controller.ShouldHandleResponse | statusbar/atdecc/atdecc_acmp_controller_sm.cpp:94-106 | an odd message type, this controller, and a command in flight with that id and the message type one below |
| Acmp.Controller.FindTimedOut | statusbar/atdecc/atdecc_acmp_controller_sm.hpp:115-120 | a slot at or past its deadline if and only if there is one |
| Acmp.Controller.SendCommand | statusbar/atdecc/atdecc_acmp_controller_sm.cpp:18-48 | when full nothing is sent and no id used; otherwise an id is used and the command tracked if the callback accepted it |
| Acmp.Controller.HandleTimeout | statusbar/atdecc/atdecc_acmp_controller_sm.cpp:50-71 | a fresh entry is retransmitted unchanged with a new deadline, a retried one removed |
| Acmp.Controller.HandleResponse | statusbar/atdecc/atdecc_acmp_controller_sm.cpp:73-88 | the callback sees the response and the slot is removed |
| Acmp.Controller.Tick | statusbar/nanoavb/nanoavb_acmp.cpp:417-434 | the loop ends with nothing timed out; every entry that had timed out was handled once, retried if fresh and given up if retried, the others untouched; for each command given up, from which slot of which table, and what the report read there |
| AcmpRuns.StepInv | statusbar/atdecc/atdecc_acmp_controller_sm.cpp:18-88 | every step keeps the agreement of the table with the history of every accepted command |
| AcmpRuns.RunInv | statusbar/atdecc/atdecc_acmp_controller_sm.cpp:18-88 | the invariant holds after every run |
| AcmpRuns.RunsConserve | statusbar/atdecc/atdecc_acmp_controller_sm.cpp:18-88 | over every run: occupancy never exceeds capacity, accepted = answered + given up + in flight, and each accepted command is in exactly one place |
| AcmpRuns.SentAtMostTwice | statusbar/atdecc/atdecc_acmp_controller_sm.cpp:50-71 | over every run each accepted command is transmitted once or twice with one id, the second time only after a timeout, and given up only after a retry |
| AcmpRuns.NoEarlyGivingUp | statusbar/atdecc/atdecc_acmp_controller_sm.cpp:50-71 | with timeouts at or after deadlines, no command is given up before two full timeouts, and every recorded answer matches its command |
| AcmpRuns.TimesOutWhen | statusbar/atdecc/atdecc_acmp.cpp:94-114 | a slot times out exactly 2000, 4500 or 500 ms after its command was last sent, for CONNECT_TX, CONNECT_RX and DISCONNECT_RX, and 200 ms for every other |
| AcmpRuns.GivenUpLate | statusbar/atdecc/atdecc_acmp_controller_sm.cpp:50-71 | so over every disciplined run no command is given up before twice as long |
| AcmpRuns.TimeoutDrains | statusbar/atdecc/atdecc_acmp_controller_sm.cpp:50-71 | a timeout on an occupied slot takes exactly one off the sum of 2 for a fresh and 1 for a retried entry |
| AcmpRuns.TimeoutsDrain | statusbar/atdecc/atdecc_acmp_controller_sm.cpp:50-88 | over every run without sends, the timeouts that find an entry and the sum at the end are together at most the sum at the start, never more than twice the capacity; they are exactly that if and only if no response removed an entry; the table is empty if and only if the sum is zero |
| AcmpRuns.WeightGoesDown | statusbar/atdecc/atdecc_acmp_controller_sm.cpp:50-88 | the responses that removed an entry account for the difference, one or two each |
| AcmpRuns.IdsCollide | statusbar/atdecc/atdecc_acmp_controller_sm.cpp:36 | two commands in flight share an id if and only if their numbers differ by a multiple of 65536 |
| AcmpRuns.AtMostOneMatch | statusbar/atdecc/atdecc_acmp_controller_sm.hpp:103-113 | while no command in flight is older than 65536 ids, a response matches at most one slot |
| AcmpRuns.AnswersAreFound | statusbar/atdecc/atdecc_acmp_controller_sm.hpp:103-113 | under the same condition a response is found at the slot of a command, and at no other, if and only if it has its controller, its number modulo 65536 as id, and the next message type |
| AcmpRuns.CommandsDiffer | statusbar/atdecc/atdecc_acmp_controller_sm.cpp:36 | under the same condition no two commands in flight are the same message |
| AcmpRuns.MisreportedTimeout | statusbar/nanoavb/nanoavb_acmp.cpp:417-434 | in every reachable state with no command older than 65536 ids: the report names the abandoned command if and only if that was in the last slot, and otherwise the command now in its slot, still in flight |
| AcmpRuns.MisreportIsReachable | statusbar/nanoavb/nanoavb_acmp.cpp:417-434 | from the start, two sends of any commands and two timeouts of slot 0: the first command is given up, and the report names the second, which still waits |
| OwlmRanges.FileByteRanges | python/owlm/owlm_analyze.py:748-767 | for any number of workers the boundaries run in order from the body to the end of the file; boundary i of n is past the first newline after an i-th part of n of the body, or at the end |
| OwlmRanges.LinesSplit | python/owlm/owlm_analyze.py:748-767 | cutting after a newline cuts no line |
| OwlmRanges.LinesMeaning | python/owlm/owlm_analyze.py:748-767 | the lines put together are the octets, none is empty, and each ends with its only newline, which the last may lack |
| OwlmRanges.BodyIsTheRest | python/owlm/owlm_analyze.py:748-767 | the body is everything but the first line |
| OwlmRanges.EveryLineOnce | python/owlm/owlm_analyze.py:748-767 | range by range the lines are the lines of the body: every line lies whole in exactly one range |
| OwlmAggregate.BucketsCombine | python/owlm/owlm_analyze.py:801-807 | the statistics of two stretches of rows combine to those of both |
| OwlmAggregate.BucketMeaning | python/owlm/owlm_analyze.py:467-478 | a bucket holds the count, sum, least, greatest, late count and histogram of exactly the latencies of its rows |
| OwlmAggregate.GroupMin | python/owlm/owlm_analyze.py:500-507 | one entry for each sequence number listed and no other, with the least value listed for it |
| OwlmAggregate.SameJoin | python/owlm/owlm_analyze.py:801-830 | concatenating lists that mean the same gives lists that mean the same |
| OwlmAggregate.MinOfMeaning | python/owlm/owlm_analyze.py:904-931 | the least value is a lower bound, and listed unless it is the sentinel |
| OwlmAggregate.Partial.AggregateChunk | python/owlm/owlm_analyze.py:424-522 | folding a chunk into a result for some rows gives a result for those rows followed by the chunk |
| OwlmAggregate.Partial.Merge | python/owlm/owlm_analyze.py:801-830 | merging results for two stretches gives a result for both |
| OwlmAggregate.ProcessRange | python/owlm/owlm_analyze.py:770-792 | any chunk size gives a result for the rows of the range |
| OwlmAggregate.MergePartials | python/owlm/owlm_analyze.py:795-831 | the first partial result, changed in place, stands for all rows |
| OwlmAggregate.ProcessAll | python/owlm/owlm_analyze.py:748-831 | any ranges and any chunk size give a result for all rows |
| OwlmPipeline.RangesCarryTheFile | python/owlm/owlm_analyze.py:748-792 | the rows the workers read are the rows of the file, in order |
| OwlmPipeline.Summarize | python/owlm/owlm_analyze.py:1070-1082 | whatever the number of workers and the chunk size, the merged result stands for the rows of the file |
| OwlmPipeline.SenderReport | python/owlm/owlm_analyze.py:2520-2529 | recovered and lost numbers, bursts and discontinuities of a sender from a merged result are those of the rows |
| OwlmPipeline.Analyse | python/owlm/owlm_analyze.py:2498-2530 | from the octets of a capture, any number of workers and any chunk size: span, recovered and lost numbers, bursts and discontinuities of a sender are those of the rows of the file |
| OwlmPipeline.SameRowsSameResult | python/owlm/owlm_analyze.py:795-831 | two results for the same rows have the same buckets and give every sender the same span, losses and bursts |
| OwlmMeaning.MergedBucket | python/owlm/owlm_analyze.py:467-478 | bucket i of any merged result, by the rows alone: count, sum, least, greatest, late count and histogram of the latencies of the remote rows received in its stretch of time |
| OwlmMeaning.PairMeaning | python/owlm/owlm_analyze.py:403-421 | two senders are one if and only if the upper and the lower three octets of their EUI-64s agree |
| OwlmMeaning.SpanMeaning | python/owlm/owlm_analyze.py:1084-1092 | a sender is analysed if and only if a row of it is remote, over exactly the span from its least to its greatest sequence number |
| OwlmMeaning.TrackMeaning | python/owlm/owlm_analyze.py:902-931 | for each number of the span, by the rows alone: the least latency of its Primary and Legacy copies, of its Redundant copies, and the least receive time of any copy |
| OwlmMeaning.SentinelMeansNone | python/owlm/owlm_analyze.py:902-931 | the sentinel stands where there is no such copy, and only there |
| OwlmMeaning.ReportSpan | python/owlm/owlm_analyze.py:2498-2530 | a report covers exactly the numbers from the least to the greatest heard, and there is none if nothing was |
| OwlmMeaning.ReportMeaning | python/owlm/owlm_analyze.py:933-959 | by the rows alone: recovered if and only if no Primary or Legacy copy came within the worst case and a Redundant copy did; lost if and only if no copy did and the number is in no hole over which the stream jumped back |
| OwlmMeaning.BurstMeaning | python/owlm/owlm_analyze.py:2267-2381 | by the rows alone: the bursts are exactly the maximal stretches without a copy in time that are long enough and not discontinuities, each with its length and its outage |
| OwlmMeaning.BurstsAndDiscontinuities | python/owlm/owlm_analyze.py:2322-2381 | every long enough run is either a burst or counted as a discontinuity |
| OwlmPipeline.MergedPercentile | python/owlm/owlm_analyze.py:168-194 | the p-th percentile of a merged bucket selects the bin of the k-th smallest latency of the bucket's rows, where 100 (k - 1) < p n <= 100 k |
| OwlmHistogram.BinsMonotone | python/owlm/owlm_analyze.py:156-165 | a longer latency never lies in a lower bin |
| OwlmHistogram.BinMeaning | python/owlm/owlm_analyze.py:156-165 | bin 0 for latencies not above zero, bin 65 from one second on, bin 1 below the second edge, otherwise the bin whose edges the latency lies between |
| OwlmHistogram.SelectBin | python/owlm/owlm_analyze.py:220-239 | None for an empty bucket; otherwise the first bin by which at least p percent are counted, not empty, and the fraction of it at which exactly p percent are, in (0, 1], so that its clip never acts |
| OwlmHistogram.PercentilesMonotone | python/owlm/owlm_analyze.py:189-194 | a higher percentile never selects a lower bin |
| OwlmHistogram.PercentileIsOrderStatistic | python/owlm/owlm_analyze.py:168-194 | the selected bin holds the k-th smallest of n samples, where 100 (k - 1) < p n <= 100 k |
| OwlmHistogram.KthExists | python/owlm/owlm_analyze.py:168-194 | every rank from 1 to n has its sample |
| OwlmHistogram.RankExists | python/owlm/owlm_analyze.py:168-194 | there is one such k from 1 to n |
| OwlmRuns.EdgeRuns | python/owlm/owlm_analyze.py:859-863 | zipping rising with falling edges gives all maximal runs, in order, and nothing else |
| OwlmRuns.RunsUnique | python/owlm/owlm_analyze.py:2324-2330 | there is only one list of all maximal runs in order |
| OwlmRuns.KeptCounted | python/owlm/owlm_analyze.py:2324-2330 | the lengths of any selection of runs add up to the number of their positions |
| OwlmLoss.Materialize | python/owlm/owlm_analyze.py:904-931 | the scatter-min gives each sequence number the least value listed for it |
| OwlmLoss.FindSpan | python/owlm/owlm_analyze.py:1089-1092 | the least and the greatest sequence number listed, or nothing for an empty list |
| OwlmLoss.SameSpan | python/owlm/owlm_analyze.py:1089-1092 | lists that mean the same have the same span |
| OwlmLoss.TrackFrom | python/owlm/owlm_analyze.py:902-931 | however the rows were split, the span of a sender, taken from the merged list, and its arrays are those of the rows (which rows: TrackMeaning) |
| OwlmLoss.SpanEndsAreSeen | python/owlm/owlm_analyze.py:1084-1092 | the first and the last number of the span were seen |
| OwlmLoss.TracksWellFormed | python/owlm/owlm_analyze.py:904-934 | a sequence number without a receive time has no copy of either kind |
| OwlmLoss.DiscontinuityMask | python/owlm/owlm_analyze.py:834-869 | a position is masked if and only if it lies in a maximal never-seen run between two packets of which the later came no later |
| OwlmLoss.Classify | python/owlm/owlm_analyze.py:933-959 | recovered and lost, flag by flag; nothing of a sender of which nothing was seen |
| OwlmLoss.LossesAreCounted | python/owlm/owlm_analyze.py:933-959 | of the arrays of any rows every loss is counted |
| OwlmLoss.Place | python/owlm/owlm_analyze.py:960-968 | each bucket counts the flagged numbers whose time falls into it |
| OwlmLoss.PlacedOnce | python/owlm/owlm_analyze.py:960-968 | a flagged number with its time in the window is counted in exactly one bucket, any other in none |
| OwlmLoss.ExactlyOneClass | python/owlm/owlm_analyze.py:943-959 | every sequence number is exactly one of primary in time, recovered, lost or masked |
| OwlmLoss.DeriveGaps | python/owlm/owlm_analyze.py:2267-2381 | the bursts are the maximal dropped runs of the wanted length that are not discontinuities, and those are counted |
| OwlmLoss.OutagesPositive | python/owlm/owlm_analyze.py:2338-2357 | every reported burst with packets on both sides has a positive outage |
| OwlmAgreement.BurstsConserve | python/owlm/owlm_analyze.py:2322-2381 | bursts and skipped runs are disjoint and add up to all undelivered sequence numbers |
| OwlmAgreement.AgreeExactly | python/owlm/owlm_analyze.py:2276-2279 | the burst finder and the classifier name the same sequence numbers if and only if no backward dropped run contains a late arrival and every backward hole lies between delivered packets |
| OwlmAgreement.AgreeingCounts | python/owlm/owlm_analyze.py:2315-2381 | under that condition the bursts add up to the true losses |
| OwlmAgreement.InOrderAgrees | python/owlm/owlm_analyze.py:834-869 | when first arrivals strictly increase, nothing is masked, no discontinuity is counted and the two totals are equal |
| OwlmAgreement.NothingLateAgrees | python/owlm/owlm_analyze.py:943-959 | whatever the order of arrival, the two agree if every number that was seen was delivered |
| OwlmAgreement.LatePacketDisagrees | python/owlm/owlm_analyze.py:2276-2279 | a four-packet capture with one late packet on which the classifier counts one loss and the burst finder two |

## Left out

- MIXER (but for MixerCountMisread), SPLITTER, COMBINER, DEMULTIPLEXER, MULTIPLEXER and TRANSCODER: their parsers read other offsets than the serializers write.
- MATRIX_SIGNAL children: the decompiler does not rebuild them.
- Compiler.FlattenEntity: a field of a node that does not fit its width is refused in fields.dfy, not here, where nodes are octets; only the numbers the walk computes and the hand-written ones are refused.
- Codec.DecodeEncode: the octets around the pairs are not interpreted here; layouts.dfy does that.
- Strings that Python cannot encode as UTF-8 (lone surrogates).
- The CRC32 of symbol names: a symbol is its code, and only the check for repeated codes is modelled.
- Floating-point, array, UTF-8 and vendor control values, but for the counting and cutting of their payloads, and the dissector's current-value mode.
- Acf.FieldsOf: floating-point fields are not modelled; a masked field has a contiguous mask.
- Re-entrant ACMP callbacks, and the transition table between the controller's states, which only sequences the three actions.
- Acmp.Controller.Tick: which timed-out slot is handled first is not stated.
- OwlmAggregate.Partial.AggregateChunk: int64 overflow of sums is not modelled.
- OwlmLoss.Place: the times are given; their interpolation for numbers never seen is not modelled.
- OwlmLoss.DeriveGaps: the nominal interval of bursts, and with it the estimated duration, is not modelled; nor is the interpolated percentile value.
- Malformed rows, empty byte ranges, compressed and binary inputs, plotting, and the AEMXML and JSON readers and writers.
