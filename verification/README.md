# benzene-go: verified models

A Dafny model of the parts of benzene-go whose correctness is hardest to see, with proofs of what they
promise. `dafny verify dfyconfig.toml` checks the whole project.

- **Contract hashes** (`Hash*.dfy`, `SchemaForms.dfy`, `Sorting.dfy`, `SortedNames.dfy`, `Utf16.dfy`). The projection
  both hashes are taken of, as a function from JSON documents to JSON trees. The claim is about the tree: exactly what
  it depends on, and that it ignores component names, hoisting, annotations and every order the specification calls
  free.
- **The deriver** (`GoTypes.dfy`, `JsonField*.dfy`, `JsonTags.dfy`, `StructProperties.dfy`, `Deriver*.dfy`,
  `ReachesAny.dfy`, `Derive*.dfy`, `SchemaShapes.dfy`, `Marshaling.dfy`, `Inlining.dfy`, `HoistedDrafts.dfy`,
  `SharedNames.dfy`, `Merging.dfy`, `Publishing.dfy`). From a table of Go types to a contract document: property
  resolution through embedded structs, schemas hoisted under provisional keys, names judged by normal form, references
  renamed; and what the schemas say of the values encoding/json writes.
- **AsyncAPI** (`JsonSchema.dfy`, `Slugs.dfy`, `Suffixes.dfy`, `AsyncApi*.dfy`). The translation of nullability with
  a validity semantics for both dialects, and the channels and operations of the document.
- **Ordered streams** (`Settlement.dfy`, `EventHub.dfy`, `Kafka.dfy`, `Cosmos.dfy`). Each consumer as an object and as a
  transition system in which receives, dispatches, checkpoints and crashes turn out in every possible way.
- **Concurrency and time** (`Idempotency.dfy`, `ScopeResolution.dfy`, `Jwks.dfy`). The idempotency middleware and
  double-checked resolution as atomic steps under every interleaving; the refetch throttle under a monotone
  clock.
- **Parsers and indexes** (`Strings.dfy`, `FieldPath*.dfy`, `DynamoDb.dfy`, `Routes.dfy`, `Registry.dfy`, `Health.dfy`).

Code that changes things step by step is a method or a class here, proved against a function; the laws are
lemmas about the function, over every input, run or interleaving.

Six properties hold only in part. Counterexamples and the conditions under which they hold are proved for each:

- Publishing under names can change a normal form, and with it the hash, although no name collides: two structs
  that share a name and point at each other become one that points at itself (`MergingCanChangeNormalForm`). Where the
  components of one name correspond (`SharedNames.Corresponds`: equal normal forms where neither leads into a cycle,
  references to one name where they do), forms are kept exactly when no component reaches another of its name
  (`PublishingKeepsNormalForms`). Types that lead into no cycle always correspond and never reach one another, so they
  may share names freely (`SettledSharingKeepsNormalForms`). Components that do not correspond can still have one form,
  where the cut of a cycle looks like a field of any type: forms can then change although no component reaches another
  of its name (`SeparateNamesCanChangeNormalForm`), and can be kept (`FormsCanBeKeptWithoutCorrespondence`).
- A derived schema admits what encoding/json writes for its type unless a nil slice or map is written in it as null
  (`NilIsRefused`); `DraftedSchemaAdmitsWritten` gives the exact condition.
- Hoisting a struct, by giving it a component name, can change the hash: a component is derived afresh, so a struct in
  place around it is written out once more inside (`HoistingSomeIsHashed`). It does not exactly where no chain of types
  comes back, through a component, to a struct in place (`HoistingIsNotHashed`) - where all are hoisted, for one.
- Walking `properties` as a schema misfires exactly on a property named `nullable` whose schema is `true`
  (`PropertiesWalkedAsSchema`); no emitted schema has one.
- A dotted field path does not round trip for some pointers without "." or "[" in their names, such as `//a`
  (`EmptyNameIsLost`); `PointerRoundTrip` gives the exact condition.
- At most one handler per idempotency key runs at a time only while the store's Claim does not err: then the middleware
  fails open (`ExclusiveWhenClaimsAnswer` gives the exact condition).

## Model

| member | source | states |
|---|---|---|
| Hash.NormalizeSchema | contract/hash.go:189-282 | the loops over a schema, in whatever order its members come, compute the one normal form; terminates on cyclic and dangling references (components not yet on the path, then schema size) |
| Hash.NormalizeKeyword | contract/hash.go:214-274 | one keyword of a schema object is kept, dropped or normalised as the keyword rules say, and a single cut member of allOf is reported |
| Hash.ProjectDocument | contract/hash.go:90-136 | the document loop builds the projection of every list, sends only when asked for; what that holds is ProjectionIsContents |
| Hash.ProjectItem | contract/hash.go:110-126 | an entry keeps exactly its list's members that are present, schemas normalised and mappings put in order |
| Hash.ProjectItems | contract/hash.go:100-127 | the entries of a list are projected in order, reserved ones and those that are no objects dropped |
| Hash.ProjectOne | contract/hash.go:97-134 | a list's projected entries, stably sorted by topic and version |
| HashContents.ProjectionIsContents | contract/hash.go:67-136 | two documents have one projection exactly when their requests, events and, if hashed, sends agree pairwise in canonical order: requests on topic, version, HTTP mappings, request and response; events on topic, version and message; sends on topic, version, request and response - each present in both or in neither, mappings and schemas up to their normal forms; nothing else counts |
| HashContents.CanonicalOrder | contract/hash.go:128-153 | entries stand by topic, then unversioned before versioned, then by version; entries of one topic and version as the document has them |
| HashContents.MappingsAreTheirRoutes | contract/hash.go:155-184 | lists of HTTP mappings hash alike exactly when they hold the same methods, up to case, and paths, as often; other members, items that are no objects and order do not count |
| HashContents.MappingOrder | contract/hash.go:176-178 | mappings stand by method, then path |
| HashContents.NormalFormKeeps | contract/hash.go:77-83 | a schema that is no reference keeps exactly its members that are no listed annotation, no x- keyword and no empty properties or required, unless it is the nullable wrapper of a cut reference, which reads as the cut does |
| HashContents.AnnotationsAreForgotten | contract/hash.go:77-83 | adding, changing or removing an annotation leaves the normal form as it was |
| HashContents.ReferencesExpand | contract/hash.go:195-212 | a reference to a component reads as the component, once; one to a component being expanded, to none or elsewhere admits anything |
| HashNormalForms.NormalizeGivesNormalForm | contract/hash.go:186-282 | for every components map, cyclic or dangling, the result has no reference and no annotation at any schema position, only keywords that are kept, and sorted required lists |
| HashNormalForms.NormalFormIsFixed | contract/hash.go:186-282 | a normal form is its own normal form, whatever the components and path |
| HashProjection.ProjectionTwice | contract/hash.go:84-136 | projecting a projection again changes nothing |
| HashProjection.NormalizeMappingsTwice | contract/hash.go:155-184 | normalising HTTP mappings twice is normalising them once |
| HashNaming.AlikeNormalize | contract/hash.go:186-282 | schemas that agree up to a renaming of components, annotations and the order of required lists have one normal form, on matching paths |
| HashNaming.RenamingKeepsNormalForm | contract/hash.go:189-212 | any injective renaming of the components leaves every normal form as it was |
| HashNaming.RequiredForgetsOrder | contract/hash.go:298-318 | any rearrangement of a required list sorts to the same list |
| HashHoisting.InliningKeepsNormalForm | contract/hash.go:189-212 | replacing every reference to an acyclic component by its body, and removing the component, leaves every normal form as it was |
| HashHoisting.InlineNormalize | contract/hash.go:189-282 | the same below any path, with the induction that carries it |
| HashProjection.ProjectionIgnoresNames | contract/hash.go:84-136 | documents alike up to injective component names, annotations and required order have one projection |
| HashProjection.ProjectionIgnoresHoisting | contract/hash.go:84-136 | a document and the same document with an acyclic component inlined have one projection |
| HashProjection.ProjectionForgetsOrder | contract/hash.go:128-153 | any rearrangement of entries with distinct topic and version gives the same projection |
| HashProjection.MappingsForgetOrder | contract/hash.go:155-184 | any rearrangement of HTTP mappings, repeated ones included, gives the same list |
| Strings.CaseIsForgotten | contract/hash.go:172 | upper case has no small ASCII letter, and two texts agree in it exactly when spelled alike up to the case of their ASCII letters; so with lower case |
| Utf16.LessUTF16 | contract/hash.go:320-333 | the loop over code units decides the order of UTF-16 code unit sequences |
| Utf16.CodeUnitsAreUtf16 | contract/hash.go:326 | a character of the Basic Multilingual Plane is its own unit, any other a surrogate pair that holds its number |
| Utf16.EncodeInjective | contract/hash.go:326 | different strings have different UTF-16 encodings |
| Utf16.LessStrictTotal | contract/hash.go:320-333 | the comparison (the order of section 3.2.3 of RFC 8785) is a strict total order on all strings |
| Sorting.SortIsStable | contract/hash.go:128 | sorting keeps the order of elements it cannot tell apart |
| Sorting.SortedUnique | contract/hash.go:309 | two sorted rearrangements of one list are equal when the order tells its elements apart |
| SchemaDeriver.Deriver.Schema | contract/schema.go:90-145 | the type switch returns the schema and leaves the maps that the value-passing definition gives, which SchemaConforms reads by the values of the type; terminates on every table in which any cycle of types that need each other's schemas passes a named struct |
| SchemaDeriver.Deriver.PointerSchema | contract/schema.go:157-178 | a pointer marks its target nullable in place, wraps a reference or a named object, and leaves {} alone |
| SchemaDeriver.Deriver.StructSchema | contract/schema.go:182-204 | a named struct with a component name is built once and referred to, one without is inlined and cut at its own cycle |
| SchemaDeriver.Deriver.Object | contract/schema.go:206-234 | the property loop, threading the maps, and required sorted |
| DeriverEnds.DerivationEnds | contract/schema.go:90-204 | the deriver's recursion, with a bound on its depth, ends for every type of a table, given enough of it, exactly when no type needs its own schema again without a named struct between |
| DeriverEnds.CycleExhausts | contract/schema.go:90-204 | a type on such a cycle exhausts every bound, whatever was derived before |
| DeriverEnds.FiniteEnds | contract/schema.go:90-204 | on a finite table the bounded recursion ends and gives what the deriver gives |
| DeriverLaws.SchemaKeeps | contract/schema.go:90-204 | whatever type is derived, every schema built so far and the result is of the emitted dialect and refers only to keys of the deriver; earlier schemas, types and names never change; no key is left unbuilt |
| DeriverLaws.PropertiesKeep | contract/schema.go:206-234 | the same over a struct's properties |
| DeriverReach.SchemaCovers | contract/schema.go:90-204 | one derivation adds exactly components reached from its type, and leaves no reached type out |
| DeriverReach.ComponentsAreReached | contract/derive.go:51-126 | a named struct has a component exactly when some declared entry reaches it |
| JsonFields.CollectFields | contract/schema.go:296-350 | the recursive collection appends the candidates of the embedding tree cut at structs already on the way |
| JsonFields.ChooseDominant | contract/schema.go:270-294 | the three selection loops compute the shallowest, then the tagged, single candidate |
| JsonFields.ResolveFields | contract/schema.go:246-268 | candidates are grouped by name in order of first appearance and each name resolved once |
| JsonFields.ParseOptions | contract/schema.go:328-338 | the loop over a tag's options finds exactly the options present |
| JsonTags.OptionIsSaid | contract/schema.go:311-341 | a tag has an option exactly when it stands behind a comma, up to the next one or the end |
| JsonTags.FieldFollowsTag | contract/schema.go:311-350 | a property goes by the text before its tag's first comma, else by the field's name; it is quoted exactly when the tag says string and its type is a scalar or points at one; it may be omitted exactly below an embedded pointer, when the tag says omitzero, or says omitempty and the type is neither a struct nor an array with elements |
| JsonTags.FieldFollowsDeclaration | contract/schema.go:306-330 | a field is flattened exactly when it embeds a struct, or a pointer to one, without a name in its tag, and the tag is not -; otherwise it is a property when exported, and skipped when not or when the tag is - |
| JsonFieldLaws.ResolvedWin | contract/schema.go:270-294 | a candidate is returned exactly when every other of its name is deeper, or as deep and untagged where it is tagged |
| JsonFieldLaws.CollectLists | contract/schema.go:296-350 | the candidates are, once each, the fields at the ends of the paths that meet no struct twice, with depth and optionality read off the path |
| JsonFieldLaws.SimplePath | contract/schema.go:299-303 | every field of the unbounded embedding tree has a path that meets no struct twice and is no longer |
| JsonFieldLaws.FieldsFollowEmbeddingRule | contract/schema.go:246-303 | the properties returned are exactly the winners over the whole, possibly infinite, tree of embedded structs, one per name: stopping at an embedding cycle changes nothing |
| StructProperties.PropertiesAreFields | contract/schema.go:208-222 | the property loop leaves one property per field, each derived from that field |
| StructProperties.PropertiesAreWinners | contract/schema.go:206-234 | a struct's schema has a property for exactly the fields that win their names over the whole embedding tree, each derived from the winner's own type |
| StructProperties.RequiredAreWinners | contract/schema.go:206-234 | required lists exactly the winners the marshaler always writes |
| SchemaShapes.DescribedAreDistinct | contract/schema.go:246-268 | the properties the declarations of a table resolve to have distinct names in each struct |
| SchemaShapes.SameSchema | contract/schema.go:90-204 | a type's schema does not depend on what was derived before it |
| SchemaShapes.SchemaHoldsBodies | contract/schema.go:182-204 | whatever is derived, every finished component is the object schema of the struct it is for: one property per field, with the schema of the field's type |
| SchemaShapes.ObjectListsSorted | contract/schema.go:223-233 | an object schema names its properties when there are any and requires, in sorted order and each once, those always written |
| Marshaling.SchemaConforms | contract/schema.go:90-234 | over finished components the schema of a type admits exactly the values of the type's shape, whatever the number of references followed beyond the value's height: text, booleans, numbers, integers, arrays, string-keyed maps, structs through their fields, and null behind a pointer |
| Marshaling.WrittenConforms | contract/schema.go:90-234 | what encoding/json writes for a type has its shape exactly when no described null stands for a nil slice, map or text-marshaling interface and no marshaler answers a quoted field with something else |
| Marshaling.ScalarSchemasAdmitTheirType | contract/schema.go:92-132 | a scalar's schema admits the values of its JSON type and no other |
| Marshaling.IntegerFormatIsNarrowest | contract/schema.go:117-122 | an integer's format is int32 exactly when every value of its kind fits 32 bits, int64 when it fits 64 but not 32, and absent beyond |
| Marshaling.NilIsRefused | contract/schema.go:129-140 | a nil slice or map is written as null, which the schema of its type refuses |
| Inlining.HoistingIsNotHashed | contract/schema.go:157-204 | a type derived with its named structs hoisted as their component names say, and the same type with all of them in place, have one normal form exactly when no chain of types from it comes back, through a component, to a struct written in place |
| Inlining.TypeForms | contract/schema.go:90-234 | the same below any structs entered before, some of them lost sight of in a component, with the induction that carries it |
| RefReachability.Walk | contract/derive.go:244-281 | a hit is a real chain of references; a miss leaves everything newly seen explored and free of targets |
| RefReachability.ReachesAny | contract/derive.go:242-281 | true exactly when some chain of references leads from a root to a target, through cyclic components |
| Derivation.DraftList | contract/derive.go:80-126 | the deriver driven over a list of declarations in order; what it drafts is EntriesAlone |
| DerivedEntries.EntriesAlone | contract/derive.go:80-126 | a list drafts its unreserved declarations, in order, each as it would alone |
| DerivedEntries.DerivedListsDeclarations | contract/derive.go:80-126 | a published document lists the unreserved declarations in order, with topic, version and the published schemas of their types; a request responds exactly when a response is declared that is not an unnamed struct without fields, a send exactly when one is declared, an event never |
| DerivedEntries.DerivedPublishesStructs | contract/derive.go:171-181 | each name a reached struct claims has a component: the object schema of the first struct by key that claims it, with its fields' schemas, under the public names |
| DerivedEntries.DraftedSchemaAdmitsWritten | contract/derive.go:80-126 | every drafted schema admits exactly the values of its type's shape; what encoding/json writes for the type is admitted exactly when no nil slice, map or text-marshaling interface is among it, nor a quoted field's marshaler that writes no text |
| HoistedDrafts.HoistingDraftsHashAlike | contract/derive.go:80-126 | two services whose types differ in component names only, which one has and the other has not, draft entries that are hashed alike exactly when no type an entry publishes has such a chain |
| HoistedDrafts.HoistingSomeIsHashed | contract/schema.go:182-204 | of two structs that point at each other, hoisting one and not the other changes the normal form of a request |
| DerivedEntries.CollisionListsTypesAndTopics | contract/derive.go:144-160 | a collision lists, sorted, the types that claim the name and the entries, as topic or topic@version, that reach one of them |
| Derivation.CompareShapes | contract/derive.go:221-240 | true exactly when all keys have one normal form |
| Derivation.GroupByName | contract/derive.go:130-133 | every name gets the sorted list of exactly the keys that claim it, whatever the map order |
| Derivation.TopicsOf | contract/derive.go:152-157 | the sorted labels of exactly the entries that reach a colliding type |
| Derivation.Judge | contract/derive.go:141-166 | collisions are reported for exactly the names whose keys differ in shape, in name order; without any, every key survives under its name's first key |
| Derivation.Survive | contract/derive.go:163-165 | all keys of a name map to its first key, no other key is touched, and the names judged so far keep their survivors |
| Derivation.PublishComponents | contract/derive.go:177-181 | each name publishes the schema of its first key with its references renamed |
| Derivation.PublishList | contract/derive.go:182-192 | each entry is published with its references renamed |
| Derivation.Derive | contract/derive.go:51-201 | a document when no name collides, else one collision per colliding name in name order, with its types and topics; what the document lists is DerivedListsDeclarations |
| DeriverReach.CollisionsAreExact | contract/derive.go:128-169 | a name is reported exactly when two reached types share it with different normal forms |
| DeriveLaws.RenameRefsIsRename | contract/derive.go:283-305 | renaming every $ref it meets renames schema positions only: no property called $ref and no required entry is mistaken for a reference |
| DeriveLaws.RenamedEmitted | contract/derive.go:283-305 | renaming an emitted schema gives an emitted schema |
| DeriveLaws.DerivedIsClosed | contract/derive.go:171-192 | in a derived document every reference, in entries and components, names a published component |
| DeriveLaws.DerivedIsEmitted | contract/derive.go:171-192 | every schema of a derived document is of the emitted dialect |
| DeriveLaws.DerivedComponentsAreBodies | contract/derive.go:171-192 | the components of a derived document are object schemas, never bare references, that refer to one another only |
| SharedNames.SettledTogether | contract/derive.go:221-240 | without collisions, what corresponds to a schema that leads into no cycle of references leads into none |
| SharedNames.ReachedIsSmaller | contract/hash.go:189-212 | the normal form of a component that leads into no cycle properly contains the form of every component it reaches |
| Merging.SettledPublishes | contract/derive.go:171-192 | a schema that leads into no cycle is published with the normal form it has, below every path whose names stand for larger forms |
| Merging.Agrees | contract/derive.go:141-192 | where no component reaches another of its name, corresponding schemas are read alike, one under provisional keys and one under names, at corresponding paths |
| Merging.ChainDiffers | contract/derive.go:141-192 | along a shortest chain from a component to another of its name what is published differs: where the chain ends the published reference is cut and the drafted one is not |
| Merging.FormsAreKeptWhenSeparate | contract/derive.go:141-192 | without collisions, and where components of one name correspond, merging keeps every component's normal form exactly when no component reaches another of its name; and exactly then it keeps the form of every schema over them |
| PublishingLaws.PublishingKeepsNormalForms | contract/derive.go:128-192 | the same for any finished draft and the document it publishes |
| PublishingLaws.SettledSharingKeepsNormalForms | contract/derive.go:141-192 | in particular, without collisions every schema keeps its normal form when each type whose name is shared leads into no cycle of references |
| PublishingLaws.MergingCanChangeNormalForm | contract/derive.go:141-192 | two structs with one component name and omittable pointers to each other: the draft of their table holds both, no name collides, and the request is published with another normal form than it was drafted with |
| PublishingLaws.SeparateNamesCanChangeNormalForm | contract/derive.go:141-192 | the same for a table in which no component reaches another of its name, but two of one name do not correspond: one is cut where the other holds any value |
| PublishingLaws.FormsCanBeKeptWithoutCorrespondence | contract/derive.go:141-192 | two components of one name that do not correspond, all of whose forms are kept |
| JsonSchemaTranslation.ToJSONSchema | asyncapi/asyncapi.go:249-278 | the copy loop and its edits compute the translation, whatever the member order, and leave the input alone |
| JsonSchemaTranslation.CopyValue | asyncapi/asyncapi.go:280-297 | lists and objects are copied recursively, every object taken for a schema |
| JsonSchemaTranslation.PropertiesWalkedAsSchema | asyncapi/asyncapi.go:280-283 | walking a properties map as a schema leaves it a properties map exactly when no property called nullable has the schema true |
| JsonSchemaTranslation.TranslationKeepsValidity | asyncapi/asyncapi.go:249-297 | for every emitted schema and JSON value, valid under OpenAPI 3.0 (section 4.7.24 of OpenAPI 3.0.3) exactly when the translation is valid under JSON Schema (section 6.1.1 of draft-07 for type lists), through references and recursion, however many references may be followed |
| JsonSchemaTranslation.TranslationKeepsResolvedValidity | asyncapi/asyncapi.go:249-297 | over closed components, from some number of references on the two dialects agree whatever bound each is read with and whatever an unresolved reference is taken to say |
| Slugs.OperationSlug | asyncapi/asyncapi.go:332-350 | the loop and the trim compute the alphanumeric runs joined by single underscores |
| Slugs.SlugIsIdentifier | asyncapi/asyncapi.go:332-350 | a slug keeps exactly the letters and digits, in order, with single underscores strictly inside |
| Slugs.SlugJoinsStretches | asyncapi/asyncapi.go:332-350 | a slug is the topic's stretches of letters and digits joined by single underscores |
| Suffixes.NumberedForms | asyncapi/asyncapi.go:227-230 | the names tried are the base and then the base, the separator and 2, 3, ... in decimal |
| Suffixes.UnusedIsNumbered | asyncapi/asyncapi.go:227-230 | the numbered search stops after at most one more try than there are names in use, at an unused name, all names before it being in use |
| Suffixes.UnusedIsFirst | asyncapi/asyncapi.go:325-328 | there is only one such name |
| Suffixes.ItoaInjective | asyncapi/asyncapi.go:229 | different numbers have different decimal suffixes |
| AsyncApi.ChannelBook.KeyFor | asyncapi/asyncapi.go:216-235 | an address keeps its key; a new one gets the first unused key of its slug and an empty channel |
| AsyncApi.ChannelBook.AddMessage | asyncapi/asyncapi.go:237-244 | the message is put on the one channel of its address, all else unchanged, and keys and addresses stay in one-to-one correspondence |
| AsyncApi.UniqueOp | asyncapi/asyncapi.go:319-331 | the key is the first unused of its series and is then in use |
| AsyncApi.Add | asyncapi/asyncapi.go:155-168 | one entry adds its message, its reply if it has one, and one operation |
| AsyncApi.Generate | asyncapi/asyncapi.go:139-201 | requests, then events, then sends, without the reserved ones, build channels and operations; components are translated under their names |
| AsyncApi.PostedIsConsistent | asyncapi/asyncapi.go:203-244 | every message added keeps addresses and channels in one-to-one correspondence, under keys AsyncAPI allows |
| AsyncApiLaws.ChannelsAreByAddress | asyncapi/asyncapi.go:203-244 | distinct addresses have distinct channel keys made of their slugs, there is a channel for exactly the addresses used, and it holds the last message put there under each name |
| AsyncApiLaws.EveryEntryKeepsItsOperation | asyncapi/asyncapi.go:155-183 | every entry that is not reserved has an operation of its own; its references lead to the channels with its topic and its reply address; there is no other operation |
| AsyncApiLaws.ServedAreUnreserved | asyncapi/asyncapi.go:169-183 | the entries kept are exactly those not reserved |
| AsyncApiLaws.OperationsAreTheDocuments | asyncapi/asyncapi.go:155-183 | a generated document has one operation for each unreserved request, event and send, and no other, keyed by its action and the topic's slug: it receives the message request on the request's topic and replies exactly when a response is declared, sends the message event on the event's, and sends request on the send's, taking a reply exactly when one is declared |
| EventHubConsumer.Consumer.ReceiveAndDispatch | azureeventhub/consumer.go:140-180 | one cycle as CycleGoesOn describes it; succeeds exactly when nothing in it failed |
| EventHubConsumer.CycleGoesOn | azureeventhub/consumer.go:140-180 | a cycle works on what is pending, else on a received batch; it dispatches from the first event up to and including the first whose dispatch is not acknowledged or whose checkpoint fails, checkpointing each acknowledged one, and keeps what follows a failed checkpoint, or a failed event and all after it |
| EventHubConsumer.Consumer.Run | azureeventhub/consumer.go:117-138 | any number of cycles, failed ones included |
| EventHubConsumer.RunSafe | azureeventhub/consumer.go:122-180 | over every run: settled, pending and unreceived events make up the stream; no event is dispatched before its predecessor was acknowledged; a checkpoint is of the event just acknowledged |
| EventHubConsumer.NewConsumerRunSafe | azureeventhub/consumer.go:122-180 | the same from a new consumer |
| EventHubConsumer.RunCheckpoints | azureeventhub/consumer.go:167-176 | over every run, a dispatch is followed at once by the checkpoint of its event exactly when checkpoints are configured and the message may be forgotten: it succeeded, is delivered at most once, or is unmatched and such are ignored |
| EventHubConsumer.RunSettles | azureeventhub/consumer.go:122-180 | however failures fall between them, each cycle that is offered events and whose first dispatch is acknowledged settles one more, until the whole stream is settled |
| EventHubConsumer.ZeroSettlementCheckpointsSuccesses | envelope/settlement.go:81-90 | under the zero settlement every checkpoint follows a successful dispatch of its event |
| KafkaHandler.HandlePartition | awskafka/kafka.go:130-150 | the sorted loop over a partition reports and visits what the rule says |
| KafkaHandler.Handle | awskafka/kafka.go:122-154 | the reports are one per failing partition, whatever the order partitions come in |
| KafkaHandler.ReportMeaning | awskafka/kafka.go:130-150 | with distinct offsets a report is exactly the least offset that may not be passed over; none exactly when all may; a record that is no base64 may be passed only when delivered at most once |
| KafkaHandler.VisitedUpToReport | awskafka/kafka.go:132-148 | the records looked at are exactly those up to the reported offset, all of them without a report |
| KafkaHandler.ZeroRunPassesOnlySuccess | envelope/settlement.go:81-90 | over any redeliveries under the default settlement, a record is passed only by a delivery that decoded it and dispatched it successfully |
| KafkaHandler.RedeliveryHasNoGap | awskafka/kafka.go:110-154 | redelivering from each reported offset passes the partition in offset order, each record once, without a gap |
| CosmosWorker.Worker.PollAndDispatch | azurecosmos/worker.go:164-212 | the next token, the durable token and the pause: an error never advances the token, an empty page waits, progress polls again |
| CosmosWorker.Worker.Run | azurecosmos/worker.go:142-162 | any sequence of polls and crashes, restarting from the durable token |
| CosmosWorker.RunSafe | azurecosmos/worker.go:142-212 | over every run with crashes and restarts, neither the in-memory nor the durable position passes a document that was in no acknowledged batch, and every batch dispatched is the feed's own stretch behind handled ones |
| CosmosWorker.WorkerRunSafe | azurecosmos/worker.go:142-212 | the same from the start token |
| CosmosWorker.PollMoves | azurecosmos/worker.go:164-212 | a poll moves the position in memory over the page it read when the page is empty or its batch gets through, and the durable one when the batch may be forgotten and its token is persisted, whatever was reported |
| CosmosWorker.RunCheckpoints | azurecosmos/worker.go:197-206 | over every run, crashes included, a batch is checkpointed at once exactly when checkpoints are configured and it may be forgotten |
| CosmosWorker.EnoughPollsHandleAll | azurecosmos/worker.go:142-212 | a worker that polls productively as often as the feed is long, whatever fails in between, has had every document from its start acknowledged |
| Idempotency.Store.Claim | idempotency/idempotency.go:60-64 | claims an absent key, or reports the record and changes nothing, or errs, having recorded the key or not |
| Idempotency.Middleware | idempotency/idempotency.go:106-147 | an uninterrupted delivery ends as its atomic steps do, a claim that errs included; ignored exactly on a completed key, conflict exactly on one in progress; a key it won is completed after a success, free again after anything else, and left in progress when that fails; otherwise the records change only by a claim that errs and takes effect |
| Idempotency.InterleavingsAreExclusive | idempotency/idempotency.go:106-147 | over every interleaving of deliveries without claim errors, at most one handler of a key runs at a time, at most one succeeds, none starts after a success, even when Complete or Release fails |
| Idempotency.FromAnyRecords | idempotency/idempotency.go:106-147 | the same from any stored records |
| Idempotency.CompletedIsFinal | idempotency/idempotency.go:40-42 | a completed key stays completed and never reaches a handler |
| Idempotency.FailureIsRetried | idempotency/idempotency.go:131-144 | over any interleaving, claims that err included: once a delivery that won the key and did not succeed is settled, the key is unrecorded until the next attempt, and a claim then starts the handler |
| Idempotency.SuccessIsFinal | idempotency/idempotency.go:121-141 | over any interleaving, claims that err included: once a success is settled the key stays completed, every later claim that is answered is answered as completed, and a handler starts only where a claim errs |
| Idempotency.ExclusiveWhenClaimsAnswer | idempotency/idempotency.go:115-120 | all schedules of some deliveries of a key, among any others, are exclusive exactly when none of their claims errs, or there is one delivery, or the key was recorded before and at most one claim errs |
| ScopeResolution.Container.Add | scope.go:83-87 | replaces the registration, keeps created instances |
| ScopeResolution.Container.TryAdd | scope.go:89-96 | never replaces a registration |
| ScopeResolution.Container.TypedSingleton | scope.go:188-208 | returns the stored instance, else builds one and yields to whatever was stored meanwhile |
| ScopeResolution.Scope.TypedScoped | scope.go:210-230 | the same per scope, leaving the singletons alone |
| ScopeResolution.Scope.TryGetService | scope.go:131-150 | resolves by lifetime, and fails exactly without a registration |
| ScopeResolution.CallersAgree | scope.go:178-230 | over every interleaving a stored instance never changes and all callers get it |
| ScopeResolution.AllCallersGetOneInstance | scope.go:178-230 | two callers of one key, at any two times, get the same instance |
| ScopeResolution.NoBuildAfterStored | scope.go:178-230 | once stored, a factory runs only for callers already on their way |
| ScopeResolution.CallsInTurnBuildOnce | scope.go:178-230 | over every interleaving in which no two callers of one slot are between first check and publish at once, whatever else happens in between, its factory runs at most once |
| ScopeResolution.FreshCallsInTurnBuildOnce | scope.go:178-230 | the same from a new container: such a slot is built at most once |
| ScopeResolution.OverlappingCallsCanBuildTwice | scope.go:178-186 | overlapping calls can run it twice and still agree |
| JwksResolver.Resolver.ResolveKeys | auth/jwks.go:130-169 | one call: cached keys, a throttled fetch stamped on the attempt, stale keys on failure |
| JwksResolver.Resolver.FetchKeys | auth/jwks.go:181-195 | a fetch replaces the whole cache or changes nothing |
| JwksResolver.FetchesAreBounded | auth/jwks.go:130-169 | with a monotone clock an interval of length L sees at most floor(L / minRefetch) + 1 fetches, over any calls |
| JwksResolver.CacheIsLastFetched | auth/jwks.go:181-195 | after any calls the cache is the key set of the last successful fetch among them |
| JwksResolver.NoErrorAfterSuccess | auth/jwks.go:157-169 | after one success no call errs, and each answers from the cache it leaves |
| JwksResolver.ErrorIsFailedFirstFetch | auth/jwks.go:157-165 | after any calls, a call answers with an error exactly when no fetch has succeeded and its own, due under the throttle, fails |
| JwksResolver.AnswersAreOfLastSet | auth/jwks.go:146-180 | a call fetches exactly when it is not throttled and there is no set, or its kid is not empty and no key of the last set may have signed the token; it answers with the last set's keys of its kid, then those without a kid; with none or an error while there is no set |
| FieldPaths.ToDottedPath | grpcbinding/server.go:225-249 | the token loop computes the dotted path |
| FieldPaths.ToPointerPath | grpcbinding/client.go:159-196 | the nested part and index loops, with their in-place edit of the last token, compute the pointer |
| FieldPaths.IsIndexToken | grpcbinding/server.go:251-262 | true exactly for a non-empty run of digits |
| FieldPaths.EscapeUnescape | grpcbinding/client.go:193 | escaping undoes unescaping of a well-formed token (sections 3 and 4 of RFC 6901) |
| FieldPathConverse.UnescapeEscape | grpcbinding/server.go:238 | unescaping undoes escaping of any token |
| FieldPathConverse.TokensOfPointer | grpcbinding/client.go:190-195 | the tokens of the pointer made of some tokens are these |
| FieldPathConverse.PointerOfTokens | grpcbinding/server.go:237-238 | a well-formed pointer is the one made of its tokens |
| FieldPathLaws.TokensComeBack | grpcbinding/client.go:171-189 | tokens that keep their identity come back from their dotted path |
| FieldPathConverse.ComesBackOnlyIf | grpcbinding/client.go:171-189 | only such tokens come back |
| FieldPathConverse.PointerRoundTrip | grpcbinding/client.go:159-166 | a well-formed pointer comes back from its dotted path exactly when: its first token is not empty and does not start with "/"; no token has "."; no empty token is followed by an index; and what a token has behind its first "[" is not empty, has no "]", is followed by no index, and stands behind a name or at the start |
| FieldPathConverse.PlainPointerRoundTrip | grpcbinding/client.go:159-166 | in particular when no token is empty or has "." or "[" and the first does not start with "/" |
| FieldPathConverse.EmptyNameIsLost | grpcbinding/client.go:159-166 | the documented exact round trip fails for an empty first name |
| DynamoDb.JsonToAttributeValue | benzenetest/events.go:216-261 | the recursive encoding, through its map and list loops |
| DynamoDb.BuildImage | benzenetest/events.go:187-193 | the image loop encodes every field |
| DynamoDb.AttributeMapToJSON | awsdynamodb/attributevalue.go:9-28 | the map loop converts every attribute, or fails because one does, whatever the order |
| DynamoDb.ConvertAttributeValue | awsdynamodb/attributevalue.go:30-65 | some descriptor of the value is converted by its rule; unknown ones pass through, an empty object is null |
| DynamoDb.ConvertListItems | awsdynamodb/attributevalue.go:80-95 | the list loop converts every item or fails |
| DynamoDb.ConvertNumbers | awsdynamodb/attributevalue.go:97-111 | a number set is converted when every member is a number literal |
| DynamoDb.NumberSetIsRead | awsdynamodb/attributevalue.go:97-111 | a set of numbers converts to an array of what its texts read as, in order, and fails exactly when one does not read |
| DynamoDb.NumberIsRead | awsdynamodb/attributevalue.go:42-43 | a number converts to what its text reads as, and fails exactly when that does not read |
| DynamoDb.PlainDescriptorsStand | awsdynamodb/attributevalue.go:39-55 | text, binary text, booleans and their sets convert to what they hold |
| DynamoDb.EncodedNamesItsType | benzenetest/events.go:216-261 | an encoded value carries exactly the descriptor of its JSON type |
| DynamoDb.SingleGivesOne | awsdynamodb/attributevalue.go:37 | values with one descriptor each convert to one result, whatever the map order |
| DynamoDb.RoundTrip | awsdynamodb/attributevalue.go:30-95 | converting an encoded JSON value back gives the value and nothing else, through any nesting and in any map order |
| DynamoDb.ImageRoundTrip | awsdynamodb/attributevalue.go:9-28 | converting the image of a JSON object back gives the object and nothing else |
| DynamoDb.EncodedIsSingle | awsdynamodb/attributevalue.go:37 | encoded values carry one descriptor each, so map order cannot matter |
| Routes.PieceIsUnique | httpbinding/httpbinding.go:186-211 | a segment is a parameter exactly when it reads prefix{name}suffix with one well-formed placeholder, and in one way only |
| Routes.MatchTemplate | httpbinding/httpbinding.go:148-184 | the segment loop matches and captures as the rule says |
| Routes.CapturesAreRenderings | httpbinding/httpbinding.go:148-184 | captures match exactly when they are non-empty, slash-free and render the template into the path |
| Routes.MatchMeansRendering | httpbinding/httpbinding.go:148-184 | with distinct names a template matches exactly when some captures render it into the path; they are unique, and are what is returned under the lower-cased names |
| Routes.NewRouteTable | httpbinding/httpbinding.go:115-131 | exact routes by key, the last one of a key winning; templated ones in order |
| Routes.Match | httpbinding/httpbinding.go:133-146 | the exact table first, then the templated routes in order |
| Routes.MatchPrefersExact | httpbinding/httpbinding.go:133-146 | the last exact route of the request wins, else the first templated one that matches, and there is no match exactly when there is neither |
| Routes.RouteKeyIsUnique | httpbinding/httpbinding.go:355-357 | for methods without a space, a key stands for one method up to case and one path |
| Registries.Registry.Register | registry.go:121-157 | refuses a taken topic or a second default, changing nothing; else updates all three indexes |
| Registries.Registry.Lookup | registry.go:168-190 | selects over the indexes |
| Registries.Registry.TopicsWithoutDefault | registry.go:202-216 | the sorted list of exactly the ids without a default |
| Registries.Registry.DefaultVersion | registry.go:191-200 | the unversioned handler, else the declared default |
| Registries.IndexesFollowRegistrations | registry.go:121-157 | after any sequence of registrations, refused ones included, the indexes say exactly what the accepted ones say |
| Registries.CountsAreHandlers | registry.go:83-85 | the version count of an id is its number of handlers |
| Registries.DefaultsNameVersions | registry.go:86-87 | each declared default names a registered version of its id |
| Registries.LookupFollowsRule | registry.go:168-190 | lookup is the selection rule over the bare set of accepted registrations |
| Registries.RuleIsDeterministic | registry.go:168-174 | the rule allows one answer |
| Registries.WithoutDefaultMeansNoDefault | registry.go:202-216 | an id is listed exactly when an unversioned lookup finds no default |
| Registries.DefaultVersionIsUsed | registry.go:191-200 | an unversioned lookup selects the handler of the version named, and none when none is named |
| HealthChecks.DedupeKey | healthcheck/healthcheck.go:143-153 | the first unused of a name and its numbered forms |
| HealthChecks.Run | healthcheck/healthcheck.go:110-132 | one entry per check, and unhealthy exactly when some check panicked or returned failed |
| HealthChecks.OneEntryPerCheck | healthcheck/healthcheck.go:121-132 | every check, whatever the names, has its own result under a key of its own |
| HealthChecks.KeyOfCheck | healthcheck/healthcheck.go:143-153 | a check's key is the first form of its name that no earlier check took |

## Left out

- Hashing itself: SHA-256 and JSON canonicalisation (internal/jcs is not part of this model) are taken as
  injective, so equality of projections is the claim about hashes.
- The path of `normalizeSchema` is a set of names: only membership is used.
- `strings.ToUpper` and `strings.ToLower` are modelled on ASCII letters.
- Raw JSON text: whitespace, escapes, duplicate members and invalid UTF-8. Values are trees, strings sequences of
  Unicode scalar values, number literals opaque text that a reader accepts or not; a round trip of DynamoDB numbers
  needs the literals in the value to be ones the reader accepts.
- `componentName` and `sanitizeName`: a type carries its component name as data. `qualifiedName` is assumed injective
  on the types of a table where a lemma says `DistinctKeys`; function-local types of one name share it in the source.
- Reflection itself: the type table carries each struct's resolved properties, which `StructProperties.Describes` ties
  to its declared fields.
- SchemaDeriver.Deriver.Schema: requires `GoTypes.Finite`, a table listed so that any type but a named struct needs
  the schemas of earlier types only. On a type that needs its own schema again with no named struct between, such as a
  slice of itself without a marshaler, the recursion exhausts every bound (`CycleExhausts`).
- Derive's service facts, HTTP mappings, examples and the hashes it stores in the document.
- What encoding/json writes (`Marshaling.Writes`): methods with pointer receivers on values it can take the address
  of are not called, as the deriver assumes; a field that may be omitted may be omitted whatever its value; numbers are
  any literal of their kind, whatever its width; a text-marshaling map key is any text; a named struct without a
  component name is described once on a path, and below it nothing is claimed.
- AsyncAPI's id, title, version and description. Two entries with one topic and message name overwrite each other's
  message, so no claim is made that every message is kept, only which one is.
- The validity semantics cover the keywords the deriver emits; formats are annotations.
- Route parameters are an empty map where the source has a nil one; the record type around handlers, request
  conversion and captured types of the registry.
- Waiting: backoff, poll intervals and cancellation appear only as the outcome that causes them. Resolving wire
  requests and running pipelines is an arbitrary outcome per message.
- Expiry in the in-memory idempotency store, and the key functions.
- Type assertions on resolved services, and factories that panic.
- Scheme checks, discovery, parsing and verification of keys around the JWKS resolver.
- The record loops of Kinesis and DynamoDB streams, the SQS and Service Bus workers, SNS and S3 handlers: the stop or
  per-message rule of the consumers above with less state.
- HTTP and gRPC status tables, CORS, client health verdicts, probes and the circuit breaker: tables, branch by branch
  decisions, or a library's state machine.
