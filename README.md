# Subgraph normalization in the federation composer

This project models `NormalizationFactory` and `batchNormalize` from
`composition/src/normalization/normalization-factory.ts` of the GraphQL-federation composer.
It is written in Dafny and its properties are proved.

A `NormalizationFactory` takes the type definitions of one subgraph and builds
`parentDefinitionDataByTypeName`, a symbol table holding one entry per type name. Several other
tables sit beside it: concrete types per abstract type, authorization data per type, `@override`
targets, event (EDFS) configurations and router configuration records. Every rule violation is
appended to an error list. `normalize` then runs its final phase:
- propagates interface authorization to implementing types;
- assembles every type and validates interface implementations, union members, root operation
  types, referenced types, keys and conditional field sets;
- validates the event-driven graph;
- returns a result only when no error was recorded.

`batchNormalize` normalizes a list of subgraphs and merges what they report. It checks subgraph
names and reconciles `@override` declarations across subgraphs. With no errors, it removes
overridden fields from the target subgraph's configuration.

Layout:
- `ast.dfy` (module `Ast`): the small AST the core reads. Nodes keep a name, a directive list,
  interface and member names, and field and argument type shapes.
- `model.dfy` (module `Model`): symbol-table entries (`ParentData`, one variant per kind),
  configuration records, error and warning kinds, constants, and the `External` bundle of
  collaborators whose bodies are not part of this model.
- `root_types.dfy` (module `RootTypes`): the pure root-type helpers.
- `registry_spec.dfy`, `directive_spec.dfy`, `authorization_spec.dfy`, `implementation_spec.dfy`,
  `edfs_parsing.dfy`, `edfs_validation.dfy` and `normalize_spec.dfy`: specification functions for
  each part of the factory, with the lemmas about them.
- `factory.dfy` (module `Factory`): class `NormalizationFactory`. Its fields are the factory's
  mutable tables, and its methods change them in place, each proved against the specification
  functions.
- `batch_spec.dfy` (module `BatchSpec`) and `batch.dfy` (module `Batch`): `batchNormalize` as a
  loop over the subgraphs that threads a `MergeState`, with its specification functions.

Where the code and the source's own comments at the lines cited below disagree, the model follows
the code, including the warning guard at line 2059 listed under "## Findings":
- `setParentDataExtensionType`, called on an entry whose extension type is REAL, gives the entry the
  incoming value, even NONE. So a REAL extension can be turned into a NONE definition.
  (`RegistrySpec.MergeExtensionType` keeps the existing value only when it is not REAL.)
- `extractDirectives` appends to the existing entry's directive lists even when the incoming node
  has a different kind, in which case the upsert then reports the kind clash.
- In event-driven validation, every key field set that is *not* marked `resolvable: false` is
  reported (lines 1578-1583).
- A Query or Subscription root field must print exactly as `Named!`, so list-typed root fields are
  reported (lines 1556 and 1567).

## Model

| member | source | states |
|---|---|---|
| RootTypes.GetRenamedRootTypeName | composition/src/normalization/normalization-factory.ts:752-765 | a type that is not an operation type keeps its name; the result is one of Query/Mutation/Subscription exactly when the type is a root type |
| RootTypes.GetOperationTypeNodeForRootTypeName | composition/src/normalization/normalization-factory.ts:1498-1513 | an operation is found exactly for root types (declared, or named Query/Mutation/Subscription), and its default root name is the renamed root type name |
| RootTypes.GetValidEventsDirectiveNamesForOperationTypeNode | composition/src/normalization/normalization-factory.ts:1487-1496 | only event directives are allowed; `natsRequest` is allowed except on Subscription; the publish directives are allowed exactly on Mutation; the subscribe directives exactly on Subscription |
| RegistrySpec.GetNodeExtensionType | composition/src/normalization/normalization-factory.ts:616-636 | REAL exactly when the node is a real extension; EXTENDS exactly when it is not, the type is not a root type, the subgraph is not V2 and `@extends` is present; NONE otherwise |
| RegistrySpec.MergeExtensionType | composition/src/normalization/normalization-factory.ts:638-653 | an existing NONE or EXTENDS is never changed; an existing REAL takes the incoming value, whatever it is |
| RegistrySpec.ExtensionTypeErrors | composition/src/normalization/normalization-factory.ts:638-653 | at most one duplicate-definition error, present exactly when neither the existing nor the incoming extension type is REAL |
| RegistrySpec.RepeatedNamesEmptyIff | composition/src/normalization/normalization-factory.ts:655-674 | no duplicate is reported exactly when the incoming names are pairwise distinct and disjoint from those already recorded |
| RegistrySpec.RepeatedNamesCount | composition/src/normalization/normalization-factory.ts:655-674 | each incoming name is either reported as a duplicate or newly recorded: the two counts add up to the number of names |
| RegistrySpec.RepeatedNamesAreIncoming | composition/src/normalization/normalization-factory.ts:663-672 | every reported duplicate is one of the node's own names |
| RegistrySpec.MergeCompositeData | composition/src/normalization/normalization-factory.ts:676-688 | merging keeps kind, name and fields; never clears `isEntity` or `isInaccessible`; sets `isEntity` exactly when it was set or `@key` is present; adds the subgraph name; keeps a non-empty description; implemented interfaces become the old ones plus the node's |
| RegistrySpec.MergeInputObjectData | composition/src/normalization/normalization-factory.ts:881-885 | merging an input object keeps its values and extension type, ORs in `@inaccessible`, adds the subgraph name and keeps a non-empty description |
| RegistrySpec.MergeLeafData | composition/src/normalization/normalization-factory.ts:844-846 | merging an enum or scalar keeps kind, name, extension type and enum values, and keeps a non-empty description |
| RegistrySpec.MergeUnionData | composition/src/normalization/normalization-factory.ts:989-991 | merging a union adds the node's members to the recorded ones and keeps a non-empty description |
| RegistrySpec.WithExtensionType | composition/src/normalization/normalization-factory.ts:650 | setting the extension type changes nothing else of the entry's identity, directives or description |
| RegistrySpec.WithDirectives | composition/src/normalization/normalization-factory.ts:710-714 | the entry keeps its kind and name when only its directive map is replaced |
| RegistrySpec.AddConcreteTypeName | composition/src/normalization/normalization-factory.ts:690-702 | each listed interface gains the concrete type; existing sets only grow; nothing else is added |
| RegistrySpec.AddConcreteTypeNames | composition/src/normalization/normalization-factory.ts:1753-1770 | the union's entry gains all its members; existing sets only grow; nothing else is added |
| RegistrySpec.AddConcreteTypeNamesPresent | composition/src/normalization/normalization-factory.ts:950-952 | adding members that are already recorded leaves the map unchanged |
| RegistrySpec.ConcreteTypesRecordedByUpdate | composition/src/normalization/normalization-factory.ts:801-805 | updating an entry keeps "every object is recorded under each interface it implements" when the concrete map grows to cover the new entry |
| DirectiveSpec.ExtractDirectivesFromKeepsInvariant | composition/src/normalization/normalization-factory.ts:577-607 | extraction keeps every previously recorded list as a prefix; each added directive comes from the node, sits under its own name and is not ignored; added `@key` directives have pairwise distinct field sets |
| DirectiveSpec.ExtractDirectivesErrors | composition/src/normalization/normalization-factory.ts:588-591 | errors only grow, by at most one per directive, each an invalid-directive error at the host path; with every directive valid no error is added |
| DirectiveSpec.ExtractDirectiveStepRejects | composition/src/normalization/normalization-factory.ts:578-591 | a directive is rejected exactly when the validator finds it invalid against the directives recorded so far; rejection adds exactly one invalid-directive error at the host path and records nothing |
| DirectiveSpec.ExtractDirectivesAddsOnlyValid | composition/src/normalization/normalization-factory.ts:577-607 | every directive added to the map is one the validator accepts against some map, so a directive invalid everywhere is never recorded |
| DirectiveSpec.ExtractDirectivesRecordsAllValid | composition/src/normalization/normalization-factory.ts:577-607 | when every directive is valid, none is ignored and no `@key` repeats a field-set value, each name's list grows by exactly the node's directives of that name, in order |
| DirectiveSpec.ExtractDirectivesRejectsAllInvalid | composition/src/normalization/normalization-factory.ts:577-591 | when every directive is invalid, the errors grow by one invalid-directive error per directive, in order, and nothing is recorded |
| DirectiveSpec.ExtractDirectivesErrorsNameRejected | composition/src/normalization/normalization-factory.ts:588-591 | every error added is the invalid-directive error, at the host path, of one of the node's directives that the validator rejects |
| DirectiveSpec.ScanWellFormedKeyArguments | composition/src/normalization/normalization-factory.ts:1023-1042 | over well-formed `@key` arguments the scan reports nothing; it marks the key unresolvable exactly when `resolvable: false` is present, and the field set it finds is a `fields` string argument |
| DirectiveSpec.ExtractKeyFieldSetsKeepsFieldSets | composition/src/normalization/normalization-factory.ts:1015-1046 | reading keys never drops a recorded field set or message |
| DirectiveSpec.ExtractKeyFieldSetsRecords | composition/src/normalization/normalization-factory.ts:1015-1045 | the field sets added are exactly those of the `@key` directives with arguments whose scan ends on a `fields` string |
| DirectiveSpec.ExtractKeyFieldSetsMarks | composition/src/normalization/normalization-factory.ts:1024-1045 | each recorded field set carries the unresolvable flag of the last `@key` recording it; field sets no directive records keep their flag |
| DirectiveSpec.ExtractKeyFieldSetsMessages | composition/src/normalization/normalization-factory.ts:1015-1046 | the messages are those of each directive in order: a `@key` without arguments, or a `@key` whose `fields` value is not a string |
| DirectiveSpec.KeyWithoutArgumentsReported | composition/src/normalization/normalization-factory.ts:1019-1022 | a `@key` without arguments always yields the missing-`fields` message |
| DirectiveSpec.WellFormedKeysHaveNoMessages | composition/src/normalization/normalization-factory.ts:1015-1046 | when every `@key` has arguments and each is a string `fields` or a boolean `resolvable`, no message is produced |
| DirectiveSpec.RecordOverrideAddsOnlyChild | composition/src/normalization/normalization-factory.ts:1176-1186 | recording an override adds the target and adds exactly the child name under `[target][parent]`, changing no other entry |
| DirectiveSpec.ExtractLeafDirectivesSeparatesAuthorization | composition/src/normalization/normalization-factory.ts:493-527 | `@authenticated` and `@requiresScopes` are never recorded as ordinary directives; they are collected in order, each one from the node; no override names the declaring subgraph |
| AuthorizationSpec.ScanTypeAuthDirectivesSpec | composition/src/normalization/normalization-factory.ts:411-431 | the scan fails exactly when `@authenticated` or `@requiresScopes` appears twice; otherwise it reports each exactly when it appears, and the recorded `@requiresScopes` comes from the node |
| AuthorizationSpec.TypeAndScopesAgrees | composition/src/normalization/normalization-factory.ts:470-476 | an AND-set is read exactly when every scope is a string, and it is then the set of those strings |
| AuthorizationSpec.ParseTypeOrScopesSpec | composition/src/normalization/normalization-factory.ts:466-480 | reading OR-groups only appends, at most one set per group, never an empty set; a well-formed read appends exactly the non-empty AND-sets |
| AuthorizationSpec.AppendOrScopesAppendsNonEmpty | composition/src/normalization/normalization-factory.ts:550-558 | only non-empty AND-sets are appended, at most one per OR-group |
| AuthorizationSpec.ApplyAuthorizationDirectivesSpec | composition/src/normalization/normalization-factory.ts:539-559 | authentication is required exactly when it was or an `@authenticated` is present; the host path is invalid exactly when some `@requiresScopes` exceeds the limit; scopes only grow by non-empty sets |
| AuthorizationSpec.OverLimitRecordsNoScopes | composition/src/normalization/normalization-factory.ts:545-549 | a `@requiresScopes` over `maxOrScopes` only marks the host path invalid and records none of its scopes |
| AuthorizationSpec.TypeAuthorizationIsBounded | composition/src/normalization/normalization-factory.ts:458-481 | stored type authorization never holds more than `maxOrScopes` groups nor an empty group; what is returned is what is stored |
| AuthorizationSpec.TypeAuthorizationRejections | composition/src/normalization/normalization-factory.ts:413-465 | over the limit nothing is returned and the stored scopes are empty; a repeated directive returns nothing, marks no interface and leaves reset data |
| AuthorizationSpec.LeafAuthorizationSpec | composition/src/normalization/normalization-factory.ts:531-559 | leaf authorization touches only the addressed field (or the type); it requires authentication exactly when it did or `@authenticated` is present; the path is invalid exactly on an over-limit `@requiresScopes`; scopes grow by non-empty sets only |
| ImplementationSpec.FieldImplementationFlaggedIff | composition/src/normalization/normalization-factory.ts:1088-1146 | an implementing field is flagged exactly when it misses an interface argument, changes an argument's type, adds a non-null argument, is wrongly inaccessible, or has an invalid response type |
| ImplementationSpec.InterfaceImplementationErrorsIff | composition/src/normalization/normalization-factory.ts:1074-1150 | an interface has implementation errors exactly when a field is missing or some implementing field is flagged |
| ImplementationSpec.ImplementationErrorsByInterfaceIff | composition/src/normalization/normalization-factory.ts:1060-1151 | the per-interface error map is non-empty exactly when some implemented interface other than the type itself has implementation errors |
| ImplementationSpec.AtMostOneImplementationError | composition/src/normalization/normalization-factory.ts:1152-1162 | a type gets at most three errors, the interface-implementation error is last, and it appears exactly when some interface is violated |
| EdfsParsing.ParsedProviderId | composition/src/normalization/normalization-factory.ts:1207-1213 | the provider id stays the default unless a `providerId` argument with a non-empty string sets it |
| EdfsParsing.ParseEventArgumentsAppends | composition/src/normalization/normalization-factory.ts:1196-1216 | parsing only appends messages and subjects, and every subject is non-empty |
| EdfsParsing.SubjectItemsKeepsProviderId | composition/src/normalization/normalization-factory.ts:1237-1244 | reading subject list items never changes the provider id or the stream names |
| EdfsParsing.MalformedSubjectIsRejected | composition/src/normalization/normalization-factory.ts:1198-1202 | a subject argument of the wrong shape (not a non-empty string, or not a list) always yields a message |
| EdfsParsing.ScanStreamFieldsSpec | composition/src/normalization/normalization-factory.ts:1343-1375 | the stream scan stays valid exactly when every field is a known, not yet seen name with a non-empty string; missing names are the required ones not seen |
| EdfsParsing.ScanStreamFieldsNames | composition/src/normalization/normalization-factory.ts:1367-1374 | consumer and stream names are taken only from non-empty string fields of those names |
| EdfsParsing.AcceptableStreamFieldsIff | composition/src/normalization/normalization-factory.ts:1348-1366 | the fields are acceptable exactly when each names a required field with a non-empty string and no name repeats |
| EdfsParsing.StreamConfigurationSpec | composition/src/normalization/normalization-factory.ts:1338-1385 | `streamConfiguration` adds no message exactly when it has fields, each a known name with a non-empty string, none repeated, and both names present |
| EdfsParsing.NatsPublishReadsNoStream | composition/src/normalization/normalization-factory.ts:1269-1302 | NATS publish and request parsing never sets a stream configuration |
| EdfsParsing.GetKafkaPublishConfiguration | composition/src/normalization/normalization-factory.ts:1189-1221 | returns the parsed messages; a configuration is produced exactly when there are none |
| EdfsParsing.GetKafkaSubscribeConfiguration | composition/src/normalization/normalization-factory.ts:1223-1267 | returns the parsed messages; a configuration is produced exactly when there are none |
| EdfsParsing.GetNatsPublishAndRequestConfiguration | composition/src/normalization/normalization-factory.ts:1269-1302 | a configuration is produced exactly when there are no messages, and it carries no stream configuration |
| EdfsParsing.GetNatsSubscribeConfiguration | composition/src/normalization/normalization-factory.ts:1304-1400 | a configuration is produced exactly when there are no messages; a stream configuration is attached only with both names non-empty |
| EdfsParsing.ReadEventArguments | composition/src/normalization/normalization-factory.ts:1196-1216 | the loop over a directive's arguments computes the argument fold |
| EdfsParsing.ReadSubjectItems | composition/src/normalization/normalization-factory.ts:1237-1244 | the loop over list items computes the item fold |
| EdfsParsing.ReadStreamConfigurationFields | composition/src/normalization/normalization-factory.ts:1343-1375 | the loop over stream fields computes the stream scan |
| EdfsParsing.ExtractEventDirectivesSpec | composition/src/normalization/normalization-factory.ts:1429-1484 | at most one configuration or one error per directive, configurations carry the field name, and each error is an event-directive error for the field path with a non-empty message list |
| EdfsParsing.OtherDirectivesIgnored | composition/src/normalization/normalization-factory.ts:1465-1466 | directives that are not event directives change nothing |
| EdfsValidation.IsEdfsPublishResultValid | composition/src/normalization/normalization-factory.ts:1604-1627 | valid exactly when the type is absent or an object with the single field `success: Boolean!` and no arguments |
| EdfsValidation.IsNatsStreamConfigurationInputObjectValid | composition/src/normalization/normalization-factory.ts:1629-1647 | valid exactly when an input object has exactly the values `consumerName` and `streamName`, both `String!` |
| EdfsValidation.NonKeyComposingReported | composition/src/normalization/normalization-factory.ts:1676-1680 | a type is reported as non-key-composing exactly when it is a non-root object other than the two EDFS types and has no key field names |
| EdfsValidation.ResolvableKeysReported | composition/src/normalization/normalization-factory.ts:1573-1584 | a key field set is reported exactly when it belongs to a checked entity and is not marked unresolvable |
| EdfsValidation.NonExternalKeyFieldsReported | composition/src/normalization/normalization-factory.ts:1592-1598 | a key field is reported exactly when it is not `@external` in this subgraph |
| EdfsValidation.NonKeyFieldsReported | composition/src/normalization/normalization-factory.ts:1599-1600 | every non-key field of a checked entity is reported, and nothing else |
| EdfsValidation.ListRootFieldReported | composition/src/normalization/normalization-factory.ts:1555-1569 | a Query or Subscription root field of list type is reported with its type |
| EdfsValidation.MutationResponseTypeReported | composition/src/normalization/normalization-factory.ts:1548-1553 | a Mutation field whose type is not `edfs__PublishResult!` is reported with its type |
| EdfsValidation.EventsDirectivesReported | composition/src/normalization/normalization-factory.ts:1528-1547 | a root field is reported exactly when it has no event directive or one not allowed for its operation |
| EdfsValidation.FindingsAreReported | composition/src/normalization/normalization-factory.ts:1701-1726 | any finding produces at least one event-driven-graph message |
| NormalizeSpec.MergeHeirsFailuresAreNamed | composition/src/normalization/normalization-factory.ts:1845-1849 | inherited authorization only flags fields of the merged records |
| NormalizeSpec.MergeHeirsAllMerged | composition/src/normalization/normalization-factory.ts:1845-1849 | when every AND-merge succeeds, no field is flagged |
| NormalizeSpec.AlongMembers | composition/src/normalization/normalization-factory.ts:2051-2068 | a log collected along an enumeration holds exactly the reports of its members |
| NormalizeSpec.LeafAssemblyErrors | composition/src/normalization/normalization-factory.ts:1891-2005 | a leaf gets at most one error: an enum without values, an input object without values, a REAL scalar extension, or a union with no members or a non-object member |
| NormalizeSpec.LeafAssemblyErrorsByKinds | composition/src/normalization/normalization-factory.ts:1732-1751 | the leaf check depends on the other types only through their kinds |
| NormalizeSpec.NonObjectMembers | composition/src/normalization/normalization-factory.ts:1737-1747 | the invalid members are exactly the defined members that are not objects, with their kinds |
| NormalizeSpec.WithoutFederationFields | composition/src/normalization/normalization-factory.ts:1927-1930 | an operation type loses exactly `_service` and `_entities`; every other field and the type's identity are kept |
| NormalizeSpec.ExternalInterfaceFieldNames | composition/src/normalization/normalization-factory.ts:1932-1936 | for an interface, exactly its fields that are `@external` in this subgraph; for an object, none |
| NormalizeSpec.StrippedType | composition/src/normalization/normalization-factory.ts:1921-1930 | assembling keeps kind, name and configuration name, leaves leaves unchanged and strips only the federation fields |
| NormalizeSpec.PartlyStripped | composition/src/normalization/normalization-factory.ts:1891-2009 | assembly keeps the set of type names and each entry's kind and name |
| NormalizeSpec.AllAssembledConfigured | composition/src/normalization/normalization-factory.ts:1953-1975 | after assembly every object and interface has a configuration record |
| NormalizeSpec.OperationTypeName | composition/src/normalization/normalization-factory.ts:2015 | an undeclared operation uses its default root type name |
| NormalizeSpec.UndefinedFieldTypes | composition/src/normalization/normalization-factory.ts:2044-2049 | every field type of a root object that is neither a base scalar nor defined is included, and every included name is undefined and not a base scalar |
| NormalizeSpec.AsRootNode | composition/src/normalization/normalization-factory.ts:2035-2039 | marks only the default root type's record as a root node named by that default, keeping its fields |
| NormalizeSpec.AsWrittenMissesEmptyImplementations | composition/src/normalization/normalization-factory.ts:2058-2062 | the guard as written misses an interface recorded with no implementations |
| NormalizeSpec.HasNoImplementationsIff | composition/src/normalization/normalization-factory.ts:2058-2062 | the corrected guard holds exactly when the interface has no concrete type |
| NormalizeSpec.ReferencedTypeErrorsReport | composition/src/normalization/normalization-factory.ts:2051-2068 | referenced types yield only undefined-type errors, exactly for types that are neither defined nor entities |
| NormalizeSpec.ReferencedTypeWarningsReport | composition/src/normalization/normalization-factory.ts:2051-2068 | under the guard as written, a warning is given exactly for each referenced interface that has no entry among the implementations; an interface whose entry is empty is not reported, and every interface reported has no concrete type |
| NormalizeSpec.KeyErrorsReport | composition/src/normalization/normalization-factory.ts:1789-1801 | a key on an undefined or non-object-like type is reported |
| NormalizeSpec.KeysAlong | composition/src/normalization/normalization-factory.ts:1789-1801 | key validation keeps the set of configuration records and changes nothing in a record but its keys |
| NormalizeSpec.KeysAlongKeepsInvariants | composition/src/normalization/normalization-factory.ts:1789-1801 | adding keys keeps every configuration record's name and keeps every composite type configured |
| NormalizeSpec.FieldSetErrorsReport | composition/src/normalization/normalization-factory.ts:2070-2081 | a conditional field set on an undefined or non-object-like type is reported |
| NormalizeSpec.EdfsDirectiveNamesReport | composition/src/normalization/normalization-factory.ts:1866-1874 | exactly the referenced names that are not event directives are reported |
| NormalizeSpec.UnvalidatedExternalReport | composition/src/normalization/normalization-factory.ts:2106-2112 | in V2 each unvalidated `@external` is an error and there are no warnings; in V1 each is a warning and there are no errors |
| Factory.NormalizationFactory.constructor | composition/src/normalization/normalization-factory.ts:350-363 | a missing subgraph name becomes the not-applicable name; every table starts empty |
| Factory.NormalizationFactory.ValidateInputNamedType | composition/src/normalization/normalization-factory.ts:365-382 | base scalars pass; an undefined type adds one undefined-type error; a defined type is rejected exactly when it is not an input kind |
| Factory.NormalizationFactory.ValidateArgument | composition/src/normalization/normalization-factory.ts:386-397 | one argument step adds it to the invalid set exactly when its type is defined and not an input kind, and reports it when undefined |
| Factory.NormalizationFactory.ValidateArguments | composition/src/normalization/normalization-factory.ts:384-401 | undefined argument types are reported; a single invalid-arguments error listing every bad argument is added last, only if there is one |
| Factory.InvalidArgumentsEmptyIff | composition/src/normalization/normalization-factory.ts:384-401 | no argument is invalid exactly when each argument type is a base scalar, undefined, or an input kind |
| Factory.NormalizationFactory.GetAuthorizationData | composition/src/normalization/normalization-factory.ts:404-482 | the stored, returned and flagged authorization are those of the type-authorization specification |
| Factory.NormalizationFactory.ScanAuthorizationDirectives | composition/src/normalization/normalization-factory.ts:411-431 | the loop computes the directive scan |
| Factory.NormalizationFactory.ApplyTypeAuthorizationDirectives | composition/src/normalization/normalization-factory.ts:432-449 | stores, returns and flags as the specification says once a directive was found |
| Factory.NormalizationFactory.ReadTypeRequiresScopes | composition/src/normalization/normalization-factory.ts:450-481 | stores the scoped authorization, and flags the type path exactly when the OR-group limit is exceeded |
| Factory.NormalizationFactory.ReadTypeOrScopes | composition/src/normalization/normalization-factory.ts:466-480 | the loop computes the OR-group read |
| Factory.NormalizationFactory.ReadTypeAndScopes | composition/src/normalization/normalization-factory.ts:470-476 | the loop computes the AND-set read |
| Factory.NormalizationFactory.ReadAndScopes | composition/src/normalization/normalization-factory.ts:551-554 | the loop computes the set of scope strings |
| Factory.NormalizationFactory.AppendScopes | composition/src/normalization/normalization-factory.ts:550-558 | the loop appends the non-empty AND-sets |
| Factory.NormalizationFactory.ApplyDirectives | composition/src/normalization/normalization-factory.ts:539-559 | the loop applies the collected authorization directives |
| Factory.NormalizationFactory.ApplyLeafAuthorization | composition/src/normalization/normalization-factory.ts:531-559 | the parent's authorization becomes the leaf-authorization result, and the host path is flagged exactly when it is invalid |
| Factory.NormalizationFactory.HandleOverrideDeclaration | composition/src/normalization/normalization-factory.ts:1165-1187 | rejected exactly when the argument is not a string or names this subgraph; otherwise the child is recorded under `[from][parent]` |
| Factory.NormalizationFactory.ExtractDirectives | composition/src/normalization/normalization-factory.ts:567-609 | the directive map and errors are those of the extraction fold |
| Factory.NormalizationFactory.ExtractLeafDirectives | composition/src/normalization/normalization-factory.ts:491-527 | directives, authorization directives, errors and overrides are those of the leaf extraction fold |
| Factory.NormalizationFactory.ExtractDirectivesAndAuthorization | composition/src/normalization/normalization-factory.ts:484-561 | with no authorization directive, no authorization state changes; otherwise non-field leaves are recorded, the parent's data is updated and an over-limit path is flagged |
| Factory.NormalizationFactory.SetParentDataExtensionType | composition/src/normalization/normalization-factory.ts:638-653 | the entry takes the merged extension type, and a duplicate-definition error is added exactly when neither side is REAL |
| Factory.NormalizationFactory.ExtractImplementedInterfaceTypeNames | composition/src/normalization/normalization-factory.ts:655-674 | the result is the prior set plus the node's names, with one duplicate error per repeated name |
| Factory.NormalizationFactory.UpdateCompositeOutputDataByNode | composition/src/normalization/normalization-factory.ts:676-688 | the entry becomes the composite merge, with extension and duplicate-interface errors appended |
| Factory.NormalizationFactory.AddConcreteTypeNamesForImplementedInterfaces | composition/src/normalization/normalization-factory.ts:690-702 | each interface gains the concrete type, with one graph edge per interface |
| Factory.NormalizationFactory.AddConcreteTypeNamesForUnion | composition/src/normalization/normalization-factory.ts:1753-1770 | the union gains all its members, with one graph edge per member |
| Factory.NormalizationFactory.ExtractUnionMembers | composition/src/normalization/normalization-factory.ts:936-965 | members become the prior ones plus the node's; one duplicate error per repeated member; new non-base-scalar members are referenced |
| Factory.NormalizationFactory.AddInterfaceObjectFieldsByNode | composition/src/normalization/normalization-factory.ts:767-776 | the node's fields are added to an `@interfaceObject` entry, and to nothing else |
| Factory.NormalizationFactory.AddInterfaceFieldNames | composition/src/normalization/normalization-factory.ts:716-721 | the node's fields are added to an entity interface entry |
| Factory.NormalizationFactory.RejectMultipleDefinition | composition/src/normalization/normalization-factory.ts:789-798 | exactly one multiple-definition error; the entry keeps its kind |
| Factory.NormalizationFactory.UpsertObjectDataByNode | composition/src/normalization/normalization-factory.ts:778-822 | three outcomes: a kind clash adds one error; a repeat merges and records the object under its interfaces; a first sighting creates the entry with the node's data; kinds are kept and objects stay recorded under their interfaces |
| Factory.NormalizationFactory.MergeCompositeEntry | composition/src/normalization/normalization-factory.ts:799-802 | merges an existing object or interface and records objects under all their interfaces |
| Factory.NormalizationFactory.InsertCompositeData | composition/src/normalization/normalization-factory.ts:804-821 | creates the first entry for an object or interface, with duplicate-interface errors |
| Factory.NormalizationFactory.UpsertInterfaceDataByNode | composition/src/normalization/normalization-factory.ts:704-750 | the same three outcomes for interfaces; the concrete-type map is unchanged |
| Factory.NormalizationFactory.StoreLeafData | composition/src/normalization/normalization-factory.ts:833-858 | the three outcomes for an enum or scalar entry |
| Factory.NormalizationFactory.UpsertLeafDataByNode | composition/src/normalization/normalization-factory.ts:824-859 | enum and scalar upsert: the three outcomes, plus the leaf's authorization handling |
| Factory.NormalizationFactory.UpsertInputObjectByNode | composition/src/normalization/normalization-factory.ts:861-899 | the three outcomes for input objects |
| Factory.NormalizationFactory.UpsertUnionByNode | composition/src/normalization/normalization-factory.ts:967-1004 | the three outcomes for unions; the union is always recorded with all its members, whatever the outcome |
| Factory.NormalizationFactory.MergeUnionDataByNode | composition/src/normalization/normalization-factory.ts:989-992 | merges an existing union with extension and duplicate-member errors |
| Factory.NormalizationFactory.InsertUnionData | composition/src/normalization/normalization-factory.ts:994-1003 | creates the first union entry with its members |
| Factory.NormalizationFactory.StoreUnionData | composition/src/normalization/normalization-factory.ts:978-1003 | the three outcomes for a union entry |
| Factory.NormalizationFactory.ScanKeyDirectiveArguments | composition/src/normalization/normalization-factory.ts:1023-1042 | the loop computes the key-argument scan |
| Factory.NormalizationFactory.ExtractKeyFieldSets | composition/src/normalization/normalization-factory.ts:1006-1050 | a node without directives adds an expected-entity error; otherwise field sets are recorded and one invalid-key error lists all messages, only if there are any |
| Factory.NormalizationFactory.CheckFieldImplementation | composition/src/normalization/normalization-factory.ts:1088-1146 | the loops compute the field-implementation record |
| Factory.NormalizationFactory.CheckInterfaceImplementation | composition/src/normalization/normalization-factory.ts:1074-1150 | computes the interface's implementation errors and removes its field coordinates from the unvalidated `@external` set |
| Factory.NormalizationFactory.CollectInterfaceImplementations | composition/src/normalization/normalization-factory.ts:1060-1151 | finds the non-interface implemented types, self-implementation and per-interface errors; reports undefined interfaces |
| Factory.NormalizationFactory.ValidateInterfaceImplementations | composition/src/normalization/normalization-factory.ts:1052-1163 | appends undefined-interface reports followed by the type's implementation errors |
| Factory.NormalizationFactory.ValidateUnionMembers | composition/src/normalization/normalization-factory.ts:1732-1751 | a union without members gets one error; otherwise one invalid-member error, only if a defined member is not an object |
| Factory.NormalizationFactory.InheritFieldAuthorization | composition/src/normalization/normalization-factory.ts:1819-1836 | only the concrete type's record is created or changed, and only its own field paths can be flagged |
| Factory.NormalizationFactory.PropagateInterfaceAuthorizationOf | composition/src/normalization/normalization-factory.ts:1813-1837 | only the interface's concrete types are touched, and each gets a record |
| Factory.NormalizationFactory.PropagateInterfaceAuthorization | composition/src/normalization/normalization-factory.ts:1812-1838 | records only grow; only concrete types of authorized interfaces are added or changed; each of them gets a record; only their field paths can be flagged; none are flagged when every upsert succeeds |
| Factory.NormalizationFactory.MergeHeirRequirements | composition/src/normalization/normalization-factory.ts:1845-1849 | the loop computes the inherited-authorization merge |
| Factory.NormalizationFactory.ApplyHeirFieldAuthorization | composition/src/normalization/normalization-factory.ts:1840-1850 | each type with inherited field authorization is merged, and failed fields are flagged |
| Factory.NormalizationFactory.ReportOrScopesLimit | composition/src/normalization/normalization-factory.ts:1851-1853 | one OR-scopes-limit error, exactly when some host path is flagged |
| Factory.NormalizationFactory.AssembleLeafType | composition/src/normalization/normalization-factory.ts:1893-1920 | appends exactly the leaf-assembly errors of the type |
| Factory.NormalizationFactory.ValidateFieldArguments | composition/src/normalization/normalization-factory.ts:1931-1939 | returns the `@external` interface field names, and every field with an invalid argument is reported |
| Factory.NormalizationFactory.CheckCompositeFields | composition/src/normalization/normalization-factory.ts:1931-1948 | `@external` interface fields are an error in V2 and one warning in V1; invalid arguments of every checked field are reported |
| Factory.NormalizationFactory.RecordConfiguration | composition/src/normalization/normalization-factory.ts:1949-1976 | stores the type's configuration record: name, fields, root-node flag, events, interface-object data; an entity interface gets a concrete-type entry |
| Factory.NormalizationFactory.CheckHasFields | composition/src/normalization/normalization-factory.ts:1986-1989 | an object or interface without fields is an error unless it is the node query |
| Factory.NormalizationFactory.StripFederationFields | composition/src/normalization/normalization-factory.ts:1927-1930 | operation types lose `_service` and `_entities` in the table |
| Factory.NormalizationFactory.AssembleCompositeType | composition/src/normalization/normalization-factory.ts:1921-1976 | a configuration record is added under the type's configuration name, and an entity interface gets a concrete-type entry |
| Factory.NormalizationFactory.CloseCompositeType | composition/src/normalization/normalization-factory.ts:1977-1989 | a type without fields is reported |
| Factory.NormalizationFactory.AssembleType | composition/src/normalization/normalization-factory.ts:1891-2008 | the entry is stripped, and every composite gets a configuration record |
| Factory.NormalizationFactory.AssembleTypes | composition/src/normalization/normalization-factory.ts:1891-2009 | every type is assembled: the table is the stripped table, and every object and interface is configured |
| Factory.NormalizationFactory.ReportUndefinedFieldTypes | composition/src/normalization/normalization-factory.ts:2044-2049 | reports exactly the undefined field types of a root object |
| Factory.NormalizationFactory.ValidateOperationType | composition/src/normalization/normalization-factory.ts:2012-2049 | a conflicting default adds one error; an undeclared missing type is skipped; a declared missing one is an undefined type; a defined one is recorded, marks its root record, and must be an object whose field types are defined |
| Factory.NormalizationFactory.ValidateOperationTypes | composition/src/normalization/normalization-factory.ts:2011-2050 | keeps the configuration records and their names |
| Factory.NormalizationFactory.ValidateReferencedType | composition/src/normalization/normalization-factory.ts:2052-2067 | appends exactly the referenced type's error (neither defined nor an entity) and its warning (an interface with no implementations entry, the guard as written) |
| Factory.NormalizationFactory.ValidateReferencedTypes | composition/src/normalization/normalization-factory.ts:2051-2068 | errors and warnings are those of some enumeration of the referenced types |
| Factory.NormalizationFactory.ValidateKeysOf | composition/src/normalization/normalization-factory.ts:1790-1800 | a key on an undefined or non-object-like type is an error; otherwise the validated keys are stored |
| Factory.NormalizationFactory.ValidateAndAddKeysToConfiguration | composition/src/normalization/normalization-factory.ts:1789-1801 | errors and records are those of some enumeration of the keyed types |
| Factory.NormalizationFactory.ValidateFieldSetsOf | composition/src/normalization/normalization-factory.ts:2071-2080 | appends exactly the type's conditional-field-set errors |
| Factory.NormalizationFactory.ValidateConditionalFieldSets | composition/src/normalization/normalization-factory.ts:2070-2081 | errors are those of some enumeration of the types with field sets |
| Factory.NormalizationFactory.ValidateEdfsDirectiveName | composition/src/normalization/normalization-factory.ts:1867-1873 | an unknown event directive name adds one error |
| Factory.NormalizationFactory.ValidateEdfsDirectiveNames | composition/src/normalization/normalization-factory.ts:1866-1874 | errors are those of some enumeration of the referenced event directives |
| Factory.NormalizationFactory.ReportUnvalidatedExternalField | composition/src/normalization/normalization-factory.ts:2107-2111 | one error in V2 or one warning in V1 |
| Factory.NormalizationFactory.ReportUnvalidatedExternalFields | composition/src/normalization/normalization-factory.ts:2106-2112 | errors and warnings follow some enumeration of the unvalidated coordinates |
| Factory.NormalizationFactory.ValidateSubscriptionFilterDirectiveLocation | composition/src/normalization/normalization-factory.ts:1402-1418 | one error exactly when a subscription filter sits on a field outside Subscription |
| Factory.NormalizationFactory.ExtractEventDirectivesToConfiguration | composition/src/normalization/normalization-factory.ts:1420-1485 | errors and configurations appended are those of the event extraction fold |
| Factory.NormalizationFactory.ValidateEventDrivenRootType | composition/src/normalization/normalization-factory.ts:1515-1571 | a type without an operation is an invalid root type; otherwise the root findings over all its fields |
| Factory.NormalizationFactory.ValidateEventDrivenKeyDefinition | composition/src/normalization/normalization-factory.ts:1573-1584 | exactly the key field sets not marked unresolvable |
| Factory.NormalizationFactory.ValidateEventDrivenObjectFields | composition/src/normalization/normalization-factory.ts:1586-1602 | exactly the key fields not `@external` here, and exactly the non-key fields |
| Factory.NormalizationFactory.ValidateEventDrivenType | composition/src/normalization/normalization-factory.ts:1659-1688 | the findings of one type, reporting a root type without an operation |
| Factory.NormalizationFactory.CollectTypeFindings | composition/src/normalization/normalization-factory.ts:1659-1688 | one loop step adds the type's findings and invalid-root reports |
| Factory.NormalizationFactory.CollectEventDrivenFindings | composition/src/normalization/normalization-factory.ts:1659-1688 | the findings of every type, with invalid-root reports |
| Factory.NormalizationFactory.GatherFindingsMessages | composition/src/normalization/normalization-factory.ts:1701-1726 | the messages for the findings |
| Factory.NormalizationFactory.EventDrivenGraphErrors | composition/src/normalization/normalization-factory.ts:1689-1729 | one event-driven-graph error exactly when there is a message |
| Factory.NormalizationFactory.ValidateEventDrivenSubgraph | composition/src/normalization/normalization-factory.ts:1649-1730 | invalid-root reports followed by at most one event-driven-graph error holding every message |
| Factory.NormalizationFactory.Result | composition/src/normalization/normalization-factory.ts:2120-2143 | the result carries the factory's type table and configuration records |
| Factory.NormalizationFactory.ConsolidateAuthorization | composition/src/normalization/normalization-factory.ts:1812-1853 | flagged paths only grow, and one limit error is added exactly when any is flagged |
| Factory.NormalizationFactory.AssembleAndResolveOperationTypes | composition/src/normalization/normalization-factory.ts:1891-2050 | the table is the stripped table and every composite type is configured |
| Factory.NormalizationFactory.ValidateReferences | composition/src/normalization/normalization-factory.ts:2051-2081 | every composite type stays configured |
| Factory.NormalizationFactory.CheckEventDrivenGraph | composition/src/normalization/normalization-factory.ts:2102-2105 | the subgraph is event-driven exactly when it references an event directive |
| Factory.NormalizationFactory.CloseNormalization | composition/src/normalization/normalization-factory.ts:2102-2112 | the subgraph is event-driven exactly when it references an event directive |
| Factory.NormalizationFactory.Normalize | composition/src/normalization/normalization-factory.ts:1803-2144 | a result is returned exactly when no error the model records was recorded, otherwise the errors and warnings; the table is stripped and every composite type configured |
| BatchSpec.UnnamedIndices | composition/src/normalization/normalization-factory.ts:2169-2174 | exactly the indices of unnamed subgraphs, in increasing order |
| BatchSpec.UnnamedReported | composition/src/normalization/normalization-factory.ts:2172-2174 | an unnamed-subgraph message exists exactly when some subgraph has no name |
| BatchSpec.RepeatedReported | composition/src/normalization/normalization-factory.ts:2163-2167 | a name is non-unique exactly when two subgraphs share it |
| BatchSpec.ValidationErrors | composition/src/normalization/normalization-factory.ts:2183-2186 | one subgraph-validation error per failed subgraph, and none exactly when all normalized |
| BatchSpec.ConcreteTypesUpToIff | composition/src/normalization/normalization-factory.ts:2197-2207 | an abstract type and its concrete type are merged exactly when some normalized subgraph reports them |
| BatchSpec.EntityTypeNamesUpTo | composition/src/normalization/normalization-factory.ts:2208-2210 | every subgraph's entity type names are included in the merged set |
| BatchSpec.MergeOneRecords | composition/src/normalization/normalization-factory.ts:2249-2259 | merging one accepted override records its parent and field names |
| BatchSpec.WithSourceKeepsConsistent | composition/src/normalization/normalization-factory.ts:2261-2270 | recording a source keeps every path with two or more sources a duplicate and every duplicate with two or more sources, and sources only grow |
| BatchSpec.WithoutOverriddenFieldsMeaning | composition/src/normalization/normalization-factory.ts:2312-2321 | overridden names are removed from a record's fields, a record left with no fields is deleted, and nothing else changes |
| BatchSpec.WithoutNoOverriddenFields | composition/src/normalization/normalization-factory.ts:2312-2321 | no override leaves the records unchanged |
| BatchSpec.WithOverrides | composition/src/normalization/normalization-factory.ts:2311 | the target keeps its name and carries the accepted overrides |
| BatchSpec.AuthorizationAlongFlags | composition/src/normalization/normalization-factory.ts:2194-2196 | flagged paths only grow, and stay put when every upsert succeeds |
| BatchSpec.AuthorizationAlongReports | composition/src/normalization/normalization-factory.ts:2194-2196 | every host path any upsert of a subgraph's records flags is among the paths reported after them |
| BatchSpec.AuthorizationUpToStep | composition/src/normalization/normalization-factory.ts:2169-2196 | merging one more subgraph upserts its records, in an order listing each once, onto the batch authorization so far |
| BatchSpec.AuthorizationUpToReports | composition/src/normalization/normalization-factory.ts:2169-2196 | every host path any upsert of any subgraph flags ends up in the batch's OR-scopes set |
| BatchSpec.AuthorizationUpToQuiet | composition/src/normalization/normalization-factory.ts:2169-2196 | when no upsert flags a path, the batch's OR-scopes set is empty |
| BatchSpec.HitCountStep | composition/src/normalization/normalization-factory.ts:2234-2270 | one more (target, parent type) pair counts once more exactly for the paths of its fields |
| BatchSpec.CountedStep | composition/src/normalization/normalization-factory.ts:2261-2270 | appending the subgraph's name to the paths of one more parent type's fields keeps each path's sources equal to its prior ones plus one copy per pair naming it |
| BatchSpec.CountedIsCountedSources | composition/src/normalization/normalization-factory.ts:2261-2270 | a map of sources counted that way is exactly the map `CountedSources` gives |
| BatchSpec.MultiplicityPositive | composition/src/normalization/normalization-factory.ts:2261-2270 | a subgraph gives a path at least one source exactly when it overrides that path |
| BatchSpec.SourcesOfMembers | composition/src/normalization/normalization-factory.ts:2261-2270 | the sources of a path are the display names of exactly the subgraphs that override it |
| BatchSpec.SourcesOfTwoOverriders | composition/src/normalization/normalization-factory.ts:2261-2270 | a path two subgraphs override has at least two sources |
| BatchSpec.ExactSourcesStep | composition/src/normalization/normalization-factory.ts:2229-2272 | counting one more subgraph's overrides onto the exact sources of the subgraphs before it gives the exact sources including it |
| BatchSpec.InvalidPairsOfStep | composition/src/normalization/normalization-factory.ts:2233-2247 | the parent types overridden at unknown targets grow by exactly those of one more target, when that target is unknown |
| BatchSpec.WarnedStep | composition/src/normalization/normalization-factory.ts:2181-2247 | one more subgraph's own warnings, then one per parent type it overrides at an unknown target, keep the warning count exact and every warning traceable to a subgraph |
| Batch.TargetWarnedStep | composition/src/normalization/normalization-factory.ts:2239-2247 | one more parent type at an unknown target adds exactly its warning, and nothing at a known target |
| Batch.WarnedTargetStep | composition/src/normalization/normalization-factory.ts:2233-2247 | one more target adds exactly one warning per parent type when it is unknown, and none when it is known |
| Batch.SourcesLoopStep | composition/src/normalization/normalization-factory.ts:2261-2270 | recording one parent type's field paths keeps the sources consistent and counted |
| Batch.DuplicatesOfBatch | composition/src/normalization/normalization-factory.ts:2261-2290 | the duplicates reported are exactly the paths with two or more sources, with those sources |
| Batch.RecordSubgraphNames | composition/src/normalization/normalization-factory.ts:2163-2167 | the names and non-unique names of the batch |
| Batch.MergeAuthorization | composition/src/normalization/normalization-factory.ts:2194-2196 | authorization is merged along some enumeration of the subgraph's records |
| Batch.MergeConcreteTypes | composition/src/normalization/normalization-factory.ts:2197-2207 | concrete types are united per abstract type |
| Batch.KeepInternal | composition/src/normalization/normalization-factory.ts:2211-2228 | a subgraph is kept exactly when it is named and normalized |
| Batch.RecordFieldSources | composition/src/normalization/normalization-factory.ts:2261-2270 | each overridden path gains the source, and paths already seen become duplicates |
| Batch.RecordTargetOverrides | composition/src/normalization/normalization-factory.ts:2233-2271 | for a known target every parent type's fields are accepted; for an unknown one exactly one warning is added per parent type, each for an override of this subgraph; every path gains the subgraph's name once per parent type naming it, and the sources stay consistent |
| Batch.RecordOverrides | composition/src/normalization/normalization-factory.ts:2229-2272 | every override of a subgraph is accepted or warned about; the warnings added are exactly one per parent type at an unknown target; each path's sources become its prior ones followed by the subgraph's name once per (target, parent type) pair naming it |
| Batch.CollectSubgraph | composition/src/normalization/normalization-factory.ts:2169-2228 | one subgraph's name, warnings, validation error, concrete types, entities and internal record are collected; its authorization records are upserted, each once, in some order, and a failed subgraph contributes none |
| Batch.MergeNormalized | composition/src/normalization/normalization-factory.ts:2192-2228 | a normalized subgraph's authorization is upserted record by record in an order listing each parent type once, with the flagged host paths added; its concrete types, entities and internal record are merged; nothing else changes |
| Batch.AuthorizedStep | composition/src/normalization/normalization-factory.ts:2169-2196 | the batch authorization and OR-scopes set stay the fold over the subgraphs merged so far |
| Batch.NothingOverridden | composition/src/normalization/normalization-factory.ts:2229-2231 | a subgraph without overrides keeps the override invariant and adds no warning |
| Batch.OverrideSubgraph | composition/src/normalization/normalization-factory.ts:2229-2272 | keeps the override invariant over one more subgraph |
| Batch.MergeSubgraph | composition/src/normalization/normalization-factory.ts:2169-2273 | keeps the merge invariant over one more subgraph |
| Batch.MergeAll | composition/src/normalization/normalization-factory.ts:2169-2273 | the merge invariant holds over all subgraphs, the authorization included; with upserts that never flag a path the OR-scopes set is empty |
| Batch.SubtractOverriddenFields | composition/src/normalization/normalization-factory.ts:2312-2321 | the loop removes overridden fields and drops emptied records |
| Batch.ApplyOverrides | composition/src/normalization/normalization-factory.ts:2305-2322 | each target subgraph carries its accepted overrides, and no other subgraph changes |
| Batch.DuplicateSources | composition/src/normalization/normalization-factory.ts:2282-2290 | the sources of exactly the duplicate paths |
| Batch.GatherErrors | composition/src/normalization/normalization-factory.ts:2274-2293 | the errors in order: scopes limit, names, duplicate overrides, validation errors, each only when present |
| Batch.OverridesAppliedHold | composition/src/normalization/normalization-factory.ts:2305-2322 | with unique names every named normalized subgraph carries exactly the overrides accepted for it |
| Batch.BatchNormalize | composition/src/normalization/normalization-factory.ts:2147-2332 | the error list in order; a path is reported as a duplicate exactly when the subgraphs overriding it give it two or more sources, and with exactly those sources in batch order; any path overridden by two subgraphs is a duplicate; the authorization and the OR-scopes set reported are the fold of every subgraph's upserts in batch order, each subgraph's records in an order listing each parent type once; concrete types and entities merged; every warning of every subgraph and one per parent type overridden at an unknown target are given, every warning given is one of those, and there are as many as the subgraphs' own warnings plus the parent types overridden at unknown targets; with no error the overrides are applied |

## Left out

- The AST walkers that fill the symbol table before the final phase (`upsertDirectiveSchemaAndEntityDefinitions`, `upsertParentsAndChildren`, `consolidateAuthorizationDirectives`). They are not part of this model: the upsert methods are modelled, and `Normalize` starts from a populated table.
- Directive validation (`getDirectiveValidationErrors`) and the directive-definition catalogues are a predicate in `External`. So are `isTypeValidImplementation`, `validateKeyFieldSets`, `validateAndAddConditionalFieldSetsToConfiguration`, `validateArgumentTemplateReferences`, `upsertFieldAuthorizationData`, `mergeAuthorizationDataByAND`, `isNodeQuery` and the configuration field-name helper. Their bodies are not part of this model. The constants `BASE_SCALARS` and `IGNORED_PARENT_DIRECTIVES` are not visible either, so they are `External` fields too.
- AST rebuilding and printing (`get*NodeByData`, `print`, `buildASTSchema`) and the persisted executable-directive definitions are left out, so the result omits `subgraphAST`, `subgraphString`, `schema` and persisted directives. Printed-type comparison is structural equality on the `TypeNode` datatype.
- The errors those left-out helpers may append are not modelled either. `getSchemaNodeByData`, `getEnumNodeByData`, `getInputObjectNodeByData`, `getCompositeOutputNodeByData`, `getScalarNodeByData` and `getUnionNodeByData` all receive the factory's error list (lines 1888, 1899-1904, 1913-1918, 1979-1984, 1997 and 2002). So does `addPersistedDirectiveDefinitionDataByNode` in the persisted-definition loop (lines 2083-2101). Their errors count in the test at line 2113, so a subgraph the model normalizes can still fail in the program.
- Factory.NormalizationFactory.Normalize: "a result exactly when no error was recorded" holds for the errors the model records. It does not cover the errors of the AST-rebuilding and persisted-definition helpers above, so the model's outcome is the program's only when those helpers add none.
- The resolvability `Graph` is a set of abstract-to-concrete edges.
- Error and warning message text is left out; errors and warnings are kinds with their data.
- `STREAM_CONFIGURATION_FIELD_NAMES` (imported at line 187) is defined in the composer's constant modules, which are not part of this model. `Model.StreamConfigurationFieldNames` takes `{consumerName, streamName}`, the two fields the switch at lines 1367-1372 reads.
- The limit `maxOrScopes` (imported at line 78) and `DEFAULT_EDFS_PROVIDER_ID` (imported at line 151) are defined in the composer's constant modules, which are not part of this model. `Model.MaxOrScopes` takes the value 16 and `Model.DefaultEdfsProviderId` the value `"default"`, as those modules define them. No lemma depends on either value.
- `formatDescription` is left out; descriptions are plain strings.
- Base, V2 and subscription-filter directive definitions (lines 1854-1890) are left out. They add definitions to the rebuilt AST. The V2 and subscription-filter definitions are also written to `directiveDefinitionByDirectiveName` (lines 1862 and 1877), which only the left-out node builders and the persisted-definition loop at line 2083 read.
- Conditional field data by coordinates, entity data contents and `originalTypeNameByRenamedTypeName` are carried as given, not computed.
- JavaScript `Map` and `Set` iteration order is not modelled: loops over sets state their effect for some enumeration of the set.
- In-place aliasing is not modelled: `batchNormalize` shares `ConfigurationData` objects between a subgraph's result and the batch, and the model copies values instead.
- The `subgraph-<i>-<Date.now()>` fallback name is nondeterministic; unnamed subgraphs are reported by index (`BatchSpec.UnnamedIndices`).
- `normalizeSubgraph` is an input: each `Subgraph` carries its normalization outcome.
- The `subgraphValidationFailureError` branch (lines 2187-2190) cannot be reached in the model, because an outcome is either a result or a list of errors.
- `upsertAuthorizationData` is a function parameter of `Batch.BatchNormalize`, and `upsertEntityData` is modelled as a union of entity names.
- `recordSubgraphName`'s body is not visible; a name is non-unique when it was seen before.
- `parentDefinitionDataMapsBySubgraphName` is written but never read, so it is left out.
- Factory.NormalizationFactory.InheritFieldAuthorization: does not state the content of the upserted field records, because `upsertFieldAuthorizationData` is external.
- Factory.NormalizationFactory.AssembleTypes: states the stripped table and the configuration records, but for errors and warnings only that they grow.
- Factory.NormalizationFactory.AssembleCompositeType: states the configuration record's presence, and for errors and warnings only growth.
- Factory.NormalizationFactory.CloseCompositeType: states only the missing-fields error, not the implementation errors it also adds.
- Factory.NormalizationFactory.ValidateOperationTypes: states only that configuration records keep their names; the per-operation behaviour is in `ValidateOperationType`.
- Factory.NormalizationFactory.ValidateReferences: states only that composite types stay configured; the errors are stated by the three methods it calls.
- Factory.NormalizationFactory.CloseNormalization: states only the event-driven flag; its errors are stated by the methods it calls.
- Factory.NormalizationFactory.ConsolidateAuthorization: states the limit error and that flagged paths only grow; the propagated records are stated by `PropagateInterfaceAuthorization` and `ApplyHeirFieldAuthorization`.
- Factory.NormalizationFactory.AssembleAndResolveOperationTypes: states the stripped table and the configuration of composite types, not the errors of the operation-type checks.
- Factory.NormalizationFactory.CheckEventDrivenGraph: states the event-driven flag and that errors only grow; the errors are stated by `ValidateEventDrivenSubgraph`.
- Factory.NormalizationFactory.ValidateFieldArguments: states that invalid-argument errors are reported, not the undefined-type errors.

## Findings

| source | as written | input that shows it | evidently intended | confidence | as-written member | corrected member |
|---|---|---|---|---|---|---|
| composition/src/normalization/normalization-factory.ts:2059 | `!implementationTypeNames \|\| implementationTypeNames.size < 0`; a set's size is never negative, so only an absent entry triggers the warning | an interface `Node` whose entry in `concreteTypeNamesByAbstractTypeName` is an empty set: it has no implementation, but no warning is given | warn whenever the interface has no concrete type (`size < 1`); the factory model keeps the guard as written, and `NormalizeSpec.ReferencedTypeWarningsReport` shows its warnings are a subset of the intended ones | not executed | NormalizeSpec.AsWrittenMissesEmptyImplementations | NormalizeSpec.HasNoImplementationsIff |
