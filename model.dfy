/**
 * The symbol-table entries, configuration records, error kinds and external
 * collaborators of the normalization core.
 */
module Model {
  import opened Ast

  // Directive, argument and type names the core compares against.
  const ExtendsDirective := "extends"
  const KeyDirective := "key"
  const InaccessibleDirective := "inaccessible"
  const OverrideDirective := "override"
  const AuthenticatedDirective := "authenticated"
  const RequiresScopesDirective := "requiresScopes"
  const ScopesArgument := "scopes"
  const FieldsArgument := "fields"
  const ResolvableArgument := "resolvable"
  const TopicArgument := "topic"
  const TopicsArgument := "topics"
  const SubjectArgument := "subject"
  const SubjectsArgument := "subjects"
  const ProviderIdArgument := "providerId"
  const StreamConfigurationArgument := "streamConfiguration"
  const ConsumerNameField := "consumerName"
  const StreamNameField := "streamName"
  const SuccessField := "success"
  /** The provider id an event directive gets when it names none; the composer's own string constant. */
  const DefaultEdfsProviderId := "default"
  const QueryTypeName := "Query"
  const MutationTypeName := "Mutation"
  const SubscriptionTypeName := "Subscription"
  const EdfsKafkaPublish := "edfs__kafkaPublish"
  const EdfsKafkaSubscribe := "edfs__kafkaSubscribe"
  const EdfsNatsPublish := "edfs__natsPublish"
  const EdfsNatsRequest := "edfs__natsRequest"
  const EdfsNatsSubscribe := "edfs__natsSubscribe"
  const EdfsPublishResult := "edfs__PublishResult"
  const EdfsNatsStreamConfiguration := "edfs__NatsStreamConfiguration"
  const SubscriptionFilterDirective := "openfed__subscriptionFilter"
  const ServiceField := "_service"
  const EntitiesField := "_entities"

  /** The largest number of OR-groups a `@requiresScopes` may list; the composer's own integer constant. */
  const MaxOrScopes: nat := 16

  const RootTypeNames: set<string> := {QueryTypeName, MutationTypeName, SubscriptionTypeName}
  const EventDirectiveNames: set<string> :=
    {EdfsKafkaPublish, EdfsKafkaSubscribe, EdfsNatsPublish, EdfsNatsRequest, EdfsNatsSubscribe}
  /** The fields a `streamConfiguration` input may hold; the composer's own constant, matching the fields the validator reads. */
  const StreamConfigurationFieldNames: set<string> := {ConsumerNameField, StreamNameField}

  /**
   * REAL: declared with the `extend` keyword. EXTENDS: a V1 definition carrying `@extends`,
   * an extension across subgraphs. NONE: a base definition.
   */
  datatype ExtensionType = Real | Extends | NoExtension

  /** A host path: a type, or a child (field, argument, enum value) of a type. */
  datatype Path = TypePath(typeName: string) | ChildPath(typeName: string, childName: string)

  type DirectiveMap = map<string, seq<Directive>>

  datatype InputValueData = InputValueData(name: string, typ: TypeNode)

  datatype FieldData = FieldData(
    name: string,
    originalParentTypeName: string,
    typ: TypeNode,
    directives: DirectiveMap,
    arguments: map<string, InputValueData>,
    isInaccessible: bool,
    isExternalBySubgraphName: map<string, bool>)
  {
    function NamedTypeName(): string { Ast.NamedTypeName(typ) }
    predicate IsExternalIn(subgraphName: string) {
      subgraphName in isExternalBySubgraphName && isExternalBySubgraphName[subgraphName]
    }
  }

  /** One named type, accumulated over all its definitions and extensions in a subgraph. */
  datatype ParentData =
    | ObjectData(name: string, extensionType: ExtensionType, directives: DirectiveMap,
                 fields: map<string, FieldData>, implementedInterfaces: set<string>,
                 isEntity: bool, isInaccessible: bool, isRootType: bool, renamedTypeName: string,
                 subgraphNames: set<string>, description: string)
    | InterfaceData(name: string, extensionType: ExtensionType, directives: DirectiveMap,
                    fields: map<string, FieldData>, implementedInterfaces: set<string>,
                    isEntity: bool, isInaccessible: bool,
                    subgraphNames: set<string>, description: string)
    | EnumData(name: string, extensionType: ExtensionType, directives: DirectiveMap,
               enumValues: set<string>, appearances: nat, description: string)
    | InputObjectData(name: string, extensionType: ExtensionType, directives: DirectiveMap,
                      inputValues: map<string, InputValueData>, isInaccessible: bool,
                      subgraphNames: set<string>, description: string)
    | ScalarData(name: string, extensionType: ExtensionType, directives: DirectiveMap, description: string)
    | UnionData(name: string, extensionType: ExtensionType, directives: DirectiveMap,
                members: set<string>, description: string)
  {
    function Kind(): Kind {
      match this
      case ObjectData(_, _, _, _, _, _, _, _, _, _, _) => ObjectKind
      case InterfaceData(_, _, _, _, _, _, _, _, _) => InterfaceKind
      case EnumData(_, _, _, _, _, _) => EnumKind
      case InputObjectData(_, _, _, _, _, _, _) => InputObjectKind
      case ScalarData(_, _, _, _) => ScalarKind
      case UnionData(_, _, _, _, _) => UnionKind
    }
    predicate IsComposite() { ObjectData? || InterfaceData? }
  }

  /** An authorization requirement: authentication, and an OR-list of AND-sets of scopes. */
  datatype FieldAuthorizationData = FieldAuthorizationData(
    fieldName: string, requiresAuthentication: bool, requiredScopes: seq<set<string>>)

  datatype AuthorizationData = AuthorizationData(
    typeName: string,
    requiresAuthentication: bool,
    requiredScopes: seq<set<string>>,
    hasParentLevelAuthorization: bool,
    fieldAuthorization: map<string, FieldAuthorizationData>)

  function NewAuthorizationData(typeName: string): AuthorizationData {
    AuthorizationData(typeName, false, [], false, map[])
  }

  datatype StreamConfiguration = StreamConfiguration(consumerName: string, streamName: string)

  datatype EventType = Publish | Request | Subscribe

  /** One publish/subscribe/request binding of a root field. */
  datatype EventConfiguration =
    | KafkaEventConfiguration(fieldName: string, providerId: string, topics: seq<string>, eventType: EventType)
    | NatsEventConfiguration(fieldName: string, providerId: string, subjects: seq<string>, eventType: EventType,
                             streamConfiguration: Option<StreamConfiguration>)

  /** Messages gathered while reading the arguments of one event directive. */
  datatype EventMessage =
    | InvalidEventSubject(argumentName: string)
    | InvalidEventSubjects(argumentName: string)
    | InvalidEventSubjectsItem(argumentName: string)
    | InvalidEventProviderId
    | InvalidNatsStreamInput
    | InvalidNatsStreamInputFields(missing: set<string>, duplicate: set<string>,
                                   invalidRequired: set<string>, invalid: set<string>)
    | InvalidArgumentTemplateReference(template: string)

  /**
   * Messages of the single aggregated event-driven-graph error. Field-level findings are
   * grouped by type name, then by field name.
   */
  datatype EventGraphMessage =
    | InvalidEdfsPublishResultObject
    | UndefinedNatsStreamConfigurationInput
    | InvalidNatsStreamConfigurationDefinition
    | InvalidRootTypeFieldEventsDirectives(directivesByTypeName: map<string, map<string, InvalidEventsDirectiveData>>)
    | InvalidEventDrivenMutationResponseType(responseTypesByTypeName: map<string, map<string, TypeNode>>)
    | InvalidRootTypeFieldResponseTypes(responseTypesByTypeName: map<string, map<string, TypeNode>>)
    | InvalidKeyFieldSets(keyFieldSetsByTypeName: map<string, set<string>>)
    | NonExternalKeyFieldNames(fieldNamesByTypeName: map<string, set<string>>)
    | NonKeyFieldNames(fieldNamesByTypeName: map<string, set<string>>)
    | NonKeyComposingObjectTypeNames(typeNames: set<string>)

  datatype InvalidEventsDirectiveData = InvalidEventsDirectiveData(definesDirectives: bool, invalidDirectiveNames: set<string>)

  datatype KeyMessage = UndefinedRequiredFieldsArgument | InvalidKeyDirectiveArgument

  datatype InvalidArgumentType = InvalidArgumentType(argumentName: string, expectedType: TypeNode, actualType: TypeNode)

  datatype InvalidFieldImplementation = InvalidFieldImplementation(
    invalidAdditionalArguments: set<string>,
    invalidImplementedArguments: set<InvalidArgumentType>,
    isInaccessible: bool,
    originalResponseType: TypeNode,
    implementedResponseType: Option<TypeNode>,
    unimplementedArguments: set<string>)

  datatype ImplementationErrors = ImplementationErrors(
    invalidFieldImplementations: map<string, InvalidFieldImplementation>,
    unimplementedFields: set<string>)

  datatype InvalidArgument = InvalidArgument(argumentName: string, namedType: string, kind: Kind, typ: TypeNode)

  /** A subgraph as named in a batch; an unnamed one is known by its position. */
  datatype SubgraphDisplayName = Named(name: string) | Unnamed(index: nat)

  datatype ErrorKind =
    | InvalidDirective(directiveName: string, hostPath: Path)
    | DuplicateTypeDefinition(kind: Kind, typeName: string)
    | MultipleNamedTypeDefinition(typeName: string, existingKind: Kind, incomingKind: Kind)
    | DuplicateImplementedInterface(kind: Kind, typeName: string, interfaceName: string)
    | DuplicateUnionMemberDefinition(unionName: string, memberName: string)
    | ExpectedEntity(typeName: string)
    | InvalidKeyDirectives(typeName: string, keyMessages: seq<KeyMessage>)
    | UndefinedType(typeName: string)
    | InvalidArguments(fieldPath: Path, invalidArguments: set<InvalidArgument>)
    | InvalidImplementedType(typeName: string, kindByTypeName: map<string, Kind>)
    | SelfImplementation(typeName: string)
    | InvalidInterfaceImplementation(typeName: string, kind: Kind, errorsByInterfaceName: map<string, ImplementationErrors>)
    | InvalidEventDirective(directiveName: string, fieldPath: Path, eventMessages: seq<EventMessage>)
    | InvalidRootType(typeName: string)
    | InvalidEventDrivenGraph(graphMessages: seq<EventGraphMessage>)
    | NoDefinedUnionMembers(unionName: string)
    | InvalidUnionMemberType(unionName: string, kindByMemberName: map<string, Kind>)
    | OrScopesLimit(maxOrScopes: nat, hostPaths: set<Path>)
    | NoDefinedEnumValues(typeName: string)
    | NoInputValueDefinitions(typeName: string)
    | NoFieldDefinitions(kind: Kind, typeName: string)
    | NoBaseScalarDefinition(typeName: string)
    | UndefinedObjectLikeParent(typeName: string)
    | ExternalInterfaceFields(typeName: string, fieldNames: set<string>)
    | InvalidExternalDirective(fieldPath: Path)
    | InvalidEdfsDirectiveName(directiveName: string)
    | InvalidSubscriptionFilterLocation(fieldPath: Path)
    | InvalidRootTypeDefinition(operation: OperationType, operationTypeName: string, defaultTypeName: string)
    | OperationDefinition(operationTypeName: string, operation: OperationType, actualKind: Kind)

  datatype Warning =
    | ExternalInterfaceFieldsWarning(subgraphName: string, typeName: string, fieldNames: set<string>)
    | UnimplementedInterfaceOutputType(subgraphName: string, typeName: string)
    | InvalidExternalField(fieldPath: Path, subgraphName: string)
    | InvalidOverrideTargetSubgraphName(targetSubgraphName: string, parentTypeName: string, fieldNames: set<string>,
                                        subgraphName: string)

  /**
   * Collaborators whose code is not part of this model, given to the factory as values:
   * the placeholder name of an unnamed subgraph, the base-scalar and ignored-directive
   * name sets, the directive-definition validator, the covariance check for implemented
   * field types, the argument-template checker, the field-set grammar validators (the key
   * validator also yields the router keys), the configured field names of a type, the
   * authorization merge helpers (which report only whether the merge succeeded) and the
   * test for a type that may stay without fields as the `Query` of a node-only subgraph.
   */
  datatype External = External(
    notApplicableName: string,
    baseScalars: set<string>,
    ignoredParentDirectives: set<string>,
    isDirectiveValid: (Directive, Location, DirectiveMap) -> bool,
    isTypeValidImplementation: (TypeNode, TypeNode, map<string, set<string>>) -> bool,
    argumentTemplateErrors: (string, set<string>) -> seq<EventMessage>,
    validateKeyFieldSets: (ParentData, map<string, bool>, set<string>) -> (seq<ErrorKind>, Option<set<string>>),
    conditionalFieldSetErrors: (ParentData, FieldSetData) -> seq<ErrorKind>,
    configurationFieldNames: map<string, FieldData> -> set<string>,
    upsertFieldAuthorizationData: (map<string, FieldAuthorizationData>, FieldAuthorizationData)
                                    -> (map<string, FieldAuthorizationData>, bool),
    mergeAuthorizationDataByAnd: (AuthorizationData, FieldAuthorizationData) -> (AuthorizationData, bool),
    isNodeQuery: (string, Option<OperationType>) -> bool)

  /** Raw `@provides`/`@requires` field sets of one type, by field name. */
  datatype FieldSetData = FieldSetData(providesByFieldName: map<string, string>, requiresByFieldName: map<string, string>)

  /** Router-facing summary of one object or interface type. */
  datatype ConfigurationData = ConfigurationData(
    typeName: string,
    fieldNames: set<string>,
    isRootNode: bool,
    events: seq<EventConfiguration>,
    keys: set<string>,
    isInterfaceObject: bool,
    entityInterfaceConcreteTypeNames: set<string>)

  /** What the factory records about an entity interface (or an `@interfaceObject`) of the subgraph. */
  datatype EntityInterfaceData = EntityInterfaceData(
    isInterfaceObject: bool, interfaceFieldNames: set<string>, interfaceObjectFieldNames: set<string>)
}
