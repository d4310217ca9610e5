/**
 * The rules an event-driven subgraph (one that uses the `edfs__` directives) must follow:
 * root fields carry valid event directives and return entities, every other object is an
 * entity whose keys are unresolvable and whose fields are exactly its external key fields,
 * and the two helper types, when present, have their fixed shapes.
 */
module EdfsValidation {
  import opened Ast
  import opened Model
  import RootTypes

  const BooleanTypeName := "Boolean"
  const StringTypeName := "String"
  /** `edfs__PublishResult!`, the only response type of an event-driven mutation field. */
  const PublishResultType := NonNullType(NamedType(EdfsPublishResult))

  // ----- the two helper types -----

  /**
   * `edfs__PublishResult`, when defined, is an object whose one field is `success: Boolean!`
   * without arguments.
   */
  function IsEdfsPublishResultValid(parents: map<string, ParentData>): (r: bool)
    ensures r <==> (EdfsPublishResult !in parents ||
      var data := parents[EdfsPublishResult];
      && data.ObjectData?
      && data.fields.Keys == {SuccessField}
      && data.fields[SuccessField].arguments == map[]
      && data.fields[SuccessField].typ == NonNullType(NamedType(BooleanTypeName)))
  {
    if EdfsPublishResult !in parents then true
    else
      var data := parents[EdfsPublishResult];
      if !data.ObjectData? then false
      else if |data.fields| != 1 then false
      else
        var ok := forall fieldName | fieldName in data.fields ::
          && data.fields[fieldName].arguments == map[]
          && fieldName == SuccessField
          && data.fields[fieldName].typ == NonNullType(NamedType(BooleanTypeName));
        SingleKey(data.fields);
        ok
  }

  /** A map with one entry has one key, which is the key of every entry. */
  lemma SingleKey<V>(m: map<string, V>)
    requires |m| == 1
    ensures exists k :: m.Keys == {k}
  {
    var k :| k in m;
    assert m.Keys == {k} by {
      if exists j :: j in m && j != k {
        var j :| j in m && j != k;
        assert {k, j} <= m.Keys;
        assert |{k, j}| == 2;
        SubsetCardinality({k, j}, m.Keys);
      }
    }
  }

  lemma SubsetCardinality<T>(a: set<T>, b: set<T>)
    requires a <= b
    ensures |a| <= |b|
  {
    assert b == a + (b - a);
  }

  /**
   * `edfs__NatsStreamConfiguration` is an input object with exactly the two input values
   * `consumerName: String!` and `streamName: String!`.
   */
  function IsNatsStreamConfigurationInputObjectValid(data: ParentData): (r: bool)
    ensures r <==>
      && data.InputObjectData?
      && data.inputValues.Keys == StreamConfigurationFieldNames
      && forall n :: n in data.inputValues ==> data.inputValues[n].typ == NonNullType(NamedType(StringTypeName))
  {
    if !data.InputObjectData? then false
    else if |data.inputValues| != 2 then false
    else
      && (forall n | n in data.inputValues ::
            n in StreamConfigurationFieldNames && data.inputValues[n].typ == NonNullType(NamedType(StringTypeName)))
      && StreamConfigurationFieldNames <= data.inputValues.Keys
  }

  // ----- root fields -----

  /** The event directives a field carries. */
  function DefinedEventDirectiveNames(field: FieldData): set<string> {
    set n | n in EventDirectiveNames && n in field.directives
  }

  /** A root field of an event-driven subgraph needs an event directive, and only ones its operation admits. */
  predicate HasInvalidEventDirectives(field: FieldData, operation: OperationType) {
    var defined := DefinedEventDirectiveNames(field);
    defined == {} || !(defined <= RootTypes.GetValidEventsDirectiveNamesForOperationTypeNode(operation))
  }

  function EventsDirectiveData(field: FieldData, operation: OperationType): InvalidEventsDirectiveData {
    var defined := DefinedEventDirectiveNames(field);
    InvalidEventsDirectiveData(defined != {},
                               defined - RootTypes.GetValidEventsDirectiveNamesForOperationTypeNode(operation))
  }

  /** The concrete types a field's named type stands for: its recorded ones, or the type itself. */
  function ConcreteOrSelf(typeName: string, concreteTypeNames: map<string, set<string>>): set<string> {
    if typeName in concreteTypeNames then concreteTypeNames[typeName] else {typeName}
  }

  /**
   * A query or subscription field returns `Named!` (printed exactly so; a list fails) where
   * the named type is, or stands for, at least one entity.
   */
  predicate IsValidRootResponseType(field: FieldData, concreteTypeNames: map<string, set<string>>,
                                    entityTypeNames: set<string>)
  {
    && (exists c :: c in ConcreteOrSelf(field.NamedTypeName(), concreteTypeNames) && c in entityTypeNames)
    && field.typ == NonNullType(NamedType(field.NamedTypeName()))
  }

  function RootEventsDirectiveErrors(fields: map<string, FieldData>, names: set<string>, operation: OperationType)
    : map<string, InvalidEventsDirectiveData>
  {
    map f | f in names && f in fields && HasInvalidEventDirectives(fields[f], operation) :: EventsDirectiveData(fields[f], operation)
  }

  function MutationResponseTypeErrors(fields: map<string, FieldData>, names: set<string>): map<string, TypeNode> {
    map f | f in names && f in fields && fields[f].typ != PublishResultType :: fields[f].typ
  }

  function RootResponseTypeErrors(fields: map<string, FieldData>, names: set<string>,
                                  concreteTypeNames: map<string, set<string>>, entityTypeNames: set<string>)
    : map<string, TypeNode>
  {
    map f | f in names && f in fields && !IsValidRootResponseType(fields[f], concreteTypeNames, entityTypeNames) :: fields[f].typ
  }

  /** What one root type contributes, for the fields among `names` already checked. */
  datatype RootFindings = RootFindings(
    eventsDirectives: map<string, InvalidEventsDirectiveData>,
    mutationResponseTypes: map<string, TypeNode>,
    responseTypes: map<string, TypeNode>)

  function RootFindingsOf(fields: map<string, FieldData>, names: set<string>, operation: OperationType,
                          concreteTypeNames: map<string, set<string>>, entityTypeNames: set<string>): RootFindings
  {
    RootFindings(
      RootEventsDirectiveErrors(fields, names, operation),
      if operation == Mutation then MutationResponseTypeErrors(fields, names) else map[],
      if operation == Mutation then map[] else RootResponseTypeErrors(fields, names, concreteTypeNames, entityTypeNames))
  }

  lemma RootFindingsStep(fields: map<string, FieldData>, names: set<string>, f: string, operation: OperationType,
                         concreteTypeNames: map<string, set<string>>, entityTypeNames: set<string>)
    requires f in fields
    ensures var before := RootFindingsOf(fields, names, operation, concreteTypeNames, entityTypeNames);
            var field := fields[f];
      RootFindingsOf(fields, names + {f}, operation, concreteTypeNames, entityTypeNames) ==
        RootFindings(
          if HasInvalidEventDirectives(field, operation) then before.eventsDirectives[f := EventsDirectiveData(field, operation)]
          else before.eventsDirectives,
          if operation == Mutation && field.typ != PublishResultType then before.mutationResponseTypes[f := field.typ]
          else before.mutationResponseTypes,
          if operation != Mutation && !IsValidRootResponseType(field, concreteTypeNames, entityTypeNames)
          then before.responseTypes[f := field.typ]
          else before.responseTypes)
  {
    EventsDirectiveErrorsStep(fields, names, f, operation);
    MutationResponseTypeErrorsStep(fields, names, f);
    RootResponseTypeErrorsStep(fields, names, f, concreteTypeNames, entityTypeNames);
  }

  lemma EventsDirectiveErrorsStep(fields: map<string, FieldData>, names: set<string>, f: string, operation: OperationType)
    requires f in fields
    ensures RootEventsDirectiveErrors(fields, names + {f}, operation) ==
      if HasInvalidEventDirectives(fields[f], operation)
      then RootEventsDirectiveErrors(fields, names, operation)[f := EventsDirectiveData(fields[f], operation)]
      else RootEventsDirectiveErrors(fields, names, operation)
  {
  }

  lemma MutationResponseTypeErrorsStep(fields: map<string, FieldData>, names: set<string>, f: string)
    requires f in fields
    ensures MutationResponseTypeErrors(fields, names + {f}) ==
      if fields[f].typ != PublishResultType then MutationResponseTypeErrors(fields, names)[f := fields[f].typ]
      else MutationResponseTypeErrors(fields, names)
  {
  }

  lemma RootResponseTypeErrorsStep(fields: map<string, FieldData>, names: set<string>, f: string,
                                   concreteTypeNames: map<string, set<string>>, entityTypeNames: set<string>)
    requires f in fields
    ensures RootResponseTypeErrors(fields, names + {f}, concreteTypeNames, entityTypeNames) ==
      if !IsValidRootResponseType(fields[f], concreteTypeNames, entityTypeNames)
      then RootResponseTypeErrors(fields, names, concreteTypeNames, entityTypeNames)[f := fields[f].typ]
      else RootResponseTypeErrors(fields, names, concreteTypeNames, entityTypeNames)
  {
  }

  // ----- entities -----

  /** The key field sets of an entity that are not marked `resolvable: false`. */
  function ResolvableKeyFieldSets(unresolvableByFieldSet: map<string, bool>): set<string> {
    set k | k in unresolvableByFieldSet && !unresolvableByFieldSet[k]
  }

  /** The key fields among `names` that are not `@external` in this subgraph. */
  function NonExternalKeyFields(fields: map<string, FieldData>, names: set<string>, keyFieldNames: set<string>,
                                subgraphName: string): set<string>
  {
    set f | f in names && f in fields && f in keyFieldNames && !fields[f].IsExternalIn(subgraphName)
  }

  /** The fields among `names` that are not key fields. */
  function NonKeyFields(fields: map<string, FieldData>, names: set<string>, keyFieldNames: set<string>): set<string> {
    set f | f in names && f in fields && f !in keyFieldNames
  }

  // ----- the whole subgraph -----

  /** The parts of the factory's state the event-driven rules read. */
  datatype EdfsContext = EdfsContext(
    parents: map<string, ParentData>,
    operationTypes: map<string, OperationType>,
    concreteTypeNames: map<string, set<string>>,
    entityTypeNames: set<string>,
    keyFieldNamesByTypeName: map<string, set<string>>,
    keyFieldSetsByTypeName: map<string, map<string, bool>>,
    subgraphName: string)

  /** The objects the rules apply to: every object but the two helper types. */
  predicate IsChecked(ctx: EdfsContext, t: string) {
    t in ctx.parents && t != EdfsPublishResult && t != EdfsNatsStreamConfiguration && ctx.parents[t].ObjectData?
  }

  predicate IsCheckedRoot(ctx: EdfsContext, t: string) {
    IsChecked(ctx, t) && ctx.parents[t].isRootType
  }

  predicate IsCheckedEntity(ctx: EdfsContext, t: string) {
    IsChecked(ctx, t) && !ctx.parents[t].isRootType && t in ctx.keyFieldNamesByTypeName
  }

  function Operation(ctx: EdfsContext, t: string): Option<OperationType> {
    RootTypes.GetOperationTypeNodeForRootTypeName(ctx.operationTypes, t)
  }

  /** The findings of a root type with a known operation; nothing for any other name. */
  function RootFindingsFor(ctx: EdfsContext, t: string): RootFindings {
    if IsCheckedRoot(ctx, t) && Operation(ctx, t).Some? then
      var fields := ctx.parents[t].fields;
      RootFindingsOf(fields, fields.Keys, Operation(ctx, t).value, ctx.concreteTypeNames, ctx.entityTypeNames)
    else RootFindings(map[], map[], map[])
  }

  /** The resolvable key field sets of an entity; nothing for any other name. */
  function KeyFieldSetsOf(ctx: EdfsContext, t: string): set<string> {
    if IsCheckedEntity(ctx, t) && t in ctx.keyFieldSetsByTypeName then ResolvableKeyFieldSets(ctx.keyFieldSetsByTypeName[t])
    else {}
  }

  /** The key fields of an entity that are not external; nothing for any other name. */
  function NonExternalKeyFieldsFor(ctx: EdfsContext, t: string): set<string> {
    if IsCheckedEntity(ctx, t) then
      var fields := ctx.parents[t].fields;
      NonExternalKeyFields(fields, fields.Keys, ctx.keyFieldNamesByTypeName[t], ctx.subgraphName)
    else {}
  }

  /** The fields of an entity outside its keys; nothing for any other name. */
  function NonKeyFieldsFor(ctx: EdfsContext, t: string): set<string> {
    if IsCheckedEntity(ctx, t) then
      var fields := ctx.parents[t].fields;
      NonKeyFields(fields, fields.Keys, ctx.keyFieldNamesByTypeName[t])
    else {}
  }

  /** Everything the subgraph-level rules collect, grouped by type name. */
  datatype EdfsFindings = EdfsFindings(
    eventsDirectives: map<string, map<string, InvalidEventsDirectiveData>>,
    mutationResponseTypes: map<string, map<string, TypeNode>>,
    responseTypes: map<string, map<string, TypeNode>>,
    keyFieldSets: map<string, set<string>>,
    nonExternalKeyFields: map<string, set<string>>,
    nonKeyFields: map<string, set<string>>,
    nonKeyComposingTypeNames: set<string>)

  predicate HasOperation(ctx: EdfsContext, t: string) {
    IsCheckedRoot(ctx, t) && Operation(ctx, t).Some?
  }

  predicate IsNonKeyComposing(ctx: EdfsContext, t: string) {
    IsChecked(ctx, t) && !ctx.parents[t].isRootType && t !in ctx.keyFieldNamesByTypeName
  }

  // Each group of findings over the type names in `done`; a type appears only with something to report.

  /** The names among `done` whose value is not `empty`, with their values. */
  function NonEmptyValues<V(==)>(done: set<string>, value: string -> V, empty: V): map<string, V> {
    map t | t in done && value(t) != empty :: value(t)
  }

  lemma NonEmptyValuesStep<V>(done: set<string>, t: string, value: string -> V, empty: V)
    ensures NonEmptyValues(done + {t}, value, empty) ==
      if value(t) != empty then NonEmptyValues(done, value, empty)[t := value(t)] else NonEmptyValues(done, value, empty)
  {
  }

  function EventsDirectivesOf(ctx: EdfsContext, done: set<string>): map<string, map<string, InvalidEventsDirectiveData>> {
    NonEmptyValues(done, t => RootFindingsFor(ctx, t).eventsDirectives, map[])
  }

  function MutationResponseTypesOf(ctx: EdfsContext, done: set<string>): map<string, map<string, TypeNode>> {
    NonEmptyValues(done, t => RootFindingsFor(ctx, t).mutationResponseTypes, map[])
  }

  function ResponseTypesOf(ctx: EdfsContext, done: set<string>): map<string, map<string, TypeNode>> {
    NonEmptyValues(done, t => RootFindingsFor(ctx, t).responseTypes, map[])
  }

  function KeyFieldSetsByTypeOf(ctx: EdfsContext, done: set<string>): map<string, set<string>> {
    NonEmptyValues(done, t => KeyFieldSetsOf(ctx, t), {})
  }

  function NonExternalKeyFieldsOf(ctx: EdfsContext, done: set<string>): map<string, set<string>> {
    NonEmptyValues(done, t => NonExternalKeyFieldsFor(ctx, t), {})
  }

  function NonKeyFieldsOf(ctx: EdfsContext, done: set<string>): map<string, set<string>> {
    NonEmptyValues(done, t => NonKeyFieldsFor(ctx, t), {})
  }

  /** The names among `done` that satisfy `p`. */
  function Satisfying(done: set<string>, p: string -> bool): set<string> {
    set t | t in done && p(t)
  }

  lemma SatisfyingStep(done: set<string>, t: string, p: string -> bool)
    ensures Satisfying(done + {t}, p) == if p(t) then Satisfying(done, p) + {t} else Satisfying(done, p)
  {
  }

  function NonKeyComposingOf(ctx: EdfsContext, done: set<string>): set<string> {
    Satisfying(done, t => IsNonKeyComposing(ctx, t))
  }

  function FindingsOf(ctx: EdfsContext, done: set<string>): EdfsFindings {
    EdfsFindings(EventsDirectivesOf(ctx, done), MutationResponseTypesOf(ctx, done), ResponseTypesOf(ctx, done),
                 KeyFieldSetsByTypeOf(ctx, done), NonExternalKeyFieldsOf(ctx, done), NonKeyFieldsOf(ctx, done),
                 NonKeyComposingOf(ctx, done))
  }

  /** What one type contributes to the findings. */
  datatype TypeFindings = TypeFindings(
    root: RootFindings,
    keyFieldSets: set<string>,
    nonExternalKeyFields: set<string>,
    nonKeyFields: set<string>,
    isNonKeyComposing: bool)

  function TypeFindingsOf(ctx: EdfsContext, t: string): TypeFindings {
    TypeFindings(RootFindingsFor(ctx, t), KeyFieldSetsOf(ctx, t), NonExternalKeyFieldsFor(ctx, t), NonKeyFieldsFor(ctx, t),
                 IsNonKeyComposing(ctx, t))
  }

  /** Records what type `t` contributes: each non-empty part under the type's name. */
  function AddTypeFindings(f: EdfsFindings, t: string, tf: TypeFindings): EdfsFindings {
    EdfsFindings(
      if tf.root.eventsDirectives != map[] then f.eventsDirectives[t := tf.root.eventsDirectives] else f.eventsDirectives,
      if tf.root.mutationResponseTypes != map[] then f.mutationResponseTypes[t := tf.root.mutationResponseTypes]
      else f.mutationResponseTypes,
      if tf.root.responseTypes != map[] then f.responseTypes[t := tf.root.responseTypes] else f.responseTypes,
      if tf.keyFieldSets != {} then f.keyFieldSets[t := tf.keyFieldSets] else f.keyFieldSets,
      if tf.nonExternalKeyFields != {} then f.nonExternalKeyFields[t := tf.nonExternalKeyFields] else f.nonExternalKeyFields,
      if tf.nonKeyFields != {} then f.nonKeyFields[t := tf.nonKeyFields] else f.nonKeyFields,
      if tf.isNonKeyComposing then f.nonKeyComposingTypeNames + {t} else f.nonKeyComposingTypeNames)
  }

  /** The root types among `done` whose operation cannot be told: each is reported on its own. */
  function UnknownRootTypes(ctx: EdfsContext, done: set<string>): set<string> {
    Satisfying(done, t => IsCheckedRoot(ctx, t) && Operation(ctx, t).None?)
  }

  lemma RootGroupsStep(ctx: EdfsContext, done: set<string>, t: string)
    ensures var r := RootFindingsFor(ctx, t);
      && EventsDirectivesOf(ctx, done + {t}) ==
           (if r.eventsDirectives != map[] then EventsDirectivesOf(ctx, done)[t := r.eventsDirectives]
            else EventsDirectivesOf(ctx, done))
      && MutationResponseTypesOf(ctx, done + {t}) ==
           (if r.mutationResponseTypes != map[] then MutationResponseTypesOf(ctx, done)[t := r.mutationResponseTypes]
            else MutationResponseTypesOf(ctx, done))
      && ResponseTypesOf(ctx, done + {t}) ==
           (if r.responseTypes != map[] then ResponseTypesOf(ctx, done)[t := r.responseTypes]
            else ResponseTypesOf(ctx, done))
  {
    NonEmptyValuesStep(done, t, t => RootFindingsFor(ctx, t).eventsDirectives, map[]);
    NonEmptyValuesStep(done, t, t => RootFindingsFor(ctx, t).mutationResponseTypes, map[]);
    NonEmptyValuesStep(done, t, t => RootFindingsFor(ctx, t).responseTypes, map[]);
  }

  lemma EntityGroupsStep(ctx: EdfsContext, done: set<string>, t: string)
    ensures KeyFieldSetsByTypeOf(ctx, done + {t}) ==
      (if KeyFieldSetsOf(ctx, t) != {} then KeyFieldSetsByTypeOf(ctx, done)[t := KeyFieldSetsOf(ctx, t)]
       else KeyFieldSetsByTypeOf(ctx, done))
    ensures NonExternalKeyFieldsOf(ctx, done + {t}) ==
      (if NonExternalKeyFieldsFor(ctx, t) != {} then NonExternalKeyFieldsOf(ctx, done)[t := NonExternalKeyFieldsFor(ctx, t)]
       else NonExternalKeyFieldsOf(ctx, done))
    ensures NonKeyFieldsOf(ctx, done + {t}) ==
      (if NonKeyFieldsFor(ctx, t) != {} then NonKeyFieldsOf(ctx, done)[t := NonKeyFieldsFor(ctx, t)]
       else NonKeyFieldsOf(ctx, done))
    ensures NonKeyComposingOf(ctx, done + {t}) ==
      if IsNonKeyComposing(ctx, t) then NonKeyComposingOf(ctx, done) + {t} else NonKeyComposingOf(ctx, done)
  {
    NonEmptyValuesStep(done, t, t => KeyFieldSetsOf(ctx, t), {});
    NonEmptyValuesStep(done, t, t => NonExternalKeyFieldsFor(ctx, t), {});
    NonEmptyValuesStep(done, t, t => NonKeyFieldsFor(ctx, t), {});
    SatisfyingStep(done, t, t => IsNonKeyComposing(ctx, t));
  }

  lemma FindingsStep(ctx: EdfsContext, done: set<string>, t: string)
    ensures FindingsOf(ctx, done + {t}) == AddTypeFindings(FindingsOf(ctx, done), t, TypeFindingsOf(ctx, t))
  {
    RootGroupsStep(ctx, done, t);
    EntityGroupsStep(ctx, done, t);
  }

  lemma UnknownRootTypesStep(ctx: EdfsContext, done: set<string>, t: string)
    ensures UnknownRootTypes(ctx, done + {t}) ==
      if IsCheckedRoot(ctx, t) && Operation(ctx, t).None? then UnknownRootTypes(ctx, done) + {t}
      else UnknownRootTypes(ctx, done)
  {
    SatisfyingStep(done, t, t => IsCheckedRoot(ctx, t) && Operation(ctx, t).None?);
  }

  /** The messages about the stream-configuration input, which matters only once `@edfs__natsSubscribe` is used. */
  function StreamConfigurationMessages(parents: map<string, ParentData>, edfsDirectiveReferences: set<string>)
    : seq<EventGraphMessage>
  {
    if EdfsNatsSubscribe !in edfsDirectiveReferences then []
    else if EdfsNatsStreamConfiguration !in parents then [UndefinedNatsStreamConfigurationInput]
    else if !IsNatsStreamConfigurationInputObjectValid(parents[EdfsNatsStreamConfiguration])
    then [InvalidNatsStreamConfigurationDefinition]
    else []
  }

  /** The messages about the findings, one per non-empty group, in the order they are reported. */
  function FindingsMessages(f: EdfsFindings): seq<EventGraphMessage> {
    (if f.eventsDirectives != map[] then [InvalidRootTypeFieldEventsDirectives(f.eventsDirectives)] else []) +
    (if f.mutationResponseTypes != map[] then [InvalidEventDrivenMutationResponseType(f.mutationResponseTypes)] else []) +
    (if f.responseTypes != map[] then [InvalidRootTypeFieldResponseTypes(f.responseTypes)] else []) +
    (if f.keyFieldSets != map[] then [InvalidKeyFieldSets(f.keyFieldSets)] else []) +
    (if f.nonExternalKeyFields != map[] then [NonExternalKeyFieldNames(f.nonExternalKeyFields)] else []) +
    (if f.nonKeyFields != map[] then [NonKeyFieldNames(f.nonKeyFields)] else []) +
    (if f.nonKeyComposingTypeNames != {} then [NonKeyComposingObjectTypeNames(f.nonKeyComposingTypeNames)] else [])
  }

  /** The messages of the one event-driven-graph error, in the order they are reported. */
  function EventGraphMessages(parents: map<string, ParentData>, edfsDirectiveReferences: set<string>,
                              f: EdfsFindings): seq<EventGraphMessage>
  {
    (if !IsEdfsPublishResultValid(parents) then [InvalidEdfsPublishResultObject] else []) +
    StreamConfigurationMessages(parents, edfsDirectiveReferences) +
    FindingsMessages(f)
  }

  // ----- what the rules report -----

  /** An object that is neither a root type nor composed by keys is refused, and only such an object. */
  lemma NonKeyComposingReported(ctx: EdfsContext, t: string)
    ensures t in FindingsOf(ctx, ctx.parents.Keys).nonKeyComposingTypeNames <==>
      (&& t in ctx.parents && t != EdfsPublishResult && t != EdfsNatsStreamConfiguration
       && ctx.parents[t].ObjectData? && !ctx.parents[t].isRootType && t !in ctx.keyFieldNamesByTypeName)
  {
  }

  /** Every key field set of an entity that is not marked `resolvable: false` is reported, and nothing else. */
  lemma ResolvableKeysReported(ctx: EdfsContext, t: string, k: string)
    ensures var reported := FindingsOf(ctx, ctx.parents.Keys).keyFieldSets;
      (t in reported && k in reported[t]) <==>
      (&& IsCheckedEntity(ctx, t) && t in ctx.keyFieldSetsByTypeName
       && k in ctx.keyFieldSetsByTypeName[t] && !ctx.keyFieldSetsByTypeName[t][k])
  {
    if IsCheckedEntity(ctx, t) && t in ctx.keyFieldSetsByTypeName && k in ctx.keyFieldSetsByTypeName[t] {
      assert !ctx.keyFieldSetsByTypeName[t][k] ==> k in KeyFieldSetsOf(ctx, t);
    }
  }

  /** Every key field of an entity that is not `@external` in this subgraph is reported, and nothing else. */
  lemma NonExternalKeyFieldsReported(ctx: EdfsContext, t: string, f: string)
    ensures var reported := FindingsOf(ctx, ctx.parents.Keys).nonExternalKeyFields;
      (t in reported && f in reported[t]) <==>
      (&& IsCheckedEntity(ctx, t) && f in ctx.parents[t].fields && f in ctx.keyFieldNamesByTypeName[t]
       && !ctx.parents[t].fields[f].IsExternalIn(ctx.subgraphName))
  {
    if IsCheckedEntity(ctx, t) && f in ctx.parents[t].fields {
      assert f in ctx.keyFieldNamesByTypeName[t] && !ctx.parents[t].fields[f].IsExternalIn(ctx.subgraphName) ==>
        f in NonExternalKeyFieldsFor(ctx, t);
    }
  }

  /** Every field of an entity outside its key fields is reported, and nothing else. */
  lemma NonKeyFieldsReported(ctx: EdfsContext, t: string, f: string)
    ensures var reported := FindingsOf(ctx, ctx.parents.Keys).nonKeyFields;
      (t in reported && f in reported[t]) <==>
      (IsCheckedEntity(ctx, t) && f in ctx.parents[t].fields && f !in ctx.keyFieldNamesByTypeName[t])
  {
    if IsCheckedEntity(ctx, t) && f in ctx.parents[t].fields {
      assert f !in ctx.keyFieldNamesByTypeName[t] ==> f in NonKeyFieldsFor(ctx, t);
    }
  }

  /**
   * A query or subscription field of a root type that returns a list, nullable or not, is
   * reported with its type, whatever the list holds.
   */
  lemma ListRootFieldReported(ctx: EdfsContext, t: string, f: string)
    requires HasOperation(ctx, t) && Operation(ctx, t).value != Mutation
    requires f in ctx.parents[t].fields
    requires var typ := ctx.parents[t].fields[f].typ; typ.ListType? || (typ.NonNullType? && typ.ofType.ListType?)
    ensures var reported := FindingsOf(ctx, ctx.parents.Keys).responseTypes;
      t in reported && f in reported[t] && reported[t][f] == ctx.parents[t].fields[f].typ
  {
    var field := ctx.parents[t].fields[f];
    assert field.typ != NonNullType(NamedType(field.NamedTypeName()));
    assert f in RootFindingsFor(ctx, t).responseTypes;
  }

  /** A mutation field of a root type that does not return `edfs__PublishResult!` is reported with its type. */
  lemma MutationResponseTypeReported(ctx: EdfsContext, t: string, f: string)
    requires HasOperation(ctx, t) && Operation(ctx, t).value == Mutation
    requires f in ctx.parents[t].fields && ctx.parents[t].fields[f].typ != PublishResultType
    ensures var reported := FindingsOf(ctx, ctx.parents.Keys).mutationResponseTypes;
      t in reported && f in reported[t] && reported[t][f] == ctx.parents[t].fields[f].typ
  {
    assert f in RootFindingsFor(ctx, t).mutationResponseTypes;
  }

  /**
   * A root field is reported for its event directives exactly when it has none, or has one
   * its operation does not admit; a query field may only carry `@edfs__natsRequest`.
   */
  lemma EventsDirectivesReported(ctx: EdfsContext, t: string, f: string)
    requires HasOperation(ctx, t) && f in ctx.parents[t].fields
    ensures var reported := FindingsOf(ctx, ctx.parents.Keys).eventsDirectives;
            var defined := DefinedEventDirectiveNames(ctx.parents[t].fields[f]);
            var operation := Operation(ctx, t).value;
      (t in reported && f in reported[t]) <==>
      (defined == {} || exists n :: n in defined && n !in RootTypes.GetValidEventsDirectiveNamesForOperationTypeNode(operation))
  {
    var operation := Operation(ctx, t).value;
    var field := ctx.parents[t].fields[f];
    if HasInvalidEventDirectives(field, operation) {
      assert f in RootFindingsFor(ctx, t).eventsDirectives;
    }
  }

  /** Anything found makes the subgraph fail with the one event-driven-graph error. */
  lemma FindingsAreReported(parents: map<string, ParentData>, edfsDirectiveReferences: set<string>, f: EdfsFindings)
    requires f.eventsDirectives != map[] || f.mutationResponseTypes != map[] || f.responseTypes != map[] ||
             f.keyFieldSets != map[] || f.nonExternalKeyFields != map[] || f.nonKeyFields != map[] ||
             f.nonKeyComposingTypeNames != {}
    ensures EventGraphMessages(parents, edfsDirectiveReferences, f) != []
  {
    assert FindingsMessages(f) != [];
  }
}
