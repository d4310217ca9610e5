/**
 * What the final phase of normalization computes once the registry is filled: the
 * authorization inherited from interfaces and interface fields, the checks made while the
 * types are assembled, the root operation types, and the referenced types.
 */
module NormalizeSpec {
  import opened Ast
  import opened Model
  import RootTypes

  // ----- authorization inherited by the implementations of interfaces -----

  /** The types that implement at least one of `interfaceNames`. */
  function ConcreteTypesOf(interfaceNames: set<string>, concreteTypeNames: map<string, set<string>>): set<string> {
    set i, c | i in interfaceNames && i in concreteTypeNames && c in concreteTypeNames[i] :: c
  }

  lemma ConcreteTypesStep(interfaceNames: set<string>, i: string, concreteTypeNames: map<string, set<string>>)
    ensures ConcreteTypesOf(interfaceNames + {i}, concreteTypeNames) ==
      ConcreteTypesOf(interfaceNames, concreteTypeNames) + ConcreteTypesOf({i}, concreteTypeNames)
  {
  }

  /**
   * What copying interface authorization onto implementing types keeps, between the records
   * `before` and `after`: no record is lost, only the `touched` types gain or change a record,
   * every type in `reached` has one, and only fields of touched types become invalid host paths.
   */
  ghost predicate PropagationBounds(before: map<string, AuthorizationData>, after: map<string, AuthorizationData>,
                                    pathsBefore: set<Path>, pathsAfter: set<Path>, touched: set<string>, reached: set<string>)
  {
    && before.Keys <= after.Keys
    && after.Keys <= before.Keys + touched
    && reached <= after.Keys
    && (forall t :: t in before && t !in touched ==> after[t] == before[t])
    && pathsBefore <= pathsAfter
    && (forall p :: p in pathsAfter - pathsBefore ==> p.ChildPath? && p.typeName in touched)
  }

  /** Two rounds of copying compose: what each touched is touched, what each reached is reached. */
  lemma PropagationBoundsCompose(first: map<string, AuthorizationData>, mid: map<string, AuthorizationData>,
                                 last: map<string, AuthorizationData>, pathsFirst: set<Path>, pathsMid: set<Path>,
                                 pathsLast: set<Path>, touched: set<string>, reached: set<string>,
                                 touched': set<string>, reached': set<string>, counted: set<string>)
    requires PropagationBounds(first, mid, pathsFirst, pathsMid, touched, reached)
    requires PropagationBounds(mid, last, pathsMid, pathsLast, touched', reached')
    requires counted <= reached'
    ensures PropagationBounds(first, last, pathsFirst, pathsLast, touched + touched', reached + counted)
  {
  }

  /**
   * One more interface: its implementing types are touched, and reached when the interface had
   * a record at the start; its authorization is copied only when it has a record now.
   */
  lemma PropagationBoundsStep(before: map<string, AuthorizationData>, mid: map<string, AuthorizationData>,
                              after: map<string, AuthorizationData>, pathsBefore: set<Path>, pathsMid: set<Path>,
                              pathsAfter: set<Path>, done: set<string>, i: string, concrete: map<string, set<string>>)
    requires PropagationBounds(before, mid, pathsBefore, pathsMid, ConcreteTypesOf(done, concrete),
                               ConcreteTypesOf(done * before.Keys, concrete))
    requires i in mid ==> PropagationBounds(mid, after, pathsMid, pathsAfter, ConcreteTypesOf({i}, concrete),
                                            ConcreteTypesOf({i}, concrete))
    requires i !in mid ==> after == mid && pathsAfter == pathsMid
    ensures PropagationBounds(before, after, pathsBefore, pathsAfter, ConcreteTypesOf(done + {i}, concrete),
                              ConcreteTypesOf((done + {i}) * before.Keys, concrete))
  {
    var c := ConcreteTypesOf({i}, concrete);
    ConcreteTypesStep(done, i, concrete);
    ConcreteTypesStep(done * before.Keys, i, concrete);
    if i in before {
      assert (done + {i}) * before.Keys == done * before.Keys + {i};
      PropagationBoundsCompose(before, mid, after, pathsBefore, pathsMid, pathsAfter,
                               ConcreteTypesOf(done, concrete), ConcreteTypesOf(done * before.Keys, concrete), c, c, c);
    } else {
      assert (done + {i}) * before.Keys == done * before.Keys;
      if i in mid {
        PropagationBoundsCompose(before, mid, after, pathsBefore, pathsMid, pathsAfter,
                                 ConcreteTypesOf(done, concrete), ConcreteTypesOf(done * before.Keys, concrete), c, c, {});
      } else {
        PropagationBoundsCompose(before, mid, after, pathsBefore, pathsMid, pathsAfter,
                                 ConcreteTypesOf(done, concrete), ConcreteTypesOf(done * before.Keys, concrete), c, {}, {});
      }
    }
  }

  // ----- authorization inherited by the fields of a type from its leaf types -----

  /** The authorization of one type after AND-merging each inherited requirement, and the fields whose merge failed. */
  datatype HeirMerge = HeirMerge(data: AuthorizationData, failedFieldNames: set<string>)

  function MergeHeirs(fads: seq<FieldAuthorizationData>, ext: External, acc: HeirMerge): HeirMerge
    decreases |fads|
  {
    if fads == [] then acc
    else
      var (data, merged) := ext.mergeAuthorizationDataByAnd(acc.data, fads[0]);
      MergeHeirs(fads[1..], ext, HeirMerge(data, if merged then acc.failedFieldNames else acc.failedFieldNames + {fads[0].fieldName}))
  }

  /** The field names of a list of requirements. */
  function RequirementFieldNames(fads: seq<FieldAuthorizationData>): set<string> {
    set i | 0 <= i < |fads| :: fads[i].fieldName
  }

  /** A failed merge is only ever reported for a field that one of the requirements names. */
  lemma {:induction false} MergeHeirsFailuresAreNamed(fads: seq<FieldAuthorizationData>, ext: External, acc: HeirMerge)
    ensures var r := MergeHeirs(fads, ext, acc);
      acc.failedFieldNames <= r.failedFieldNames <= acc.failedFieldNames + RequirementFieldNames(fads)
    decreases |fads|
  {
    if fads != [] {
      var (data, merged) := ext.mergeAuthorizationDataByAnd(acc.data, fads[0]);
      var next := HeirMerge(data, if merged then acc.failedFieldNames else acc.failedFieldNames + {fads[0].fieldName});
      MergeHeirsFailuresAreNamed(fads[1..], ext, next);
      forall f | f in RequirementFieldNames(fads[1..]) ensures f in RequirementFieldNames(fads) {
        var i :| 0 <= i < |fads[1..]| && fads[1..][i].fieldName == f;
        assert fads[i + 1].fieldName == f;
      }
    }
  }

  /** When every merge succeeds, nothing is reported. */
  lemma {:induction false} MergeHeirsAllMerged(fads: seq<FieldAuthorizationData>, ext: External, acc: HeirMerge)
    requires forall d: AuthorizationData, i :: 0 <= i < |fads| ==> ext.mergeAuthorizationDataByAnd(d, fads[i]).1
    ensures MergeHeirs(fads, ext, acc).failedFieldNames == acc.failedFieldNames
    decreases |fads|
  {
    if fads != [] {
      assert ext.mergeAuthorizationDataByAnd(acc.data, fads[0]).1;
      MergeHeirsAllMerged(fads[1..], ext, HeirMerge(ext.mergeAuthorizationDataByAnd(acc.data, fads[0]).0, acc.failedFieldNames));
    }
  }

  function HeirMergeOf(authorization: map<string, AuthorizationData>, heirs: map<string, seq<FieldAuthorizationData>>,
                       t: string, ext: External): HeirMerge
    requires t in authorization && t in heirs
  {
    MergeHeirs(heirs[t], ext, HeirMerge(authorization[t], {}))
  }

  /** The recorded authorization once the inherited requirements of the types in `done` are merged in. */
  function HeirsApplied(authorization: map<string, AuthorizationData>, heirs: map<string, seq<FieldAuthorizationData>>,
                        done: set<string>, ext: External): map<string, AuthorizationData>
  {
    map t | t in authorization :: if t in done && t in heirs then HeirMergeOf(authorization, heirs, t, ext).data else authorization[t]
  }

  /** The field coordinates of the types in `done` whose inherited requirement could not be merged. */
  function HeirFailures(authorization: map<string, AuthorizationData>, heirs: map<string, seq<FieldAuthorizationData>>,
                        done: set<string>, ext: External): set<Path>
  {
    set t, f | t in done && t in heirs && t in authorization && f in HeirMergeOf(authorization, heirs, t, ext).failedFieldNames
      :: ChildPath(t, f)
  }

  lemma HeirsStep(authorization: map<string, AuthorizationData>, heirs: map<string, seq<FieldAuthorizationData>>,
                  done: set<string>, t: string, ext: External)
    requires t !in done
    ensures HeirsApplied(authorization, heirs, done + {t}, ext) ==
      if t in authorization && t in heirs
      then HeirsApplied(authorization, heirs, done, ext)[t := HeirMergeOf(authorization, heirs, t, ext).data]
      else HeirsApplied(authorization, heirs, done, ext)
    ensures HeirFailures(authorization, heirs, done + {t}, ext) ==
      if t in authorization && t in heirs
      then HeirFailures(authorization, heirs, done, ext) +
             (set f | f in HeirMergeOf(authorization, heirs, t, ext).failedFieldNames :: ChildPath(t, f))
      else HeirFailures(authorization, heirs, done, ext)
  {
  }

  // ----- iteration over collections whose order is not modelled -----

  /** `order` lists every element of `s` exactly once: one possible iteration order of `s`. */
  ghost predicate Enumerates<T(!new)>(order: seq<T>, s: set<T>) {
    (forall i, j :: 0 <= i < j < |order| ==> order[i] != order[j]) &&
    (forall x :: x in order <==> x in s)
  }

  lemma EnumeratesStep<T(!new)>(order: seq<T>, s: set<T>, x: T)
    requires Enumerates(order, s) && x !in s
    ensures Enumerates(order + [x], s + {x})
  {
    assert forall i :: 0 <= i < |order| ==> (order + [x])[i] == order[i];
  }

  /** What `check` yields for the elements of `order`, concatenated in that order. */
  function Along<T, U>(order: seq<T>, check: T -> seq<U>): seq<U>
    decreases |order|
  {
    if order == [] then [] else Along(order[..|order| - 1], check) + check(order[|order| - 1])
  }

  lemma AlongStep<T, U>(order: seq<T>, check: T -> seq<U>, x: T)
    ensures Along(order + [x], check) == Along(order, check) + check(x)
  {
    assert (order + [x])[..|order|] == order;
  }

  /** Appending what `check` yields for one more element to a log kept along `order` keeps it along the longer order. */
  lemma AlongAppend<T, U>(base: seq<U>, order: seq<T>, check: T -> seq<U>, x: T, log: seq<U>)
    requires log == base + Along(order, check)
    ensures log + check(x) == base + Along(order + [x], check)
  {
    AlongStep(order, check, x);
  }

  /** Everything yielded along an order is yielded for one of its elements, and conversely. */
  lemma {:induction false} AlongMembers<T, U>(order: seq<T>, check: T -> seq<U>, u: U)
    ensures u in Along(order, check) <==> exists x :: x in order && u in check(x)
    decreases |order|
  {
    if order != [] {
      var prefix, last := order[..|order| - 1], order[|order| - 1];
      assert order == prefix + [last];
      AlongMembers(prefix, check, u);
      if u in Along(order, check) && u !in check(last) {
        var x :| x in prefix && u in check(x);
        assert x in order;
      }
      if exists x :: x in order && u in check(x) {
        var x :| x in order && u in check(x);
        if x != last {
          assert x in prefix;
        }
      }
    }
  }

  /** The sequence yielded along any order is the same whenever `check` yields nothing anywhere. */
  lemma {:induction false} AlongSilent<T, U>(order: seq<T>, check: T -> seq<U>)
    requires forall x :: x in order ==> check(x) == []
    ensures Along(order, check) == []
    decreases |order|
  {
    if order != [] {
      assert order[|order| - 1] in order;
      assert forall x :: x in order[..|order| - 1] ==> x in order;
      AlongSilent(order[..|order| - 1], check);
    }
  }

  // ----- assembling the named types -----

  /** The errors a leaf type gets once all definitions are known: each kind has its own emptiness rule. */
  function LeafAssemblyErrors(data: ParentData, parents: map<string, ParentData>): (r: seq<ErrorKind>)
    requires !data.IsComposite()
    ensures |r| <= 1
    ensures data.EnumData? ==> (r != [] <==> data.enumValues == {}) && (r != [] ==> r[0] == NoDefinedEnumValues(data.name))
    ensures data.InputObjectData? ==>
      (r != [] <==> data.inputValues == map[]) && (r != [] ==> r[0] == NoInputValueDefinitions(data.name))
    ensures data.ScalarData? ==>
      (r != [] <==> data.extensionType == Real) && (r != [] ==> r[0] == NoBaseScalarDefinition(data.name))
    ensures data.UnionData? ==>
      (r == [] <==> data.members != {} && forall m :: m in data.members && m in parents ==> parents[m].ObjectData?)
  {
    match data
    case EnumData(_, _, _, _, _, _) => if data.enumValues == {} then [NoDefinedEnumValues(data.name)] else []
    case InputObjectData(_, _, _, _, _, _, _) =>
      if data.inputValues == map[] then [NoInputValueDefinitions(data.name)] else []
    case ScalarData(_, _, _, _) => if data.extensionType == Real then [NoBaseScalarDefinition(data.name)] else []
    case UnionData(_, _, _, _, _) =>
      if data.members == {} then [NoDefinedUnionMembers(data.name)]
      else
        var invalid := NonObjectMembers(data.members, parents);
        if invalid == map[] then [] else [InvalidUnionMemberType(data.name, invalid)]
  }

  /** The members among `names` defined in the subgraph as something other than an object, with their kinds. */
  function NonObjectMembers(names: set<string>, parents: map<string, ParentData>): (r: map<string, Kind>)
    ensures r == map[] <==> forall m :: m in names && m in parents ==> parents[m].ObjectData?
    ensures forall m :: m in r ==> m in names && m in parents && r[m] == parents[m].Kind() && r[m] != ObjectKind
  {
    var r := map m | m in names && m in parents && !parents[m].ObjectData? :: parents[m].Kind();
    assert forall m :: m in names && m in parents && !parents[m].ObjectData? ==> m in r;
    r
  }

  lemma NonObjectMembersStep(done: set<string>, n: string, parents: map<string, ParentData>)
    ensures NonObjectMembers(done + {n}, parents) ==
      if n in parents && !parents[n].ObjectData? then NonObjectMembers(done, parents)[n := parents[n].Kind()]
      else NonObjectMembers(done, parents)
  {
  }

  /** An operation type loses the federation fields `_service` and `_entities`; nothing else about it changes. */
  function WithoutFederationFields(data: ParentData, isOperationType: bool): (r: ParentData)
    requires data.IsComposite()
    ensures r.IsComposite() && r.Kind() == data.Kind() && r.name == data.name
    ensures r.implementedInterfaces == data.implementedInterfaces
    ensures r.ObjectData? ==> r.renamedTypeName == data.renamedTypeName
    ensures r.fields.Keys == if isOperationType then data.fields.Keys - {ServiceField, EntitiesField} else data.fields.Keys
    ensures forall f :: f in r.fields ==> r.fields[f] == data.fields[f]
  {
    if isOperationType then data.(fields := data.fields - {ServiceField, EntitiesField}) else data
  }

  /** The fields of an interface marked `@external` in the subgraph; an object reports none. */
  function ExternalInterfaceFieldNames(data: ParentData, subgraphName: string): (r: set<string>)
    requires data.IsComposite()
    ensures r <= data.fields.Keys
    ensures data.InterfaceData? ==> forall f :: f in data.fields ==> (f in r <==> data.fields[f].IsExternalIn(subgraphName))
    ensures data.ObjectData? ==> r == {}
  {
    if data.ObjectData? then {} else set f | f in data.fields && data.fields[f].IsExternalIn(subgraphName)
  }

  /** The name an object or interface is configured under: an object's root-type rename, if any. */
  function ConfigurationName(data: ParentData): string
    requires data.IsComposite()
  {
    if data.ObjectData? && data.renamedTypeName != "" then data.renamedTypeName else data.name
  }

  /** Every configuration is recorded under its own type name. */
  predicate ConfigurationsNamed(configs: map<string, ConfigurationData>) {
    forall k :: k in configs ==> configs[k].typeName == k
  }

  /** Every object and interface of the subgraph has a configuration. */
  predicate CompositeTypesConfigured(parents: map<string, ParentData>, configs: map<string, ConfigurationData>) {
    forall t :: t in parents && parents[t].IsComposite() ==> ConfigurationName(parents[t]) in configs
  }

  /** A type once assembled: an operation type loses its federation fields, any other type is kept. */
  function StrippedType(data: ParentData, isOperationType: bool): (r: ParentData)
    ensures r.Kind() == data.Kind() && r.name == data.name
    ensures !data.IsComposite() ==> r == data
    ensures data.IsComposite() ==>
      && r.IsComposite()
      && ConfigurationName(r) == ConfigurationName(data)
      && r.fields.Keys == if isOperationType then data.fields.Keys - {ServiceField, EntitiesField} else data.fields.Keys
  {
    if data.IsComposite() then WithoutFederationFields(data, isOperationType) else data
  }

  /** The subgraph's types once those in `assembled` are assembled. */
  function PartlyStripped(parents: map<string, ParentData>, assembled: set<string>, operationTypeNames: set<string>)
    : (r: map<string, ParentData>)
    ensures r.Keys == parents.Keys
    ensures forall t :: t in r ==> r[t].Kind() == parents[t].Kind() && r[t].name == parents[t].name
  {
    map t | t in parents :: if t in assembled then StrippedType(parents[t], t in operationTypeNames) else parents[t]
  }

  lemma PartlyStrippedStep(parents: map<string, ParentData>, assembled: set<string>, t: string, operationTypeNames: set<string>)
    requires t in parents && t !in assembled
    ensures PartlyStripped(parents, assembled + {t}, operationTypeNames) ==
      PartlyStripped(parents, assembled, operationTypeNames)[t := StrippedType(parents[t], t in operationTypeNames)]
    ensures PartlyStripped(parents, assembled, operationTypeNames)[t] == parents[t]
  {
  }

  /** Every object and interface among `assembled` is configured, and every entity interface among them has implementations recorded. */
  predicate AssembledConfigured(parents: map<string, ParentData>, assembled: set<string>, entityInterfaceNames: set<string>,
                                configs: map<string, ConfigurationData>, concrete: map<string, set<string>>)
  {
    forall t :: t in assembled && t in parents && parents[t].IsComposite() ==>
      ConfigurationName(parents[t]) in configs && (t in entityInterfaceNames ==> t in concrete)
  }

  /** Assembling one more type keeps what was recorded for the others. */
  lemma AssembledConfiguredStep(parents: map<string, ParentData>, assembled: set<string>, t: string,
                                entityInterfaceNames: set<string>,
                                configs: map<string, ConfigurationData>, concrete: map<string, set<string>>,
                                configs': map<string, ConfigurationData>, concrete': map<string, set<string>>)
    requires AssembledConfigured(parents, assembled, entityInterfaceNames, configs, concrete)
    requires configs.Keys <= configs'.Keys && concrete.Keys <= concrete'.Keys
    requires t in parents && parents[t].IsComposite() ==>
      ConfigurationName(parents[t]) in configs' && (t in entityInterfaceNames ==> t in concrete')
    ensures AssembledConfigured(parents, assembled + {t}, entityInterfaceNames, configs', concrete')
  {
  }

  /** Once every type is assembled, every object and interface of the assembled subgraph is configured. */
  lemma AllAssembledConfigured(parents: map<string, ParentData>, operationTypeNames: set<string>,
                               entityInterfaceNames: set<string>,
                               configs: map<string, ConfigurationData>, concrete: map<string, set<string>>)
    requires AssembledConfigured(parents, parents.Keys, entityInterfaceNames, configs, concrete)
    ensures CompositeTypesConfigured(PartlyStripped(parents, parents.Keys, operationTypeNames), configs)
  {
  }

  /** Whether a leaf type is empty depends on the other types only through their kinds. */
  lemma LeafAssemblyErrorsByKinds(data: ParentData, parents: map<string, ParentData>, other: map<string, ParentData>)
    requires !data.IsComposite()
    requires parents.Keys == other.Keys && forall t :: t in parents ==> parents[t].Kind() == other[t].Kind()
    ensures LeafAssemblyErrors(data, parents) == LeafAssemblyErrors(data, other)
  {
    if data.UnionData? && data.members != {} {
      assert forall m :: m in parents ==> (parents[m].ObjectData? <==> other[m].ObjectData?) by {
        forall m | m in parents ensures parents[m].ObjectData? <==> other[m].ObjectData? {
          assert parents[m].Kind() == other[m].Kind();
        }
      }
      assert NonObjectMembers(data.members, parents) == NonObjectMembers(data.members, other);
    }
  }

  // ----- root operation types -----

  /** The type an operation is served by: the one the schema definition declares, else the canonical one. */
  function OperationTypeName(declared: map<OperationType, string>, operation: OperationType): (r: string)
    ensures operation !in declared ==> r == RootTypes.DefaultRootTypeName(operation)
  {
    if operation in declared then declared[operation] else RootTypes.DefaultRootTypeName(operation)
  }

  /** A custom root type may not be used for an operation while the canonical type is also defined. */
  predicate RootTypeConflict(declared: map<OperationType, string>, parents: map<string, ParentData>, operation: OperationType) {
    OperationTypeName(declared, operation) != RootTypes.DefaultRootTypeName(operation) &&
    RootTypes.DefaultRootTypeName(operation) in parents
  }

  /** The named types of `fields` that are neither base scalars nor defined. */
  function UndefinedFieldTypes(fields: map<string, FieldData>, baseScalars: set<string>, parents: map<string, ParentData>)
    : (r: set<string>)
    ensures forall n :: n in r ==> n !in baseScalars && n !in parents
    ensures forall f :: f in fields && fields[f].NamedTypeName() !in baseScalars && fields[f].NamedTypeName() !in parents ==>
      fields[f].NamedTypeName() in r
  {
    set f | f in fields && fields[f].NamedTypeName() !in baseScalars && fields[f].NamedTypeName() !in parents
      :: fields[f].NamedTypeName()
  }

  /** Taking one more field into account adds at most its named type. */
  lemma UndefinedFieldTypesStep(fields: map<string, FieldData>, remaining: set<string>, f: string,
                                baseScalars: set<string>, parents: map<string, ParentData>)
    requires f in remaining && f in fields
    ensures var n := fields[f].NamedTypeName();
      UndefinedFieldTypes(fields - (remaining - {f}), baseScalars, parents) ==
      UndefinedFieldTypes(fields - remaining, baseScalars, parents) + (if n !in baseScalars && n !in parents then {n} else {})
  {
    var n := fields[f].NamedTypeName();
    var before, after := fields - remaining, fields - (remaining - {f});
    assert after == before[f := fields[f]];
    var lhs := UndefinedFieldTypes(after, baseScalars, parents);
    var rhs := UndefinedFieldTypes(before, baseScalars, parents) + (if n !in baseScalars && n !in parents then {n} else {});
    forall x | x in lhs ensures x in rhs {
      var g :| g in after && after[g].NamedTypeName() == x && x !in baseScalars && x !in parents;
      if g != f {
        assert g in before;
      }
    }
    forall x | x in rhs ensures x in lhs {
      if x != n || n in baseScalars || n in parents {
        var g :| g in before && before[g].NamedTypeName() == x && x !in baseScalars && x !in parents;
        assert g in after;
      } else {
        assert f in after && after[f].NamedTypeName() == n;
      }
    }
  }

  /** The configuration of an operation's canonical type, if any, marked as a root node under that name. */
  function AsRootNode(configs: map<string, ConfigurationData>, defaultTypeName: string): (r: map<string, ConfigurationData>)
    ensures r.Keys == configs.Keys
    ensures ConfigurationsNamed(configs) ==> ConfigurationsNamed(r)
    ensures defaultTypeName in r ==> r[defaultTypeName].isRootNode && r[defaultTypeName].typeName == defaultTypeName
    ensures defaultTypeName in r ==> r[defaultTypeName].fieldNames == configs[defaultTypeName].fieldNames
    ensures forall k :: k in configs && k != defaultTypeName ==> r[k] == configs[k]
  {
    if defaultTypeName in configs
    then configs[defaultTypeName := configs[defaultTypeName].(isRootNode := true, typeName := defaultTypeName)]
    else configs
  }

  // ----- referenced output types -----

  /** The test for an interface without implementations, as written: a set size below zero. */
  predicate HasNoImplementationsAsWritten(concreteTypeNames: map<string, set<string>>, t: string) {
    t !in concreteTypeNames || |concreteTypeNames[t]| < 0
  }

  /** The size test as written can never hold, so only an absent entry is noticed. */
  lemma AsWrittenOnlySeesAbsentEntries(concreteTypeNames: map<string, set<string>>, t: string)
    ensures HasNoImplementationsAsWritten(concreteTypeNames, t) <==> t !in concreteTypeNames
  {
  }

  /**
   * An entity interface is given an empty set of implementations while the types are
   * assembled: an interface with that entry and no implementation escapes the test as written.
   */
  lemma AsWrittenMissesEmptyImplementations()
    ensures var concrete := map["Node" := {}];
      !HasNoImplementationsAsWritten(concrete, "Node") && ConcreteTypesOf({"Node"}, concrete) == {}
  {
  }

  /** The intended test: no entry, or an empty one. */
  predicate HasNoImplementations(concreteTypeNames: map<string, set<string>>, t: string) {
    t !in concreteTypeNames || |concreteTypeNames[t]| < 1
  }

  /** The intended test holds exactly when no type is recorded as implementing the interface. */
  lemma HasNoImplementationsIff(concreteTypeNames: map<string, set<string>>, t: string)
    ensures HasNoImplementations(concreteTypeNames, t) <==> ConcreteTypesOf({t}, concreteTypeNames) == {}
  {
    if t in concreteTypeNames && |concreteTypeNames[t]| >= 1 {
      var c :| c in concreteTypeNames[t];
      assert c in ConcreteTypesOf({t}, concreteTypeNames);
    }
  }

  /**
   * The warning for a referenced interface that no object implements, given under the test
   * as written: only an interface without any entry is noticed.
   */
  function ReferencedTypeWarnings(subgraphName: string, parents: map<string, ParentData>,
                                  concreteTypeNames: map<string, set<string>>): string -> seq<Warning>
  {
    t => if t in parents && parents[t].InterfaceData? && HasNoImplementationsAsWritten(concreteTypeNames, t)
         then [UnimplementedInterfaceOutputType(subgraphName, t)] else []
  }

  /** The error for a referenced name that is neither defined nor an entity. */
  function ReferencedTypeErrors(parents: map<string, ParentData>, entityTypeNames: set<string>): string -> seq<ErrorKind> {
    t => if t !in parents && t !in entityTypeNames then [UndefinedType(t)] else []
  }

  /** Along any enumeration of the referenced names, exactly the names neither defined nor entities are reported. */
  lemma ReferencedTypeErrorsReport(order: seq<string>, referenced: set<string>, parents: map<string, ParentData>,
                                   entityTypeNames: set<string>)
    requires Enumerates(order, referenced)
    ensures var reported := Along(order, ReferencedTypeErrors(parents, entityTypeNames));
      && (forall e :: e in reported ==> e.UndefinedType?)
      && (forall t :: UndefinedType(t) in reported <==> t in referenced && t !in parents && t !in entityTypeNames)
  {
    var check := ReferencedTypeErrors(parents, entityTypeNames);
    var reported := Along(order, check);
    forall e | e in reported ensures e.UndefinedType? {
      AlongMembers(order, check, e);
    }
    forall t ensures UndefinedType(t) in reported <==> t in referenced && t !in parents && t !in entityTypeNames {
      AlongMembers(order, check, UndefinedType(t));
      if t in referenced && t !in parents && t !in entityTypeNames {
        assert t in order && UndefinedType(t) in check(t);
      }
    }
  }

  /**
   * Along any enumeration of the referenced names, a warning is given exactly for each
   * referenced interface that has no entry among the implementations; an interface whose
   * entry is empty is not reported, so every interface reported has no implementation.
   */
  lemma ReferencedTypeWarningsReport(order: seq<string>, referenced: set<string>, subgraphName: string,
                                     parents: map<string, ParentData>, concreteTypeNames: map<string, set<string>>)
    requires Enumerates(order, referenced)
    ensures var reported := Along(order, ReferencedTypeWarnings(subgraphName, parents, concreteTypeNames));
      && (forall w :: w in reported ==> w.UnimplementedInterfaceOutputType? && w.subgraphName == subgraphName)
      && (forall t :: UnimplementedInterfaceOutputType(subgraphName, t) in reported <==>
            t in referenced && t in parents && parents[t].InterfaceData? && t !in concreteTypeNames)
      && (forall t :: UnimplementedInterfaceOutputType(subgraphName, t) in reported ==> ConcreteTypesOf({t}, concreteTypeNames) == {})
  {
    var check := ReferencedTypeWarnings(subgraphName, parents, concreteTypeNames);
    var reported := Along(order, check);
    forall w | w in reported ensures w.UnimplementedInterfaceOutputType? && w.subgraphName == subgraphName {
      AlongMembers(order, check, w);
    }
    forall t ensures UnimplementedInterfaceOutputType(subgraphName, t) in reported <==>
      t in referenced && t in parents && parents[t].InterfaceData? && t !in concreteTypeNames
    {
      AlongMembers(order, check, UnimplementedInterfaceOutputType(subgraphName, t));
      AsWrittenOnlySeesAbsentEntries(concreteTypeNames, t);
      HasNoImplementationsIff(concreteTypeNames, t);
      if t in referenced && t in parents && parents[t].InterfaceData? && t !in concreteTypeNames {
        assert t in order && UnimplementedInterfaceOutputType(subgraphName, t) in check(t);
      }
    }
  }

  // ----- keys and conditional field sets -----

  /** The field names configured for an object or interface, or none when it has no configuration. */
  function ConfiguredFieldNames(data: ParentData, configs: map<string, ConfigurationData>): set<string>
    requires data.IsComposite()
  {
    if ConfigurationName(data) in configs then configs[ConfigurationName(data)].fieldNames else {}
  }

  /** The errors for the `@key` field sets of one type: its parent must be an object or interface. */
  function KeyErrors(keyed: map<string, map<string, bool>>, parents: map<string, ParentData>,
                     configs: map<string, ConfigurationData>, ext: External): string -> seq<ErrorKind>
  {
    t => if t !in keyed then []
         else if t !in parents || !parents[t].IsComposite() then [UndefinedObjectLikeParent(t)]
         else ext.validateKeyFieldSets(parents[t], keyed[t], ConfiguredFieldNames(parents[t], configs)).0
  }

  /** The configurations once the router keys of one type are set, where the key validator yields any. */
  function WithKeys(t: string, keyed: map<string, map<string, bool>>, parents: map<string, ParentData>,
                    base: map<string, ConfigurationData>, configs: map<string, ConfigurationData>, ext: External)
    : map<string, ConfigurationData>
  {
    if t in keyed && t in parents && parents[t].IsComposite() && ConfigurationName(parents[t]) in configs &&
       ext.validateKeyFieldSets(parents[t], keyed[t], ConfiguredFieldNames(parents[t], base)).1.Some?
    then
      var name := ConfigurationName(parents[t]);
      configs[name := configs[name].(keys := ext.validateKeyFieldSets(parents[t], keyed[t], ConfiguredFieldNames(parents[t], base)).1.value)]
    else configs
  }

  /**
   * The configurations once the keys of the types in `order` are set in that order. Only
   * keys change: the same configurations, under the same names, keep all else.
   */
  function KeysAlong(order: seq<string>, keyed: map<string, map<string, bool>>, parents: map<string, ParentData>,
                     base: map<string, ConfigurationData>, ext: External): (r: map<string, ConfigurationData>)
    ensures r.Keys == base.Keys
    ensures forall k :: k in r ==> r[k] == base[k].(keys := r[k].keys)
    decreases |order|
  {
    if order == [] then base
    else WithKeys(order[|order| - 1], keyed, parents, base, KeysAlong(order[..|order| - 1], keyed, parents, base, ext), ext)
  }

  lemma KeysAlongStep(order: seq<string>, t: string, keyed: map<string, map<string, bool>>, parents: map<string, ParentData>,
                      base: map<string, ConfigurationData>, ext: External)
    ensures KeysAlong(order + [t], keyed, parents, base, ext) ==
      WithKeys(t, keyed, parents, base, KeysAlong(order, keyed, parents, base, ext), ext)
  {
    assert (order + [t])[..|order|] == order;
  }

  /** Setting keys keeps every configuration under its own name and every object and interface configured. */
  lemma KeysAlongKeepsInvariants(order: seq<string>, keyed: map<string, map<string, bool>>, parents: map<string, ParentData>,
                                 base: map<string, ConfigurationData>, ext: External)
    ensures var r := KeysAlong(order, keyed, parents, base, ext);
      (ConfigurationsNamed(base) ==> ConfigurationsNamed(r)) &&
      (CompositeTypesConfigured(parents, base) ==> CompositeTypesConfigured(parents, r))
  {
  }

  /** Setting keys leaves the configured field names alone, so later key checks read the same names. */
  lemma KeyChecksUnaffected(t: string, keyed: map<string, map<string, bool>>, parents: map<string, ParentData>,
                            base: map<string, ConfigurationData>, configs: map<string, ConfigurationData>, ext: External)
    requires configs.Keys == base.Keys && forall k :: k in configs ==> configs[k] == base[k].(keys := configs[k].keys)
    ensures KeyErrors(keyed, parents, configs, ext)(t) == KeyErrors(keyed, parents, base, ext)(t)
    ensures WithKeys(t, keyed, parents, configs, configs, ext) == WithKeys(t, keyed, parents, base, configs, ext)
  {
    if t in parents && parents[t].IsComposite() {
      assert ConfiguredFieldNames(parents[t], configs) == ConfiguredFieldNames(parents[t], base);
    }
  }

  /** Along any enumeration of the keyed types, each one without an object or interface parent is reported. */
  lemma KeyErrorsReport(order: seq<string>, keyed: map<string, map<string, bool>>, parents: map<string, ParentData>,
                        configs: map<string, ConfigurationData>, ext: External)
    requires Enumerates(order, keyed.Keys)
    ensures forall t :: t in keyed && (t !in parents || !parents[t].IsComposite()) ==>
      UndefinedObjectLikeParent(t) in Along(order, KeyErrors(keyed, parents, configs, ext))
  {
    var check := KeyErrors(keyed, parents, configs, ext);
    forall t | t in keyed && (t !in parents || !parents[t].IsComposite())
      ensures UndefinedObjectLikeParent(t) in Along(order, check)
    {
      AlongMembers(order, check, UndefinedObjectLikeParent(t));
      assert t in order && UndefinedObjectLikeParent(t) in check(t);
    }
  }

  /** The errors for the `@provides` and `@requires` field sets of one type. */
  function FieldSetErrors(fieldSets: map<string, FieldSetData>, parents: map<string, ParentData>, ext: External)
    : string -> seq<ErrorKind>
  {
    t => if t !in fieldSets then []
         else if t !in parents || !parents[t].IsComposite() then [UndefinedObjectLikeParent(t)]
         else ext.conditionalFieldSetErrors(parents[t], fieldSets[t])
  }

  /** Along any enumeration of the types with field sets, each one without an object or interface parent is reported. */
  lemma FieldSetErrorsReport(order: seq<string>, fieldSets: map<string, FieldSetData>, parents: map<string, ParentData>,
                             ext: External)
    requires Enumerates(order, fieldSets.Keys)
    ensures forall t :: t in fieldSets && (t !in parents || !parents[t].IsComposite()) ==>
      UndefinedObjectLikeParent(t) in Along(order, FieldSetErrors(fieldSets, parents, ext))
  {
    var check := FieldSetErrors(fieldSets, parents, ext);
    forall t | t in fieldSets && (t !in parents || !parents[t].IsComposite())
      ensures UndefinedObjectLikeParent(t) in Along(order, check)
    {
      AlongMembers(order, check, UndefinedObjectLikeParent(t));
      assert t in order && UndefinedObjectLikeParent(t) in check(t);
    }
  }

  // ----- event directive names and unvalidated `@external` fields -----

  /** A referenced event directive the catalogue does not define. */
  function EdfsDirectiveNameErrors(): string -> seq<ErrorKind> {
    n => if n in EventDirectiveNames then [] else [InvalidEdfsDirectiveName(n)]
  }

  /** An `@external` field no interface accounts for: an error in a V2 subgraph, else a warning. */
  function UnvalidatedExternalErrors(isVersionTwo: bool): Path -> seq<ErrorKind> {
    p => if isVersionTwo then [InvalidExternalDirective(p)] else []
  }

  function UnvalidatedExternalWarnings(isVersionTwo: bool, subgraphName: string): Path -> seq<Warning> {
    p => if isVersionTwo then [] else [InvalidExternalField(p, subgraphName)]
  }

  /** Along any enumeration of the referenced event directives, exactly the names outside the catalogue are reported. */
  lemma EdfsDirectiveNamesReport(order: seq<string>, references: set<string>)
    requires Enumerates(order, references)
    ensures var reported := Along(order, EdfsDirectiveNameErrors());
      && (forall e :: e in reported ==> e.InvalidEdfsDirectiveName?)
      && (forall n :: InvalidEdfsDirectiveName(n) in reported <==> n in references && n !in EventDirectiveNames)
  {
    var check := EdfsDirectiveNameErrors();
    var reported := Along(order, check);
    forall e | e in reported ensures e.InvalidEdfsDirectiveName? {
      AlongMembers(order, check, e);
    }
    forall n ensures InvalidEdfsDirectiveName(n) in reported <==> n in references && n !in EventDirectiveNames {
      AlongMembers(order, check, InvalidEdfsDirectiveName(n));
      if n in references && n !in EventDirectiveNames {
        assert n in order && InvalidEdfsDirectiveName(n) in check(n);
      }
    }
  }

  /**
   * Along any enumeration of the unvalidated `@external` fields, a V2 subgraph gets exactly
   * one error per field and no warning, and any other subgraph exactly one warning per
   * field and no error.
   */
  lemma UnvalidatedExternalReport(order: seq<Path>, coords: set<Path>, isVersionTwo: bool, subgraphName: string)
    requires Enumerates(order, coords)
    ensures var errors := Along(order, UnvalidatedExternalErrors(isVersionTwo));
            var warnings := Along(order, UnvalidatedExternalWarnings(isVersionTwo, subgraphName));
      && (isVersionTwo ==> warnings == [] && forall p :: InvalidExternalDirective(p) in errors <==> p in coords)
      && (!isVersionTwo ==> errors == [] && forall p :: InvalidExternalField(p, subgraphName) in warnings <==> p in coords)
      && (forall e :: e in errors ==> e.InvalidExternalDirective?)
      && (forall w :: w in warnings ==> w.InvalidExternalField? && w.subgraphName == subgraphName)
  {
    var errorsOf, warningsOf := UnvalidatedExternalErrors(isVersionTwo), UnvalidatedExternalWarnings(isVersionTwo, subgraphName);
    var errors, warnings := Along(order, errorsOf), Along(order, warningsOf);
    forall e | e in errors ensures e.InvalidExternalDirective? {
      AlongMembers(order, errorsOf, e);
    }
    forall w | w in warnings ensures w.InvalidExternalField? && w.subgraphName == subgraphName {
      AlongMembers(order, warningsOf, w);
    }
    if isVersionTwo {
      AlongSilent(order, warningsOf);
      forall p ensures InvalidExternalDirective(p) in errors <==> p in coords {
        AlongMembers(order, errorsOf, InvalidExternalDirective(p));
        if p in coords {
          assert p in order && InvalidExternalDirective(p) in errorsOf(p);
        }
      }
    } else {
      AlongSilent(order, errorsOf);
      forall p ensures InvalidExternalField(p, subgraphName) in warnings <==> p in coords {
        AlongMembers(order, warningsOf, InvalidExternalField(p, subgraphName));
        if p in coords {
          assert p in order && InvalidExternalField(p, subgraphName) in warningsOf(p);
        }
      }
    }
  }
}
