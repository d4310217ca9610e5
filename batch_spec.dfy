/**
 * What batch normalization computes, stated over the sequence of subgraphs: the names the
 * batch records, the errors of the subgraphs that failed, the overrides each target subgraph
 * accepts, the merged abstract-type membership, and the configuration of a target subgraph
 * once the fields other subgraphs took over are removed from it.
 */
module BatchSpec {
  import opened Model
  import opened DirectiveSpec
  import opened Factory
  import opened Ast
  import opened NormalizeSpec

  /** One subgraph of a batch: its name (empty when it has none), its URL and how its normalization ended. */
  datatype Subgraph = Subgraph(name: string, url: string, normalization: NormalizationOutcome)

  datatype BatchError =
    | OrScopesLimitError(maxOrScopes: nat, hostPaths: set<Path>)
    | InvalidSubgraphNames(nonUniqueSubgraphNames: set<string>, unnamedSubgraphIndices: seq<nat>)
    | DuplicateOverriddenFields(sourceSubgraphsByFieldPath: map<Path, seq<SubgraphDisplayName>>)
    | SubgraphValidation(subgraph: SubgraphDisplayName, errors: seq<ErrorKind>)

  /** What the batch keeps of a named subgraph that normalized, for composition. */
  datatype InternalSubgraph = InternalSubgraph(
    name: string,
    url: string,
    configurationDataByTypeName: map<string, ConfigurationData>,
    entityInterfaces: map<string, EntityInterfaceData>,
    isVersionTwo: bool,
    keyFieldNamesByParentTypeName: map<string, set<string>>,
    operationTypes: map<string, OperationType>,
    overriddenFieldNamesByParentTypeName: map<string, set<string>>,
    parentDefinitionDataByTypeName: map<string, ParentData>)

  datatype BatchNormalization = BatchNormalization(
    authorizationDataByParentTypeName: map<string, AuthorizationData>,
    concreteTypeNamesByAbstractTypeName: map<string, set<string>>,
    entityTypeNames: set<string>,
    errors: seq<BatchError>,
    internalSubgraphBySubgraphName: map<string, InternalSubgraph>,
    warnings: seq<Warning>)

  /** How errors name the subgraph at index `i`: by its name, or by its position when it has none. */
  function DisplayName(subgraphs: seq<Subgraph>, i: nat): SubgraphDisplayName
    requires i < |subgraphs|
  {
    if subgraphs[i].name != "" then Named(subgraphs[i].name) else Unnamed(i)
  }

  function InternalSubgraphOf(subgraph: Subgraph): InternalSubgraph
    requires subgraph.normalization.Normalized?
  {
    var r := subgraph.normalization.result;
    InternalSubgraph(subgraph.name, subgraph.url, r.configurationDataByTypeName, r.entityInterfaces, r.isVersionTwo,
                     r.keyFieldNamesByParentTypeName, r.operationTypes, map[], r.parentDefinitionDataByTypeName)
  }

  // ----- subgraph names -----

  /** The names given to the first `n` subgraphs. */
  function NamesOf(subgraphs: seq<Subgraph>, n: nat): set<string>
    requires n <= |subgraphs|
  {
    set j | 0 <= j < n && subgraphs[j].name != "" :: subgraphs[j].name
  }

  /** The names given to two or more of the first `n` subgraphs. */
  function RepeatedNames(subgraphs: seq<Subgraph>, n: nat): set<string>
    requires n <= |subgraphs|
  {
    set j1, j2 | 0 <= j1 < j2 < n && subgraphs[j1].name != "" && subgraphs[j1].name == subgraphs[j2].name
      :: subgraphs[j1].name
  }

  /** One more subgraph adds its name, and repeats it when an earlier subgraph already had it. */
  lemma NamesStep(subgraphs: seq<Subgraph>, n: nat)
    requires n < |subgraphs|
    ensures NamesOf(subgraphs, n + 1) ==
      NamesOf(subgraphs, n) + (if subgraphs[n].name != "" then {subgraphs[n].name} else {})
    ensures RepeatedNames(subgraphs, n + 1) ==
      RepeatedNames(subgraphs, n) +
      (if subgraphs[n].name != "" && subgraphs[n].name in NamesOf(subgraphs, n) then {subgraphs[n].name} else {})
  {
    var name := subgraphs[n].name;
    if name != "" && name in NamesOf(subgraphs, n) {
      var j :| 0 <= j < n && subgraphs[j].name != "" && subgraphs[j].name == name;
      assert name in RepeatedNames(subgraphs, n + 1);
    }
    forall x | x in RepeatedNames(subgraphs, n + 1)
      ensures x in RepeatedNames(subgraphs, n) || (name != "" && x == name && name in NamesOf(subgraphs, n))
    {
      var j1, j2 :| 0 <= j1 < j2 < n + 1 && subgraphs[j1].name != "" && subgraphs[j1].name == subgraphs[j2].name &&
                    x == subgraphs[j1].name;
      if j2 == n {
        assert subgraphs[j1].name in NamesOf(subgraphs, n);
      } else {
        assert x in RepeatedNames(subgraphs, n);
      }
    }
  }

  /** The positions, in order, of the first `n` subgraphs that have no name. */
  function UnnamedIndices(subgraphs: seq<Subgraph>, n: nat): (r: seq<nat>)
    requires n <= |subgraphs|
    ensures forall k: nat :: k in r <==> k < n && subgraphs[k].name == ""
    ensures forall a :: 0 <= a < |r| ==> r[a] < n
    ensures forall a, b :: 0 <= a < b < |r| ==> r[a] < r[b]
  {
    if n == 0 then []
    else UnnamedIndices(subgraphs, n - 1) + (if subgraphs[n - 1].name == "" then [n - 1] else [])
  }

  /** The one error about names: the repeated names and the unnamed positions, when there are any. */
  function NameErrors(subgraphs: seq<Subgraph>): seq<BatchError> {
    var unnamed := UnnamedIndices(subgraphs, |subgraphs|);
    var repeated := RepeatedNames(subgraphs, |subgraphs|);
    if unnamed != [] || repeated != {} then [InvalidSubgraphNames(repeated, unnamed)] else []
  }

  /** Some position is listed as unnamed exactly when some subgraph has no name. */
  lemma UnnamedReported(subgraphs: seq<Subgraph>)
    ensures UnnamedIndices(subgraphs, |subgraphs|) != [] <==> exists i :: 0 <= i < |subgraphs| && subgraphs[i].name == ""
  {
    var unnamed := UnnamedIndices(subgraphs, |subgraphs|);
    if exists i :: 0 <= i < |subgraphs| && subgraphs[i].name == "" {
      var i :| 0 <= i < |subgraphs| && subgraphs[i].name == "";
      assert i in unnamed;
    }
    if unnamed != [] {
      assert unnamed[0] in unnamed;
    }
  }

  /** Some name is repeated exactly when two subgraphs share one. */
  lemma RepeatedReported(subgraphs: seq<Subgraph>)
    ensures RepeatedNames(subgraphs, |subgraphs|) != {} <==>
      exists j1, j2 :: 0 <= j1 < j2 < |subgraphs| && subgraphs[j1].name != "" && subgraphs[j1].name == subgraphs[j2].name
  {
    var repeated := RepeatedNames(subgraphs, |subgraphs|);
    if exists j1, j2 :: 0 <= j1 < j2 < |subgraphs| && subgraphs[j1].name != "" && subgraphs[j1].name == subgraphs[j2].name {
      var j1, j2 :| 0 <= j1 < j2 < |subgraphs| && subgraphs[j1].name != "" && subgraphs[j1].name == subgraphs[j2].name;
      assert subgraphs[j1].name in repeated;
    }
  }

  // ----- failed subgraphs -----

  /** One validation error, in batch order, for each of the first `n` subgraphs that did not normalize. */
  function ValidationErrors(subgraphs: seq<Subgraph>, n: nat): (r: seq<BatchError>)
    requires n <= |subgraphs|
    ensures forall e :: e in r ==> e.SubgraphValidation?
    ensures forall j :: 0 <= j < n && subgraphs[j].normalization.NotNormalized? ==>
      SubgraphValidation(DisplayName(subgraphs, j), subgraphs[j].normalization.errors) in r
    ensures r == [] <==> forall j :: 0 <= j < n ==> subgraphs[j].normalization.Normalized?
  {
    if n == 0 then []
    else
      ValidationErrors(subgraphs, n - 1) +
      match subgraphs[n - 1].normalization
      case NotNormalized(errors, _) => [SubgraphValidation(DisplayName(subgraphs, n - 1), errors)]
      case Normalized(_, _) => []
  }

  // ----- abstract types and entities -----

  function MergedConcreteTypes(a: map<string, set<string>>, b: map<string, set<string>>): (r: map<string, set<string>>)
  {
    map t | t in a.Keys + b.Keys :: (if t in a then a[t] else {}) + (if t in b then b[t] else {})
  }

  /** Merging one more abstract type extends or adds that type alone; merging nothing changes nothing. */
  lemma MergedConcreteTypesStep(a: map<string, set<string>>, b: map<string, set<string>>, t: string, v: set<string>)
    ensures MergedConcreteTypes(a, map[]) == a
    ensures t !in b ==>
      MergedConcreteTypes(a, b[t := v]) == MergedConcreteTypes(a, b)[t := (if t in a then a[t] else {}) + v]
  {
    forall u | u in a
      ensures a[u] + {} == a[u]
    {
    }
  }

  /** The entries of `m` at the given keys. */
  function Restrict(m: map<string, set<string>>, keys: set<string>): (r: map<string, set<string>>)
    ensures r.Keys == keys * m.Keys
  {
    map u | u in keys && u in m :: m[u]
  }

  lemma RestrictStep(m: map<string, set<string>>, keys: set<string>, t: string)
    ensures Restrict(m, {}) == map[]
    ensures t in m ==> Restrict(m, keys + {t}) == Restrict(m, keys)[t := m[t]]
    ensures Restrict(m, m.Keys) == m
  {
  }

  /** Merging the incoming concrete types of one more abstract type copies them, or extends the known ones. */
  lemma MergeConcreteStep(concrete: map<string, set<string>>, incoming: map<string, set<string>>, done: set<string>,
                          t: string, merged: map<string, set<string>>)
    requires t in incoming && t !in done
    requires merged == MergedConcreteTypes(concrete, Restrict(incoming, done))
    ensures t !in merged ==> MergedConcreteTypes(concrete, Restrict(incoming, done + {t})) == merged[t := incoming[t]]
    ensures t in merged ==> MergedConcreteTypes(concrete, Restrict(incoming, done + {t})) == merged[t := merged[t] + incoming[t]]
  {
    RestrictStep(incoming, done, t);
    MergedConcreteTypesStep(concrete, Restrict(incoming, done), t, incoming[t]);
    if t !in merged {
      assert {} + incoming[t] == incoming[t];
    }
  }

  function ConcreteTypesOfSubgraph(subgraph: Subgraph): map<string, set<string>> {
    if subgraph.normalization.Normalized? then subgraph.normalization.result.concreteTypeNamesByAbstractTypeName else map[]
  }

  /** The abstract-to-concrete membership of the first `n` subgraphs that normalized, merged. */
  function ConcreteTypesUpTo(subgraphs: seq<Subgraph>, n: nat): map<string, set<string>>
    requires n <= |subgraphs|
  {
    if n == 0 then map[] else MergedConcreteTypes(ConcreteTypesUpTo(subgraphs, n - 1), ConcreteTypesOfSubgraph(subgraphs[n - 1]))
  }

  /**
   * An abstract type is known to the batch exactly when some normalized subgraph knows it,
   * and its concrete types are those any normalized subgraph records for it.
   */
  lemma {:induction false} ConcreteTypesUpToIff(subgraphs: seq<Subgraph>, n: nat, t: string, c: string)
    requires n <= |subgraphs|
    ensures t in ConcreteTypesUpTo(subgraphs, n) <==>
      exists j :: 0 <= j < n && t in ConcreteTypesOfSubgraph(subgraphs[j])
    ensures t in ConcreteTypesUpTo(subgraphs, n) ==>
      (c in ConcreteTypesUpTo(subgraphs, n)[t] <==>
       exists j :: 0 <= j < n && t in ConcreteTypesOfSubgraph(subgraphs[j]) && c in ConcreteTypesOfSubgraph(subgraphs[j])[t])
  {
    if n > 0 {
      ConcreteTypesUpToIff(subgraphs, n - 1, t, c);
      var last := ConcreteTypesOfSubgraph(subgraphs[n - 1]);
      if t in last && c in last[t] {
        assert c in ConcreteTypesUpTo(subgraphs, n)[t];
      }
      if exists j :: 0 <= j < n && t in ConcreteTypesOfSubgraph(subgraphs[j]) {
        var j :| 0 <= j < n && t in ConcreteTypesOfSubgraph(subgraphs[j]);
        if j < n - 1 {
          assert t in ConcreteTypesUpTo(subgraphs, n - 1);
        }
      }
      if exists j :: 0 <= j < n && t in ConcreteTypesOfSubgraph(subgraphs[j]) && c in ConcreteTypesOfSubgraph(subgraphs[j])[t] {
        var j :| 0 <= j < n && t in ConcreteTypesOfSubgraph(subgraphs[j]) && c in ConcreteTypesOfSubgraph(subgraphs[j])[t];
        if j < n - 1 {
          assert c in ConcreteTypesUpTo(subgraphs, n - 1)[t];
        }
      }
    }
  }

  function EntityTypeNamesOfSubgraph(subgraph: Subgraph): set<string> {
    if subgraph.normalization.Normalized? then subgraph.normalization.result.entityTypeNames else {}
  }

  /** The entities of the first `n` subgraphs that normalized. */
  function EntityTypeNamesUpTo(subgraphs: seq<Subgraph>, n: nat): (r: set<string>)
    requires n <= |subgraphs|
    ensures forall j :: 0 <= j < n ==> EntityTypeNamesOfSubgraph(subgraphs[j]) <= r
  {
    if n == 0 then {} else EntityTypeNamesUpTo(subgraphs, n - 1) + EntityTypeNamesOfSubgraph(subgraphs[n - 1])
  }

  // ----- overrides -----

  function OverridesOf(subgraph: Subgraph): OverrideMap {
    if subgraph.normalization.Normalized? then subgraph.normalization.result.overridesByTargetSubgraphName else map[]
  }

  function RenamesOf(subgraph: Subgraph): map<string, string> {
    if subgraph.normalization.Normalized? then subgraph.normalization.result.originalTypeNameByRenamedTypeName else map[]
  }

  /** A renamed root type is reported under its original name; an empty original name falls back to the type's own. */
  function OriginalTypeName(renames: map<string, string>, typeName: string): string {
    if typeName in renames && renames[typeName] != "" then renames[typeName] else typeName
  }

  /** The field paths a subgraph overrides, named by the original name of each parent type. */
  function OverriddenFieldPaths(overrides: OverrideMap, renames: map<string, string>): set<Path> {
    set t, p, f | t in overrides && p in overrides[t] && f in overrides[t][p] :: ChildPath(OriginalTypeName(renames, p), f)
  }

  function PathsOfSubgraph(subgraph: Subgraph): set<Path> {
    OverriddenFieldPaths(OverridesOf(subgraph), RenamesOf(subgraph))
  }

  /** The warning a subgraph gets for the overrides of one parent type aimed at an unknown subgraph. */
  function TargetWarning(subgraph: Subgraph, target: string, parentTypeName: string): Warning
    requires target in OverridesOf(subgraph) && parentTypeName in OverridesOf(subgraph)[target]
  {
    InvalidOverrideTargetSubgraphName(target, OriginalTypeName(RenamesOf(subgraph), parentTypeName),
                                      OverridesOf(subgraph)[target][parentTypeName], subgraph.name)
  }

  function Entries(o: OverrideMap, target: string): map<string, set<string>> {
    if target in o then o[target] else map[]
  }

  function FieldsOf(o: OverrideMap, target: string, parentTypeName: string): set<string> {
    if target in o && parentTypeName in o[target] then o[target][parentTypeName] else {}
  }

  /** The field names of one parent type added under one target, as the batch records an accepted override. */
  function MergeOne(all: OverrideMap, target: string, parentTypeName: string, fieldNames: set<string>): OverrideMap {
    all[target := Entries(all, target)[parentTypeName := FieldsOf(all, target, parentTypeName) + fieldNames]]
  }

  /**
   * `accepted` lists, per target, exactly the parent types of `parents` and the fields of
   * `fields`, and lists no target without a parent type.
   */
  ghost predicate Records(accepted: OverrideMap, parents: set<(string, string)>, fields: set<(string, string, string)>) {
    && (forall t, p :: p in Entries(accepted, t) <==> (t, p) in parents)
    && (forall t, p, f :: f in FieldsOf(accepted, t, p) <==> (t, p, f) in fields)
    && (forall t :: t in accepted ==> accepted[t] != map[])
  }

  /** Recording one parent type's fields under a target adds that pair and those fields, and nothing else. */
  lemma MergeOneRecords(accepted: OverrideMap, parents: set<(string, string)>, fields: set<(string, string, string)>,
                        target: string, p: string, fieldNames: set<string>)
    requires Records(accepted, parents, fields)
    ensures Records(MergeOne(accepted, target, p, fieldNames), parents + {(target, p)},
                    fields + set f | f in fieldNames :: (target, p, f))
  {
    var r := MergeOne(accepted, target, p, fieldNames);
    forall t, q
      ensures q in Entries(r, t) <==> (t, q) in parents + {(target, p)}
    {
      assert q in Entries(accepted, t) <==> (t, q) in parents;
    }
    forall t, q, f
      ensures f in FieldsOf(r, t, q) <==> (t, q, f) in fields + set g | g in fieldNames :: (target, p, g)
    {
      assert f in FieldsOf(accepted, t, q) <==> (t, q, f) in fields;
    }
  }

  /** The (target, parent type) pairs of `o` at the `targets` that are `valid` subgraph names. */
  function ParentsAt(o: OverrideMap, targets: set<string>, valid: set<string>): set<(string, string)> {
    set t, p | t in targets && t in valid && t in o && p in o[t] :: (t, p)
  }

  /** The (target, parent type, field) triples of `o` at the `targets` that are `valid` subgraph names. */
  function FieldsAt(o: OverrideMap, targets: set<string>, valid: set<string>): set<(string, string, string)> {
    set t, p, f | t in targets && t in valid && t in o && p in o[t] && f in o[t][p] :: (t, p, f)
  }

  /** The pairs of one target of `o`, for the parent types among `parents`, when the target is valid. */
  function TargetParentsAt(o: OverrideMap, target: string, parents: set<string>, valid: set<string>): set<(string, string)>
    requires target in o
  {
    set p | p in parents && p in o[target] && target in valid :: (target, p)
  }

  function TargetFieldsAt(o: OverrideMap, target: string, parents: set<string>, valid: set<string>)
    : set<(string, string, string)>
    requires target in o
  {
    set p, f | p in parents && p in o[target] && target in valid && f in o[target][p] :: (target, p, f)
  }

  lemma TargetStep(o: OverrideMap, target: string, parents: set<string>, p: string, valid: set<string>)
    requires target in o && p in o[target]
    ensures TargetParentsAt(o, target, {}, valid) == {} && TargetFieldsAt(o, target, {}, valid) == {}
    ensures TargetParentsAt(o, target, parents + {p}, valid) ==
      TargetParentsAt(o, target, parents, valid) + (if target in valid then {(target, p)} else {})
    ensures TargetFieldsAt(o, target, parents + {p}, valid) ==
      TargetFieldsAt(o, target, parents, valid) + (if target in valid then set f | f in o[target][p] :: (target, p, f) else {})
  {
  }

  /** Accepting, at a valid target, one more parent type records its pair and fields; an invalid target records nothing. */
  lemma TargetRecordsStep(accepted: OverrideMap, parents: set<(string, string)>, fields: set<(string, string, string)>,
                          o: OverrideMap, target: string, done: set<string>, p: string, valid: set<string>)
    requires target in o && p in o[target]
    requires Records(accepted, parents + TargetParentsAt(o, target, done, valid), fields + TargetFieldsAt(o, target, done, valid))
    ensures Records(if target in valid then MergeOne(accepted, target, p, o[target][p]) else accepted,
                    parents + TargetParentsAt(o, target, done + {p}, valid), fields + TargetFieldsAt(o, target, done + {p}, valid))
  {
    TargetStep(o, target, done, p, valid);
    if target in valid {
      MergeOneRecords(accepted, parents + TargetParentsAt(o, target, done, valid),
                      fields + TargetFieldsAt(o, target, done, valid), target, p, o[target][p]);
      assert parents + TargetParentsAt(o, target, done + {p}, valid) ==
             parents + TargetParentsAt(o, target, done, valid) + {(target, p)};
      assert fields + TargetFieldsAt(o, target, done + {p}, valid) ==
             fields + TargetFieldsAt(o, target, done, valid) + set f | f in o[target][p] :: (target, p, f);
    } else {
      assert TargetParentsAt(o, target, done + {p}, valid) == TargetParentsAt(o, target, done, valid);
      assert TargetFieldsAt(o, target, done + {p}, valid) == TargetFieldsAt(o, target, done, valid);
    }
  }

  lemma TargetsStep(o: OverrideMap, targets: set<string>, t: string, valid: set<string>)
    requires t in o
    ensures ParentsAt(o, {}, valid) == {} && FieldsAt(o, {}, valid) == {}
    ensures ParentsAt(o, targets + {t}, valid) == ParentsAt(o, targets, valid) + TargetParentsAt(o, t, o[t].Keys, valid)
    ensures FieldsAt(o, targets + {t}, valid) == FieldsAt(o, targets, valid) + TargetFieldsAt(o, t, o[t].Keys, valid)
  {
  }

  /** The pairs and fields accepted from one more target join those of the earlier targets. */
  lemma TargetsRecordsStep(parents: set<(string, string)>, fields: set<(string, string, string)>, o: OverrideMap,
                           done: set<string>, t: string, valid: set<string>)
    requires t in o
    ensures parents + ParentsAt(o, done + {t}, valid) == parents + ParentsAt(o, done, valid) + TargetParentsAt(o, t, o[t].Keys, valid)
    ensures fields + FieldsAt(o, done + {t}, valid) == fields + FieldsAt(o, done, valid) + TargetFieldsAt(o, t, o[t].Keys, valid)
  {
    TargetsStep(o, done, t, valid);
  }

  /** The (target, parent type) pairs the first `n` subgraphs override at one of the `valid` subgraph names. */
  function AcceptedParents(subgraphs: seq<Subgraph>, n: nat, valid: set<string>): set<(string, string)>
    requires n <= |subgraphs|
  {
    set j, t, p | 0 <= j < n && t in OverridesOf(subgraphs[j]) && t in valid && p in OverridesOf(subgraphs[j])[t] :: (t, p)
  }

  /** The fields the first `n` subgraphs override, per target and parent type, at one of the `valid` subgraph names. */
  function AcceptedFields(subgraphs: seq<Subgraph>, n: nat, valid: set<string>): set<(string, string, string)>
    requires n <= |subgraphs|
  {
    set j, t, p, f | 0 <= j < n && t in OverridesOf(subgraphs[j]) && t in valid && p in OverridesOf(subgraphs[j])[t] &&
                     f in OverridesOf(subgraphs[j])[t][p] :: (t, p, f)
  }

  lemma AcceptedStep(subgraphs: seq<Subgraph>, n: nat, valid: set<string>)
    requires n < |subgraphs|
    ensures AcceptedParents(subgraphs, 0, valid) == {} && AcceptedFields(subgraphs, 0, valid) == {}
    ensures var o := OverridesOf(subgraphs[n]);
      AcceptedParents(subgraphs, n + 1, valid) == AcceptedParents(subgraphs, n, valid) + ParentsAt(o, o.Keys, valid)
    ensures var o := OverridesOf(subgraphs[n]);
      AcceptedFields(subgraphs, n + 1, valid) == AcceptedFields(subgraphs, n, valid) + FieldsAt(o, o.Keys, valid)
  {
    var o := OverridesOf(subgraphs[n]);
    forall e | e in AcceptedParents(subgraphs, n + 1, valid)
      ensures e in AcceptedParents(subgraphs, n, valid) + ParentsAt(o, o.Keys, valid)
    {
      var j, t, p :| 0 <= j < n + 1 && t in OverridesOf(subgraphs[j]) && t in valid && p in OverridesOf(subgraphs[j])[t] &&
                     e == (t, p);
      if j < n {
        assert e in AcceptedParents(subgraphs, n, valid);
      }
    }
    forall e | e in ParentsAt(o, o.Keys, valid)
      ensures e in AcceptedParents(subgraphs, n + 1, valid)
    {
      var t, p :| t in o.Keys && t in valid && t in o && p in o[t] && e == (t, p);
      assert 0 <= n < n + 1 && t in OverridesOf(subgraphs[n]);
    }
    forall e | e in AcceptedFields(subgraphs, n + 1, valid)
      ensures e in AcceptedFields(subgraphs, n, valid) + FieldsAt(o, o.Keys, valid)
    {
      var j, t, p, f :| 0 <= j < n + 1 && t in OverridesOf(subgraphs[j]) && t in valid && p in OverridesOf(subgraphs[j])[t] &&
                        f in OverridesOf(subgraphs[j])[t][p] && e == (t, p, f);
      if j < n {
        assert e in AcceptedFields(subgraphs, n, valid);
      }
    }
    forall e | e in FieldsAt(o, o.Keys, valid)
      ensures e in AcceptedFields(subgraphs, n + 1, valid)
    {
      var t, p, f :| t in o.Keys && t in valid && t in o && p in o[t] && f in o[t][p] && e == (t, p, f);
      assert 0 <= n < n + 1 && t in OverridesOf(subgraphs[n]);
    }
  }

  /** The paths of the fields of one type. */
  function FieldPaths(typeName: string, fieldNames: set<string>): set<Path> {
    set f | f in fieldNames :: ChildPath(typeName, f)
  }

  /** Where each overridden field path was declared, and the paths declared more than once. */
  ghost predicate SourcesConsistent(sources: map<Path, seq<SubgraphDisplayName>>, duplicates: set<Path>) {
    (forall q :: q in sources ==> |sources[q]| >= 1) &&
    (forall q :: q in duplicates <==> q in sources && |sources[q]| >= 2)
  }

  /** No source list shrinks, and each of `paths` gains at least one more source. */
  ghost predicate SourcesGrow(before: map<Path, seq<SubgraphDisplayName>>, after: map<Path, seq<SubgraphDisplayName>>, paths: set<Path>) {
    (forall q :: q in before ==> q in after && |after[q]| >= |before[q]|) &&
    (forall q :: q in paths ==> q in after && (q in before ==> |after[q]| > |before[q]|))
  }

  /** The sources of each of `paths` with one more source appended. */
  function WithSource(sources: map<Path, seq<SubgraphDisplayName>>, paths: set<Path>, source: SubgraphDisplayName)
    : map<Path, seq<SubgraphDisplayName>>
  {
    map q | q in sources.Keys + paths :: if q in paths then (if q in sources then sources[q] else []) + [source] else sources[q]
  }

  lemma WithSourceStep(sources: map<Path, seq<SubgraphDisplayName>>, paths: set<Path>, q: Path, source: SubgraphDisplayName)
    requires q !in paths
    ensures WithSource(sources, paths + {q}, source) ==
      WithSource(sources, paths, source)[q := (if q in sources then sources[q] else []) + [source]]
    ensures WithSource(sources, {}, source) == sources
  {
  }

  /** A path of a field of the given type names that field. */
  lemma FieldPathsStep(typeName: string, fieldNames: set<string>, f: string)
    ensures FieldPaths(typeName, fieldNames + {f}) == FieldPaths(typeName, fieldNames) + {ChildPath(typeName, f)}
    ensures f !in fieldNames ==> ChildPath(typeName, f) !in FieldPaths(typeName, fieldNames)
  {
  }

  /** Appending one more field's source adds that one path, and makes it a duplicate when it was known. */
  lemma WithSourceFieldStep(sources: map<Path, seq<SubgraphDisplayName>>, typeName: string, done: set<string>, f: string,
                            source: SubgraphDisplayName)
    requires f !in done
    ensures WithSource(sources, FieldPaths(typeName, {}), source) == sources
    ensures var path := ChildPath(typeName, f);
      var before := WithSource(sources, FieldPaths(typeName, done), source);
      && (path in before <==> path in sources)
      && (path in before ==> before[path] == sources[path])
      && WithSource(sources, FieldPaths(typeName, done + {f}), source) ==
           before[path := (if path in sources then sources[path] else []) + [source]]
      && FieldPaths(typeName, done + {f}) * sources.Keys ==
           FieldPaths(typeName, done) * sources.Keys + (if path in sources then {path} else {})
  {
    var path := ChildPath(typeName, f);
    FieldPathsStep(typeName, done, f);
    WithSourceStep(sources, FieldPaths(typeName, done), path, source);
  }

  /**
   * Appending a source keeps a path's duplicate status consistent with its list: a path
   * seen before becomes a duplicate, a new path has one source.
   */
  lemma WithSourceKeepsConsistent(sources: map<Path, seq<SubgraphDisplayName>>, duplicates: set<Path>, paths: set<Path>,
                                  source: SubgraphDisplayName)
    requires SourcesConsistent(sources, duplicates)
    ensures SourcesConsistent(WithSource(sources, paths, source), duplicates + (paths * sources.Keys))
    ensures SourcesGrow(sources, WithSource(sources, paths, source), paths)
  {
    var r := WithSource(sources, paths, source);
    forall q | q in r
      ensures |r[q]| >= 1
      ensures q in duplicates + (paths * sources.Keys) <==> |r[q]| >= 2
    {
      if q in paths {
        assert |r[q]| == (if q in sources then |sources[q]| else 0) + 1;
      }
    }
  }

  // ----- the exact sources of each overridden path -----

  /** The (target, parent type) pairs of `o` at the targets among `targets`. */
  function PairsOf(o: OverrideMap, targets: set<string>): set<(string, string)> {
    set t, p | t in targets && t in o && p in o[t] :: (t, p)
  }

  /** The (target, parent type) pairs of `o` at one target, for the parent types among `parents`. */
  function PairsAt(o: OverrideMap, target: string, parents: set<string>): set<(string, string)>
    requires target in o
  {
    set p | p in parents && p in o[target] :: (target, p)
  }

  /** The fields overridden for the parent type of `pair` at its target include the one at path `q`. */
  predicate Hits(o: OverrideMap, renames: map<string, string>, pair: (string, string), q: Path) {
    pair.0 in o && pair.1 in o[pair.0] && q in FieldPaths(OriginalTypeName(renames, pair.1), o[pair.0][pair.1])
  }

  /** How many of `pairs` override the field at path `q`. */
  function HitCount(o: OverrideMap, renames: map<string, string>, pairs: set<(string, string)>, q: Path): nat {
    |set pair | pair in pairs && Hits(o, renames, pair, q)|
  }

  /** `k` copies of `x`. */
  function Repeat(x: SubgraphDisplayName, k: nat): (r: seq<SubgraphDisplayName>)
    ensures |r| == k && forall y :: y in r ==> y == x
  {
    if k == 0 then [] else Repeat(x, k - 1) + [x]
  }

  /** The sources a path had before, or none. */
  function PriorSources(sources: map<Path, seq<SubgraphDisplayName>>, q: Path): seq<SubgraphDisplayName> {
    if q in sources then sources[q] else []
  }

  /** Each path has the sources it had in `base`, followed by `source` once per pair of `pairs` overriding it. */
  ghost predicate Counted(base: map<Path, seq<SubgraphDisplayName>>, sources: map<Path, seq<SubgraphDisplayName>>,
                          o: OverrideMap, renames: map<string, string>, pairs: set<(string, string)>, source: SubgraphDisplayName)
  {
    forall q ::
      && (q in sources <==> q in base || HitCount(o, renames, pairs, q) >= 1)
      && (q in sources ==> sources[q] == PriorSources(base, q) + Repeat(source, HitCount(o, renames, pairs, q)))
  }

  /** The paths that some pair of `pairs` overrides. */
  function HitPaths(o: OverrideMap, renames: map<string, string>, pairs: set<(string, string)>): set<Path> {
    set pair, f | pair in pairs && pair.0 in o && pair.1 in o[pair.0] && f in o[pair.0][pair.1] ::
      ChildPath(OriginalTypeName(renames, pair.1), f)
  }

  /** The sources `Counted` describes, as one map: those of `base`, then `source` once per pair overriding the path. */
  function CountedSources(base: map<Path, seq<SubgraphDisplayName>>, o: OverrideMap, renames: map<string, string>,
                          pairs: set<(string, string)>, source: SubgraphDisplayName): map<Path, seq<SubgraphDisplayName>>
  {
    map q | q in base.Keys + HitPaths(o, renames, pairs) :: PriorSources(base, q) + Repeat(source, HitCount(o, renames, pairs, q))
  }

  lemma HitPathsCount(o: OverrideMap, renames: map<string, string>, pairs: set<(string, string)>, q: Path)
    ensures q in HitPaths(o, renames, pairs) <==> HitCount(o, renames, pairs, q) >= 1
  {
    var hits := set pair | pair in pairs && Hits(o, renames, pair, q);
    if q in HitPaths(o, renames, pairs) {
      var pair, f :| pair in pairs && pair.0 in o && pair.1 in o[pair.0] && f in o[pair.0][pair.1] &&
        q == ChildPath(OriginalTypeName(renames, pair.1), f);
      assert pair in hits;
    }
    if |hits| >= 1 {
      var pair :| pair in hits;
      var f :| f in o[pair.0][pair.1] && q == ChildPath(OriginalTypeName(renames, pair.1), f);
    }
  }

  /** The map `CountedSources` gives is counted. */
  lemma CountedSourcesCounted(base: map<Path, seq<SubgraphDisplayName>>, o: OverrideMap, renames: map<string, string>,
                              pairs: set<(string, string)>, source: SubgraphDisplayName)
    ensures Counted(base, CountedSources(base, o, renames, pairs, source), o, renames, pairs, source)
  {
    var c := CountedSources(base, o, renames, pairs, source);
    forall q
      ensures q in c <==> q in base || HitCount(o, renames, pairs, q) >= 1
      ensures q in c ==> c[q] == PriorSources(base, q) + Repeat(source, HitCount(o, renames, pairs, q))
    {
      HitPathsCount(o, renames, pairs, q);
    }
  }

  /** A counted map of sources is the one `CountedSources` gives. */
  lemma CountedIsCountedSources(base: map<Path, seq<SubgraphDisplayName>>, sources: map<Path, seq<SubgraphDisplayName>>,
                                o: OverrideMap, renames: map<string, string>, pairs: set<(string, string)>,
                                source: SubgraphDisplayName)
    requires Counted(base, sources, o, renames, pairs, source)
    ensures sources == CountedSources(base, o, renames, pairs, source)
  {
    var c := CountedSources(base, o, renames, pairs, source);
    CountedSourcesCounted(base, o, renames, pairs, source);
    forall q ensures q in sources <==> q in c {
      assert q in sources <==> q in base || HitCount(o, renames, pairs, q) >= 1;
    }
    assert sources.Keys == c.Keys;
  }

  lemma CountedAtStart(base: map<Path, seq<SubgraphDisplayName>>, o: OverrideMap, renames: map<string, string>,
                       source: SubgraphDisplayName)
    ensures Counted(base, base, o, renames, {}, source)
  {
    forall q ensures HitCount(o, renames, {}, q) == 0 {
      assert (set pair | pair in {} && Hits(o, renames, pair, q)) == {};
    }
  }

  /** One more pair counts once more exactly for the paths it overrides. */
  lemma HitCountStep(o: OverrideMap, renames: map<string, string>, pairs: set<(string, string)>, pair: (string, string), q: Path)
    requires pair !in pairs
    ensures HitCount(o, renames, pairs + {pair}, q) == HitCount(o, renames, pairs, q) + (if Hits(o, renames, pair, q) then 1 else 0)
  {
    var before := set x | x in pairs && Hits(o, renames, x, q);
    var after := set x | x in pairs + {pair} && Hits(o, renames, x, q);
    if Hits(o, renames, pair, q) {
      assert after == before + {pair};
      assert pair !in before;
    } else {
      assert after == before;
    }
  }

  /** At one path, appending the source for one more pair keeps the count exact. */
  lemma CountedStepAt(base: map<Path, seq<SubgraphDisplayName>>, sources: map<Path, seq<SubgraphDisplayName>>,
                      o: OverrideMap, renames: map<string, string>, pairs: set<(string, string)>, target: string, p: string,
                      source: SubgraphDisplayName, q: Path)
    requires target in o && p in o[target] && (target, p) !in pairs
    requires q in sources <==> q in base || HitCount(o, renames, pairs, q) >= 1
    requires q in sources ==> sources[q] == PriorSources(base, q) + Repeat(source, HitCount(o, renames, pairs, q))
    ensures var sources' := WithSource(sources, FieldPaths(OriginalTypeName(renames, p), o[target][p]), source);
      && (q in sources' <==> q in base || HitCount(o, renames, pairs + {(target, p)}, q) >= 1)
      && (q in sources' ==> sources'[q] == PriorSources(base, q) + Repeat(source, HitCount(o, renames, pairs + {(target, p)}, q)))
  {
    var paths := FieldPaths(OriginalTypeName(renames, p), o[target][p]);
    HitCountStep(o, renames, pairs, (target, p), q);
    assert Hits(o, renames, (target, p), q) <==> q in paths;
    if q in paths && q in sources {
      var k := HitCount(o, renames, pairs, q);
      assert WithSource(sources, paths, source)[q] == PriorSources(base, q) + Repeat(source, k) + [source];
    } else if q in paths {
      assert HitCount(o, renames, pairs, q) == 0 && q !in base;
    }
  }

  /** Appending the source to the paths of one more pair's fields keeps the count exact. */
  lemma CountedStep(base: map<Path, seq<SubgraphDisplayName>>, sources: map<Path, seq<SubgraphDisplayName>>,
                    o: OverrideMap, renames: map<string, string>, pairs: set<(string, string)>, target: string, p: string,
                    source: SubgraphDisplayName)
    requires target in o && p in o[target] && (target, p) !in pairs
    requires Counted(base, sources, o, renames, pairs, source)
    ensures Counted(base, WithSource(sources, FieldPaths(OriginalTypeName(renames, p), o[target][p]), source),
                    o, renames, pairs + {(target, p)}, source)
  {
    var sources' := WithSource(sources, FieldPaths(OriginalTypeName(renames, p), o[target][p]), source);
    forall q
      ensures q in sources' <==> q in base || HitCount(o, renames, pairs + {(target, p)}, q) >= 1
      ensures q in sources' ==>
        sources'[q] == PriorSources(base, q) + Repeat(source, HitCount(o, renames, pairs + {(target, p)}, q))
    {
      CountedStepAt(base, sources, o, renames, pairs, target, p, source, q);
    }
  }

  lemma PairsAtStep(o: OverrideMap, target: string, parents: set<string>, p: string)
    requires target in o && p in o[target]
    ensures PairsAt(o, target, parents + {p}) == PairsAt(o, target, parents) + {(target, p)}
  {
  }

  lemma PairsOfStep(o: OverrideMap, targets: set<string>, t: string)
    requires t in o
    ensures PairsOf(o, targets + {t}) == PairsOf(o, targets) + PairsAt(o, t, o[t].Keys)
    ensures t !in targets ==> forall pair :: pair in PairsOf(o, targets) ==> pair.0 != t
    ensures PairsOf(o, {}) == {}
  {
  }

  /** How many times a subgraph's overrides name the field at path `q`: once per (target, parent type) pair. */
  function Multiplicity(subgraph: Subgraph, q: Path): nat {
    HitCount(OverridesOf(subgraph), RenamesOf(subgraph), PairsOf(OverridesOf(subgraph), OverridesOf(subgraph).Keys), q)
  }

  /**
   * The sources the first `n` subgraphs give the field at path `q`: in batch order, each
   * subgraph's display name once per (target, parent type) pair of its overrides naming that field.
   */
  function SourcesOf(subgraphs: seq<Subgraph>, n: nat, q: Path): seq<SubgraphDisplayName>
    requires n <= |subgraphs|
  {
    if n == 0 then []
    else SourcesOf(subgraphs, n - 1, q) + Repeat(DisplayName(subgraphs, n - 1), Multiplicity(subgraphs[n - 1], q))
  }

  /** A subgraph names a path among its sources exactly when it overrides that path. */
  lemma MultiplicityPositive(subgraph: Subgraph, q: Path)
    ensures Multiplicity(subgraph, q) >= 1 <==> q in PathsOfSubgraph(subgraph)
  {
    var o, renames := OverridesOf(subgraph), RenamesOf(subgraph);
    var hits := set pair | pair in PairsOf(o, o.Keys) && Hits(o, renames, pair, q);
    if q in PathsOfSubgraph(subgraph) {
      var t, p, f :| t in o && p in o[t] && f in o[t][p] && q == ChildPath(OriginalTypeName(renames, p), f);
      assert (t, p) in hits;
    }
    if |hits| >= 1 {
      var pair :| pair in hits;
      var f :| f in o[pair.0][pair.1] && q == ChildPath(OriginalTypeName(renames, pair.1), f);
    }
  }

  /**
   * The sources of a path are the display names of exactly the subgraphs, among the first
   * `n`, that override it.
   */
  lemma {:induction false} SourcesOfMembers(subgraphs: seq<Subgraph>, n: nat, q: Path, x: SubgraphDisplayName)
    requires n <= |subgraphs|
    ensures x in SourcesOf(subgraphs, n, q) <==>
      exists j :: 0 <= j < n && x == DisplayName(subgraphs, j) && q in PathsOfSubgraph(subgraphs[j])
    decreases n
  {
    if n > 0 {
      SourcesOfMembers(subgraphs, n - 1, q, x);
      MultiplicityPositive(subgraphs[n - 1], q);
      var tail := Repeat(DisplayName(subgraphs, n - 1), Multiplicity(subgraphs[n - 1], q));
      if q in PathsOfSubgraph(subgraphs[n - 1]) {
        assert |tail| >= 1 && tail[0] in tail;
      }
    }
  }

  /** A path two of the first `n` subgraphs override has at least two sources. */
  lemma {:induction false} SourcesOfTwoOverriders(subgraphs: seq<Subgraph>, n: nat, q: Path, j1: nat, j2: nat)
    requires j1 < j2 < n <= |subgraphs|
    requires q in PathsOfSubgraph(subgraphs[j1]) && q in PathsOfSubgraph(subgraphs[j2])
    ensures |SourcesOf(subgraphs, n, q)| >= 2
    decreases n
  {
    MultiplicityPositive(subgraphs[n - 1], q);
    if j2 < n - 1 {
      SourcesOfTwoOverriders(subgraphs, n - 1, q, j1, j2);
    } else {
      SourcesOfMembers(subgraphs, n - 1, q, DisplayName(subgraphs, j1));
    }
  }

  /** The sources of every path are exactly those the first `n` subgraphs give it. */
  ghost predicate ExactSources(sources: map<Path, seq<SubgraphDisplayName>>, subgraphs: seq<Subgraph>, n: nat)
    requires n <= |subgraphs|
  {
    forall q ::
      && (q in sources <==> |SourcesOf(subgraphs, n, q)| >= 1)
      && (q in sources ==> sources[q] == SourcesOf(subgraphs, n, q))
  }

  /** Counting one more subgraph's sources onto the exact sources of the first `n` gives those of the first `n + 1`. */
  lemma ExactSourcesStep(sources: map<Path, seq<SubgraphDisplayName>>, sources': map<Path, seq<SubgraphDisplayName>>,
                         subgraphs: seq<Subgraph>, n: nat)
    requires n < |subgraphs| && ExactSources(sources, subgraphs, n)
    requires var s := subgraphs[n];
      Counted(sources, sources', OverridesOf(s), RenamesOf(s), PairsOf(OverridesOf(s), OverridesOf(s).Keys), DisplayName(subgraphs, n))
    ensures ExactSources(sources', subgraphs, n + 1)
  {
    forall q
      ensures q in sources' <==> |SourcesOf(subgraphs, n + 1, q)| >= 1
      ensures q in sources' ==> sources'[q] == SourcesOf(subgraphs, n + 1, q)
    {
      assert PriorSources(sources, q) == SourcesOf(subgraphs, n, q);
    }
  }

  // ----- the warnings of the batch -----

  /** The (target, parent type) pairs of `o` at the targets among `targets` that name no subgraph of the batch. */
  function InvalidPairsOf(o: OverrideMap, targets: set<string>, names: set<string>): set<(string, string)> {
    set t, p | t in targets && t in o && t !in names && p in o[t] :: (t, p)
  }

  lemma InvalidPairsOfStep(o: OverrideMap, targets: set<string>, t: string, names: set<string>)
    requires t in o && t !in targets
    ensures InvalidPairsOf(o, targets + {t}, names) ==
      InvalidPairsOf(o, targets, names) + (if t in names then {} else PairsAt(o, t, o[t].Keys))
    ensures |InvalidPairsOf(o, targets + {t}, names)| ==
      |InvalidPairsOf(o, targets, names)| + (if t in names then 0 else |PairsAt(o, t, o[t].Keys)|)
  {
    if t !in names {
      assert InvalidPairsOf(o, targets, names) * PairsAt(o, t, o[t].Keys) == {};
    }
  }

  /** `w` is the warning a subgraph gets for the overrides of some parent type aimed at an unknown subgraph. */
  ghost predicate OverrideWarning(subgraph: Subgraph, names: set<string>, w: Warning) {
    exists t, p :: t in OverridesOf(subgraph) && t !in names && p in OverridesOf(subgraph)[t] && w == TargetWarning(subgraph, t, p)
  }

  /** `w` is a warning of one of the first `n` subgraphs: from its normalization, or for an override at an unknown target. */
  ghost predicate BatchWarning(subgraphs: seq<Subgraph>, n: nat, names: set<string>, w: Warning)
    requires n <= |subgraphs|
  {
    exists j :: 0 <= j < n && (w in subgraphs[j].normalization.warnings || OverrideWarning(subgraphs[j], names, w))
  }

  /** How many warnings the first `n` subgraphs give: their own, and one per parent type overridden at an unknown target. */
  function WarningCount(subgraphs: seq<Subgraph>, n: nat, names: set<string>): nat
    requires n <= |subgraphs|
  {
    if n == 0 then 0
    else
      var s := subgraphs[n - 1];
      WarningCount(subgraphs, n - 1, names) + |s.normalization.warnings| +
        |InvalidPairsOf(OverridesOf(s), OverridesOf(s).Keys, names)|
  }

  /** The warnings of the first `n` subgraphs: as many as they give, and each one of theirs. */
  ghost predicate WarnedUpTo(warnings: seq<Warning>, subgraphs: seq<Subgraph>, n: nat, names: set<string>)
    requires n <= |subgraphs|
  {
    |warnings| == WarningCount(subgraphs, n, names) && forall w :: w in warnings ==> BatchWarning(subgraphs, n, names, w)
  }

  /** One more subgraph's own warnings, then its override warnings, keep the count and the origin of every warning. */
  lemma WarnedStep(warnings: seq<Warning>, collected: seq<Warning>, warnings': seq<Warning>, subgraphs: seq<Subgraph>,
                   n: nat, names: set<string>)
    requires n < |subgraphs| && WarnedUpTo(warnings, subgraphs, n, names)
    requires collected == warnings + subgraphs[n].normalization.warnings
    requires var o := OverridesOf(subgraphs[n]);
      |warnings'| == |collected| + |InvalidPairsOf(o, o.Keys, names)|
    requires collected <= warnings'
    requires forall k :: |collected| <= k < |warnings'| ==> OverrideWarning(subgraphs[n], names, warnings'[k])
    ensures WarnedUpTo(warnings', subgraphs, n + 1, names)
  {
    forall w | w in warnings' ensures BatchWarning(subgraphs, n + 1, names, w) {
      var k :| 0 <= k < |warnings'| && warnings'[k] == w;
      if k < |warnings| {
        assert warnings[k] == w && w in warnings;
        assert BatchWarning(subgraphs, n, names, w);
        var j :| 0 <= j < n && (w in subgraphs[j].normalization.warnings || OverrideWarning(subgraphs[j], names, w));
        assert 0 <= j < n + 1;
      } else if k < |collected| {
        assert subgraphs[n].normalization.warnings[k - |warnings|] == w;
      }
    }
  }

  // ----- removing overridden fields -----

  /** The configuration of one type once the fields another subgraph took over are removed; a type left with none loses it. */
  function WithoutOverriddenFields(configs: map<string, ConfigurationData>, overridden: map<string, set<string>>)
    : map<string, ConfigurationData>
  {
    map t | t in configs && (t in overridden ==> configs[t].fieldNames - overridden[t] != {}) ::
      if t in overridden then configs[t].(fieldNames := configs[t].fieldNames - overridden[t]) else configs[t]
  }

  /**
   * After the overrides, a type keeps its configuration unless the fields taken over were
   * all of its fields; a kept configuration has exactly the fields not taken over, and
   * nothing else about it changes.
   */
  lemma WithoutOverriddenFieldsMeaning(configs: map<string, ConfigurationData>, overridden: map<string, set<string>>,
                                       t: string, f: string)
    ensures var r := WithoutOverriddenFields(configs, overridden);
      var taken := if t in overridden then overridden[t] else {};
      && (t in r <==> t in configs && !(configs[t].fieldNames <= taken && t in overridden))
      && (t in r ==> (f in r[t].fieldNames <==> f in configs[t].fieldNames && f !in taken))
      && (t in r ==> r[t].(fieldNames := configs[t].fieldNames) == configs[t])
  {
    if t in configs && t in overridden && configs[t].fieldNames - overridden[t] == {} {
      forall g | g in configs[t].fieldNames
        ensures g in overridden[t]
      {
        assert g !in configs[t].fieldNames - overridden[t];
      }
    }
  }

  /** Removing no fields keeps every configuration. */
  lemma WithoutNoOverriddenFields(configs: map<string, ConfigurationData>, overridden: map<string, set<string>>)
    ensures WithoutOverriddenFields(configs, map[]) == configs
    ensures WithoutOverriddenFields(configs, Restrict(overridden, {})) == configs
  {
    RestrictStep(overridden, {}, "");
  }

  /** Removing the fields of one more overridden parent type changes that type's configuration alone. */
  lemma WithoutOverriddenFieldsStep(configs: map<string, ConfigurationData>, overridden: map<string, set<string>>,
                                    done: set<string>, p: string)
    requires p in overridden && p !in done
    ensures var before := WithoutOverriddenFields(configs, Restrict(overridden, done));
      && (p in before <==> p in configs)
      && (p in before ==> before[p] == configs[p])
      && WithoutOverriddenFields(configs, Restrict(overridden, done + {p})) ==
           if p !in before then before
           else if before[p].fieldNames - overridden[p] == {} then before - {p}
           else before[p := before[p].(fieldNames := before[p].fieldNames - overridden[p])]
  {
    RestrictStep(overridden, done, p);
    var before := WithoutOverriddenFields(configs, Restrict(overridden, done));
    assert p !in Restrict(overridden, done);
  }

  /** A target subgraph once the overrides accepted for it are applied. */
  function WithOverrides(subgraph: InternalSubgraph, overridden: map<string, set<string>>): (r: InternalSubgraph)
    ensures r.name == subgraph.name && r.overriddenFieldNamesByParentTypeName == overridden
  {
    subgraph.(overriddenFieldNamesByParentTypeName := overridden,
              configurationDataByTypeName := WithoutOverriddenFields(subgraph.configurationDataByTypeName, overridden))
  }

  // ----- authorization -----

  /**
   * The batch authorization after upserting, in `order`, the authorization of the types
   * `order` names, with the host paths each upsert found over the OR-scopes limit.
   */
  function AuthorizationAlong(order: seq<string>, data: map<string, AuthorizationData>,
                              authorization: map<string, AuthorizationData>, invalid: set<Path>,
                              upsert: (map<string, AuthorizationData>, AuthorizationData) -> (map<string, AuthorizationData>, set<Path>))
    : (map<string, AuthorizationData>, set<Path>)
    decreases |order|
  {
    if order == [] then (authorization, invalid)
    else
      var prior := AuthorizationAlong(order[..|order| - 1], data, authorization, invalid, upsert);
      var t := order[|order| - 1];
      if t in data then
        var merged := upsert(prior.0, data[t]);
        (merged.0, prior.1 + merged.1)
      else prior
  }

  /** Upserts that never fail add no host path, and any upsert keeps the paths found before. */
  lemma {:induction false} AuthorizationAlongFlags(order: seq<string>, data: map<string, AuthorizationData>,
                                                   authorization: map<string, AuthorizationData>, invalid: set<Path>,
                                                   upsert: (map<string, AuthorizationData>, AuthorizationData) -> (map<string, AuthorizationData>, set<Path>))
    ensures invalid <= AuthorizationAlong(order, data, authorization, invalid, upsert).1
    ensures (forall m, a :: upsert(m, a).1 == {}) ==> AuthorizationAlong(order, data, authorization, invalid, upsert).1 == invalid
    decreases |order|
  {
    if order != [] {
      AuthorizationAlongFlags(order[..|order| - 1], data, authorization, invalid, upsert);
    }
  }

  /**
   * Every host path an upsert along `order` finds over the OR-scopes limit is among the
   * paths the fold reports.
   */
  lemma {:induction false} AuthorizationAlongReports(order: seq<string>, data: map<string, AuthorizationData>,
                                                     authorization: map<string, AuthorizationData>, invalid: set<Path>,
                                                     upsert: (map<string, AuthorizationData>, AuthorizationData) -> (map<string, AuthorizationData>, set<Path>),
                                                     i: nat)
    requires i < |order| && order[i] in data
    ensures upsert(AuthorizationAlong(order[..i], data, authorization, invalid, upsert).0, data[order[i]]).1
            <= AuthorizationAlong(order, data, authorization, invalid, upsert).1
    decreases |order|
  {
    if i < |order| - 1 {
      var front := order[..|order| - 1];
      assert front[..i] == order[..i];
      AuthorizationAlongReports(front, data, authorization, invalid, upsert, i);
    } else {
      assert order[..|order| - 1] == order[..i];
    }
  }

  /** The authorization records a subgraph brings to the batch: those of its normalization, or none. */
  function AuthorizationOfSubgraph(subgraph: Subgraph): map<string, AuthorizationData> {
    if subgraph.normalization.Normalized? then subgraph.normalization.result.authorizationDataByParentTypeName else map[]
  }

  /** Each `orders[j]` lists every parent type of subgraph `j`'s authorization once. */
  ghost predicate EnumerateAuthorization(orders: seq<seq<string>>, subgraphs: seq<Subgraph>)
    requires |orders| <= |subgraphs|
  {
    forall j :: 0 <= j < |orders| ==> Enumerates(orders[j], AuthorizationOfSubgraph(subgraphs[j]).Keys)
  }

  /**
   * The batch authorization and the host paths over the OR-scopes limit once the first
   * `|orders|` subgraphs are merged, in batch order, subgraph `j`'s records in the order `orders[j]`.
   */
  function AuthorizationUpTo(subgraphs: seq<Subgraph>, orders: seq<seq<string>>,
                             upsert: (map<string, AuthorizationData>, AuthorizationData) -> (map<string, AuthorizationData>, set<Path>))
    : (map<string, AuthorizationData>, set<Path>)
    requires |orders| <= |subgraphs|
    decreases |orders|
  {
    if orders == [] then (map[], {})
    else
      var prior := AuthorizationUpTo(subgraphs, orders[..|orders| - 1], upsert);
      AuthorizationAlong(orders[|orders| - 1], AuthorizationOfSubgraph(subgraphs[|orders| - 1]), prior.0, prior.1, upsert)
  }

  /** One more subgraph, its authorization upserted in `order`, extends the fold. */
  lemma AuthorizationUpToStep(subgraphs: seq<Subgraph>, orders: seq<seq<string>>, order: seq<string>,
                              upsert: (map<string, AuthorizationData>, AuthorizationData) -> (map<string, AuthorizationData>, set<Path>))
    requires |orders| < |subgraphs| && EnumerateAuthorization(orders, subgraphs)
    requires Enumerates(order, AuthorizationOfSubgraph(subgraphs[|orders|]).Keys)
    ensures EnumerateAuthorization(orders + [order], subgraphs)
    ensures var prior := AuthorizationUpTo(subgraphs, orders, upsert);
      AuthorizationUpTo(subgraphs, orders + [order], upsert) ==
      AuthorizationAlong(order, AuthorizationOfSubgraph(subgraphs[|orders|]), prior.0, prior.1, upsert)
  {
    assert (orders + [order])[..|orders|] == orders;
  }

  /**
   * Every host path that any upsert of the batch finds over the OR-scopes limit (subgraph `j`,
   * its `i`-th parent type) is reported.
   */
  lemma {:induction false} AuthorizationUpToReports(subgraphs: seq<Subgraph>, orders: seq<seq<string>>,
                                                    upsert: (map<string, AuthorizationData>, AuthorizationData) -> (map<string, AuthorizationData>, set<Path>),
                                                    j: nat, i: nat)
    requires |orders| <= |subgraphs| && j < |orders| && i < |orders[j]|
    requires orders[j][i] in AuthorizationOfSubgraph(subgraphs[j])
    ensures var prior := AuthorizationUpTo(subgraphs, orders[..j], upsert);
            var data := AuthorizationOfSubgraph(subgraphs[j]);
            upsert(AuthorizationAlong(orders[j][..i], data, prior.0, prior.1, upsert).0, data[orders[j][i]]).1
            <= AuthorizationUpTo(subgraphs, orders, upsert).1
    decreases |orders|
  {
    var front := orders[..|orders| - 1];
    var prior := AuthorizationUpTo(subgraphs, front, upsert);
    var last := |orders| - 1;
    AuthorizationAlongFlags(orders[last], AuthorizationOfSubgraph(subgraphs[last]), prior.0, prior.1, upsert);
    if j < last {
      assert front[..j] == orders[..j];
      AuthorizationUpToReports(subgraphs, front, upsert, j, i);
    } else {
      assert front == orders[..j];
      AuthorizationAlongReports(orders[j], AuthorizationOfSubgraph(subgraphs[j]), prior.0, prior.1, upsert, i);
    }
  }

  /** Upserts that never fail leave the batch without any host path over the OR-scopes limit. */
  lemma {:induction false} AuthorizationUpToQuiet(subgraphs: seq<Subgraph>, orders: seq<seq<string>>,
                                                  upsert: (map<string, AuthorizationData>, AuthorizationData) -> (map<string, AuthorizationData>, set<Path>))
    requires |orders| <= |subgraphs|
    requires forall m, a :: upsert(m, a).1 == {}
    ensures AuthorizationUpTo(subgraphs, orders, upsert).1 == {}
    decreases |orders|
  {
    if orders != [] {
      var front := orders[..|orders| - 1];
      var prior := AuthorizationUpTo(subgraphs, front, upsert);
      AuthorizationUpToQuiet(subgraphs, front, upsert);
      AuthorizationAlongFlags(orders[|orders| - 1], AuthorizationOfSubgraph(subgraphs[|orders| - 1]), prior.0, prior.1, upsert);
    }
  }
}
