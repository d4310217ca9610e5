/**
 * Batch normalization: the names of all subgraphs are recorded first, then each subgraph's
 * normalization is merged, in batch order, into batch-wide collections; when nothing failed,
 * the overrides accepted for each subgraph are applied to its configuration.
 */
module Batch {
  import opened Model
  import opened DirectiveSpec
  import opened NormalizeSpec
  import opened Factory
  import opened BatchSpec

  /**
   * The authorization merge helper, which is not part of this model: it upserts one type's
   * authorization into the batch's and yields the host paths it found over the OR-scopes limit.
   */
  type Upsert = (map<string, AuthorizationData>, AuthorizationData) -> (map<string, AuthorizationData>, set<Path>)

  /** The batch-wide collections built while the subgraphs are merged in order. */
  datatype MergeState = MergeState(
    authorization: map<string, AuthorizationData>,
    invalidOrScopesHostPaths: set<Path>,
    concreteTypes: map<string, set<string>>,
    entityTypeNames: set<string>,
    internalSubgraphs: map<string, InternalSubgraph>,
    acceptedOverrides: OverrideMap,
    overrideSources: map<Path, seq<SubgraphDisplayName>>,
    duplicateOverriddenFieldPaths: set<Path>,
    unnamedIndices: seq<nat>,
    warnings: seq<Warning>,
    validationErrors: seq<BatchError>)

  /** The names of the first `n` subgraphs that have a name and normalized. */
  function NormalizedNames(subgraphs: seq<Subgraph>, n: nat): set<string>
    requires n <= |subgraphs|
  {
    set j | 0 <= j < n && subgraphs[j].name != "" && subgraphs[j].normalization.Normalized? :: subgraphs[j].name
  }

  /** Subgraph `j` is named, normalized, and no later normalized subgraph among the first `n` has its name. */
  ghost predicate LastWithName(subgraphs: seq<Subgraph>, n: nat, j: nat)
    requires j < n <= |subgraphs|
  {
    && subgraphs[j].name != ""
    && subgraphs[j].normalization.Normalized?
    && forall k :: j < k < n && subgraphs[k].normalization.Normalized? ==> subgraphs[k].name != subgraphs[j].name
  }

  /** The internal subgraphs kept for the first `n` subgraphs: the last normalized one of each name, not yet overridden. */
  ghost predicate InternalUpTo(internal: map<string, InternalSubgraph>, subgraphs: seq<Subgraph>, n: nat)
    requires n <= |subgraphs|
  {
    && internal.Keys == NormalizedNames(subgraphs, n)
    && (forall k :: k in internal ==> internal[k].name == k && internal[k].overriddenFieldNamesByParentTypeName == map[])
    && (forall j :: 0 <= j < n && LastWithName(subgraphs, n, j) ==>
          subgraphs[j].name in internal && internal[subgraphs[j].name] == InternalSubgraphOf(subgraphs[j]))
  }

  /** Each path's sources are those the first `n` subgraphs give it, and the duplicates are the paths with two or more. */
  ghost predicate DuplicatesUpTo(sources: map<Path, seq<SubgraphDisplayName>>, duplicates: set<Path>,
                                 subgraphs: seq<Subgraph>, n: nat)
    requires n <= |subgraphs|
  {
    SourcesConsistent(sources, duplicates) && ExactSources(sources, subgraphs, n)
  }

  /**
   * What merging the first `n` subgraphs leaves in the authorization and the host paths over
   * the OR-scopes limit, `orders[j]` being the order in which subgraph `j`'s records were upserted.
   */
  ghost predicate AuthorizedUpTo(st: MergeState, subgraphs: seq<Subgraph>, n: nat, upsert: Upsert, orders: seq<seq<string>>)
    requires n <= |subgraphs|
  {
    && |orders| == n && EnumerateAuthorization(orders, subgraphs)
    && (st.authorization, st.invalidOrScopesHostPaths) == AuthorizationUpTo(subgraphs, orders, upsert)
  }

  /** What merging the first `n` subgraphs leaves in the collections other than the authorization and the overrides. */
  ghost predicate CollectedUpTo(st: MergeState, subgraphs: seq<Subgraph>, n: nat)
    requires n <= |subgraphs|
  {
    && st.concreteTypes == ConcreteTypesUpTo(subgraphs, n)
    && st.entityTypeNames == EntityTypeNamesUpTo(subgraphs, n)
    && InternalUpTo(st.internalSubgraphs, subgraphs, n)
    && st.unnamedIndices == UnnamedIndices(subgraphs, n)
    && st.validationErrors == ValidationErrors(subgraphs, n)
    && (forall j, k :: 0 <= j < n && 0 <= k < |subgraphs[j].normalization.warnings| ==>
          subgraphs[j].normalization.warnings[k] in st.warnings)
  }

  /**
   * What merging the first `n` subgraphs leaves in the overrides: those accepted at valid
   * targets, the sources of every overridden path, and a warning per parent type overridden
   * at an unknown target.
   */
  ghost predicate OverriddenUpTo(st: MergeState, subgraphs: seq<Subgraph>, n: nat, names: set<string>)
    requires n <= |subgraphs|
  {
    && Records(st.acceptedOverrides, AcceptedParents(subgraphs, n, names), AcceptedFields(subgraphs, n, names))
    && DuplicatesUpTo(st.overrideSources, st.duplicateOverriddenFieldPaths, subgraphs, n)
    && (forall j, t, p :: 0 <= j < n && t in OverridesOf(subgraphs[j]) && t !in names && p in OverridesOf(subgraphs[j])[t] ==>
          TargetWarning(subgraphs[j], t, p) in st.warnings)
  }

  ghost predicate MergedUpTo(st: MergeState, subgraphs: seq<Subgraph>, n: nat, names: set<string>, upsert: Upsert,
                             orders: seq<seq<string>>)
    requires n <= |subgraphs|
  {
    AuthorizedUpTo(st, subgraphs, n, upsert, orders) && CollectedUpTo(st, subgraphs, n) && OverriddenUpTo(st, subgraphs, n, names) &&
    WarnedUpTo(st.warnings, subgraphs, n, names)
  }

  /** Warnings only ever get appended, so every warning given stays given. */
  lemma WarningsKept(warnings: seq<Warning>, warnings': seq<Warning>)
    requires warnings <= warnings'
    ensures forall w :: w in warnings ==> w in warnings'
  {
    forall w | w in warnings
      ensures w in warnings'
    {
      var k :| 0 <= k < |warnings| && warnings[k] == w;
      assert warnings'[k] == w;
    }
  }

  /** The internal subgraphs once `subgraph` is merged: a named subgraph that normalized replaces any of its name. */
  function KeepInternal(internal: map<string, InternalSubgraph>, subgraph: Subgraph): (r: map<string, InternalSubgraph>)
    ensures r.Keys == internal.Keys + (if subgraph.name != "" && subgraph.normalization.Normalized? then {subgraph.name} else {})
  {
    if subgraph.name != "" && subgraph.normalization.Normalized? then internal[subgraph.name := InternalSubgraphOf(subgraph)]
    else internal
  }

  lemma InternalKeysStep(internal: map<string, InternalSubgraph>, subgraphs: seq<Subgraph>, i: nat)
    requires i < |subgraphs| && internal.Keys == NormalizedNames(subgraphs, i)
    ensures KeepInternal(internal, subgraphs[i]).Keys == NormalizedNames(subgraphs, i + 1)
  {
    var s := subgraphs[i];
    assert NormalizedNames(subgraphs, i + 1) ==
      NormalizedNames(subgraphs, i) + (if s.name != "" && s.normalization.Normalized? then {s.name} else {});
  }

  lemma InternalLastStep(internal: map<string, InternalSubgraph>, subgraphs: seq<Subgraph>, i: nat)
    requires i < |subgraphs|
    requires forall j :: 0 <= j < i && LastWithName(subgraphs, i, j) ==>
      subgraphs[j].name in internal && internal[subgraphs[j].name] == InternalSubgraphOf(subgraphs[j])
    ensures var next := KeepInternal(internal, subgraphs[i]);
      forall j :: 0 <= j < i + 1 && LastWithName(subgraphs, i + 1, j) ==>
        subgraphs[j].name in next && next[subgraphs[j].name] == InternalSubgraphOf(subgraphs[j])
  {
    var next := KeepInternal(internal, subgraphs[i]);
    forall j | 0 <= j < i + 1 && LastWithName(subgraphs, i + 1, j)
      ensures subgraphs[j].name in next && next[subgraphs[j].name] == InternalSubgraphOf(subgraphs[j])
    {
      if j < i {
        assert LastWithName(subgraphs, i, j);
        assert !subgraphs[i].normalization.Normalized? || subgraphs[i].name != subgraphs[j].name;
      }
    }
  }

  lemma InternalNamesStep(internal: map<string, InternalSubgraph>, subgraph: Subgraph)
    requires forall k :: k in internal ==> internal[k].name == k && internal[k].overriddenFieldNamesByParentTypeName == map[]
    ensures var next := KeepInternal(internal, subgraph);
      forall k :: k in next ==> next[k].name == k && next[k].overriddenFieldNamesByParentTypeName == map[]
  {
  }

  /** Merging one more subgraph keeps the last normalized subgraph of each name. */
  lemma InternalStep(internal: map<string, InternalSubgraph>, subgraphs: seq<Subgraph>, i: nat)
    requires i < |subgraphs| && InternalUpTo(internal, subgraphs, i)
    ensures InternalUpTo(KeepInternal(internal, subgraphs[i]), subgraphs, i + 1)
  {
    InternalKeysStep(internal, subgraphs, i);
    InternalNamesStep(internal, subgraphs[i]);
    InternalLastStep(internal, subgraphs, i);
  }

  /** The collections other than the overrides, once one more subgraph is merged into them. */
  lemma CollectedStep(st: MergeState, st': MergeState, subgraphs: seq<Subgraph>, i: nat)
    requires i < |subgraphs| && CollectedUpTo(st, subgraphs, i)
    requires var s := subgraphs[i];
      && st'.unnamedIndices == st.unnamedIndices + (if s.name == "" then [i] else [])
      && st'.warnings == st.warnings + s.normalization.warnings
      && st'.validationErrors ==
           st.validationErrors + (if s.normalization.NotNormalized? then [SubgraphValidation(DisplayName(subgraphs, i), s.normalization.errors)] else [])
      && st'.concreteTypes == MergedConcreteTypes(st.concreteTypes, ConcreteTypesOfSubgraph(s))
      && st'.entityTypeNames == st.entityTypeNames + EntityTypeNamesOfSubgraph(s)
      && st'.internalSubgraphs == KeepInternal(st.internalSubgraphs, s)
    ensures CollectedUpTo(st', subgraphs, i + 1)
  {
    InternalStep(st.internalSubgraphs, subgraphs, i);
    OwnWarningsStep(st.warnings, st'.warnings, subgraphs, i);
  }

  /** Appending subgraph `i`'s own warnings keeps those of the subgraphs before it. */
  lemma OwnWarningsStep(warnings: seq<Warning>, warnings': seq<Warning>, subgraphs: seq<Subgraph>, i: nat)
    requires i < |subgraphs| && warnings' == warnings + subgraphs[i].normalization.warnings
    requires forall j, k :: 0 <= j < i && 0 <= k < |subgraphs[j].normalization.warnings| ==>
      subgraphs[j].normalization.warnings[k] in warnings
    ensures forall j, k :: 0 <= j < i + 1 && 0 <= k < |subgraphs[j].normalization.warnings| ==>
      subgraphs[j].normalization.warnings[k] in warnings'
  {
    var own := subgraphs[i].normalization.warnings;
    WarningsKept(warnings, warnings');
    forall k | 0 <= k < |own|
      ensures own[k] in warnings'
    {
      assert warnings'[|warnings| + k] == own[k];
    }
  }

  /** The authorization, once that of one more subgraph is upserted in `order`. */
  lemma AuthorizedStep(st: MergeState, st': MergeState, subgraphs: seq<Subgraph>, i: nat, upsert: Upsert,
                       orders: seq<seq<string>>, order: seq<string>)
    requires i < |subgraphs| && AuthorizedUpTo(st, subgraphs, i, upsert, orders)
    requires Enumerates(order, AuthorizationOfSubgraph(subgraphs[i]).Keys)
    requires (st'.authorization, st'.invalidOrScopesHostPaths) ==
      AuthorizationAlong(order, AuthorizationOfSubgraph(subgraphs[i]), st.authorization, st.invalidOrScopesHostPaths, upsert)
    ensures AuthorizedUpTo(st', subgraphs, i + 1, upsert, orders + [order])
  {
    AuthorizationUpToStep(subgraphs, orders, order, upsert);
  }

  /** The overrides, once those of one more subgraph are recorded. */
  lemma OverriddenStep(st: MergeState, st': MergeState, subgraphs: seq<Subgraph>, i: nat, names: set<string>)
    requires i < |subgraphs| && OverriddenUpTo(st, subgraphs, i, names)
    requires var o := OverridesOf(subgraphs[i]);
      Records(st'.acceptedOverrides, AcceptedParents(subgraphs, i, names) + ParentsAt(o, o.Keys, names),
              AcceptedFields(subgraphs, i, names) + FieldsAt(o, o.Keys, names))
    requires SourcesConsistent(st'.overrideSources, st'.duplicateOverriddenFieldPaths)
    requires var s := subgraphs[i];
      st'.overrideSources ==
        CountedSources(st.overrideSources, OverridesOf(s), RenamesOf(s), PairsOf(OverridesOf(s), OverridesOf(s).Keys),
                       DisplayName(subgraphs, i))
    requires st.warnings <= st'.warnings
    requires forall t, p :: t in OverridesOf(subgraphs[i]) && t !in names && p in OverridesOf(subgraphs[i])[t] ==>
      TargetWarning(subgraphs[i], t, p) in st'.warnings
    ensures OverriddenUpTo(st', subgraphs, i + 1, names)
  {
    AcceptedStep(subgraphs, i, names);
    WarningsKept(st.warnings, st'.warnings);
    var s := subgraphs[i];
    CountedSourcesCounted(st.overrideSources, OverridesOf(s), RenamesOf(s), PairsOf(OverridesOf(s), OverridesOf(s).Keys),
                          DisplayName(subgraphs, i));
    ExactSourcesStep(st.overrideSources, st'.overrideSources, subgraphs, i);
  }

  /** Nothing is merged before the first subgraph. */
  lemma MergedAtStart(subgraphs: seq<Subgraph>, names: set<string>, upsert: Upsert)
    ensures MergedUpTo(MergeState(map[], {}, map[], {}, map[], map[], map[], {}, [], [], []), subgraphs, 0, names, upsert, [])
  {
    assert NormalizedNames(subgraphs, 0) == {};
    assert AcceptedParents(subgraphs, 0, names) == {} && AcceptedFields(subgraphs, 0, names) == {};
  }

  /** Each target of an accepted override is a subgraph of the batch. */
  lemma AcceptedTargetsNamed(accepted: OverrideMap, subgraphs: seq<Subgraph>, n: nat, names: set<string>)
    requires n <= |subgraphs|
    requires Records(accepted, AcceptedParents(subgraphs, n, names), AcceptedFields(subgraphs, n, names))
    ensures accepted.Keys <= names
  {
    forall t | t in accepted
      ensures t in names
    {
      var p :| p in accepted[t];
      assert p in Entries(accepted, t);
    }
  }

  /**
   * Each named subgraph of a batch that normalized without errors, with the overrides the
   * batch accepted for it applied: it records exactly the parent types and fields other
   * subgraphs override in it, and its configuration lost those fields.
   */
  ghost predicate OverridesApplied(internal: map<string, InternalSubgraph>, subgraphs: seq<Subgraph>)
  {
    var n := |subgraphs|;
    var names := NamesOf(subgraphs, n);
    && internal.Keys == names
    && forall j :: 0 <= j < n && subgraphs[j].name != "" && subgraphs[j].normalization.Normalized? ==>
         var name := subgraphs[j].name;
         var overridden := internal[name].overriddenFieldNamesByParentTypeName;
         && internal[name] == WithOverrides(InternalSubgraphOf(subgraphs[j]), overridden)
         && (forall p :: p in overridden <==> (name, p) in AcceptedParents(subgraphs, n, names))
         && (forall p, f :: p in overridden ==> (f in overridden[p] <==> (name, p, f) in AcceptedFields(subgraphs, n, names)))
  }

  /** The last subgraph of a name, after the overrides are applied, carries exactly the overrides accepted for that name. */
  lemma AppliedEntries(internal: map<string, InternalSubgraph>, applied: map<string, InternalSubgraph>,
                       accepted: OverrideMap, subgraphs: seq<Subgraph>, j: nat)
    requires j < |subgraphs| && InternalUpTo(internal, subgraphs, |subgraphs|)
    requires LastWithName(subgraphs, |subgraphs|, j)
    requires applied.Keys == internal.Keys
    requires forall k :: k in internal ==>
      applied[k] == if k in accepted then WithOverrides(internal[k], accepted[k]) else internal[k]
    ensures subgraphs[j].name in applied
    ensures applied[subgraphs[j].name] == WithOverrides(InternalSubgraphOf(subgraphs[j]), Entries(accepted, subgraphs[j].name))
  {
    var name := subgraphs[j].name;
    var original := InternalSubgraphOf(subgraphs[j]);
    assert internal[name] == original;
    if name !in accepted {
      WithoutNoOverriddenFields(original.configurationDataByTypeName, map[]);
      assert applied[name] == WithOverrides(original, map[]);
    }
  }

  /** A named subgraph carrying the overrides accepted for its name records exactly the accepted parent types and fields. */
  lemma OverridesAppliedAt(applied: map<string, InternalSubgraph>, accepted: OverrideMap, subgraphs: seq<Subgraph>, j: nat)
    requires j < |subgraphs| && subgraphs[j].normalization.Normalized?
    requires Records(accepted, AcceptedParents(subgraphs, |subgraphs|, NamesOf(subgraphs, |subgraphs|)),
                     AcceptedFields(subgraphs, |subgraphs|, NamesOf(subgraphs, |subgraphs|)))
    requires subgraphs[j].name in applied
    requires applied[subgraphs[j].name] == WithOverrides(InternalSubgraphOf(subgraphs[j]), Entries(accepted, subgraphs[j].name))
    ensures var name := subgraphs[j].name;
      var overridden := applied[name].overriddenFieldNamesByParentTypeName;
      var names := NamesOf(subgraphs, |subgraphs|);
      && applied[name] == WithOverrides(InternalSubgraphOf(subgraphs[j]), overridden)
      && (forall p :: p in overridden <==> (name, p) in AcceptedParents(subgraphs, |subgraphs|, names))
      && (forall p, f :: p in overridden ==> (f in overridden[p] <==> (name, p, f) in AcceptedFields(subgraphs, |subgraphs|, names)))
  {
    var name := subgraphs[j].name;
    var overridden := applied[name].overriddenFieldNamesByParentTypeName;
    assert overridden == Entries(accepted, name);
    forall p, f | p in overridden
      ensures f in overridden[p] <==> (name, p, f) in AcceptedFields(subgraphs, |subgraphs|, NamesOf(subgraphs, |subgraphs|))
    {
      assert overridden[p] == FieldsOf(accepted, name, p);
    }
  }

  /** Without repeated names every named subgraph is the last of its name. */
  lemma UniqueNamesLast(subgraphs: seq<Subgraph>, j: nat)
    requires j < |subgraphs| && subgraphs[j].name != "" && subgraphs[j].normalization.Normalized?
    requires RepeatedNames(subgraphs, |subgraphs|) == {}
    ensures LastWithName(subgraphs, |subgraphs|, j)
  {
    var name := subgraphs[j].name;
    var repeated := RepeatedNames(subgraphs, |subgraphs|);
    forall k | j < k < |subgraphs| && subgraphs[k].normalization.Normalized?
      ensures subgraphs[k].name != name
    {
      assert subgraphs[k].name == name ==> name in repeated;
    }
  }

  lemma OverridesAppliedHold(internal: map<string, InternalSubgraph>, applied: map<string, InternalSubgraph>,
                             accepted: OverrideMap, subgraphs: seq<Subgraph>)
    requires InternalUpTo(internal, subgraphs, |subgraphs|)
    requires Records(accepted, AcceptedParents(subgraphs, |subgraphs|, NamesOf(subgraphs, |subgraphs|)),
                     AcceptedFields(subgraphs, |subgraphs|, NamesOf(subgraphs, |subgraphs|)))
    requires RepeatedNames(subgraphs, |subgraphs|) == {}
    requires NormalizedNames(subgraphs, |subgraphs|) == NamesOf(subgraphs, |subgraphs|)
    requires applied.Keys == internal.Keys
    requires forall k :: k in internal ==>
      applied[k] == if k in accepted then WithOverrides(internal[k], accepted[k]) else internal[k]
    ensures OverridesApplied(applied, subgraphs)
  {
    forall j | 0 <= j < |subgraphs| && subgraphs[j].name != "" && subgraphs[j].normalization.Normalized?
      ensures var name := subgraphs[j].name;
        var overridden := applied[name].overriddenFieldNamesByParentTypeName;
        var names := NamesOf(subgraphs, |subgraphs|);
        && applied[name] == WithOverrides(InternalSubgraphOf(subgraphs[j]), overridden)
        && (forall p :: p in overridden <==> (name, p) in AcceptedParents(subgraphs, |subgraphs|, names))
        && (forall p, f :: p in overridden ==> (f in overridden[p] <==> (name, p, f) in AcceptedFields(subgraphs, |subgraphs|, names)))
    {
      UniqueNamesLast(subgraphs, j);
      AppliedEntries(internal, applied, accepted, subgraphs, j);
      OverridesAppliedAt(applied, accepted, subgraphs, j);
    }
  }

  // ----- names -----

  /** Records every subgraph name; a name met a second time is recorded as not unique. */
  method RecordSubgraphNames(subgraphs: seq<Subgraph>) returns (names: set<string>, nonUnique: set<string>)
    ensures names == NamesOf(subgraphs, |subgraphs|)
    ensures nonUnique == RepeatedNames(subgraphs, |subgraphs|)
  {
    names, nonUnique := {}, {};
    for i := 0 to |subgraphs|
      invariant names == NamesOf(subgraphs, i) && nonUnique == RepeatedNames(subgraphs, i)
    {
      NamesStep(subgraphs, i);
      var name := subgraphs[i].name;
      if name != "" {
        if name in names {
          nonUnique := nonUnique + {name};
        } else {
          names := names + {name};
        }
      }
    }
  }

  // ----- merging one subgraph -----

  /** Upserts the authorization of every type of one subgraph into the batch's, collecting the paths over the limit. */
  method MergeAuthorization(authorization: map<string, AuthorizationData>, invalid: set<Path>,
                            data: map<string, AuthorizationData>, upsert: Upsert)
    returns (merged: map<string, AuthorizationData>, flagged: set<Path>)
    ensures exists order :: Enumerates(order, data.Keys) && (merged, flagged) == AuthorizationAlong(order, data, authorization, invalid, upsert)
  {
    merged, flagged := authorization, invalid;
    var remaining := data.Keys;
    ghost var done: set<string> := {};
    ghost var order: seq<string> := [];
    while remaining != {}
      invariant done + remaining == data.Keys && done !! remaining
      invariant Enumerates(order, done)
      invariant (merged, flagged) == AuthorizationAlong(order, data, authorization, invalid, upsert)
      decreases remaining
    {
      var typeName :| typeName in remaining;
      EnumeratesStep(order, done, typeName);
      assert (order + [typeName])[..|order|] == order;
      var r := upsert(merged, data[typeName]);
      merged, flagged := r.0, flagged + r.1;
      order := order + [typeName];
      done, remaining := done + {typeName}, remaining - {typeName};
    }
    assert done == data.Keys;
  }

  /** Adds one subgraph's concrete types to the batch's: a new abstract type is copied, a known one extended. */
  method MergeConcreteTypes(concrete: map<string, set<string>>, incoming: map<string, set<string>>)
    returns (merged: map<string, set<string>>)
    ensures merged == MergedConcreteTypes(concrete, incoming)
  {
    merged := concrete;
    var remaining := incoming.Keys;
    ghost var done: set<string> := {};
    MergedConcreteTypesStep(concrete, map[], "", {});
    RestrictStep(incoming, {}, "");
    while remaining != {}
      invariant done + remaining == incoming.Keys && done !! remaining
      invariant merged == MergedConcreteTypes(concrete, Restrict(incoming, done))
      decreases remaining
    {
      var t :| t in remaining;
      MergeConcreteStep(concrete, incoming, done, t, merged);
      if t !in merged {
        merged := merged[t := incoming[t]];
      } else {
        merged := merged[t := merged[t] + incoming[t]];
      }
      done, remaining := done + {t}, remaining - {t};
    }
    assert done == incoming.Keys;
  }

  // ----- overrides -----

  /**
   * Appends `source` to the sources of the path of each field of one type; a path that
   * already had a source becomes a duplicate.
   */
  method RecordFieldSources(sources: map<Path, seq<SubgraphDisplayName>>, duplicates: set<Path>, typeName: string,
                            fieldNames: set<string>, source: SubgraphDisplayName)
    returns (recorded: map<Path, seq<SubgraphDisplayName>>, repeated: set<Path>)
    ensures recorded == WithSource(sources, FieldPaths(typeName, fieldNames), source)
    ensures repeated == duplicates + (FieldPaths(typeName, fieldNames) * sources.Keys)
  {
    recorded, repeated := sources, duplicates;
    var remaining := fieldNames;
    ghost var done: set<string> := {};
    WithSourceFieldStep(sources, typeName, {}, "", source);
    while remaining != {}
      invariant done + remaining == fieldNames && done !! remaining
      invariant recorded == WithSource(sources, FieldPaths(typeName, done), source)
      invariant repeated == duplicates + (FieldPaths(typeName, done) * sources.Keys)
      decreases remaining
    {
      var f :| f in remaining;
      var path := ChildPath(typeName, f);
      WithSourceFieldStep(sources, typeName, done, f, source);
      if path in recorded {
        recorded := recorded[path := recorded[path] + [source]];
        repeated := repeated + {path};
      } else {
        assert [] + [source] == [source];
        recorded := recorded[path := [source]];
      }
      done, remaining := done + {f}, remaining - {f};
    }
    assert done == fieldNames;
  }

  /**
   * The warnings given for the parent types among `done` overridden at `target`, appended
   * after `warnings`: one for each when the target names no subgraph of the batch, none otherwise.
   */
  ghost predicate TargetWarned(subgraph: Subgraph, names: set<string>, target: string, done: set<string>,
                               warnings: seq<Warning>, warnings': seq<Warning>)
    requires target in OverridesOf(subgraph)
  {
    var o := OverridesOf(subgraph);
    && warnings <= warnings'
    && (target !in names ==> forall p :: p in done && p in o[target] ==> TargetWarning(subgraph, target, p) in warnings')
    && |warnings'| == |warnings| + (if target in names then 0 else |PairsAt(o, target, done)|)
    && forall k :: |warnings| <= k < |warnings'| ==> OverrideWarning(subgraph, names, warnings'[k])
  }

  lemma TargetWarnedStep(subgraph: Subgraph, names: set<string>, target: string, done: set<string>, p: string,
                         warnings: seq<Warning>, w1: seq<Warning>, w2: seq<Warning>)
    requires target in OverridesOf(subgraph) && p in OverridesOf(subgraph)[target] && p !in done
    requires TargetWarned(subgraph, names, target, done, warnings, w1)
    requires w2 == if target in names then w1 else w1 + [TargetWarning(subgraph, target, p)]
    ensures TargetWarned(subgraph, names, target, done + {p}, warnings, w2)
  {
    var o := OverridesOf(subgraph);
    PairsAtStep(o, target, done, p);
    WarningsKept(w1, w2);
    if target !in names {
      assert OverrideWarning(subgraph, names, TargetWarning(subgraph, target, p));
      assert w2[|w1|] == TargetWarning(subgraph, target, p);
    }
  }

  /**
   * The warnings given for the overrides at the targets among `done`, appended after
   * `warnings`: one per parent type overridden at a target that names no subgraph of the batch.
   */
  ghost predicate Warned(subgraph: Subgraph, names: set<string>, done: set<string>, warnings: seq<Warning>, warnings': seq<Warning>) {
    var o := OverridesOf(subgraph);
    && warnings <= warnings'
    && (forall t, p :: t in done && t in o && t !in names && p in o[t] ==> TargetWarning(subgraph, t, p) in warnings')
    && |warnings'| == |warnings| + |InvalidPairsOf(o, done, names)|
    && forall k :: |warnings| <= k < |warnings'| ==> OverrideWarning(subgraph, names, warnings'[k])
  }

  lemma WarnedTargetStep(subgraph: Subgraph, names: set<string>, done: set<string>, t: string,
                   warnings: seq<Warning>, w1: seq<Warning>, w2: seq<Warning>)
    requires t in OverridesOf(subgraph) && t !in done
    requires Warned(subgraph, names, done, warnings, w1)
    requires TargetWarned(subgraph, names, t, OverridesOf(subgraph)[t].Keys, w1, w2)
    ensures Warned(subgraph, names, done + {t}, warnings, w2)
  {
    InvalidPairsOfStep(OverridesOf(subgraph), done, t, names);
    WarningsKept(w1, w2);
    forall k | |warnings| <= k < |w2| ensures OverrideWarning(subgraph, names, w2[k]) {
      if k < |w1| {
        assert w2[k] == w1[k];
      }
    }
  }

  /**
   * Records what one subgraph overrides at one target: a target that is no subgraph of the
   * batch earns a warning per parent type, a valid target accepts the fields; either way
   * each overridden field path gains this subgraph as a source.
   */
  /** Before any parent type of a target is visited, nothing is added and nothing is warned. */
  lemma TargetAtStart(subgraph: Subgraph, names: set<string>, target: string, warnings: seq<Warning>,
                      parents: set<(string, string)>, fields: set<(string, string, string)>, pairs: set<(string, string)>)
    requires target in OverridesOf(subgraph)
    ensures var o := OverridesOf(subgraph);
      && parents + TargetParentsAt(o, target, {}, names) == parents
      && fields + TargetFieldsAt(o, target, {}, names) == fields
      && pairs + PairsAt(o, target, {}) == pairs
    ensures TargetWarned(subgraph, names, target, {}, warnings, warnings)
  {
    var o := OverridesOf(subgraph);
    assert TargetParentsAt(o, target, {}, names) == {} && TargetFieldsAt(o, target, {}, names) == {};
    assert PairsAt(o, target, {}) == {};
  }

  /** Moving one element from the remaining set to the done set keeps their union and their disjointness. */
  lemma MoveOne<T>(done: set<T>, remaining: set<T>, p: T)
    requires p in remaining && done !! remaining
    ensures (done + {p}) + (remaining - {p}) == done + remaining && (done + {p}) !! (remaining - {p})
  {
  }

  /** One parent type of a target: the sources stay consistent and count one more (target, parent) pair. */
  lemma SourcesLoopStep(base: map<Path, seq<SubgraphDisplayName>>, sources: map<Path, seq<SubgraphDisplayName>>,
                        duplicates: set<Path>, o: OverrideMap, renames: map<string, string>, pairs: set<(string, string)>,
                        target: string, done: set<string>, p: string, source: SubgraphDisplayName)
    requires target in o && p in o[target] && p !in done
    requires forall pair :: pair in pairs ==> pair.0 != target
    requires SourcesConsistent(sources, duplicates)
    requires sources == CountedSources(base, o, renames, pairs + PairsAt(o, target, done), source)
    ensures var paths := FieldPaths(OriginalTypeName(renames, p), o[target][p]);
      && SourcesConsistent(WithSource(sources, paths, source), duplicates + (paths * sources.Keys))
      && WithSource(sources, paths, source) == CountedSources(base, o, renames, pairs + PairsAt(o, target, done + {p}), source)
  {
    CountedSourcesCounted(base, o, renames, pairs + PairsAt(o, target, done), source);
    WithSourceKeepsConsistent(sources, duplicates, FieldPaths(OriginalTypeName(renames, p), o[target][p]), source);
    PairsAtStep(o, target, done, p);
    assert (target, p) !in pairs + PairsAt(o, target, done);
    CountedStep(base, sources, o, renames, pairs + PairsAt(o, target, done), target, p, source);
    assert pairs + PairsAt(o, target, done) + {(target, p)} == pairs + PairsAt(o, target, done + {p});
    CountedIsCountedSources(base, WithSource(sources, FieldPaths(OriginalTypeName(renames, p), o[target][p]), source),
                            o, renames, pairs + PairsAt(o, target, done + {p}), source);
  }

  method RecordTargetOverrides(subgraph: Subgraph, source: SubgraphDisplayName, target: string, names: set<string>,
                               accepted: OverrideMap, sources: map<Path, seq<SubgraphDisplayName>>, duplicates: set<Path>,
                               warnings: seq<Warning>, ghost parents: set<(string, string)>,
                               ghost fields: set<(string, string, string)>, ghost base: map<Path, seq<SubgraphDisplayName>>,
                               ghost pairs: set<(string, string)>)
    returns (accepted': OverrideMap, sources': map<Path, seq<SubgraphDisplayName>>, duplicates': set<Path>,
             warnings': seq<Warning>)
    requires target in OverridesOf(subgraph)
    requires Records(accepted, parents, fields)
    requires SourcesConsistent(sources, duplicates)
    requires sources == CountedSources(base, OverridesOf(subgraph), RenamesOf(subgraph), pairs, source)
    requires forall pair :: pair in pairs ==> pair.0 != target
    ensures var o := OverridesOf(subgraph);
      Records(accepted', parents + TargetParentsAt(o, target, o[target].Keys, names),
              fields + TargetFieldsAt(o, target, o[target].Keys, names))
    ensures SourcesConsistent(sources', duplicates')
    ensures var o := OverridesOf(subgraph);
      sources' == CountedSources(base, o, RenamesOf(subgraph), pairs + PairsAt(o, target, o[target].Keys), source)
    ensures TargetWarned(subgraph, names, target, OverridesOf(subgraph)[target].Keys, warnings, warnings')
  {
    var o := OverridesOf(subgraph);
    var renames := RenamesOf(subgraph);
    var isTargetValid := target in names;
    accepted', sources', duplicates', warnings' := accepted, sources, duplicates, warnings;
    var remaining := o[target].Keys;
    ghost var done: set<string> := {};
    TargetAtStart(subgraph, names, target, warnings, parents, fields, pairs);
    while remaining != {}
      invariant done + remaining == o[target].Keys && done !! remaining
      invariant Records(accepted', parents + TargetParentsAt(o, target, done, names), fields + TargetFieldsAt(o, target, done, names))
      invariant SourcesConsistent(sources', duplicates')
      invariant sources' == CountedSources(base, o, renames, pairs + PairsAt(o, target, done), source)
      invariant TargetWarned(subgraph, names, target, done, warnings, warnings')
      decreases remaining
    {
      var p :| p in remaining;
      var fieldNames := o[target][p];
      var originalTypeName := OriginalTypeName(renames, p);
      TargetRecordsStep(accepted', parents, fields, o, target, done, p, names);
      SourcesLoopStep(base, sources', duplicates', o, renames, pairs, target, done, p, source);
      ghost var before := warnings';
      if !isTargetValid {
        warnings' := warnings' + [InvalidOverrideTargetSubgraphName(target, originalTypeName, fieldNames, subgraph.name)];
      } else {
        accepted' := MergeOne(accepted', target, p, fieldNames);
      }
      TargetWarnedStep(subgraph, names, target, done, p, warnings, before, warnings');
      sources', duplicates' := RecordFieldSources(sources', duplicates', originalTypeName, fieldNames, source);
      MoveOne(done, remaining, p);
      done, remaining := done + {p}, remaining - {p};
    }
    assert done == o[target].Keys;
  }

  /** Records the overrides of one subgraph, target by target. */
  method RecordOverrides(subgraph: Subgraph, source: SubgraphDisplayName, names: set<string>,
                         accepted: OverrideMap, sources: map<Path, seq<SubgraphDisplayName>>, duplicates: set<Path>,
                         warnings: seq<Warning>, ghost parents: set<(string, string)>,
                         ghost fields: set<(string, string, string)>)
    returns (accepted': OverrideMap, sources': map<Path, seq<SubgraphDisplayName>>, duplicates': set<Path>,
             warnings': seq<Warning>)
    requires Records(accepted, parents, fields)
    requires SourcesConsistent(sources, duplicates)
    ensures var o := OverridesOf(subgraph);
      Records(accepted', parents + ParentsAt(o, o.Keys, names), fields + FieldsAt(o, o.Keys, names))
    ensures SourcesConsistent(sources', duplicates')
    ensures var o := OverridesOf(subgraph);
      sources' == CountedSources(sources, o, RenamesOf(subgraph), PairsOf(o, o.Keys), source)
    ensures Warned(subgraph, names, OverridesOf(subgraph).Keys, warnings, warnings')
  {
    var o := OverridesOf(subgraph);
    ghost var renames := RenamesOf(subgraph);
    accepted', sources', duplicates', warnings' := accepted, sources, duplicates, warnings;
    var remaining := o.Keys;
    ghost var done: set<string> := {};
    assert ParentsAt(o, {}, names) == {} && FieldsAt(o, {}, names) == {};
    assert parents + {} == parents && fields + {} == fields;
    CountedAtStart(sources, o, renames, source);
    CountedIsCountedSources(sources, sources, o, renames, {}, source);
    assert PairsOf(o, {}) == {} && InvalidPairsOf(o, {}, names) == {};
    while remaining != {}
      invariant done + remaining == o.Keys && done !! remaining
      invariant Records(accepted', parents + ParentsAt(o, done, names), fields + FieldsAt(o, done, names))
      invariant SourcesConsistent(sources', duplicates')
      invariant sources' == CountedSources(sources, o, renames, PairsOf(o, done), source)
      invariant Warned(subgraph, names, done, warnings, warnings')
      decreases remaining
    {
      var t :| t in remaining;
      TargetsRecordsStep(parents, fields, o, done, t, names);
      PairsOfStep(o, done, t);
      ghost var before := warnings';
      accepted', sources', duplicates', warnings' :=
        RecordTargetOverrides(subgraph, source, t, names, accepted', sources', duplicates', warnings',
                              parents + ParentsAt(o, done, names), fields + FieldsAt(o, done, names), sources, PairsOf(o, done));
      WarnedTargetStep(subgraph, names, done, t, warnings, before, warnings');
      MoveOne(done, remaining, t);
      done, remaining := done + {t}, remaining - {t};
    }
    assert done == o.Keys;
  }

  /**
   * Merges what subgraph `i` contributes besides its overrides: its position when it has no
   * name, its warnings, and either its validation error or its authorization, abstract types,
   * entities and, when named, its internal subgraph.
   */
  method CollectSubgraph(st: MergeState, subgraphs: seq<Subgraph>, i: nat, upsert: Upsert)
    returns (st': MergeState, ghost order: seq<string>)
    requires i < |subgraphs|
    ensures var s := subgraphs[i];
      && st'.unnamedIndices == st.unnamedIndices + (if s.name == "" then [i] else [])
      && st'.warnings == st.warnings + s.normalization.warnings
      && st'.validationErrors ==
           st.validationErrors + (if s.normalization.NotNormalized? then [SubgraphValidation(DisplayName(subgraphs, i), s.normalization.errors)] else [])
      && st'.concreteTypes == MergedConcreteTypes(st.concreteTypes, ConcreteTypesOfSubgraph(s))
      && st'.entityTypeNames == st.entityTypeNames + EntityTypeNamesOfSubgraph(s)
      && st'.internalSubgraphs == KeepInternal(st.internalSubgraphs, s)
      && Enumerates(order, AuthorizationOfSubgraph(s).Keys)
      && (st'.authorization, st'.invalidOrScopesHostPaths) ==
           AuthorizationAlong(order, AuthorizationOfSubgraph(s), st.authorization, st.invalidOrScopesHostPaths, upsert)
    ensures st'.acceptedOverrides == st.acceptedOverrides && st'.overrideSources == st.overrideSources &&
            st'.duplicateOverriddenFieldPaths == st.duplicateOverriddenFieldPaths
  {
    var subgraph := subgraphs[i];
    var unnamed := st.unnamedIndices;
    if subgraph.name == "" {
      unnamed := unnamed + [i];
    }
    var warnings := st.warnings + subgraph.normalization.warnings;
    if subgraph.normalization.NotNormalized? {
      MergedConcreteTypesStep(st.concreteTypes, map[], "", {});
      var failure := SubgraphValidation(DisplayName(subgraphs, i), subgraph.normalization.errors);
      st' := st.(unnamedIndices := unnamed, warnings := warnings, validationErrors := st.validationErrors + [failure]);
      order := [];
    } else {
      st', order := MergeNormalized(st.(unnamedIndices := unnamed, warnings := warnings), subgraph, upsert);
    }
  }

  /** Merges the authorization, abstract types, entities and, when named, the internal subgraph of a subgraph that normalized. */
  method MergeNormalized(st: MergeState, subgraph: Subgraph, upsert: Upsert) returns (st': MergeState, ghost order: seq<string>)
    requires subgraph.normalization.Normalized?
    ensures var data := subgraph.normalization.result.authorizationDataByParentTypeName;
      Enumerates(order, data.Keys) &&
      (st'.authorization, st'.invalidOrScopesHostPaths) ==
        AuthorizationAlong(order, data, st.authorization, st.invalidOrScopesHostPaths, upsert)
    ensures st'.concreteTypes == MergedConcreteTypes(st.concreteTypes, ConcreteTypesOfSubgraph(subgraph))
    ensures st'.entityTypeNames == st.entityTypeNames + EntityTypeNamesOfSubgraph(subgraph)
    ensures st'.internalSubgraphs == KeepInternal(st.internalSubgraphs, subgraph)
    ensures (forall m, a :: upsert(m, a).1 == {}) ==> st'.invalidOrScopesHostPaths == st.invalidOrScopesHostPaths
    ensures st' == st.(authorization := st'.authorization, invalidOrScopesHostPaths := st'.invalidOrScopesHostPaths,
                       concreteTypes := st'.concreteTypes, entityTypeNames := st'.entityTypeNames,
                       internalSubgraphs := st'.internalSubgraphs)
  {
    var result := subgraph.normalization.result;
    var authorization, invalid := MergeAuthorization(st.authorization, st.invalidOrScopesHostPaths,
                                                     result.authorizationDataByParentTypeName, upsert);
    order :| Enumerates(order, result.authorizationDataByParentTypeName.Keys) &&
      (authorization, invalid) ==
      AuthorizationAlong(order, result.authorizationDataByParentTypeName, st.authorization, st.invalidOrScopesHostPaths, upsert);
    AuthorizationAlongFlags(order, result.authorizationDataByParentTypeName, st.authorization, st.invalidOrScopesHostPaths, upsert);
    var concrete := MergeConcreteTypes(st.concreteTypes, result.concreteTypeNamesByAbstractTypeName);
    var internal := st.internalSubgraphs;
    if subgraph.name != "" {
      internal := internal[subgraph.name := InternalSubgraphOf(subgraph)];
    }
    st' := st.(authorization := authorization, invalidOrScopesHostPaths := invalid, concreteTypes := concrete,
               entityTypeNames := st.entityTypeNames + result.entityTypeNames, internalSubgraphs := internal);
  }

  /** Merges the overrides of subgraph `i`, once what else it contributes is merged. */
  method OverrideSubgraph(st: MergeState, subgraphs: seq<Subgraph>, i: nat, names: set<string>) returns (st': MergeState)
    requires i < |subgraphs| && OverriddenUpTo(st, subgraphs, i, names)
    ensures OverriddenUpTo(st', subgraphs, i + 1, names)
    ensures st.warnings <= st'.warnings
    ensures var o := OverridesOf(subgraphs[i]);
      |st'.warnings| == |st.warnings| + |InvalidPairsOf(o, o.Keys, names)|
    ensures forall k :: |st.warnings| <= k < |st'.warnings| ==> OverrideWarning(subgraphs[i], names, st'.warnings[k])
    ensures st' == st.(acceptedOverrides := st'.acceptedOverrides, overrideSources := st'.overrideSources,
                       duplicateOverriddenFieldPaths := st'.duplicateOverriddenFieldPaths, warnings := st'.warnings)
  {
    var subgraph := subgraphs[i];
    var accepted, sources, duplicates, warnings :=
      st.acceptedOverrides, st.overrideSources, st.duplicateOverriddenFieldPaths, st.warnings;
    var o := OverridesOf(subgraph);
    if subgraph.normalization.Normalized? && |o| >= 1 {
      accepted, sources, duplicates, warnings :=
        RecordOverrides(subgraph, DisplayName(subgraphs, i), names, accepted, sources, duplicates, warnings,
                        AcceptedParents(subgraphs, i, names), AcceptedFields(subgraphs, i, names));
      st' := st.(acceptedOverrides := accepted, overrideSources := sources, duplicateOverriddenFieldPaths := duplicates,
                 warnings := warnings);
      OverriddenStep(st, st', subgraphs, i, names);
    } else {
      assert o == map[];
      st' := st;
      NothingOverridden(st, subgraphs, i, names);
    }
  }

  /** A subgraph without overrides leaves the overrides as they were. */
  lemma NothingOverridden(st: MergeState, subgraphs: seq<Subgraph>, i: nat, names: set<string>)
    requires i < |subgraphs| && OverriddenUpTo(st, subgraphs, i, names) && OverridesOf(subgraphs[i]) == map[]
    ensures OverriddenUpTo(st, subgraphs, i + 1, names)
    ensures var o := OverridesOf(subgraphs[i]); InvalidPairsOf(o, o.Keys, names) == {}
  {
    var subgraph := subgraphs[i];
    var o := OverridesOf(subgraph);
    var sources := st.overrideSources;
    assert ParentsAt(o, o.Keys, names) == {} && FieldsAt(o, o.Keys, names) == {};
    CountedAtStart(sources, o, RenamesOf(subgraph), DisplayName(subgraphs, i));
    CountedIsCountedSources(sources, sources, o, RenamesOf(subgraph), {}, DisplayName(subgraphs, i));
    assert PairsOf(o, o.Keys) == {} && InvalidPairsOf(o, o.Keys, names) == {};
    assert AcceptedParents(subgraphs, i, names) + {} == AcceptedParents(subgraphs, i, names);
    assert AcceptedFields(subgraphs, i, names) + {} == AcceptedFields(subgraphs, i, names);
    OverriddenStep(st, st, subgraphs, i, names);
  }

  /** Merges subgraph `i` into the batch, keeping what the first `i` subgraphs left. */
  method MergeSubgraph(st: MergeState, subgraphs: seq<Subgraph>, i: nat, names: set<string>, upsert: Upsert,
                       ghost orders: seq<seq<string>>)
    returns (st': MergeState, ghost orders': seq<seq<string>>)
    requires i < |subgraphs| && MergedUpTo(st, subgraphs, i, names, upsert, orders)
    ensures MergedUpTo(st', subgraphs, i + 1, names, upsert, orders')
  {
    var collected, order := CollectSubgraph(st, subgraphs, i, upsert);
    CollectedStep(st, collected, subgraphs, i);
    AuthorizedStep(st, collected, subgraphs, i, upsert, orders, order);
    orders' := orders + [order];
    WarningsKept(st.warnings, collected.warnings);
    st' := OverrideSubgraph(collected, subgraphs, i, names);
    WarningsKept(collected.warnings, st'.warnings);
    WarnedStep(st.warnings, collected.warnings, st'.warnings, subgraphs, i, names);
  }

  // ----- applying the overrides -----

  /** Removes from a configuration the fields taken over by other subgraphs, dropping a type left with none. */
  method SubtractOverriddenFields(configs: map<string, ConfigurationData>, overridden: map<string, set<string>>)
    returns (kept: map<string, ConfigurationData>)
    ensures kept == WithoutOverriddenFields(configs, overridden)
  {
    kept := configs;
    var remaining := overridden.Keys;
    ghost var done: set<string> := {};
    WithoutNoOverriddenFields(configs, overridden);
    while remaining != {}
      invariant done + remaining == overridden.Keys && done !! remaining
      invariant kept == WithoutOverriddenFields(configs, Restrict(overridden, done))
      decreases remaining
    {
      var parentTypeName :| parentTypeName in remaining;
      WithoutOverriddenFieldsStep(configs, overridden, done, parentTypeName);
      if parentTypeName in kept {
        var configuration := kept[parentTypeName];
        var fieldNames := configuration.fieldNames - overridden[parentTypeName];
        if fieldNames == {} {
          kept := kept - {parentTypeName};
        } else {
          kept := kept[parentTypeName := configuration.(fieldNames := fieldNames)];
        }
      }
      done, remaining := done + {parentTypeName}, remaining - {parentTypeName};
    }
    RestrictStep(overridden, {}, "");
  }

  /** Hands each target subgraph the overrides accepted for it and removes the fields they take over. */
  method ApplyOverrides(internal: map<string, InternalSubgraph>, accepted: OverrideMap)
    returns (applied: map<string, InternalSubgraph>)
    requires accepted.Keys <= internal.Keys
    ensures applied.Keys == internal.Keys
    ensures forall n :: n in internal ==>
      applied[n] == if n in accepted then WithOverrides(internal[n], accepted[n]) else internal[n]
  {
    applied := internal;
    var remaining := accepted.Keys;
    ghost var done: set<string> := {};
    while remaining != {}
      invariant done + remaining == accepted.Keys && done !! remaining
      invariant applied.Keys == internal.Keys
      invariant forall n :: n in internal ==>
        applied[n] == if n in done then WithOverrides(internal[n], accepted[n]) else internal[n]
      decreases remaining
    {
      var target :| target in remaining;
      var subgraph := applied[target];
      var configs := SubtractOverriddenFields(subgraph.configurationDataByTypeName, accepted[target]);
      applied := applied[target := subgraph.(overriddenFieldNamesByParentTypeName := accepted[target],
                                             configurationDataByTypeName := configs)];
      done, remaining := done + {target}, remaining - {target};
    }
  }

  /** The sources of each duplicate path, for the error that lists them. */
  method DuplicateSources(sources: map<Path, seq<SubgraphDisplayName>>, duplicates: set<Path>)
    returns (bySource: map<Path, seq<SubgraphDisplayName>>)
    requires duplicates <= sources.Keys
    ensures bySource.Keys == duplicates
    ensures forall q :: q in bySource ==> bySource[q] == sources[q]
  {
    bySource := map[];
    var remaining := duplicates;
    ghost var done: set<Path> := {};
    while remaining != {}
      invariant done + remaining == duplicates && done !! remaining
      invariant bySource.Keys == done
      invariant forall q :: q in bySource ==> bySource[q] == sources[q]
      decreases remaining
    {
      var q :| q in remaining;
      bySource := bySource[q := sources[q]];
      done, remaining := done + {q}, remaining - {q};
    }
  }

  // ----- the batch -----

  /** Merges every subgraph of the batch, in order. */
  method MergeAll(subgraphs: seq<Subgraph>, names: set<string>, upsert: Upsert)
    returns (st: MergeState, ghost orders: seq<seq<string>>)
    ensures MergedUpTo(st, subgraphs, |subgraphs|, names, upsert, orders)
    ensures (forall m, a :: upsert(m, a).1 == {}) ==> st.invalidOrScopesHostPaths == {}
  {
    st := MergeState(map[], {}, map[], {}, map[], map[], map[], {}, [], [], []);
    orders := [];
    MergedAtStart(subgraphs, names, upsert);
    for i := 0 to |subgraphs|
      invariant MergedUpTo(st, subgraphs, i, names, upsert, orders)
    {
      st, orders := MergeSubgraph(st, subgraphs, i, names, upsert, orders);
    }
    if forall m, a :: upsert(m, a).1 == {} {
      AuthorizationUpToQuiet(subgraphs, orders, upsert);
    }
  }

  /** The duplicates reported are the paths with two or more sources, with exactly those sources. */
  lemma DuplicatesOfBatch(st: MergeState, subgraphs: seq<Subgraph>, duplicates: map<Path, seq<SubgraphDisplayName>>)
    requires DuplicatesUpTo(st.overrideSources, st.duplicateOverriddenFieldPaths, subgraphs, |subgraphs|)
    requires duplicates.Keys == st.duplicateOverriddenFieldPaths
    requires forall q :: q in duplicates ==> duplicates[q] == st.overrideSources[q]
    ensures forall q :: q in duplicates <==> |SourcesOf(subgraphs, |subgraphs|, q)| >= 2
    ensures forall q :: q in duplicates ==> duplicates[q] == SourcesOf(subgraphs, |subgraphs|, q)
    ensures forall j1, j2, q ::
      (0 <= j1 < j2 < |subgraphs| && q in PathsOfSubgraph(subgraphs[j1]) && q in PathsOfSubgraph(subgraphs[j2])) ==>
      q in duplicates
  {
    forall j1, j2, q | 0 <= j1 < j2 < |subgraphs| && q in PathsOfSubgraph(subgraphs[j1]) && q in PathsOfSubgraph(subgraphs[j2])
      ensures q in duplicates
    {
      SourcesOfTwoOverriders(subgraphs, |subgraphs|, q, j1, j2);
    }
  }

  /**
   * The batch errors, in order: the host paths over the OR-scopes limit, the invalid names,
   * the field paths overridden more than once with their sources, and the failed subgraphs.
   */
  method GatherErrors(st: MergeState, nonUnique: set<string>) returns (errors: seq<BatchError>, duplicates: map<Path, seq<SubgraphDisplayName>>)
    requires st.duplicateOverriddenFieldPaths <= st.overrideSources.Keys
    ensures duplicates.Keys == st.duplicateOverriddenFieldPaths
    ensures forall q :: q in duplicates ==> duplicates[q] == st.overrideSources[q]
    ensures errors ==
      (if st.invalidOrScopesHostPaths == {} then [] else [OrScopesLimitError(MaxOrScopes, st.invalidOrScopesHostPaths)]) +
      (if st.unnamedIndices != [] || nonUnique != {} then [InvalidSubgraphNames(nonUnique, st.unnamedIndices)] else []) +
      (if duplicates == map[] then [] else [DuplicateOverriddenFields(duplicates)]) +
      st.validationErrors
  {
    errors := [];
    if st.invalidOrScopesHostPaths != {} {
      errors := errors + [OrScopesLimitError(MaxOrScopes, st.invalidOrScopesHostPaths)];
    }
    if st.unnamedIndices != [] || nonUnique != {} {
      errors := errors + [InvalidSubgraphNames(nonUnique, st.unnamedIndices)];
    }
    duplicates := map[];
    if st.duplicateOverriddenFieldPaths != {} {
      duplicates := DuplicateSources(st.overrideSources, st.duplicateOverriddenFieldPaths);
      errors := errors + [DuplicateOverriddenFields(duplicates)];
    }
    errors := errors + st.validationErrors;
  }

  /**
   * Normalizes a batch: records the subgraph names, merges every subgraph in order, gathers
   * the batch errors and, when there are none, applies the accepted overrides.
   */
  method BatchNormalize(subgraphs: seq<Subgraph>, upsert: Upsert)
    returns (r: BatchNormalization, ghost invalid: set<Path>, ghost duplicates: map<Path, seq<SubgraphDisplayName>>,
             ghost orders: seq<seq<string>>)
    ensures r.errors ==
      (if invalid == {} then [] else [OrScopesLimitError(MaxOrScopes, invalid)]) +
      NameErrors(subgraphs) +
      (if duplicates == map[] then [] else [DuplicateOverriddenFields(duplicates)]) +
      ValidationErrors(subgraphs, |subgraphs|)
    ensures (forall m, a :: upsert(m, a).1 == {}) ==> invalid == {}
    ensures |orders| == |subgraphs| && EnumerateAuthorization(orders, subgraphs)
    ensures (r.authorizationDataByParentTypeName, invalid) == AuthorizationUpTo(subgraphs, orders, upsert)
    ensures forall q :: q in duplicates <==> |SourcesOf(subgraphs, |subgraphs|, q)| >= 2
    ensures forall q :: q in duplicates ==> duplicates[q] == SourcesOf(subgraphs, |subgraphs|, q)
    ensures forall j1, j2, q ::
      (0 <= j1 < j2 < |subgraphs| && q in PathsOfSubgraph(subgraphs[j1]) && q in PathsOfSubgraph(subgraphs[j2])) ==>
      q in duplicates
    ensures r.concreteTypeNamesByAbstractTypeName == ConcreteTypesUpTo(subgraphs, |subgraphs|)
    ensures r.entityTypeNames == EntityTypeNamesUpTo(subgraphs, |subgraphs|)
    ensures forall j, k :: 0 <= j < |subgraphs| && 0 <= k < |subgraphs[j].normalization.warnings| ==>
      subgraphs[j].normalization.warnings[k] in r.warnings
    ensures forall j, t, p ::
      (0 <= j < |subgraphs| && t in OverridesOf(subgraphs[j]) && t !in NamesOf(subgraphs, |subgraphs|) &&
       p in OverridesOf(subgraphs[j])[t]) ==>
      TargetWarning(subgraphs[j], t, p) in r.warnings
    ensures |r.warnings| == WarningCount(subgraphs, |subgraphs|, NamesOf(subgraphs, |subgraphs|))
    ensures forall w :: w in r.warnings ==> BatchWarning(subgraphs, |subgraphs|, NamesOf(subgraphs, |subgraphs|), w)
    ensures r.errors != [] ==> InternalUpTo(r.internalSubgraphBySubgraphName, subgraphs, |subgraphs|)
    ensures r.errors == [] ==> OverridesApplied(r.internalSubgraphBySubgraphName, subgraphs)
  {
    var names, nonUnique := RecordSubgraphNames(subgraphs);
    var st;
    st, orders := MergeAll(subgraphs, names, upsert);
    var errors, bySource := GatherErrors(st, nonUnique);
    invalid, duplicates := st.invalidOrScopesHostPaths, bySource;
    DuplicatesOfBatch(st, subgraphs, duplicates);
    var internal := st.internalSubgraphs;
    if errors == [] {
      AcceptedTargetsNamed(st.acceptedOverrides, subgraphs, |subgraphs|, names);
      assert NormalizedNames(subgraphs, |subgraphs|) == names;
      internal := ApplyOverrides(st.internalSubgraphs, st.acceptedOverrides);
      OverridesAppliedHold(st.internalSubgraphs, internal, st.acceptedOverrides, subgraphs);
    }
    r := BatchNormalization(st.authorization, st.concreteTypes, st.entityTypeNames, errors, internal, st.warnings);
  }
}
