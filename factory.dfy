/**
 * The normalization factory of one subgraph: a symbol table of named types that the
 * upserters fill and merge, the directive, key, override and authorization extraction,
 * and the validators that append to the factory's error list.
 */
module Factory {
  import opened Ast
  import opened Model
  import RootTypes
  import opened RegistrySpec
  import opened DirectiveSpec
  import opened AuthorizationSpec
  import opened ImplementationSpec
  import opened EdfsValidation
  import opened EdfsParsing
  import opened NormalizeSpec

  /** The outcome of checking the named type of an argument: an output type is an unhandled error. */
  datatype InputValidation = InputValidation(hasUnhandledError: bool, kind: Option<Kind>)

  predicate IsInputKind(k: Kind) {
    k == EnumKind || k == InputObjectKind || k == ScalarKind
  }

  /** The arguments among `names` whose named type is defined in the subgraph but is not an input type. */
  function InvalidArgumentsOf(arguments: map<string, InputValueData>, names: set<string>, baseScalars: set<string>,
                              parents: map<string, ParentData>): set<InvalidArgument>
  {
    set a | a in names && a in arguments && NamedTypeName(arguments[a].typ) !in baseScalars &&
            NamedTypeName(arguments[a].typ) in parents && !IsInputKind(parents[NamedTypeName(arguments[a].typ)].Kind())
      :: InvalidArgument(a, NamedTypeName(arguments[a].typ), parents[NamedTypeName(arguments[a].typ)].Kind(), arguments[a].typ)
  }

  /** The named types of the arguments among `names` that are neither base scalars nor defined. */
  function UndefinedArgumentTypes(arguments: map<string, InputValueData>, names: set<string>, baseScalars: set<string>,
                                  parents: map<string, ParentData>): set<string>
  {
    set a | a in names && a in arguments && NamedTypeName(arguments[a].typ) !in baseScalars &&
            NamedTypeName(arguments[a].typ) !in parents :: NamedTypeName(arguments[a].typ)
  }

  /**
   * A field's arguments are all acceptable exactly when each named type is a base scalar,
   * undefined (reported separately) or an enum, input object or scalar.
   */
  lemma InvalidArgumentsEmptyIff(arguments: map<string, InputValueData>, baseScalars: set<string>,
                                 parents: map<string, ParentData>)
    ensures InvalidArgumentsOf(arguments, arguments.Keys, baseScalars, parents) == {} <==>
      forall a :: a in arguments ==>
        var t := NamedTypeName(arguments[a].typ);
        t in baseScalars || t !in parents || IsInputKind(parents[t].Kind())
  {
    if exists a :: a in arguments && NamedTypeName(arguments[a].typ) !in baseScalars &&
                   NamedTypeName(arguments[a].typ) in parents && !IsInputKind(parents[NamedTypeName(arguments[a].typ)].Kind()) {
      var a :| a in arguments && NamedTypeName(arguments[a].typ) !in baseScalars &&
               NamedTypeName(arguments[a].typ) in parents && !IsInputKind(parents[NamedTypeName(arguments[a].typ)].Kind());
      var t := NamedTypeName(arguments[a].typ);
      assert InvalidArgument(a, t, parents[t].Kind(), arguments[a].typ) in InvalidArgumentsOf(arguments, arguments.Keys, baseScalars, parents);
    }
  }

  function Lookup<K, V>(m: map<K, V>, k: K): (r: Option<V>)
    ensures r.Some? <==> k in m
    ensures r.Some? ==> r.value == m[k]
  {
    if k in m then Some(m[k]) else None
  }

  /** The two parts appended to a sequence can be read back from the result. */
  lemma AppendedParts<T>(s: seq<T>, u: seq<T>, g: seq<T>)
    ensures (s + u + g)[|s|..] == u + g
    ensures (u + g)[|u + g| - |g|..] == g && (u + g)[..|u + g| - |g|] == u
  {
    assert (s + u + g)[|s|..] == u + g;
  }

  /** `s` holds one undefined-type error per name of `names`, and nothing else. */
  predicate ReportsUndefined(s: seq<ErrorKind>, names: set<string>) {
    (forall i :: 0 <= i < |s| ==> s[i].UndefinedType? && s[i].typeName in names) &&
    (forall n :: n in names ==> UndefinedType(n) in s)
  }

  /** One more argument adds at most one invalid argument and at most one undefined type. */
  lemma ArgumentStep(arguments: map<string, InputValueData>, names: set<string>, baseScalars: set<string>,
                     parents: map<string, ParentData>, a: string)
    requires a in arguments
    ensures var n := NamedTypeName(arguments[a].typ);
      InvalidArgumentsOf(arguments, names + {a}, baseScalars, parents) ==
        InvalidArgumentsOf(arguments, names, baseScalars, parents) +
        if n !in baseScalars && n in parents && !IsInputKind(parents[n].Kind())
        then {InvalidArgument(a, n, parents[n].Kind(), arguments[a].typ)} else {}
    ensures var n := NamedTypeName(arguments[a].typ);
      UndefinedArgumentTypes(arguments, names + {a}, baseScalars, parents) ==
        UndefinedArgumentTypes(arguments, names, baseScalars, parents) + if n !in baseScalars && n !in parents then {n} else {}
  {
  }

  /** Reporting one more undefined type keeps the report complete and exact. */
  lemma ReportsUndefinedStep(s: seq<ErrorKind>, names: set<string>, n: string)
    requires ReportsUndefined(s, names)
    ensures ReportsUndefined(s + [UndefinedType(n)], names + {n})
  {
    assert (s + [UndefinedType(n)])[|s|] == UndefinedType(n);
  }

  /** The configurations recorded under `key`, extended by `cs`; an entry is made only for a first configuration. */
  function WithConfigurations(m: map<string, seq<EventConfiguration>>, key: string, cs: seq<EventConfiguration>)
    : (r: map<string, seq<EventConfiguration>>)
    ensures r.Keys == if cs == [] then m.Keys else m.Keys + {key}
    ensures forall k :: k in m && k != key ==> r[k] == m[k]
    ensures key in r ==> r[key] == (if key in m then m[key] else []) + cs
  {
    if cs == [] then m else m[key := (if key in m then m[key] else []) + cs]
  }

  lemma WithConfigurationsAppend(m: map<string, seq<EventConfiguration>>, key: string, cs: seq<EventConfiguration>,
                                 c: EventConfiguration)
    ensures var w := WithConfigurations(m, key, cs);
      WithConfigurations(m, key, cs + [c]) == w[key := (if key in w then w[key] else []) + [c]]
  {
    var base := if key in m then m[key] else [];
    assert base + (cs + [c]) == (base + cs) + [c];
  }

  /** `s` holds one invalid-root-type error per name of `names`, and nothing else. */
  predicate ReportsInvalidRootTypes(s: seq<ErrorKind>, names: set<string>) {
    (forall i :: 0 <= i < |s| ==> s[i].InvalidRootType? && s[i].typeName in names) &&
    (forall n :: n in names ==> InvalidRootType(n) in s)
  }

  /** What the normalization of one subgraph hands on when it found no error. */
  datatype NormalizationResult = NormalizationResult(
    authorizationDataByParentTypeName: map<string, AuthorizationData>,
    concreteTypeNamesByAbstractTypeName: map<string, set<string>>,
    configurationDataByTypeName: map<string, ConfigurationData>,
    entityTypeNames: set<string>,
    entityInterfaces: map<string, EntityInterfaceData>,
    isEventDrivenGraph: bool,
    isVersionTwo: bool,
    keyFieldNamesByParentTypeName: map<string, set<string>>,
    operationTypes: map<string, OperationType>,
    originalTypeNameByRenamedTypeName: map<string, string>,
    overridesByTargetSubgraphName: OverrideMap,
    parentDefinitionDataByTypeName: map<string, ParentData>)

  /** The normalization of one subgraph: its result, or every error found; the warnings either way. */
  datatype NormalizationOutcome =
    | Normalized(result: NormalizationResult, warnings: seq<Warning>)
    | NotNormalized(errors: seq<ErrorKind>, warnings: seq<Warning>)

  class NormalizationFactory {
    const subgraphName: string
    const ext: External
    var isSubgraphVersionTwo: bool
    var errors: seq<ErrorKind>
    var warnings: seq<Warning>
    var parentDefinitionDataByTypeName: map<string, ParentData>
    var operationTypeNodeByTypeName: map<string, OperationType>
    var concreteTypeNamesByAbstractTypeName: map<string, set<string>>
    /** The abstract-to-concrete edges handed to the resolvability graph, whose internals are not modelled. */
    ghost var graphEdges: set<(string, string)>
    var overridesByTargetSubgraphName: OverrideMap
    var invalidOrScopesHostPaths: set<Path>
    var authorizationDataByParentTypeName: map<string, AuthorizationData>
    var interfaceTypeNamesWithAuthorizationDirectives: set<string>
    var leafTypeNamesWithAuthorizationDirectives: set<string>
    var referencedTypeNames: set<string>
    var entityInterfaceDataByTypeName: map<string, EntityInterfaceData>
    /** The names of the entities the walkers found; what is recorded about each is not modelled. */
    var entityTypeNames: set<string>
    /** The `@key` field sets of each entity, with whether each is marked unresolvable. */
    var keyFieldSetDataByTypeName: map<string, map<string, bool>>
    var keyFieldNamesByParentTypeName: map<string, set<string>>
    var fieldSetDataByTypeName: map<string, FieldSetData>
    var heirFieldAuthorizationDataByTypeName: map<string, seq<FieldAuthorizationData>>
    var parentsWithChildArguments: set<string>
    /** The operation types the schema definition declares, with the name of the type each names. */
    var schemaOperationTypeNames: map<OperationType, string>
    var edfsDirectiveReferences: set<string>
    var eventsConfigurations: map<string, seq<EventConfiguration>>
    /** Field coordinates with `@external` that no interface implementation has accounted for yet. */
    var unvalidatedExternalFieldCoords: set<Path>
    var configurationDataByParentTypeName: map<string, ConfigurationData>
    var isSubgraphEventDrivenGraph: bool
    /** The root types the schema definition renames, by their new name; filled by the walkers. */
    var originalTypeNameByRenamedTypeName: map<string, string>
    /** The walkers' position: the type and child being read, and the root-type rename of the type. */
    var originalParentTypeName: string
    var renamedParentTypeName: string
    var childName: string

    /** A factory for the named subgraph, or for a placeholder name when the subgraph has none. */
    constructor(subgraphName: string, ext: External)
      ensures this.subgraphName == (if subgraphName != "" then subgraphName else ext.notApplicableName)
      ensures this.ext == ext
      ensures errors == [] && warnings == [] && parentDefinitionDataByTypeName == map[]
      ensures concreteTypeNamesByAbstractTypeName == map[] && overridesByTargetSubgraphName == map[]
      ensures invalidOrScopesHostPaths == {} && authorizationDataByParentTypeName == map[]
    {
      this.subgraphName := if subgraphName != "" then subgraphName else ext.notApplicableName;
      this.ext := ext;
      isSubgraphVersionTwo := false;
      errors := [];
      warnings := [];
      parentDefinitionDataByTypeName := map[];
      operationTypeNodeByTypeName := map[];
      concreteTypeNamesByAbstractTypeName := map[];
      graphEdges := {};
      overridesByTargetSubgraphName := map[];
      invalidOrScopesHostPaths := {};
      authorizationDataByParentTypeName := map[];
      interfaceTypeNamesWithAuthorizationDirectives := {};
      leafTypeNamesWithAuthorizationDirectives := {};
      referencedTypeNames := {};
      entityInterfaceDataByTypeName := map[];
      entityTypeNames := {};
      keyFieldSetDataByTypeName := map[];
      keyFieldNamesByParentTypeName := map[];
      fieldSetDataByTypeName := map[];
      heirFieldAuthorizationDataByTypeName := map[];
      parentsWithChildArguments := {};
      schemaOperationTypeNames := map[];
      edfsDirectiveReferences := {};
      eventsConfigurations := map[];
      unvalidatedExternalFieldCoords := {};
      configurationDataByParentTypeName := map[];
      isSubgraphEventDrivenGraph := false;
      originalTypeNameByRenamedTypeName := map[];
      originalParentTypeName := "";
      renamedParentTypeName := "";
      childName := "";
    }

    /** The name authorization and overrides are recorded under: the root-type rename, if any. */
    function ParentTypeName(): string
      reads this`renamedParentTypeName, this`originalParentTypeName
    {
      if renamedParentTypeName != "" then renamedParentTypeName else originalParentTypeName
    }

    /** The host path of the directives being read: the child of the type, or the type itself. */
    function HostPath(): Path
      reads this`childName, this`originalParentTypeName
    {
      if childName != "" then ChildPath(originalParentTypeName, childName) else TypePath(originalParentTypeName)
    }

    // ----- argument validation -----

    /**
     * Checks the named type of an argument: base scalars and input types are fine, an
     * undefined name is reported as such, and any other kind is an unhandled error.
     */
    method ValidateInputNamedType(namedType: string) returns (r: InputValidation)
      modifies this`errors
      ensures namedType in ext.baseScalars ==> r == InputValidation(false, None) && errors == old(errors)
      ensures namedType !in ext.baseScalars && namedType !in parentDefinitionDataByTypeName ==>
        r == InputValidation(false, None) && errors == old(errors) + [UndefinedType(namedType)]
      ensures namedType !in ext.baseScalars && namedType in parentDefinitionDataByTypeName ==>
        && errors == old(errors)
        && (r.hasUnhandledError <==> !IsInputKind(parentDefinitionDataByTypeName[namedType].Kind()))
        && (r.hasUnhandledError ==> r.kind == Some(parentDefinitionDataByTypeName[namedType].Kind()))
    {
      if namedType in ext.baseScalars {
        return InputValidation(false, None);
      }
      if namedType !in parentDefinitionDataByTypeName {
        errors := errors + [UndefinedType(namedType)];
        return InputValidation(false, None);
      }
      var kind := parentDefinitionDataByTypeName[namedType].Kind();
      if IsInputKind(kind) {
        return InputValidation(false, None);
      }
      return InputValidation(true, Some(kind));
    }

    /** Checks one more argument: an undefined named type is reported, an output type is gathered as invalid. */
    method ValidateArgument(args: map<string, InputValueData>, a: string, ghost done: set<string>,
                            invalid: set<InvalidArgument>, ghost start: nat) returns (invalid': set<InvalidArgument>)
      requires a in args && start <= |errors|
      requires invalid == InvalidArgumentsOf(args, done, ext.baseScalars, parentDefinitionDataByTypeName)
      requires ReportsUndefined(errors[start..], UndefinedArgumentTypes(args, done, ext.baseScalars, parentDefinitionDataByTypeName))
      modifies this`errors
      ensures old(errors) <= errors
      ensures invalid' == InvalidArgumentsOf(args, done + {a}, ext.baseScalars, parentDefinitionDataByTypeName)
      ensures ReportsUndefined(errors[start..], UndefinedArgumentTypes(args, done + {a}, ext.baseScalars, parentDefinitionDataByTypeName))
    {
      ArgumentStep(args, done, ext.baseScalars, parentDefinitionDataByTypeName, a);
      var namedTypeName := NamedTypeName(args[a].typ);
      var check := ValidateInputNamedType(namedTypeName);
      if check.hasUnhandledError {
        invalid' := invalid + {InvalidArgument(a, namedTypeName, check.kind.value, args[a].typ)};
      } else {
        invalid' := invalid;
      }
      if namedTypeName !in ext.baseScalars && namedTypeName !in parentDefinitionDataByTypeName {
        ReportsUndefinedStep(old(errors)[start..], UndefinedArgumentTypes(args, done, ext.baseScalars, parentDefinitionDataByTypeName),
                             namedTypeName);
        assert errors[start..] == old(errors)[start..] + [UndefinedType(namedTypeName)];
      }
    }

    /**
     * Checks every argument of a field: each undefined named type is reported, and the
     * arguments of an output type are gathered into one invalid-arguments error, last.
     */
    method ValidateArguments(fieldData: FieldData, fieldPath: Path)
      modifies this`errors
      ensures old(errors) <= errors
      ensures var added := errors[|old(errors)|..];
              var args := fieldData.arguments;
              var invalid := InvalidArgumentsOf(args, args.Keys, ext.baseScalars, parentDefinitionDataByTypeName);
              var undefined := UndefinedArgumentTypes(args, args.Keys, ext.baseScalars, parentDefinitionDataByTypeName);
        if invalid == {} then ReportsUndefined(added, undefined)
        else |added| >= 1 && added[|added| - 1] == InvalidArguments(fieldPath, invalid) &&
             ReportsUndefined(added[..|added| - 1], undefined)
    {
      var args := fieldData.arguments;
      var remaining := args.Keys;
      var invalid: set<InvalidArgument> := {};
      ghost var done: set<string> := {};
      assert errors[|old(errors)|..] == [];
      while remaining != {}
        invariant done !! remaining && done + remaining == args.Keys
        invariant invalid == InvalidArgumentsOf(args, done, ext.baseScalars, parentDefinitionDataByTypeName)
        invariant old(errors) <= errors
        invariant ReportsUndefined(errors[|old(errors)|..], UndefinedArgumentTypes(args, done, ext.baseScalars, parentDefinitionDataByTypeName))
        decreases remaining
      {
        var a :| a in remaining;
        invalid := ValidateArgument(args, a, done, invalid, |old(errors)|);
        remaining := remaining - {a};
        done := done + {a};
      }
      assert done == args.Keys;
      if invalid != {} {
        ghost var undefinedErrors := errors[|old(errors)|..];
        errors := errors + [InvalidArguments(fieldPath, invalid)];
        assert errors[|old(errors)|..][..|errors[|old(errors)|..]| - 1] == undefinedErrors;
      }
    }
 
    // ----- authorization -----

    /** Reads one AND-set of a field-level or leaf-level `@requiresScopes`: the string scopes it lists. */
    static method ReadAndScopes(scopes: seq<Value>) returns (andScopes: set<string>)
      ensures andScopes == AndScopes(scopes)
    {
      andScopes := {};
      for k := 0 to |scopes|
        invariant andScopes == AndScopes(scopes[..k])
      {
        assert scopes[..k + 1] == scopes[..k] + [scopes[k]];
        if scopes[k].StringValue? {
          andScopes := andScopes + {scopes[k].s};
        }
      }
      assert scopes[..|scopes|] == scopes;
    }

    /**
     * Reads one AND-set of a type-level `@requiresScopes`; `None` as soon as a scope is not a
     * string.
     */
    static method ReadTypeAndScopes(scopes: seq<Value>) returns (andScopes: Option<set<string>>)
      ensures andScopes == TypeAndScopes(scopes)
    {
      TypeAndScopesAgrees(scopes);
      var found: set<string> := {};
      for k := 0 to |scopes|
        invariant found == AndScopes(scopes[..k])
        invariant forall m :: 0 <= m < k ==> scopes[m].StringValue?
      {
        assert scopes[..k + 1] == scopes[..k] + [scopes[k]];
        if !scopes[k].StringValue? {
          return None;
        }
        found := found + {scopes[k].s};
      }
      assert scopes[..|scopes|] == scopes;
      return Some(found);
    }

    /**
     * Reads the OR-groups of a type-level `@requiresScopes`, appending each non-empty AND-set
     * to `acc`; stops at the first group that is not a list of strings, keeping what it appended.
     */
    static method ReadTypeOrScopes(orScopes: seq<Value>, acc: seq<set<string>>) returns (r: ScopesParse)
      ensures r == ParseTypeOrScopes(orScopes, acc)
    {
      var requiredScopes := acc;
      for j := 0 to |orScopes|
        invariant ParseTypeOrScopes(orScopes[j..], requiredScopes) == ParseTypeOrScopes(orScopes, acc)
      {
        assert orScopes[j..][0] == orScopes[j] && orScopes[j..][1..] == orScopes[j + 1..];
        var scopes := orScopes[j];
        if !scopes.ListValue? {
          return ScopesParse(requiredScopes, false);
        }
        var andScopes := ReadTypeAndScopes(scopes.values);
        if andScopes.None? {
          return ScopesParse(requiredScopes, false);
        }
        if |andScopes.value| > 0 {
          requiredScopes := requiredScopes + [andScopes.value];
        }
      }
      assert orScopes[|orScopes|..] == [];
      return ScopesParse(requiredScopes, true);
    }

    /**
     * Looks for `@authenticated` and `@requiresScopes` among the directives of an object or
     * interface; `None` as soon as either occurs a second time.
     */
    static method ScanAuthorizationDirectives(ds: seq<Directive>) returns (r: Option<TypeAuthDirectives>)
      ensures r == ScanTypeAuthDirectives(ds, TypeAuthDirectives(false, None))
    {
      var found := TypeAuthDirectives(false, None);
      for i := 0 to |ds|
        invariant ScanTypeAuthDirectives(ds[i..], found) == ScanTypeAuthDirectives(ds, TypeAuthDirectives(false, None))
      {
        assert ds[i..][0] == ds[i] && ds[i..][1..] == ds[i + 1..];
        var d := ds[i];
        if d.name == AuthenticatedDirective {
          if found.requiresAuthentication {
            return None;
          }
          found := found.(requiresAuthentication := true);
        } else if d.name == RequiresScopesDirective {
          if found.requiresScopes.Some? {
            return None;
          }
          found := found.(requiresScopes := Some(d));
        }
      }
      assert ds[|ds|..] == [];
      return Some(found);
    }

    /**
     * Reads the type-level `@authenticated` and `@requiresScopes` of an object or interface:
     * the entry of the type is reset, then flagged and filled as `GetTypeAuthorization`
     * describes; the type is marked when it is an interface, and its host path is invalid
     * when its OR-groups exceed the limit.
     */
    method GetAuthorizationData(node: TypeDefinitionNode) returns (r: Option<AuthorizationData>)
      requires node.kind == ObjectKind || node.kind == InterfaceKind
      modifies this`authorizationDataByParentTypeName, this`interfaceTypeNamesWithAuthorizationDirectives,
               this`invalidOrScopesHostPaths
      ensures var p := ParentTypeName();
              var t := GetTypeAuthorization(Lookup(old(authorizationDataByParentTypeName), p), p,
                                            node.kind == InterfaceKind, node.directives);
        && r == t.returned
        && authorizationDataByParentTypeName ==
             (if t.stored.Some? then old(authorizationDataByParentTypeName)[p := t.stored.value]
              else old(authorizationDataByParentTypeName))
        && interfaceTypeNamesWithAuthorizationDirectives ==
             old(interfaceTypeNamesWithAuthorizationDirectives) + (if t.markInterface then {p} else {})
        && invalidOrScopesHostPaths ==
             old(invalidOrScopesHostPaths) + (if t.orScopesLimitExceeded then {TypePath(originalParentTypeName)} else {})
    {
      var p := ParentTypeName();
      var existing := Lookup(authorizationDataByParentTypeName, p);
      var reset := if existing.Some? then Some(ResetAuthorizationData(existing.value)) else None;
      if reset.Some? {
        authorizationDataByParentTypeName := authorizationDataByParentTypeName[p := reset.value];
      }
      var scan := ScanAuthorizationDirectives(node.directives);
      if scan.None? {
        return None;
      }
      if !scan.value.requiresAuthentication && scan.value.requiresScopes.None? {
        return reset;
      }
      r := ApplyTypeAuthorizationDirectives(p, reset, scan.value, node.kind == InterfaceKind);
    }

    /**
     * Applies the authorization directives found on an object or interface to the (reset)
     * entry of `p`, as `FoundTypeAuthorization` describes.
     */
    method ApplyTypeAuthorizationDirectives(p: string, reset: Option<AuthorizationData>, found: TypeAuthDirectives,
                                            isInterface: bool) returns (r: Option<AuthorizationData>)
      requires reset.Some? ==> p in authorizationDataByParentTypeName && authorizationDataByParentTypeName[p] == reset.value
      requires reset.None? ==> p !in authorizationDataByParentTypeName
      requires found.requiresAuthentication || found.requiresScopes.Some?
      modifies this`authorizationDataByParentTypeName, this`interfaceTypeNamesWithAuthorizationDirectives,
               this`invalidOrScopesHostPaths
      ensures var t := FoundTypeAuthorization(reset, p, isInterface, found);
        && r == t.returned
        && authorizationDataByParentTypeName ==
             (if t.stored.Some? then old(authorizationDataByParentTypeName)[p := t.stored.value]
              else old(authorizationDataByParentTypeName))
        && interfaceTypeNamesWithAuthorizationDirectives ==
             old(interfaceTypeNamesWithAuthorizationDirectives) + (if t.markInterface then {p} else {})
        && invalidOrScopesHostPaths ==
             old(invalidOrScopesHostPaths) + (if t.orScopesLimitExceeded then {TypePath(originalParentTypeName)} else {})
    {
      if isInterface {
        interfaceTypeNamesWithAuthorizationDirectives := interfaceTypeNamesWithAuthorizationDirectives + {p};
      }
      var data := if reset.Some? then reset.value else NewAuthorizationData(p);
      data := data.(hasParentLevelAuthorization := true, requiresAuthentication := found.requiresAuthentication);
      ghost var t := FoundTypeAuthorization(reset, p, isInterface, found);
      authorizationDataByParentTypeName := authorizationDataByParentTypeName[p := data];
      if found.requiresScopes.None? {
        assert t == TypeAuthorization(Some(data), Some(data), isInterface, false);
        return Some(data);
      }
      assert t == ScopedTypeAuthorization(data, found.requiresScopes.value, isInterface);
      ghost var mid := authorizationDataByParentTypeName;
      r := ReadTypeRequiresScopes(p, data, found.requiresScopes.value, isInterface);
      assert mid[p := t.stored.value] == old(authorizationDataByParentTypeName)[p := t.stored.value];
    }

    /**
     * Reads the single type-level `@requiresScopes` `directive` into the flagged entry `data`
     * of `p`, as `ScopedTypeAuthorization` describes.
     */
    method ReadTypeRequiresScopes(p: string, data: AuthorizationData, directive: Directive, isInterface: bool)
      returns (r: Option<AuthorizationData>)
      modifies this`authorizationDataByParentTypeName, this`invalidOrScopesHostPaths
      ensures var t := ScopedTypeAuthorization(data, directive, isInterface);
        && r == t.returned
        && t.stored.Some?
        && authorizationDataByParentTypeName == old(authorizationDataByParentTypeName)[p := t.stored.value]
        && invalidOrScopesHostPaths ==
             old(invalidOrScopesHostPaths) + (if t.orScopesLimitExceeded then {TypePath(originalParentTypeName)} else {})
    {
      authorizationDataByParentTypeName := authorizationDataByParentTypeName[p := data];
      if |directive.arguments| != 1 {
        return None;
      }
      var scopesArgument := directive.arguments[0];
      if scopesArgument.name != ScopesArgument || !scopesArgument.value.ListValue? {
        return None;
      }
      var orScopes := scopesArgument.value.values;
      if |orScopes| < 1 {
        return Some(data);
      }
      if |orScopes| > MaxOrScopes {
        invalidOrScopesHostPaths := invalidOrScopesHostPaths + {TypePath(originalParentTypeName)};
        return None;
      }
      var parsed := ReadTypeOrScopes(orScopes, data.requiredScopes);
      var updated := data.(requiredScopes := parsed.requiredScopes);
      authorizationDataByParentTypeName := authorizationDataByParentTypeName[p := updated];
      return if parsed.wellFormed then Some(updated) else None;
    }

    // ----- directives -----

    /**
     * Records an `@override(from:)` on the current field under its target subgraph; a
     * non-string target or the declaring subgraph itself is rejected and records nothing.
     */
    method HandleOverrideDeclaration(d: Directive) returns (rejected: bool)
      modifies this`overridesByTargetSubgraphName
      ensures rejected <==> OverrideTarget(d, subgraphName).None?
      ensures overridesByTargetSubgraphName ==
        if rejected then old(overridesByTargetSubgraphName)
        else RecordOverride(old(overridesByTargetSubgraphName), OverrideTarget(d, subgraphName).value,
                            ParentTypeName(), childName)
    {
      var argument := KeyDedupValue(d);
      if !argument.StringValue? {
        return true;
      }
      var targetSubgraphName := argument.s;
      if targetSubgraphName == subgraphName {
        return true;
      }
      var byParent := if targetSubgraphName in overridesByTargetSubgraphName
                      then overridesByTargetSubgraphName[targetSubgraphName] else map[];
      var parentTypeName := ParentTypeName();
      var fieldNames := if parentTypeName in byParent then byParent[parentTypeName] else {};
      overridesByTargetSubgraphName :=
        overridesByTargetSubgraphName[targetSubgraphName := byParent[parentTypeName := fieldNames + {childName}]];
      return false;
    }

    /**
     * Records the directives of a type node on `directives`: an invalid one is reported,
     * an ignored one or a repeated `@key` field set is dropped, any other is appended.
     */
    method ExtractDirectives(node: TypeDefinitionNode, directives: DirectiveMap, hostPath: Path)
      returns (r: DirectiveMap)
      modifies this`errors
      ensures var x := ExtractDirectivesFrom(node.directives, OnType(node.kind), hostPath, ext,
                                             DirectiveExtraction(directives, {}, old(errors)));
        r == x.directives && errors == x.errors
    {
      var ds := node.directives;
      r := directives;
      var entityKeys: set<Value> := {};
      ghost var final := ExtractDirectivesFrom(ds, OnType(node.kind), hostPath, ext, DirectiveExtraction(directives, {}, errors));
      for i := 0 to |ds|
        invariant ExtractDirectivesFrom(ds[i..], OnType(node.kind), hostPath, ext,
                                        DirectiveExtraction(r, entityKeys, errors)) == final
      {
        assert ds[i..][0] == ds[i] && ds[i..][1..] == ds[i + 1..];
        var d := ds[i];
        if !ext.isDirectiveValid(d, OnType(node.kind), r) {
          errors := errors + [InvalidDirective(d.name, hostPath)];
          continue;
        }
        if d.name in ext.ignoredParentDirectives {
          continue;
        }
        if d.name == KeyDirective {
          var entityKey := KeyDedupValue(d);
          if entityKey in entityKeys {
            continue;
          }
          entityKeys := entityKeys + {entityKey};
        }
        r := AppendDirective(r, d);
      }
      assert ds[|ds|..] == [];
    }

    /**
     * The directive loop of a leaf: as `ExtractLeafDirectivesFrom` describes, it records the
     * directives, reports the invalid ones, handles `@override` and sets the authorization
     * directives aside, in order.
     */
    method ExtractLeafDirectives(location: Location, ds: seq<Directive>, directives: DirectiveMap)
      returns (r: DirectiveMap, authorizationDirectives: seq<Directive>)
      modifies this`errors, this`overridesByTargetSubgraphName
      ensures var x := ExtractLeafDirectivesFrom(ds, location, HostPath(), ext, subgraphName, ParentTypeName(), childName,
                                                 LeafExtraction(directives, [], old(errors), old(overridesByTargetSubgraphName)));
        r == x.directives && authorizationDirectives == x.authorizationDirectives &&
        errors == x.errors && overridesByTargetSubgraphName == x.overrides
    {
      var hostPath := HostPath();
      var parentTypeName := ParentTypeName();
      r := directives;
      authorizationDirectives := [];
      ghost var final := ExtractLeafDirectivesFrom(ds, location, hostPath, ext, subgraphName, parentTypeName, childName,
                                                   LeafExtraction(directives, [], errors, overridesByTargetSubgraphName));
      for i := 0 to |ds|
        invariant ExtractLeafDirectivesFrom(ds[i..], location, hostPath, ext, subgraphName, parentTypeName, childName,
                    LeafExtraction(r, authorizationDirectives, errors, overridesByTargetSubgraphName)) == final
      {
        assert ds[i..][0] == ds[i] && ds[i..][1..] == ds[i + 1..];
        var d := ds[i];
        if !ext.isDirectiveValid(d, location, r) {
          errors := errors + [InvalidDirective(d.name, hostPath)];
          continue;
        }
        if d.name == ExtendsDirective {
          continue;
        }
        if d.name == OverrideDirective {
          var rejected := HandleOverrideDeclaration(d);
          if rejected {
            errors := errors + [InvalidDirective(d.name, hostPath)];
          }
          continue;
        }
        if d.name == AuthenticatedDirective || d.name == RequiresScopesDirective {
          authorizationDirectives := authorizationDirectives + [d];
          continue;
        }
        r := AppendDirective(r, d);
      }
      assert ds[|ds|..] == [];
    }

    /**
     * Records the directives of an enum, scalar or field on `directives` as
     * `ExtractLeafDirectivesFrom` describes (handling `@override` along the way), then applies
     * its authorization directives to the requirement of the current parent type or field.
     */
    method ExtractDirectivesAndAuthorization(location: Location, ds: seq<Directive>, directives: DirectiveMap)
      returns (r: DirectiveMap)
      requires location == OnType(EnumKind) || location == OnType(ScalarKind) || location == OnField
      modifies this`errors, this`overridesByTargetSubgraphName, this`leafTypeNamesWithAuthorizationDirectives,
               this`authorizationDataByParentTypeName, this`invalidOrScopesHostPaths
      ensures var x := ExtractLeafDirectivesFrom(ds, location, HostPath(), ext, subgraphName, ParentTypeName(), childName,
                                                 LeafExtraction(directives, [], old(errors), old(overridesByTargetSubgraphName)));
        && r == x.directives && errors == x.errors && overridesByTargetSubgraphName == x.overrides
        && (x.authorizationDirectives == [] ==>
              && authorizationDataByParentTypeName == old(authorizationDataByParentTypeName)
              && leafTypeNamesWithAuthorizationDirectives == old(leafTypeNamesWithAuthorizationDirectives)
              && invalidOrScopesHostPaths == old(invalidOrScopesHostPaths))
        && (x.authorizationDirectives != [] ==>
              var u := LeafAuthorization(old(authorizationDataByParentTypeName), ParentTypeName(), location == OnField,
                                         childName, x.authorizationDirectives);
              && authorizationDataByParentTypeName == old(authorizationDataByParentTypeName)[ParentTypeName() := u.data]
              && leafTypeNamesWithAuthorizationDirectives ==
                   old(leafTypeNamesWithAuthorizationDirectives) + (if location != OnField then {ParentTypeName()} else {})
              && invalidOrScopesHostPaths == old(invalidOrScopesHostPaths) + (if u.hostPathInvalid then {HostPath()} else {}))
    {
      var authorizationDirectives;
      r, authorizationDirectives := ExtractLeafDirectives(location, ds, directives);
      var parentTypeName := ParentTypeName();
      if authorizationDirectives == [] {
        return;
      }
      if location != OnField {
        leafTypeNamesWithAuthorizationDirectives := leafTypeNamesWithAuthorizationDirectives + {parentTypeName};
      }
      ApplyLeafAuthorization(location == OnField, authorizationDirectives);
    }

    /** Appends the non-empty AND-sets of one `@requiresScopes` argument, in order. */
    static method AppendScopes(orScopes: seq<Value>, requiredScopes: seq<set<string>>) returns (r: seq<set<string>>)
      ensures r == AppendOrScopes(orScopes, requiredScopes)
    {
      r := requiredScopes;
      for j := 0 to |orScopes|
        invariant AppendOrScopes(orScopes[j..], r) == AppendOrScopes(orScopes, requiredScopes)
      {
        assert orScopes[j..][0] == orScopes[j] && orScopes[j..][1..] == orScopes[j + 1..];
        var andScopes := ReadAndScopes(ListItems(orScopes[j]));
        if |andScopes| > 0 {
          r := r + [andScopes];
        }
      }
      assert orScopes[|orScopes|..] == [];
    }

    /**
     * Applies the authorization directives of one field or type in order: `@authenticated`
     * sets the flag, an over-long `@requiresScopes` invalidates the host path, any other
     * appends its AND-sets.
     */
    static method ApplyDirectives(ds: seq<Directive>, requirement: AuthRequirement) returns (r: AuthRequirement)
      ensures r == ApplyAuthorizationDirectives(ds, requirement)
    {
      r := requirement;
      for i := 0 to |ds|
        invariant ApplyAuthorizationDirectives(ds[i..], r) == ApplyAuthorizationDirectives(ds, requirement)
      {
        assert ds[i..][0] == ds[i] && ds[i..][1..] == ds[i + 1..];
        var d := ds[i];
        if d.name == AuthenticatedDirective {
          r := r.(requiresAuthentication := true);
          continue;
        }
        var orScopes := OrScopesOf(d);
        if |orScopes| > MaxOrScopes {
          r := r.(hostPathInvalid := true);
          continue;
        }
        var scopes := AppendScopes(orScopes, r.requiredScopes);
        r := r.(requiredScopes := scopes);
      }
      assert ds[|ds|..] == [];
    }

    /**
     * Applies the collected authorization directives of an enum, scalar or field to the
     * requirement `LeafAuthorization` names: `@authenticated` sets the flag, a
     * `@requiresScopes` over the limit invalidates the host path, any other appends its
     * non-empty AND-sets.
     */
    method ApplyLeafAuthorization(isField: bool, authorizationDirectives: seq<Directive>)
      modifies this`authorizationDataByParentTypeName, this`invalidOrScopesHostPaths
      ensures var u := LeafAuthorization(old(authorizationDataByParentTypeName), ParentTypeName(), isField, childName,
                                         authorizationDirectives);
        && authorizationDataByParentTypeName == old(authorizationDataByParentTypeName)[ParentTypeName() := u.data]
        && invalidOrScopesHostPaths == old(invalidOrScopesHostPaths) + (if u.hostPathInvalid then {HostPath()} else {})
    {
      var parentTypeName := ParentTypeName();
      var parent := if parentTypeName in authorizationDataByParentTypeName then authorizationDataByParentTypeName[parentTypeName]
                    else NewAuthorizationData(parentTypeName);
      var field := if childName in parent.fieldAuthorization then parent.fieldAuthorization[childName]
                   else FieldAuthorizationData(childName, false, []);
      var requirement := if isField then AuthRequirement(field.requiresAuthentication, field.requiredScopes, false)
                         else AuthRequirement(parent.requiresAuthentication, parent.requiredScopes, false);
      requirement := ApplyDirectives(authorizationDirectives, requirement);
      var updated := if isField then
                       parent.(fieldAuthorization := parent.fieldAuthorization[childName :=
                         field.(requiresAuthentication := requirement.requiresAuthentication,
                                requiredScopes := requirement.requiredScopes)])
                     else parent.(requiresAuthentication := requirement.requiresAuthentication,
                                  requiredScopes := requirement.requiredScopes);
      authorizationDataByParentTypeName := authorizationDataByParentTypeName[parentTypeName := updated];
      if requirement.hostPathInvalid {
        invalidOrScopesHostPaths := invalidOrScopesHostPaths + {HostPath()};
      }
    }

    // ----- the type registry -----

    /**
     * Merges the extension type of an incoming node into an existing entry: an entry
     * defined once already (NONE or EXTENDS) keeps its own and rejects a second
     * definition; a REAL entry takes the incoming extension type.
     */
    method SetParentDataExtensionType(data: ParentData, incoming: ExtensionType) returns (r: ParentData)
      modifies this`errors
      ensures r == WithExtensionType(data, MergeExtensionType(data.extensionType, incoming))
      ensures errors == old(errors) + ExtensionTypeErrors(data, incoming)
    {
      if data.extensionType == Real {
        return WithExtensionType(data, incoming);
      }
      if incoming != Real {
        errors := errors + [DuplicateTypeDefinition(data.Kind(), data.name)];
      }
      return WithExtensionType(data, data.extensionType);
    }

    /**
     * Adds the interfaces a node implements to `implemented`, reporting each one already
     * present (before the node or earlier in it) as a duplicate.
     */
    method ExtractImplementedInterfaceTypeNames(node: TypeDefinitionNode, implemented: set<string>)
      returns (r: set<string>)
      modifies this`errors
      ensures r == implemented + NameSet(node.interfaces)
      ensures errors == old(errors) + DuplicateInterfaceErrors(node.kind, node.name, RepeatedNames(implemented, node.interfaces))
    {
      var ifs := node.interfaces;
      r := implemented;
      var duplicates: seq<ErrorKind> := [];
      ghost var repeated: seq<string> := [];
      for i := 0 to |ifs|
        invariant r == implemented + NameSet(ifs[..i])
        invariant repeated + RepeatedNames(r, ifs[i..]) == RepeatedNames(implemented, ifs)
        invariant duplicates == DuplicateInterfaceErrors(node.kind, node.name, repeated)
        invariant errors == old(errors)
      {
        assert ifs[i..][0] == ifs[i] && ifs[i..][1..] == ifs[i + 1..];
        NameSetPrefix(ifs, i);
        RepeatedNamesStep(r, ifs[i..], repeated, RepeatedNames(implemented, ifs));
        var interfaceTypeName := ifs[i];
        if interfaceTypeName in r {
          duplicates := duplicates + [DuplicateImplementedInterface(node.kind, node.name, interfaceTypeName)];
          DuplicateInterfaceErrorsAppend(node.kind, node.name, repeated, interfaceTypeName);
          repeated := repeated + [interfaceTypeName];
          continue;
        }
        r := r + {interfaceTypeName};
      }
      assert ifs[|ifs|..] == [] && ifs[..|ifs|] == ifs;
      assert repeated == RepeatedNames(implemented, ifs) by { assert RepeatedNames(r, []) == []; }
      errors := errors + duplicates;
    }

    /** Merges another definition or extension of an object or interface into its entry. */
    method UpdateCompositeOutputDataByNode(node: TypeDefinitionNode, data: ParentData, directives: DirectiveMap,
                                           extensionType: ExtensionType) returns (r: ParentData)
      requires data.IsComposite()
      modifies this`errors
      ensures r == MergeCompositeData(data, node, directives, extensionType, subgraphName)
      ensures errors == old(errors) + ExtensionTypeErrors(data, extensionType) +
                        DuplicateInterfaceErrors(node.kind, node.name, RepeatedNames(data.implementedInterfaces, node.interfaces))
    {
      r := SetParentDataExtensionType(data, extensionType);
      var implemented := ExtractImplementedInterfaceTypeNames(node, r.implementedInterfaces);
      r := r.(directives := directives,
              implementedInterfaces := implemented,
              isEntity := r.isEntity || KeyDirective in directives,
              isInaccessible := r.isInaccessible || InaccessibleDirective in directives,
              subgraphNames := r.subgraphNames + {subgraphName},
              description := MergedDescription(r.description, node.description));
    }

    /** Records `concreteTypeName` as a concrete type of each of `interfaceTypeNames`. */
    method AddConcreteTypeNamesForImplementedInterfaces(interfaceTypeNames: set<string>, concreteTypeName: string)
      modifies this`concreteTypeNamesByAbstractTypeName, this`graphEdges
      ensures concreteTypeNamesByAbstractTypeName ==
                AddConcreteTypeName(old(concreteTypeNamesByAbstractTypeName), interfaceTypeNames, concreteTypeName)
      ensures graphEdges == old(graphEdges) + set a | a in interfaceTypeNames :: (a, concreteTypeName)
    {
      var remaining := interfaceTypeNames;
      AddConcreteTypeNameNone(concreteTypeNamesByAbstractTypeName, concreteTypeName);
      assert interfaceTypeNames - remaining == {};
      while remaining != {}
        invariant remaining <= interfaceTypeNames
        invariant concreteTypeNamesByAbstractTypeName ==
                    AddConcreteTypeName(old(concreteTypeNamesByAbstractTypeName), interfaceTypeNames - remaining,
                                        concreteTypeName)
        invariant graphEdges == old(graphEdges) + set a | a in interfaceTypeNames - remaining :: (a, concreteTypeName)
        decreases remaining
      {
        var interfaceName :| interfaceName in remaining;
        AddConcreteTypeNameStep(old(concreteTypeNamesByAbstractTypeName), interfaceTypeNames - remaining, interfaceName,
                                concreteTypeName);
        assert interfaceTypeNames - (remaining - {interfaceName}) == (interfaceTypeNames - remaining) + {interfaceName};
        var concreteTypeNames := if interfaceName in concreteTypeNamesByAbstractTypeName
                                 then concreteTypeNamesByAbstractTypeName[interfaceName] else {};
        concreteTypeNamesByAbstractTypeName :=
          concreteTypeNamesByAbstractTypeName[interfaceName := concreteTypeNames + {concreteTypeName}];
        graphEdges := graphEdges + {(interfaceName, concreteTypeName)};
        remaining := remaining - {interfaceName};
      }
    }

    /** Records the member types of a union node as its concrete types, before any check. */
    method AddConcreteTypeNamesForUnion(node: TypeDefinitionNode)
      modifies this`concreteTypeNamesByAbstractTypeName, this`graphEdges
      ensures concreteTypeNamesByAbstractTypeName ==
                AddConcreteTypeNames(old(concreteTypeNamesByAbstractTypeName), node.name, NameSet(node.members))
      ensures graphEdges == old(graphEdges) + set m | m in node.members :: (node.name, m)
    {
      var ms := node.members;
      assert NameSet(ms[..0]) == {};
      for i := 0 to |ms|
        invariant concreteTypeNamesByAbstractTypeName ==
                    AddConcreteTypeNames(old(concreteTypeNamesByAbstractTypeName), node.name, NameSet(ms[..i]))
        invariant graphEdges == old(graphEdges) + set m | m in ms[..i] :: (node.name, m)
      {
        assert ms[..i + 1] == ms[..i] + [ms[i]];
        assert NameSet(ms[..i + 1]) == NameSet(ms[..i]) + {ms[i]};
        AddConcreteTypeNamesStep(old(concreteTypeNamesByAbstractTypeName), node.name, NameSet(ms[..i]), ms[i]);
        var concreteTypeNames := if node.name in concreteTypeNamesByAbstractTypeName
                                 then concreteTypeNamesByAbstractTypeName[node.name] else {};
        concreteTypeNamesByAbstractTypeName :=
          concreteTypeNamesByAbstractTypeName[node.name := concreteTypeNames + {ms[i]}];
        graphEdges := graphEdges + {(node.name, ms[i])};
      }
      assert ms[..|ms|] == ms;
    }

    /**
     * Adds the member types of a union node to `members`: a member already present is
     * reported as a duplicate; a new one is recorded as a concrete type of the union and,
     * unless it is a base scalar, as a referenced type.
     */
    method ExtractUnionMembers(node: TypeDefinitionNode, members: set<string>) returns (r: set<string>)
      modifies this`errors, this`concreteTypeNamesByAbstractTypeName, this`referencedTypeNames
      ensures r == members + NameSet(node.members)
      ensures errors == old(errors) + DuplicateMemberErrors(node.name, RepeatedNames(members, node.members))
      ensures concreteTypeNamesByAbstractTypeName ==
                AddConcreteTypeNames(old(concreteTypeNamesByAbstractTypeName), node.name, NameSet(node.members) - members)
      ensures referencedTypeNames == old(referencedTypeNames) + (NameSet(node.members) - members - ext.baseScalars)
    {
      var ms := node.members;
      r := members;
      var duplicates: seq<ErrorKind> := [];
      var concrete := concreteTypeNamesByAbstractTypeName;
      var referenced := referencedTypeNames;
      ghost var repeated: seq<string> := [];
      for i := 0 to |ms|
        invariant r == members + NameSet(ms[..i])
        invariant repeated + RepeatedNames(r, ms[i..]) == RepeatedNames(members, ms)
        invariant duplicates == DuplicateMemberErrors(node.name, repeated)
        invariant concrete == AddConcreteTypeNames(old(concreteTypeNamesByAbstractTypeName), node.name, r - members)
        invariant referenced == old(referencedTypeNames) + (r - members - ext.baseScalars)
        invariant errors == old(errors) && concreteTypeNamesByAbstractTypeName == old(concreteTypeNamesByAbstractTypeName)
        invariant referencedTypeNames == old(referencedTypeNames)
      {
        assert ms[i..][0] == ms[i] && ms[i..][1..] == ms[i + 1..];
        NameSetPrefix(ms, i);
        RepeatedNamesStep(r, ms[i..], repeated, RepeatedNames(members, ms));
        var memberTypeName := ms[i];
        if memberTypeName in r {
          duplicates := duplicates + [DuplicateUnionMemberDefinition(node.name, memberTypeName)];
          DuplicateMemberErrorsAppend(node.name, repeated, memberTypeName);
          repeated := repeated + [memberTypeName];
          continue;
        }
        NewUnionMemberStep(old(concreteTypeNamesByAbstractTypeName), node.name, members, r, memberTypeName,
                           old(referencedTypeNames), ext.baseScalars);
        var concreteTypeNames := if node.name in concrete then concrete[node.name] else {};
        concrete := concrete[node.name := concreteTypeNames + {memberTypeName}];
        if memberTypeName !in ext.baseScalars {
          referenced := referenced + {memberTypeName};
        }
        r := r + {memberTypeName};
      }
      assert ms[|ms|..] == [] && ms[..|ms|] == ms;
      assert repeated == RepeatedNames(members, ms) by { assert RepeatedNames(r, []) == []; }
      assert r - members == NameSet(ms) - members;
      errors := errors + duplicates;
      concreteTypeNamesByAbstractTypeName := concrete;
      referencedTypeNames := referenced;
    }

    /** Adds the fields of an object node to its interface-object data, when it is one. */
    method AddInterfaceObjectFieldsByNode(node: TypeDefinitionNode)
      modifies this`entityInterfaceDataByTypeName
      ensures var e := old(entityInterfaceDataByTypeName);
        entityInterfaceDataByTypeName ==
          if node.name in e && e[node.name].isInterfaceObject
          then e[node.name := e[node.name].(interfaceObjectFieldNames :=
                                              e[node.name].interfaceObjectFieldNames + NameSet(node.fieldNames))]
          else e
    {
      var typeName := node.name;
      if typeName !in entityInterfaceDataByTypeName || !entityInterfaceDataByTypeName[typeName].isInterfaceObject {
        return;
      }
      var data := entityInterfaceDataByTypeName[typeName];
      var fieldNames := node.fieldNames;
      for i := 0 to |fieldNames|
        invariant data == entityInterfaceDataByTypeName[typeName].(interfaceObjectFieldNames :=
                            entityInterfaceDataByTypeName[typeName].interfaceObjectFieldNames + NameSet(fieldNames[..i]))
      {
        assert fieldNames[..i + 1] == fieldNames[..i] + [fieldNames[i]];
        assert NameSet(fieldNames[..i + 1]) == NameSet(fieldNames[..i]) + {fieldNames[i]};
        data := data.(interfaceObjectFieldNames := data.interfaceObjectFieldNames + {fieldNames[i]});
      }
      assert fieldNames[..|fieldNames|] == fieldNames;
      entityInterfaceDataByTypeName := entityInterfaceDataByTypeName[typeName := data];
    }

    /** Adds the fields of an interface node to its entity-interface data, when it has some. */
    method AddInterfaceFieldNames(node: TypeDefinitionNode)
      modifies this`entityInterfaceDataByTypeName
      ensures var e := old(entityInterfaceDataByTypeName);
        entityInterfaceDataByTypeName ==
          if node.name in e
          then e[node.name := e[node.name].(interfaceFieldNames := e[node.name].interfaceFieldNames + NameSet(node.fieldNames))]
          else e
    {
      var typeName := node.name;
      if typeName !in entityInterfaceDataByTypeName {
        return;
      }
      var data := entityInterfaceDataByTypeName[typeName];
      var fieldNames := node.fieldNames;
      for i := 0 to |fieldNames|
        invariant data == entityInterfaceDataByTypeName[typeName].(interfaceFieldNames :=
                            entityInterfaceDataByTypeName[typeName].interfaceFieldNames + NameSet(fieldNames[..i]))
      {
        assert fieldNames[..i + 1] == fieldNames[..i] + [fieldNames[i]];
        assert NameSet(fieldNames[..i + 1]) == NameSet(fieldNames[..i]) + {fieldNames[i]};
        data := data.(interfaceFieldNames := data.interfaceFieldNames + {fieldNames[i]});
      }
      assert fieldNames[..|fieldNames|] == fieldNames;
      entityInterfaceDataByTypeName := entityInterfaceDataByTypeName[typeName := data];
    }

    // ----- upserting type definitions and extensions -----

    /**
     * A name already holding another kind: the incoming node's directives stay recorded on the
     * existing entry, whose kind is kept, and a multiple-definition error is reported.
     */
    method RejectMultipleDefinition(typeName: string, prior: ParentData, directives: DirectiveMap, incomingKind: Kind)
      requires typeName in parentDefinitionDataByTypeName && parentDefinitionDataByTypeName[typeName] == prior
      modifies this`errors, this`parentDefinitionDataByTypeName
      ensures parentDefinitionDataByTypeName == old(parentDefinitionDataByTypeName)[typeName := WithDirectives(prior, directives)]
      ensures errors == old(errors) + [MultipleNamedTypeDefinition(typeName, prior.Kind(), incomingKind)]
      ensures KindsKept(old(parentDefinitionDataByTypeName), parentDefinitionDataByTypeName)
      ensures EntriesNamed(old(parentDefinitionDataByTypeName)) ==> EntriesNamed(parentDefinitionDataByTypeName)
      ensures ConcreteTypesRecorded(old(parentDefinitionDataByTypeName), concreteTypeNamesByAbstractTypeName) ==>
                ConcreteTypesRecorded(parentDefinitionDataByTypeName, concreteTypeNamesByAbstractTypeName)
    {
      var data := WithDirectives(prior, directives);
      KindsKeptByUpdate(parentDefinitionDataByTypeName, typeName, data);
      if ConcreteTypesRecorded(parentDefinitionDataByTypeName, concreteTypeNamesByAbstractTypeName) {
        ConcreteTypesRecordedByUpdate(parentDefinitionDataByTypeName, concreteTypeNamesByAbstractTypeName, typeName, data,
                                      concreteTypeNamesByAbstractTypeName);
      }
      parentDefinitionDataByTypeName := parentDefinitionDataByTypeName[typeName := data];
      errors := errors + [MultipleNamedTypeDefinition(typeName, prior.Kind(), incomingKind)];
    }

    /**
     * Records an object definition or extension: a new entry on first sight, a merge into an
     * existing object, or a multiple-definition error (after its directives were recorded on
     * the entry) when the name already holds another kind. The object is recorded as a
     * concrete type of every interface it implements.
     */
    method UpsertObjectDataByNode(node: TypeDefinitionNode, isRealExtension: bool)
      requires node.kind == ObjectKind
      modifies this`errors, this`parentDefinitionDataByTypeName, this`concreteTypeNamesByAbstractTypeName,
               this`graphEdges, this`entityInterfaceDataByTypeName
      ensures var typeName := node.name;
              var prior := Lookup(old(parentDefinitionDataByTypeName), typeName);
              var x := ExtractDirectivesFrom(node.directives, OnType(ObjectKind), TypePath(typeName), ext,
                         DirectiveExtraction(PriorDirectives(old(parentDefinitionDataByTypeName), typeName), {}, old(errors)));
              var isRootType := RootTypes.IsTypeNameRootType(operationTypeNodeByTypeName, typeName);
              var extensionType := GetNodeExtensionType(isRealExtension, x.directives, isRootType, isSubgraphVersionTwo);
        && (prior.Some? && !prior.value.ObjectData? ==>
              && parentDefinitionDataByTypeName == old(parentDefinitionDataByTypeName)[typeName := WithDirectives(prior.value, x.directives)]
              && errors == x.errors + [MultipleNamedTypeDefinition(typeName, prior.value.Kind(), ObjectKind)]
              && concreteTypeNamesByAbstractTypeName == old(concreteTypeNamesByAbstractTypeName))
        && (prior.Some? && prior.value.ObjectData? ==>
              && parentDefinitionDataByTypeName == old(parentDefinitionDataByTypeName)[typeName :=
                   MergeCompositeData(prior.value, node, x.directives, extensionType, subgraphName)]
              && errors == x.errors + ExtensionTypeErrors(prior.value, extensionType) +
                           DuplicateInterfaceErrors(ObjectKind, typeName, RepeatedNames(prior.value.implementedInterfaces, node.interfaces))
              && concreteTypeNamesByAbstractTypeName == AddConcreteTypeName(old(concreteTypeNamesByAbstractTypeName),
                   prior.value.implementedInterfaces + NameSet(node.interfaces), typeName))
        && (prior.None? ==>
              && parentDefinitionDataByTypeName == old(parentDefinitionDataByTypeName)[typeName :=
                   NewCompositeData(node, x.directives, extensionType, isRootType,
                                    RootTypes.GetRenamedRootTypeName(operationTypeNodeByTypeName, typeName), subgraphName)]
              && errors == x.errors + DuplicateInterfaceErrors(ObjectKind, typeName, RepeatedNames({}, node.interfaces))
              && concreteTypeNamesByAbstractTypeName ==
                   AddConcreteTypeName(old(concreteTypeNamesByAbstractTypeName), NameSet(node.interfaces), typeName))
      ensures var e := old(entityInterfaceDataByTypeName);
        entityInterfaceDataByTypeName ==
          if node.name in e && e[node.name].isInterfaceObject
          then e[node.name := e[node.name].(interfaceObjectFieldNames :=
                                              e[node.name].interfaceObjectFieldNames + NameSet(node.fieldNames))]
          else e
      ensures KindsKept(old(parentDefinitionDataByTypeName), parentDefinitionDataByTypeName)
      ensures EntriesNamed(old(parentDefinitionDataByTypeName)) ==> EntriesNamed(parentDefinitionDataByTypeName)
      ensures ConcreteTypesRecorded(old(parentDefinitionDataByTypeName), old(concreteTypeNamesByAbstractTypeName)) ==>
                ConcreteTypesRecorded(parentDefinitionDataByTypeName, concreteTypeNamesByAbstractTypeName)
    {
      var typeName := node.name;
      var prior := Lookup(parentDefinitionDataByTypeName, typeName);
      var directives := ExtractDirectives(node, PriorDirectives(parentDefinitionDataByTypeName, typeName), TypePath(typeName));
      var isRootType := RootTypes.IsTypeNameRootType(operationTypeNodeByTypeName, typeName);
      var extensionType := GetNodeExtensionType(isRealExtension, directives, isRootType, isSubgraphVersionTwo);
      AddInterfaceObjectFieldsByNode(node);
      if prior.Some? {
        if !prior.value.ObjectData? {
          RejectMultipleDefinition(typeName, prior.value, directives, ObjectKind);
          return;
        }
        MergeCompositeEntry(node, prior.value, directives, extensionType);
        return;
      }
      var renamedTypeName := RootTypes.GetRenamedRootTypeName(operationTypeNodeByTypeName, typeName);
      InsertCompositeData(node, directives, extensionType, isRootType, renamedTypeName);
    }

    /**
     * Merges an object or interface node into the existing entry `prior` of the same kind; an
     * object is recorded as a concrete type of all the interfaces it now implements.
     */
    method MergeCompositeEntry(node: TypeDefinitionNode, prior: ParentData, directives: DirectiveMap,
                               extensionType: ExtensionType)
      requires (node.kind == ObjectKind && prior.ObjectData?) || (node.kind == InterfaceKind && prior.InterfaceData?)
      requires node.name in parentDefinitionDataByTypeName && parentDefinitionDataByTypeName[node.name] == prior
      modifies this`errors, this`parentDefinitionDataByTypeName, this`concreteTypeNamesByAbstractTypeName, this`graphEdges
      ensures parentDefinitionDataByTypeName ==
                old(parentDefinitionDataByTypeName)[node.name := MergeCompositeData(prior, node, directives, extensionType, subgraphName)]
      ensures errors == old(errors) + ExtensionTypeErrors(prior, extensionType) +
                        DuplicateInterfaceErrors(node.kind, node.name, RepeatedNames(prior.implementedInterfaces, node.interfaces))
      ensures concreteTypeNamesByAbstractTypeName ==
                if node.kind == ObjectKind
                then AddConcreteTypeName(old(concreteTypeNamesByAbstractTypeName),
                                         prior.implementedInterfaces + NameSet(node.interfaces), node.name)
                else old(concreteTypeNamesByAbstractTypeName)
      ensures KindsKept(old(parentDefinitionDataByTypeName), parentDefinitionDataByTypeName)
      ensures EntriesNamed(old(parentDefinitionDataByTypeName)) ==> EntriesNamed(parentDefinitionDataByTypeName)
      ensures ConcreteTypesRecorded(old(parentDefinitionDataByTypeName), old(concreteTypeNamesByAbstractTypeName)) ==>
                ConcreteTypesRecorded(parentDefinitionDataByTypeName, concreteTypeNamesByAbstractTypeName)
    {
      var data := UpdateCompositeOutputDataByNode(node, prior, directives, extensionType);
      if node.kind == ObjectKind {
        AddConcreteTypeNamesForImplementedInterfaces(data.implementedInterfaces, node.name);
      }
      KindsKeptByUpdate(parentDefinitionDataByTypeName, node.name, data);
      if ConcreteTypesRecorded(parentDefinitionDataByTypeName, old(concreteTypeNamesByAbstractTypeName)) {
        ConcreteTypesRecordedByUpdate(parentDefinitionDataByTypeName, old(concreteTypeNamesByAbstractTypeName), node.name, data,
                                      concreteTypeNamesByAbstractTypeName);
      }
      parentDefinitionDataByTypeName := parentDefinitionDataByTypeName[node.name := data];
    }

    /**
     * Inserts the entry of an object or interface seen for the first time; an object is
     * recorded as a concrete type of every interface it implements.
     */
    method InsertCompositeData(node: TypeDefinitionNode, directives: DirectiveMap, extensionType: ExtensionType,
                               isRootType: bool, renamedTypeName: string)
      requires node.kind == ObjectKind || node.kind == InterfaceKind
      requires node.name !in parentDefinitionDataByTypeName
      modifies this`errors, this`parentDefinitionDataByTypeName, this`concreteTypeNamesByAbstractTypeName, this`graphEdges
      ensures parentDefinitionDataByTypeName == old(parentDefinitionDataByTypeName)[node.name :=
                NewCompositeData(node, directives, extensionType, isRootType, renamedTypeName, subgraphName)]
      ensures errors == old(errors) + DuplicateInterfaceErrors(node.kind, node.name, RepeatedNames({}, node.interfaces))
      ensures concreteTypeNamesByAbstractTypeName ==
                if node.kind == ObjectKind
                then AddConcreteTypeName(old(concreteTypeNamesByAbstractTypeName), NameSet(node.interfaces), node.name)
                else old(concreteTypeNamesByAbstractTypeName)
      ensures KindsKept(old(parentDefinitionDataByTypeName), parentDefinitionDataByTypeName)
      ensures EntriesNamed(old(parentDefinitionDataByTypeName)) ==> EntriesNamed(parentDefinitionDataByTypeName)
      ensures ConcreteTypesRecorded(old(parentDefinitionDataByTypeName), old(concreteTypeNamesByAbstractTypeName)) ==>
                ConcreteTypesRecorded(parentDefinitionDataByTypeName, concreteTypeNamesByAbstractTypeName)
    {
      var implemented := ExtractImplementedInterfaceTypeNames(node, {});
      ghost var extracted := errors;
      assert implemented == NameSet(node.interfaces);
      if node.kind == ObjectKind {
        AddConcreteTypeNamesForImplementedInterfaces(implemented, node.name);
      }
      var data := NewCompositeData(node, directives, extensionType, isRootType, renamedTypeName, subgraphName);
      KindsKeptByUpdate(parentDefinitionDataByTypeName, node.name, data);
      if ConcreteTypesRecorded(parentDefinitionDataByTypeName, old(concreteTypeNamesByAbstractTypeName)) {
        ConcreteTypesRecordedByUpdate(parentDefinitionDataByTypeName, old(concreteTypeNamesByAbstractTypeName), node.name, data,
                                      concreteTypeNamesByAbstractTypeName);
      }
      parentDefinitionDataByTypeName := parentDefinitionDataByTypeName[node.name := data];
      assert errors == extracted;
    }

    /**
     * Records an interface definition or extension: its fields are added to its entity-interface
     * data first; then a new entry, a merge into an existing interface, or a multiple-definition
     * error when the name already holds another kind.
     */
    method UpsertInterfaceDataByNode(node: TypeDefinitionNode, isRealExtension: bool)
      requires node.kind == InterfaceKind
      modifies this`errors, this`parentDefinitionDataByTypeName, this`concreteTypeNamesByAbstractTypeName,
               this`graphEdges, this`entityInterfaceDataByTypeName
      ensures var typeName := node.name;
              var prior := Lookup(old(parentDefinitionDataByTypeName), typeName);
              var x := ExtractDirectivesFrom(node.directives, OnType(InterfaceKind), TypePath(typeName), ext,
                         DirectiveExtraction(PriorDirectives(old(parentDefinitionDataByTypeName), typeName), {}, old(errors)));
              var extensionType := GetNodeExtensionType(isRealExtension, x.directives, false, isSubgraphVersionTwo);
        && (prior.Some? && !prior.value.InterfaceData? ==>
              && parentDefinitionDataByTypeName == old(parentDefinitionDataByTypeName)[typeName := WithDirectives(prior.value, x.directives)]
              && errors == x.errors + [MultipleNamedTypeDefinition(typeName, prior.value.Kind(), InterfaceKind)])
        && (prior.Some? && prior.value.InterfaceData? ==>
              && parentDefinitionDataByTypeName == old(parentDefinitionDataByTypeName)[typeName :=
                   MergeCompositeData(prior.value, node, x.directives, extensionType, subgraphName)]
              && errors == x.errors + ExtensionTypeErrors(prior.value, extensionType) +
                           DuplicateInterfaceErrors(InterfaceKind, typeName, RepeatedNames(prior.value.implementedInterfaces, node.interfaces)))
        && (prior.None? ==>
              && parentDefinitionDataByTypeName == old(parentDefinitionDataByTypeName)[typeName :=
                   NewCompositeData(node, x.directives, extensionType, false, typeName, subgraphName)]
              && errors == x.errors + DuplicateInterfaceErrors(InterfaceKind, typeName, RepeatedNames({}, node.interfaces)))
      ensures concreteTypeNamesByAbstractTypeName == old(concreteTypeNamesByAbstractTypeName)
      ensures var e := old(entityInterfaceDataByTypeName);
        entityInterfaceDataByTypeName ==
          if node.name in e
          then e[node.name := e[node.name].(interfaceFieldNames := e[node.name].interfaceFieldNames + NameSet(node.fieldNames))]
          else e
      ensures KindsKept(old(parentDefinitionDataByTypeName), parentDefinitionDataByTypeName)
      ensures EntriesNamed(old(parentDefinitionDataByTypeName)) ==> EntriesNamed(parentDefinitionDataByTypeName)
      ensures ConcreteTypesRecorded(old(parentDefinitionDataByTypeName), old(concreteTypeNamesByAbstractTypeName)) ==>
                ConcreteTypesRecorded(parentDefinitionDataByTypeName, concreteTypeNamesByAbstractTypeName)
    {
      var typeName := node.name;
      var prior := Lookup(parentDefinitionDataByTypeName, typeName);
      var directives := ExtractDirectives(node, PriorDirectives(parentDefinitionDataByTypeName, typeName), TypePath(typeName));
      var extensionType := GetNodeExtensionType(isRealExtension, directives, false, isSubgraphVersionTwo);
      AddInterfaceFieldNames(node);
      if prior.Some? {
        if !prior.value.InterfaceData? {
          RejectMultipleDefinition(typeName, prior.value, directives, InterfaceKind);
          return;
        }
        MergeCompositeEntry(node, prior.value, directives, extensionType);
        return;
      }
      InsertCompositeData(node, directives, extensionType, false, typeName);
    }

    /**
     * Stores an enum or scalar node whose directives (and authorization) were already read:
     * a new entry, a merge of the extension type and description into an existing entry of
     * the same kind, or a multiple-definition error.
     */
    method StoreLeafData(node: TypeDefinitionNode, prior: Option<ParentData>, directives: DirectiveMap,
                         extensionType: ExtensionType)
      requires node.kind == EnumKind || node.kind == ScalarKind
      requires prior == Lookup(parentDefinitionDataByTypeName, node.name)
      modifies this`errors, this`parentDefinitionDataByTypeName
      ensures prior.Some? && prior.value.Kind() != node.kind ==>
        && parentDefinitionDataByTypeName == old(parentDefinitionDataByTypeName)[node.name := WithDirectives(prior.value, directives)]
        && errors == old(errors) + [MultipleNamedTypeDefinition(node.name, prior.value.Kind(), node.kind)]
      ensures prior.Some? && prior.value.Kind() == node.kind ==>
        && parentDefinitionDataByTypeName == old(parentDefinitionDataByTypeName)[node.name :=
             MergeLeafData(WithExtensionType(prior.value, MergeExtensionType(prior.value.extensionType, extensionType)),
                           directives, node.description)]
        && errors == old(errors) + ExtensionTypeErrors(prior.value, extensionType)
      ensures prior.None? ==>
        && parentDefinitionDataByTypeName == old(parentDefinitionDataByTypeName)[node.name := NewLeafData(node, directives, extensionType)]
        && errors == old(errors)
      ensures KindsKept(old(parentDefinitionDataByTypeName), parentDefinitionDataByTypeName)
      ensures EntriesNamed(old(parentDefinitionDataByTypeName)) ==> EntriesNamed(parentDefinitionDataByTypeName)
      ensures ConcreteTypesRecorded(old(parentDefinitionDataByTypeName), concreteTypeNamesByAbstractTypeName) ==>
                ConcreteTypesRecorded(parentDefinitionDataByTypeName, concreteTypeNamesByAbstractTypeName)
    {
      var typeName := node.name;
      if prior.Some? {
        if prior.value.Kind() != node.kind {
          RejectMultipleDefinition(typeName, prior.value, directives, node.kind);
          return;
        }
        var data := SetParentDataExtensionType(prior.value, extensionType);
        data := MergeLeafData(data, directives, node.description);
        KindsKeptByUpdate(parentDefinitionDataByTypeName, typeName, data);
        parentDefinitionDataByTypeName := parentDefinitionDataByTypeName[typeName := data];
        return;
      }
      var data := NewLeafData(node, directives, extensionType);
      KindsKeptByUpdate(parentDefinitionDataByTypeName, typeName, data);
      parentDefinitionDataByTypeName := parentDefinitionDataByTypeName[typeName := data];
    }

    /**
     * Records an enum or scalar definition or extension: its directives are read together with
     * its authorization directives (recorded for the current parent type), then the entry is
     * stored as `StoreLeafData` describes.
     */
    method UpsertLeafDataByNode(node: TypeDefinitionNode, isRealExtension: bool)
      requires node.kind == EnumKind || node.kind == ScalarKind
      modifies this`errors, this`parentDefinitionDataByTypeName, this`overridesByTargetSubgraphName,
               this`leafTypeNamesWithAuthorizationDirectives, this`authorizationDataByParentTypeName,
               this`invalidOrScopesHostPaths
      ensures var typeName := node.name;
              var prior := Lookup(old(parentDefinitionDataByTypeName), typeName);
              var x := ExtractLeafDirectivesFrom(node.directives, OnType(node.kind), HostPath(), ext, subgraphName,
                         ParentTypeName(), childName,
                         LeafExtraction(PriorDirectives(old(parentDefinitionDataByTypeName), typeName), [], old(errors),
                                        old(overridesByTargetSubgraphName)));
              var extensionType := GetNodeExtensionType(isRealExtension, x.directives, false, isSubgraphVersionTwo);
        && overridesByTargetSubgraphName == x.overrides
        && (prior.Some? && prior.value.Kind() != node.kind ==>
              && parentDefinitionDataByTypeName == old(parentDefinitionDataByTypeName)[typeName := WithDirectives(prior.value, x.directives)]
              && errors == x.errors + [MultipleNamedTypeDefinition(typeName, prior.value.Kind(), node.kind)])
        && (prior.Some? && prior.value.Kind() == node.kind ==>
              && parentDefinitionDataByTypeName == old(parentDefinitionDataByTypeName)[typeName :=
                   MergeLeafData(WithExtensionType(prior.value, MergeExtensionType(prior.value.extensionType, extensionType)),
                                 x.directives, node.description)]
              && errors == x.errors + ExtensionTypeErrors(prior.value, extensionType))
        && (prior.None? ==>
              && parentDefinitionDataByTypeName == old(parentDefinitionDataByTypeName)[typeName :=
                   NewLeafData(node, x.directives, extensionType)]
              && errors == x.errors)
        && (x.authorizationDirectives == [] ==>
              && authorizationDataByParentTypeName == old(authorizationDataByParentTypeName)
              && leafTypeNamesWithAuthorizationDirectives == old(leafTypeNamesWithAuthorizationDirectives)
              && invalidOrScopesHostPaths == old(invalidOrScopesHostPaths))
        && (x.authorizationDirectives != [] ==>
              var u := LeafAuthorization(old(authorizationDataByParentTypeName), ParentTypeName(), false, childName,
                                         x.authorizationDirectives);
              && authorizationDataByParentTypeName == old(authorizationDataByParentTypeName)[ParentTypeName() := u.data]
              && leafTypeNamesWithAuthorizationDirectives == old(leafTypeNamesWithAuthorizationDirectives) + {ParentTypeName()}
              && invalidOrScopesHostPaths == old(invalidOrScopesHostPaths) + (if u.hostPathInvalid then {HostPath()} else {}))
      ensures KindsKept(old(parentDefinitionDataByTypeName), parentDefinitionDataByTypeName)
      ensures EntriesNamed(old(parentDefinitionDataByTypeName)) ==> EntriesNamed(parentDefinitionDataByTypeName)
      ensures ConcreteTypesRecorded(old(parentDefinitionDataByTypeName), concreteTypeNamesByAbstractTypeName) ==>
                ConcreteTypesRecorded(parentDefinitionDataByTypeName, concreteTypeNamesByAbstractTypeName)
    {
      var typeName := node.name;
      var prior := Lookup(parentDefinitionDataByTypeName, typeName);
      var directives := ExtractDirectivesAndAuthorization(OnType(node.kind), node.directives,
                                                          PriorDirectives(parentDefinitionDataByTypeName, typeName));
      var extensionType := GetNodeExtensionType(isRealExtension, directives, false, isSubgraphVersionTwo);
      StoreLeafData(node, prior, directives, extensionType);
    }

    /**
     * Records an input object definition or extension: a new entry, a merge into an existing
     * input object, or a multiple-definition error.
     */
    method UpsertInputObjectByNode(node: TypeDefinitionNode, isRealExtension: bool)
      requires node.kind == InputObjectKind
      modifies this`errors, this`parentDefinitionDataByTypeName
      ensures var typeName := node.name;
              var prior := Lookup(old(parentDefinitionDataByTypeName), typeName);
              var x := ExtractDirectivesFrom(node.directives, OnType(InputObjectKind), TypePath(typeName), ext,
                         DirectiveExtraction(PriorDirectives(old(parentDefinitionDataByTypeName), typeName), {}, old(errors)));
              var extensionType := GetNodeExtensionType(isRealExtension, x.directives, false, isSubgraphVersionTwo);
        && (prior.Some? && !prior.value.InputObjectData? ==>
              && parentDefinitionDataByTypeName == old(parentDefinitionDataByTypeName)[typeName := WithDirectives(prior.value, x.directives)]
              && errors == x.errors + [MultipleNamedTypeDefinition(typeName, prior.value.Kind(), InputObjectKind)])
        && (prior.Some? && prior.value.InputObjectData? ==>
              && parentDefinitionDataByTypeName == old(parentDefinitionDataByTypeName)[typeName :=
                   MergeInputObjectData(WithExtensionType(prior.value, MergeExtensionType(prior.value.extensionType, extensionType)),
                                        x.directives, subgraphName, node.description)]
              && errors == x.errors + ExtensionTypeErrors(prior.value, extensionType))
        && (prior.None? ==>
              && parentDefinitionDataByTypeName == old(parentDefinitionDataByTypeName)[typeName :=
                   NewInputObjectData(node, x.directives, extensionType, subgraphName)]
              && errors == x.errors)
      ensures KindsKept(old(parentDefinitionDataByTypeName), parentDefinitionDataByTypeName)
      ensures EntriesNamed(old(parentDefinitionDataByTypeName)) ==> EntriesNamed(parentDefinitionDataByTypeName)
      ensures ConcreteTypesRecorded(old(parentDefinitionDataByTypeName), concreteTypeNamesByAbstractTypeName) ==>
                ConcreteTypesRecorded(parentDefinitionDataByTypeName, concreteTypeNamesByAbstractTypeName)
    {
      var typeName := node.name;
      var prior := Lookup(parentDefinitionDataByTypeName, typeName);
      var directives := ExtractDirectives(node, PriorDirectives(parentDefinitionDataByTypeName, typeName), TypePath(typeName));
      var extensionType := GetNodeExtensionType(isRealExtension, directives, false, isSubgraphVersionTwo);
      if prior.Some? {
        if !prior.value.InputObjectData? {
          RejectMultipleDefinition(typeName, prior.value, directives, InputObjectKind);
          return;
        }
        var data := SetParentDataExtensionType(prior.value, extensionType);
        data := MergeInputObjectData(data, directives, subgraphName, node.description);
        KindsKeptByUpdate(parentDefinitionDataByTypeName, typeName, data);
        parentDefinitionDataByTypeName := parentDefinitionDataByTypeName[typeName := data];
        return;
      }
      var data := NewInputObjectData(node, directives, extensionType, subgraphName);
      KindsKeptByUpdate(parentDefinitionDataByTypeName, typeName, data);
      parentDefinitionDataByTypeName := parentDefinitionDataByTypeName[typeName := data];
    }

    /**
     * Records a union definition or extension: its members are recorded as concrete types of
     * the union before anything else; then a new entry, a merge into an existing union (members
     * added, repeats reported), or a multiple-definition error.
     */
    method UpsertUnionByNode(node: TypeDefinitionNode, isRealExtension: bool)
      requires node.kind == UnionKind
      modifies this`errors, this`parentDefinitionDataByTypeName, this`concreteTypeNamesByAbstractTypeName,
               this`graphEdges, this`referencedTypeNames
      ensures var typeName := node.name;
              var prior := Lookup(old(parentDefinitionDataByTypeName), typeName);
              var x := ExtractDirectivesFrom(node.directives, OnType(UnionKind), TypePath(typeName), ext,
                         DirectiveExtraction(PriorDirectives(old(parentDefinitionDataByTypeName), typeName), {}, old(errors)));
              var extensionType := GetNodeExtensionType(isRealExtension, x.directives, false, isSubgraphVersionTwo);
              var concrete := AddConcreteTypeNames(old(concreteTypeNamesByAbstractTypeName), typeName, NameSet(node.members));
        && (prior.Some? && !prior.value.UnionData? ==>
              && parentDefinitionDataByTypeName == old(parentDefinitionDataByTypeName)[typeName := WithDirectives(prior.value, x.directives)]
              && errors == x.errors + [MultipleNamedTypeDefinition(typeName, prior.value.Kind(), UnionKind)]
              && concreteTypeNamesByAbstractTypeName == concrete
              && referencedTypeNames == old(referencedTypeNames))
        && (prior.Some? && prior.value.UnionData? ==>
              && parentDefinitionDataByTypeName == old(parentDefinitionDataByTypeName)[typeName :=
                   MergeUnionData(WithExtensionType(prior.value, MergeExtensionType(prior.value.extensionType, extensionType)),
                                  node, x.directives)]
              && errors == x.errors + ExtensionTypeErrors(prior.value, extensionType) +
                           DuplicateMemberErrors(typeName, RepeatedNames(prior.value.members, node.members))
              && referencedTypeNames ==
                   old(referencedTypeNames) + (NameSet(node.members) - prior.value.members - ext.baseScalars))
        && (prior.None? ==>
              && parentDefinitionDataByTypeName == old(parentDefinitionDataByTypeName)[typeName :=
                   UnionData(typeName, extensionType, x.directives, NameSet(node.members), node.description)]
              && errors == x.errors + DuplicateMemberErrors(typeName, RepeatedNames({}, node.members))
              && referencedTypeNames == old(referencedTypeNames) + (NameSet(node.members) - ext.baseScalars))
      ensures var c := concreteTypeNamesByAbstractTypeName;
        && (NameSet(node.members) != {} ==> node.name in c && NameSet(node.members) <= c[node.name])
        && (forall a, m :: a in c && m in c[a] ==>
              (a in old(concreteTypeNamesByAbstractTypeName) && m in old(concreteTypeNamesByAbstractTypeName)[a]) ||
              (a == node.name && m in node.members))
      ensures graphEdges == old(graphEdges) + set m | m in node.members :: (node.name, m)
      ensures KindsKept(old(parentDefinitionDataByTypeName), parentDefinitionDataByTypeName)
      ensures EntriesNamed(old(parentDefinitionDataByTypeName)) ==> EntriesNamed(parentDefinitionDataByTypeName)
      ensures ConcreteTypesRecorded(old(parentDefinitionDataByTypeName), old(concreteTypeNamesByAbstractTypeName)) ==>
                ConcreteTypesRecorded(parentDefinitionDataByTypeName, concreteTypeNamesByAbstractTypeName)
    {
      var typeName := node.name;
      var prior := Lookup(parentDefinitionDataByTypeName, typeName);
      var directives := ExtractDirectives(node, PriorDirectives(parentDefinitionDataByTypeName, typeName), TypePath(typeName));
      var extensionType := GetNodeExtensionType(isRealExtension, directives, false, isSubgraphVersionTwo);
      ghost var parents, concrete := parentDefinitionDataByTypeName, concreteTypeNamesByAbstractTypeName;
      AddConcreteTypeNamesForUnion(node);
      if ConcreteTypesRecorded(parents, concrete) {
        ConcreteTypesRecordedByGrowth(parents, concrete, concreteTypeNamesByAbstractTypeName);
      }
      StoreUnionData(node, prior, directives, extensionType);
    }

    /** Merges a further definition or extension of a union into its entry. */
    method MergeUnionDataByNode(node: TypeDefinitionNode, prior: ParentData, directives: DirectiveMap,
                                extensionType: ExtensionType)
      requires node.kind == UnionKind && prior.UnionData?
      requires node.name in parentDefinitionDataByTypeName && parentDefinitionDataByTypeName[node.name] == prior
      requires NameSet(node.members) != {} ==>
                 node.name in concreteTypeNamesByAbstractTypeName && NameSet(node.members) <= concreteTypeNamesByAbstractTypeName[node.name]
      modifies this`errors, this`parentDefinitionDataByTypeName, this`concreteTypeNamesByAbstractTypeName,
               this`referencedTypeNames
      ensures parentDefinitionDataByTypeName == old(parentDefinitionDataByTypeName)[node.name :=
                MergeUnionData(WithExtensionType(prior, MergeExtensionType(prior.extensionType, extensionType)), node, directives)]
      ensures errors == old(errors) + ExtensionTypeErrors(prior, extensionType) +
                        DuplicateMemberErrors(node.name, RepeatedNames(prior.members, node.members))
      ensures referencedTypeNames == old(referencedTypeNames) + (NameSet(node.members) - prior.members - ext.baseScalars)
      ensures concreteTypeNamesByAbstractTypeName == old(concreteTypeNamesByAbstractTypeName)
      ensures KindsKept(old(parentDefinitionDataByTypeName), parentDefinitionDataByTypeName)
      ensures EntriesNamed(old(parentDefinitionDataByTypeName)) ==> EntriesNamed(parentDefinitionDataByTypeName)
      ensures ConcreteTypesRecorded(old(parentDefinitionDataByTypeName), concreteTypeNamesByAbstractTypeName) ==>
                ConcreteTypesRecorded(parentDefinitionDataByTypeName, concreteTypeNamesByAbstractTypeName)
    {
      var typeName := node.name;
      var data := SetParentDataExtensionType(prior, extensionType);
      AddConcreteTypeNamesPresent(concreteTypeNamesByAbstractTypeName, typeName, NameSet(node.members) - data.members);
      var members := ExtractUnionMembers(node, data.members);
      data := MergeUnionData(data, node, directives);
      KindsKeptByUpdate(parentDefinitionDataByTypeName, typeName, data);
      parentDefinitionDataByTypeName := parentDefinitionDataByTypeName[typeName := data];
    }

    /** Inserts the entry of a union seen for the first time. */
    method InsertUnionData(node: TypeDefinitionNode, directives: DirectiveMap, extensionType: ExtensionType)
      requires node.kind == UnionKind && node.name !in parentDefinitionDataByTypeName
      requires NameSet(node.members) != {} ==>
                 node.name in concreteTypeNamesByAbstractTypeName && NameSet(node.members) <= concreteTypeNamesByAbstractTypeName[node.name]
      modifies this`errors, this`parentDefinitionDataByTypeName, this`concreteTypeNamesByAbstractTypeName,
               this`referencedTypeNames
      ensures parentDefinitionDataByTypeName == old(parentDefinitionDataByTypeName)[node.name :=
                UnionData(node.name, extensionType, directives, NameSet(node.members), node.description)]
      ensures errors == old(errors) + DuplicateMemberErrors(node.name, RepeatedNames({}, node.members))
      ensures referencedTypeNames == old(referencedTypeNames) + (NameSet(node.members) - ext.baseScalars)
      ensures concreteTypeNamesByAbstractTypeName == old(concreteTypeNamesByAbstractTypeName)
      ensures KindsKept(old(parentDefinitionDataByTypeName), parentDefinitionDataByTypeName)
      ensures EntriesNamed(old(parentDefinitionDataByTypeName)) ==> EntriesNamed(parentDefinitionDataByTypeName)
      ensures ConcreteTypesRecorded(old(parentDefinitionDataByTypeName), concreteTypeNamesByAbstractTypeName) ==>
                ConcreteTypesRecorded(parentDefinitionDataByTypeName, concreteTypeNamesByAbstractTypeName)
    {
      var typeName := node.name;
      AddConcreteTypeNamesPresent(concreteTypeNamesByAbstractTypeName, typeName, NameSet(node.members) - {});
      var members := ExtractUnionMembers(node, {});
      assert members == NameSet(node.members) && NameSet(node.members) - {} == NameSet(node.members);
      var data := UnionData(typeName, extensionType, directives, members, node.description);
      KindsKeptByUpdate(parentDefinitionDataByTypeName, typeName, data);
      parentDefinitionDataByTypeName := parentDefinitionDataByTypeName[typeName := data];
    }

    /** Stores a union node whose members were already recorded as concrete types of the union. */
    method StoreUnionData(node: TypeDefinitionNode, prior: Option<ParentData>, directives: DirectiveMap,
                          extensionType: ExtensionType)
      requires node.kind == UnionKind
      requires prior == Lookup(parentDefinitionDataByTypeName, node.name)
      requires NameSet(node.members) != {} ==>
                 node.name in concreteTypeNamesByAbstractTypeName && NameSet(node.members) <= concreteTypeNamesByAbstractTypeName[node.name]
      modifies this`errors, this`parentDefinitionDataByTypeName, this`concreteTypeNamesByAbstractTypeName,
               this`referencedTypeNames
      ensures prior.Some? && !prior.value.UnionData? ==>
        && parentDefinitionDataByTypeName == old(parentDefinitionDataByTypeName)[node.name := WithDirectives(prior.value, directives)]
        && errors == old(errors) + [MultipleNamedTypeDefinition(node.name, prior.value.Kind(), UnionKind)]
        && referencedTypeNames == old(referencedTypeNames)
      ensures prior.Some? && prior.value.UnionData? ==>
        && parentDefinitionDataByTypeName == old(parentDefinitionDataByTypeName)[node.name :=
             MergeUnionData(WithExtensionType(prior.value, MergeExtensionType(prior.value.extensionType, extensionType)),
                            node, directives)]
        && errors == old(errors) + ExtensionTypeErrors(prior.value, extensionType) +
                     DuplicateMemberErrors(node.name, RepeatedNames(prior.value.members, node.members))
        && referencedTypeNames == old(referencedTypeNames) + (NameSet(node.members) - prior.value.members - ext.baseScalars)
      ensures prior.None? ==>
        && parentDefinitionDataByTypeName == old(parentDefinitionDataByTypeName)[node.name :=
             UnionData(node.name, extensionType, directives, NameSet(node.members), node.description)]
        && errors == old(errors) + DuplicateMemberErrors(node.name, RepeatedNames({}, node.members))
        && referencedTypeNames == old(referencedTypeNames) + (NameSet(node.members) - ext.baseScalars)
      ensures concreteTypeNamesByAbstractTypeName == old(concreteTypeNamesByAbstractTypeName)
      ensures KindsKept(old(parentDefinitionDataByTypeName), parentDefinitionDataByTypeName)
      ensures EntriesNamed(old(parentDefinitionDataByTypeName)) ==> EntriesNamed(parentDefinitionDataByTypeName)
      ensures ConcreteTypesRecorded(old(parentDefinitionDataByTypeName), concreteTypeNamesByAbstractTypeName) ==>
                ConcreteTypesRecorded(parentDefinitionDataByTypeName, concreteTypeNamesByAbstractTypeName)
    {
      if prior.Some? {
        if !prior.value.UnionData? {
          RejectMultipleDefinition(node.name, prior.value, directives, UnionKind);
          return;
        }
        MergeUnionDataByNode(node, prior.value, directives, extensionType);
        return;
      }
      InsertUnionData(node, directives, extensionType);
    }

    // ----- key field sets -----

    /** Scans the arguments of one `@key` as the key extraction does, stopping at the first bad one. */
    static method ScanKeyDirectiveArguments(args: seq<Argument>) returns (scan: KeyScan)
      ensures scan == ScanKeyArguments(args, KeyScan(None, false, None))
    {
      scan := KeyScan(None, false, None);
      ghost var final := ScanKeyArguments(args, scan);
      var i := 0;
      while i < |args|
        invariant 0 <= i <= |args|
        invariant ScanKeyArguments(args[i..], scan) == final
        decreases |args| - i
      {
        var a := args[i];
        assert args[i..][0] == a && args[i..][1..] == args[i + 1..];
        if a.name == ResolvableArgument {
          if a.value.BooleanValue? && !a.value.b {
            scan := scan.(isUnresolvable := true);
          }
          i := i + 1;
          continue;
        }
        if a.name != FieldsArgument {
          scan := scan.(fieldSet := None);
          return;
        }
        if !a.value.StringValue? {
          scan := scan.(fieldSet := None, message := Some(InvalidKeyDirectiveArgument));
          return;
        }
        scan := scan.(fieldSet := Some(a.value.s));
        i := i + 1;
      }
      assert args[|args|..] == [];
    }

    /**
     * Records the field set of every `@key` of an entity node with whether it is marked
     * unresolvable, and reports the malformed ones in one error; a node without directives
     * cannot be an entity.
     */
    method ExtractKeyFieldSets(node: TypeDefinitionNode, unresolvableByFieldSet: map<string, bool>)
      returns (r: map<string, bool>)
      modifies this`errors
      ensures node.directives == [] ==> r == unresolvableByFieldSet && errors == old(errors) + [ExpectedEntity(node.name)]
      ensures node.directives != [] ==>
        var x := ExtractKeyFieldSetsFrom(node.directives, KeyExtraction(unresolvableByFieldSet, []));
        && r == x.unresolvableByFieldSet
        && errors == old(errors) + (if x.messages == [] then [] else [InvalidKeyDirectives(node.name, x.messages)])
    {
      r := unresolvableByFieldSet;
      if node.directives == [] {
        errors := errors + [ExpectedEntity(node.name)];
        return;
      }
      var ds := node.directives;
      var messages: seq<KeyMessage> := [];
      ghost var final := ExtractKeyFieldSetsFrom(ds, KeyExtraction(r, messages));
      for i := 0 to |ds|
        invariant ExtractKeyFieldSetsFrom(ds[i..], KeyExtraction(r, messages)) == final
        invariant errors == old(errors)
      {
        var d := ds[i];
        assert ds[i..][0] == d && ds[i..][1..] == ds[i + 1..];
        ghost var before := KeyExtraction(r, messages);
        if d.name != KeyDirective {
        } else if |d.arguments| < 1 {
          messages := messages + [UndefinedRequiredFieldsArgument];
        } else {
          var scan := ScanKeyDirectiveArguments(d.arguments);
          if scan.message.Some? {
            messages := messages + [scan.message.value];
          }
          if scan.fieldSet.Some? {
            r := r[scan.fieldSet.value := scan.isUnresolvable];
          }
        }
        assert ExtractKeyStep(d, before) == KeyExtraction(r, messages);
      }
      assert ds[|ds|..] == [];
      if messages != [] {
        errors := errors + [InvalidKeyDirectives(node.name, messages)];
      }
    }

    // ----- interface implementations -----

    /** Checks one implementing field against the interface field it implements. */
    static method CheckFieldImplementation(interfaceField: FieldData, field: FieldData, isParentInaccessible: bool,
                                           concreteTypeNames: map<string, set<string>>, ext: External)
      returns (r: InvalidFieldImplementation)
      ensures r == FieldImplementation(interfaceField, field, isParentInaccessible, concreteTypeNames, ext)
    {
      var implementedResponseType := None;
      if !ext.isTypeValidImplementation(interfaceField.typ, field.typ, concreteTypeNames) {
        implementedResponseType := Some(field.typ);
      }
      var interfaceArguments, fieldArguments := interfaceField.arguments, field.arguments;
      var handledArguments: set<string> := {};
      var unimplementedArguments: set<string> := {};
      var invalidImplementedArguments: set<InvalidArgumentType> := {};
      var remaining := interfaceArguments.Keys;
      while remaining != {}
        invariant remaining <= interfaceArguments.Keys
        invariant handledArguments == interfaceArguments.Keys - remaining
        invariant unimplementedArguments == UnimplementedArguments(interfaceArguments, fieldArguments, handledArguments)
        invariant invalidImplementedArguments == MismatchedArguments(interfaceArguments, fieldArguments, handledArguments)
        decreases remaining
      {
        var argumentName :| argumentName in remaining;
        handledArguments := handledArguments + {argumentName};
        if argumentName !in fieldArguments {
          unimplementedArguments := unimplementedArguments + {argumentName};
        } else if fieldArguments[argumentName].typ != interfaceArguments[argumentName].typ {
          invalidImplementedArguments := invalidImplementedArguments +
            {InvalidArgumentType(argumentName, interfaceArguments[argumentName].typ, fieldArguments[argumentName].typ)};
        }
        remaining := remaining - {argumentName};
      }
      var invalidAdditionalArguments: set<string> := {};
      var others := fieldArguments.Keys;
      while others != {}
        invariant others <= fieldArguments.Keys
        invariant invalidAdditionalArguments ==
                    InvalidAdditionalArguments(interfaceArguments, fieldArguments, fieldArguments.Keys - others)
        decreases others
      {
        var argumentName :| argumentName in others;
        ghost var done := fieldArguments.Keys - others;
        if argumentName !in handledArguments && fieldArguments[argumentName].typ.NonNullType? {
          invalidAdditionalArguments := invalidAdditionalArguments + {argumentName};
        }
        others := others - {argumentName};
        assert fieldArguments.Keys - others == done + {argumentName};
      }
      r := InvalidFieldImplementation(invalidAdditionalArguments, invalidImplementedArguments,
                                      !isParentInaccessible && field.isInaccessible && !interfaceField.isInaccessible,
                                      interfaceField.typ, implementedResponseType, unimplementedArguments);
    }

    /**
     * Checks every field of one implemented interface against the implementing type, and
     * marks each of those field coordinates of the type as accounted for.
     */
    method CheckInterfaceImplementation(data: ParentData, interfaceFields: map<string, FieldData>)
      returns (e: ImplementationErrors)
      requires data.IsComposite()
      modifies this`unvalidatedExternalFieldCoords
      ensures e == InterfaceImplementation(interfaceFields, data.fields, InaccessibleDirective in data.directives,
                                           concreteTypeNamesByAbstractTypeName, ext)
      ensures unvalidatedExternalFieldCoords == old(unvalidatedExternalFieldCoords) - FieldCoords(data.name, interfaceFields.Keys)
    {
      var isParentInaccessible := InaccessibleDirective in data.directives;
      var invalid: map<string, InvalidFieldImplementation> := map[];
      var unimplemented: set<string> := {};
      var remaining := interfaceFields.Keys;
      ghost var done: set<string> := {};
      while remaining != {}
        invariant done !! remaining && done + remaining == interfaceFields.Keys
        invariant invalid == InvalidFieldImplementations(interfaceFields, data.fields, done,
                                                         isParentInaccessible, concreteTypeNamesByAbstractTypeName, ext)
        invariant unimplemented == UnimplementedFields(interfaceFields, data.fields, done)
        invariant unvalidatedExternalFieldCoords == old(unvalidatedExternalFieldCoords) - FieldCoords(data.name, done)
        decreases remaining
      {
        var fieldName :| fieldName in remaining;
        InvalidFieldImplementationsStep(interfaceFields, data.fields, done, fieldName, isParentInaccessible,
                                        concreteTypeNamesByAbstractTypeName, ext);
        UnimplementedFieldsStep(interfaceFields, data.fields, done, fieldName);
        FieldCoordsStep(data.name, done, fieldName);
        unvalidatedExternalFieldCoords := unvalidatedExternalFieldCoords - {ChildPath(data.name, fieldName)};
        if fieldName !in data.fields {
          unimplemented := unimplemented + {fieldName};
        } else {
          var f := CheckFieldImplementation(interfaceFields[fieldName], data.fields[fieldName], isParentInaccessible,
                                            concreteTypeNamesByAbstractTypeName, ext);
          if IsFlagged(f) {
            invalid := invalid[fieldName := f];
          }
        }
        remaining := remaining - {fieldName};
        done := done + {fieldName};
      }
      assert done == interfaceFields.Keys;
      e := ImplementationErrors(invalid, unimplemented);
    }

    /**
     * The loop of the interface-implementation check: reports each undefined implemented
     * interface and fills the three collectors.
     */
    method CollectInterfaceImplementations(data: ParentData)
      returns (invalidTypes: map<string, Kind>, implementsItself: bool, byInterface: map<string, ImplementationErrors>)
      requires data.IsComposite()
      modifies this`errors, this`unvalidatedExternalFieldCoords
      ensures var names, parents := data.implementedInterfaces, parentDefinitionDataByTypeName;
        && invalidTypes == NonInterfaceImplementedTypes(names, parents)
        && implementsItself == (data.name in names && data.name in parents && parents[data.name].InterfaceData?)
        && byInterface == ImplementationErrorsByInterface(data, names, parents, concreteTypeNamesByAbstractTypeName, ext)
        && old(errors) <= errors
        && ReportsUndefined(errors[|old(errors)|..], names - parents.Keys)
        && unvalidatedExternalFieldCoords == old(unvalidatedExternalFieldCoords) - CheckedFieldCoords(data, names, parents)
    {
      var parents := parentDefinitionDataByTypeName;
      var names := data.implementedInterfaces;
      invalidTypes, implementsItself, byInterface := map[], false, map[];
      ghost var undefinedErrors: seq<ErrorKind> := [];
      var remaining := names;
      ghost var done: set<string> := {};
      while remaining != {}
        invariant done !! remaining && done + remaining == names
        invariant invalidTypes == NonInterfaceImplementedTypes(done, parents)
        invariant implementsItself == (data.name in done && data.name in parents && parents[data.name].InterfaceData?)
        invariant byInterface == ImplementationErrorsByInterface(data, done, parents, concreteTypeNamesByAbstractTypeName, ext)
        invariant errors == old(errors) + undefinedErrors
        invariant ReportsUndefined(undefinedErrors, done - parents.Keys)
        invariant unvalidatedExternalFieldCoords == old(unvalidatedExternalFieldCoords) - CheckedFieldCoords(data, done, parents)
        decreases remaining
      {
        var interfaceName :| interfaceName in remaining;
        NonInterfaceImplementedTypesStep(done, interfaceName, parents);
        ImplementationErrorsByInterfaceStep(data, done, interfaceName, parents, concreteTypeNamesByAbstractTypeName, ext);
        CheckedFieldCoordsStep(data, done, interfaceName, parents);
        assert (done + {interfaceName}) - parents.Keys ==
                 if interfaceName in parents then done - parents.Keys else (done - parents.Keys) + {interfaceName};
        remaining := remaining - {interfaceName};
        done := done + {interfaceName};
        if interfaceName !in parents {
          undefinedErrors := undefinedErrors + [UndefinedType(interfaceName)];
          errors := errors + [UndefinedType(interfaceName)];
          continue;
        }
        var interfaceData := parents[interfaceName];
        if !interfaceData.InterfaceData? {
          invalidTypes := invalidTypes[interfaceName := interfaceData.Kind()];
          continue;
        }
        if data.name == interfaceName {
          implementsItself := true;
          continue;
        }
        var e := CheckInterfaceImplementation(data, interfaceData.fields);
        if HasImplementationErrors(e) {
          byInterface := byInterface[interfaceName := e];
        }
      }
      assert done == names;
      assert errors[|old(errors)|..] == undefinedErrors;
    }

    /**
     * Checks how an object or interface implements its interfaces: each undefined one is
     * reported, then the implemented types that are not interfaces, implementing itself, and
     * every interface implemented with errors, each gathered into one error.
     */
    method ValidateInterfaceImplementations(data: ParentData) returns (ghost undefinedReports: seq<ErrorKind>)
      requires data.IsComposite()
      modifies this`errors, this`unvalidatedExternalFieldCoords
      ensures old(errors) <= errors && unvalidatedExternalFieldCoords <= old(unvalidatedExternalFieldCoords)
      ensures errors == old(errors) + undefinedReports +
        ImplementationErrorsOf(data, parentDefinitionDataByTypeName, concreteTypeNamesByAbstractTypeName, ext)
      ensures ReportsUndefined(undefinedReports, data.implementedInterfaces - parentDefinitionDataByTypeName.Keys)
      ensures unvalidatedExternalFieldCoords == old(unvalidatedExternalFieldCoords) -
                CheckedFieldCoords(data, data.implementedInterfaces, parentDefinitionDataByTypeName)
    {
      var invalidTypes, implementsItself, byInterface := CollectInterfaceImplementations(data);
      undefinedReports := errors[|old(errors)|..];
      assert errors == old(errors) + undefinedReports;
      var gathered := GatheredImplementationErrors(data.name, data.Kind(), invalidTypes, implementsItself, byInterface);
      errors := errors + gathered;
    }

    // ----- unions -----

    /**
     * A union must have a member, and every member defined in the subgraph must be an object;
     * the others are gathered into one error with their kinds.
     */
    method ValidateUnionMembers(data: ParentData)
      requires data.UnionData?
      modifies this`errors
      ensures data.members == {} ==> errors == old(errors) + [NoDefinedUnionMembers(data.name)]
      ensures data.members != {} ==>
        var invalid := NonObjectMembers(data.members, parentDefinitionDataByTypeName);
        errors == old(errors) + (if invalid == map[] then [] else [InvalidUnionMemberType(data.name, invalid)])
    {
      if data.members == {} {
        errors := errors + [NoDefinedUnionMembers(data.name)];
        return;
      }
      var parents := parentDefinitionDataByTypeName;
      var invalidMembers: map<string, Kind> := map[];
      var remaining := data.members;
      ghost var done: set<string> := {};
      while remaining != {}
        invariant done !! remaining && done + remaining == data.members
        invariant invalidMembers == NonObjectMembers(done, parents)
        invariant errors == old(errors)
        decreases remaining
      {
        var memberName :| memberName in remaining;
        NonObjectMembersStep(done, memberName, parents);
        remaining := remaining - {memberName};
        done := done + {memberName};
        if memberName !in parents {
          continue;
        }
        var memberData := parents[memberName];
        if !memberData.ObjectData? {
          invalidMembers := invalidMembers[memberName := memberData.Kind()];
        }
      }
      assert done == data.members;
      if invalidMembers != map[] {
        errors := errors + [InvalidUnionMemberType(data.name, invalidMembers)];
      }
    }
    // ----- normalization: inherited authorization -----

    /**
     * Copies an interface's field authorization onto one implementing type, creating the
     * type's record if needed; a field whose requirement cannot be merged is recorded as a
     * host path over the OR-scopes limit.
     */
    method InheritFieldAuthorization(concreteTypeName: string, fields: map<string, FieldAuthorizationData>)
      modifies this`authorizationDataByParentTypeName, this`invalidOrScopesHostPaths
      ensures authorizationDataByParentTypeName.Keys == old(authorizationDataByParentTypeName).Keys + {concreteTypeName}
      ensures forall t :: t in old(authorizationDataByParentTypeName) && t != concreteTypeName ==>
        authorizationDataByParentTypeName[t] == old(authorizationDataByParentTypeName)[t]
      ensures old(invalidOrScopesHostPaths) <= invalidOrScopesHostPaths
      ensures forall p :: p in invalidOrScopesHostPaths - old(invalidOrScopesHostPaths) ==>
        p.ChildPath? && p.typeName == concreteTypeName && p.childName in fields
      ensures (forall m, fad :: ext.upsertFieldAuthorizationData(m, fad).1) ==>
        invalidOrScopesHostPaths == old(invalidOrScopesHostPaths)
      ensures PropagationBounds(old(authorizationDataByParentTypeName), authorizationDataByParentTypeName,
                                old(invalidOrScopesHostPaths), invalidOrScopesHostPaths, {concreteTypeName}, {concreteTypeName})
    {
      if concreteTypeName !in authorizationDataByParentTypeName {
        authorizationDataByParentTypeName :=
          authorizationDataByParentTypeName[concreteTypeName := NewAuthorizationData(concreteTypeName)];
      }
      var remaining := fields.Keys;
      while remaining != {}
        invariant remaining <= fields.Keys
        invariant authorizationDataByParentTypeName.Keys == old(authorizationDataByParentTypeName).Keys + {concreteTypeName}
        invariant forall t :: t in old(authorizationDataByParentTypeName) && t != concreteTypeName ==>
          authorizationDataByParentTypeName[t] == old(authorizationDataByParentTypeName)[t]
        invariant old(invalidOrScopesHostPaths) <= invalidOrScopesHostPaths
        invariant forall p :: p in invalidOrScopesHostPaths - old(invalidOrScopesHostPaths) ==>
          p.ChildPath? && p.typeName == concreteTypeName && p.childName in fields
        invariant (forall m, fad :: ext.upsertFieldAuthorizationData(m, fad).1) ==>
          invalidOrScopesHostPaths == old(invalidOrScopesHostPaths)
        decreases remaining
      {
        var fieldName :| fieldName in remaining;
        var data := authorizationDataByParentTypeName[concreteTypeName];
        var (fieldAuthorization, upserted) := ext.upsertFieldAuthorizationData(data.fieldAuthorization, fields[fieldName]);
        authorizationDataByParentTypeName :=
          authorizationDataByParentTypeName[concreteTypeName := data.(fieldAuthorization := fieldAuthorization)];
        if !upserted {
          invalidOrScopesHostPaths := invalidOrScopesHostPaths + {ChildPath(concreteTypeName, fieldName)};
        }
        remaining := remaining - {fieldName};
      }
    }

    /** Copies the field authorization of one interface onto every type recorded as implementing it. */
    method PropagateInterfaceAuthorizationOf(interfaceTypeName: string)
      requires interfaceTypeName in authorizationDataByParentTypeName
      modifies this`authorizationDataByParentTypeName, this`invalidOrScopesHostPaths
      ensures var concreteTypes := ConcreteTypesOf({interfaceTypeName}, concreteTypeNamesByAbstractTypeName);
        PropagationBounds(old(authorizationDataByParentTypeName), authorizationDataByParentTypeName,
                          old(invalidOrScopesHostPaths), invalidOrScopesHostPaths, concreteTypes, concreteTypes)
      ensures (forall m, fad :: ext.upsertFieldAuthorizationData(m, fad).1) ==>
        invalidOrScopesHostPaths == old(invalidOrScopesHostPaths)
    {
      var fields := authorizationDataByParentTypeName[interfaceTypeName].fieldAuthorization;
      var concreteTypes := if interfaceTypeName in concreteTypeNamesByAbstractTypeName
                           then concreteTypeNamesByAbstractTypeName[interfaceTypeName] else {};
      assert concreteTypes == ConcreteTypesOf({interfaceTypeName}, concreteTypeNamesByAbstractTypeName);
      var remaining := concreteTypes;
      ghost var before, pathsBefore := authorizationDataByParentTypeName, invalidOrScopesHostPaths;
      ghost var done: set<string> := {};
      while remaining != {}
        invariant done !! remaining && done + remaining == concreteTypes
        invariant PropagationBounds(before, authorizationDataByParentTypeName, pathsBefore, invalidOrScopesHostPaths, done, done)
        invariant (forall m, fad :: ext.upsertFieldAuthorizationData(m, fad).1) ==> invalidOrScopesHostPaths == pathsBefore
        decreases remaining
      {
        var concreteTypeName :| concreteTypeName in remaining;
        ghost var mid, pathsMid := authorizationDataByParentTypeName, invalidOrScopesHostPaths;
        InheritFieldAuthorization(concreteTypeName, fields);
        PropagationBoundsCompose(before, mid, authorizationDataByParentTypeName, pathsBefore, pathsMid, invalidOrScopesHostPaths,
                                 done, done, {concreteTypeName}, {concreteTypeName}, {concreteTypeName});
        remaining := remaining - {concreteTypeName};
        done := done + {concreteTypeName};
      }
      assert done == concreteTypes;
    }

    /**
     * Copies the field authorization of every interface that carries authorization directives
     * onto the types implementing it. Every implementing type ends with a record.
     */
    method PropagateInterfaceAuthorization()
      modifies this`authorizationDataByParentTypeName, this`invalidOrScopesHostPaths
      ensures var interfaces := interfaceTypeNamesWithAuthorizationDirectives;
              var concrete := concreteTypeNamesByAbstractTypeName;
        && old(authorizationDataByParentTypeName).Keys <= authorizationDataByParentTypeName.Keys
        && authorizationDataByParentTypeName.Keys <= old(authorizationDataByParentTypeName).Keys + ConcreteTypesOf(interfaces, concrete)
        && ConcreteTypesOf(interfaces * old(authorizationDataByParentTypeName).Keys, concrete) <= authorizationDataByParentTypeName.Keys
        && (forall t :: t in old(authorizationDataByParentTypeName) && t !in ConcreteTypesOf(interfaces, concrete) ==>
              authorizationDataByParentTypeName[t] == old(authorizationDataByParentTypeName)[t])
        && old(invalidOrScopesHostPaths) <= invalidOrScopesHostPaths
        && (forall p :: p in invalidOrScopesHostPaths - old(invalidOrScopesHostPaths) ==>
              p.ChildPath? && p.typeName in ConcreteTypesOf(interfaces, concrete))
      ensures (forall m, fad :: ext.upsertFieldAuthorizationData(m, fad).1) ==>
        invalidOrScopesHostPaths == old(invalidOrScopesHostPaths)
    {
      var interfaces := interfaceTypeNamesWithAuthorizationDirectives;
      ghost var concrete := concreteTypeNamesByAbstractTypeName;
      ghost var before, pathsBefore := authorizationDataByParentTypeName, invalidOrScopesHostPaths;
      var remaining := interfaces;
      ghost var done: set<string> := {};
      assert ConcreteTypesOf(done, concrete) == {} && done * before.Keys == {};
      while remaining != {}
        invariant done !! remaining && done + remaining == interfaces
        invariant PropagationBounds(before, authorizationDataByParentTypeName, pathsBefore, invalidOrScopesHostPaths,
                                    ConcreteTypesOf(done, concrete), ConcreteTypesOf(done * before.Keys, concrete))
        invariant (forall m, fad :: ext.upsertFieldAuthorizationData(m, fad).1) ==> invalidOrScopesHostPaths == pathsBefore
        decreases remaining
      {
        var interfaceTypeName :| interfaceTypeName in remaining;
        ghost var mid, pathsMid := authorizationDataByParentTypeName, invalidOrScopesHostPaths;
        if interfaceTypeName in authorizationDataByParentTypeName {
          PropagateInterfaceAuthorizationOf(interfaceTypeName);
        }
        PropagationBoundsStep(before, mid, authorizationDataByParentTypeName, pathsBefore, pathsMid, invalidOrScopesHostPaths,
                              done, interfaceTypeName, concrete);
        remaining := remaining - {interfaceTypeName};
        done := done + {interfaceTypeName};
      }
      assert done == interfaces;
    }

    /** AND-merges the inherited requirements of one type, in order, recording each field whose merge fails. */
    static method MergeHeirRequirements(data: AuthorizationData, fads: seq<FieldAuthorizationData>, ext: External)
      returns (r: HeirMerge)
      ensures r == MergeHeirs(fads, ext, HeirMerge(data, {}))
    {
      r := HeirMerge(data, {});
      ghost var final := MergeHeirs(fads, ext, r);
      for i := 0 to |fads|
        invariant MergeHeirs(fads[i..], ext, r) == final
      {
        assert fads[i..][0] == fads[i] && fads[i..][1..] == fads[i + 1..];
        var (merged, ok) := ext.mergeAuthorizationDataByAnd(r.data, fads[i]);
        r := HeirMerge(merged, if ok then r.failedFieldNames else r.failedFieldNames + {fads[i].fieldName});
      }
      assert fads[|fads|..] == [];
    }

    /**
     * Merges into each recorded type the leaf authorization its fields inherited but that was
     * not applied earlier; a requirement that cannot be merged marks its field coordinate.
     */
    method ApplyHeirFieldAuthorization()
      modifies this`authorizationDataByParentTypeName, this`invalidOrScopesHostPaths
      ensures authorizationDataByParentTypeName ==
        HeirsApplied(old(authorizationDataByParentTypeName), heirFieldAuthorizationDataByTypeName,
                     heirFieldAuthorizationDataByTypeName.Keys, ext)
      ensures invalidOrScopesHostPaths == old(invalidOrScopesHostPaths) +
        HeirFailures(old(authorizationDataByParentTypeName), heirFieldAuthorizationDataByTypeName,
                     heirFieldAuthorizationDataByTypeName.Keys, ext)
    {
      ghost var authorization := authorizationDataByParentTypeName;
      var heirs := heirFieldAuthorizationDataByTypeName;
      var remaining := heirs.Keys;
      ghost var done: set<string> := {};
      while remaining != {}
        invariant done !! remaining && done + remaining == heirs.Keys
        invariant authorizationDataByParentTypeName == HeirsApplied(authorization, heirs, done, ext)
        invariant invalidOrScopesHostPaths == old(invalidOrScopesHostPaths) + HeirFailures(authorization, heirs, done, ext)
        decreases remaining
      {
        var typeName :| typeName in remaining;
        HeirsStep(authorization, heirs, done, typeName, ext);
        remaining := remaining - {typeName};
        done := done + {typeName};
        if typeName !in authorizationDataByParentTypeName {
          continue;
        }
        var r := MergeHeirRequirements(authorizationDataByParentTypeName[typeName], heirs[typeName], ext);
        authorizationDataByParentTypeName := authorizationDataByParentTypeName[typeName := r.data];
        invalidOrScopesHostPaths := invalidOrScopesHostPaths + set f | f in r.failedFieldNames :: ChildPath(typeName, f);
      }
      assert done == heirs.Keys;
    }

    /** Any host path over the OR-scopes limit is reported, all together, in one error. */
    method ReportOrScopesLimit()
      modifies this`errors
      ensures errors == old(errors) +
        if invalidOrScopesHostPaths == {} then [] else [OrScopesLimit(MaxOrScopes, invalidOrScopesHostPaths)]
    {
      if invalidOrScopesHostPaths != {} {
        errors := errors + [OrScopesLimit(MaxOrScopes, invalidOrScopesHostPaths)];
      }
    }

    // ----- normalization: assembling the named types -----

    /** An enum, input object or scalar must not be empty, and a union's members must be objects. */
    method AssembleLeafType(typeName: string)
      requires typeName in parentDefinitionDataByTypeName && !parentDefinitionDataByTypeName[typeName].IsComposite()
      modifies this`errors
      ensures errors == old(errors) + LeafAssemblyErrors(parentDefinitionDataByTypeName[typeName], parentDefinitionDataByTypeName)
    {
      var data := parentDefinitionDataByTypeName[typeName];
      match data
      case EnumData(_, _, _, _, _, _) =>
        if data.enumValues == {} {
          errors := errors + [NoDefinedEnumValues(data.name)];
        }
      case InputObjectData(_, _, _, _, _, _, _) =>
        if data.inputValues == map[] {
          errors := errors + [NoInputValueDefinitions(data.name)];
        }
      case ScalarData(_, _, _, _) =>
        if data.extensionType == Real {
          errors := errors + [NoBaseScalarDefinition(data.name)];
        }
      case UnionData(_, _, _, _, _) =>
        ValidateUnionMembers(data);
    }

    /**
     * Checks the arguments of every field of an object or interface now that all types are
     * known, and gathers the interface fields marked `@external` in this subgraph.
     */
    method ValidateFieldArguments(data: ParentData) returns (externalFieldNames: set<string>)
      requires data.IsComposite()
      modifies this`errors
      ensures externalFieldNames == ExternalInterfaceFieldNames(data, subgraphName)
      ensures old(errors) <= errors
      ensures forall f :: f in data.fields ==>
        var args := data.fields[f].arguments;
        var invalid := InvalidArgumentsOf(args, args.Keys, ext.baseScalars, parentDefinitionDataByTypeName);
        invalid != {} ==> InvalidArguments(ChildPath(data.name, f), invalid) in errors[|old(errors)|..]
    {
      externalFieldNames := {};
      var remaining := data.fields.Keys;
      while remaining != {}
        invariant remaining <= data.fields.Keys
        invariant externalFieldNames ==
          if data.ObjectData? then {}
          else set f | f in data.fields.Keys - remaining && data.fields[f].IsExternalIn(subgraphName)
        invariant old(errors) <= errors
        invariant forall f :: f in data.fields.Keys - remaining ==>
          var args := data.fields[f].arguments;
          var invalid := InvalidArgumentsOf(args, args.Keys, ext.baseScalars, parentDefinitionDataByTypeName);
          invalid != {} ==> InvalidArguments(ChildPath(data.name, f), invalid) in errors[|old(errors)|..]
        decreases remaining
      {
        var fieldName :| fieldName in remaining;
        var fieldData := data.fields[fieldName];
        if !data.ObjectData? && fieldData.IsExternalIn(subgraphName) {
          externalFieldNames := externalFieldNames + {fieldName};
        }
        ghost var before := errors;
        ValidateArguments(fieldData, ChildPath(data.name, fieldName));
        assert errors[|old(errors)|..] == before[|old(errors)|..] + errors[|before|..];
        remaining := remaining - {fieldName};
      }
    }

    /**
     * The field checks of an assembled object or interface: arguments are checked where the
     * type has any or is an interface, and `@external` interface fields are an error in a V2
     * subgraph and a warning otherwise.
     */
    method CheckCompositeFields(typeName: string, data: ParentData) returns (ghost added: seq<ErrorKind>)
      requires data.IsComposite() && data.name == typeName
      modifies this`errors, this`warnings
      ensures errors == old(errors) + added
      ensures var externalFieldNames := ExternalInterfaceFieldNames(data, subgraphName);
        && warnings == old(warnings) +
             (if externalFieldNames != {} && !isSubgraphVersionTwo
              then [ExternalInterfaceFieldsWarning(subgraphName, typeName, externalFieldNames)] else [])
        && (externalFieldNames != {} && isSubgraphVersionTwo ==> ExternalInterfaceFields(typeName, externalFieldNames) in added)
      ensures (typeName in parentsWithChildArguments || data.InterfaceData?) ==>
        forall f :: f in data.fields ==>
          var args := data.fields[f].arguments;
          var invalid := InvalidArgumentsOf(args, args.Keys, ext.baseScalars, parentDefinitionDataByTypeName);
          invalid != {} ==> InvalidArguments(ChildPath(typeName, f), invalid) in added
    {
      added := [];
      if typeName in parentsWithChildArguments || !data.ObjectData? {
        var externalFieldNames := ValidateFieldArguments(data);
        added := errors[|old(errors)|..];
        if externalFieldNames != {} {
          if isSubgraphVersionTwo {
            errors := errors + [ExternalInterfaceFields(typeName, externalFieldNames)];
            added := added + [ExternalInterfaceFields(typeName, externalFieldNames)];
          } else {
            warnings := warnings + [ExternalInterfaceFieldsWarning(subgraphName, typeName, externalFieldNames)];
          }
        }
      }
    }

    /**
     * Records the configuration of an assembled object or interface under its configured
     * name, with its events; an entity interface also gets its implementations, recorded as
     * none when nothing implements it.
     */
    method RecordConfiguration(typeName: string, data: ParentData)
      requires data.IsComposite()
      modifies this`configurationDataByParentTypeName, this`concreteTypeNamesByAbstractTypeName
      ensures var concrete := old(concreteTypeNamesByAbstractTypeName);
              var name := ConfigurationName(data);
        && concreteTypeNamesByAbstractTypeName ==
             (if typeName in entityInterfaceDataByTypeName && typeName !in concrete then concrete[typeName := {}] else concrete)
        && configurationDataByParentTypeName == old(configurationDataByParentTypeName)[name := ConfigurationData(
             name, ext.configurationFieldNames(data.fields), typeName in entityTypeNames,
             if name in eventsConfigurations then eventsConfigurations[name] else [], {},
             typeName in entityInterfaceDataByTypeName && entityInterfaceDataByTypeName[typeName].isInterfaceObject,
             if typeName in entityInterfaceDataByTypeName then concreteTypeNamesByAbstractTypeName[typeName] else {})]
    {
      var name := ConfigurationName(data);
      var isInterfaceObject := false;
      var entityInterfaceConcreteTypeNames := {};
      if typeName in entityInterfaceDataByTypeName {
        if typeName !in concreteTypeNamesByAbstractTypeName {
          concreteTypeNamesByAbstractTypeName := concreteTypeNamesByAbstractTypeName[typeName := {}];
        }
        isInterfaceObject := entityInterfaceDataByTypeName[typeName].isInterfaceObject;
        entityInterfaceConcreteTypeNames := concreteTypeNamesByAbstractTypeName[typeName];
      }
      var events := if name in eventsConfigurations then eventsConfigurations[name] else [];
      configurationDataByParentTypeName := configurationDataByParentTypeName[name := ConfigurationData(
        name, ext.configurationFieldNames(data.fields), typeName in entityTypeNames, events, {},
        isInterfaceObject, entityInterfaceConcreteTypeNames)];
    }

    /** An object or interface must define a field, unless it is the query type of a node-only subgraph. */
    method CheckHasFields(typeName: string, data: ParentData)
      requires data.IsComposite()
      modifies this`errors
      ensures errors == old(errors) +
        if data.fields == map[] && !ext.isNodeQuery(typeName, Lookup(operationTypeNodeByTypeName, typeName))
        then [NoFieldDefinitions(data.Kind(), typeName)] else []
    {
      if data.fields == map[] && !ext.isNodeQuery(typeName, Lookup(operationTypeNodeByTypeName, typeName)) {
        errors := errors + [NoFieldDefinitions(data.Kind(), typeName)];
      }
    }

    /** An operation type loses the federation fields `_service` and `_entities`. */
    method StripFederationFields(typeName: string) returns (data: ParentData)
      requires typeName in parentDefinitionDataByTypeName && parentDefinitionDataByTypeName[typeName].IsComposite()
      modifies this`parentDefinitionDataByTypeName
      ensures data == WithoutFederationFields(old(parentDefinitionDataByTypeName)[typeName], typeName in operationTypeNodeByTypeName)
      ensures parentDefinitionDataByTypeName == old(parentDefinitionDataByTypeName)[typeName := data]
    {
      data := WithoutFederationFields(parentDefinitionDataByTypeName[typeName], typeName in operationTypeNodeByTypeName);
      parentDefinitionDataByTypeName := parentDefinitionDataByTypeName[typeName := data];
    }

    /**
     * Assembles an object or interface once its federation fields are stripped: its fields
     * are checked, its configuration is recorded, and the closing checks are made.
     */
    method AssembleCompositeType(typeName: string, data: ParentData)
      requires data.IsComposite() && data.name == typeName
      modifies this`errors, this`warnings, this`configurationDataByParentTypeName,
               this`concreteTypeNamesByAbstractTypeName, this`unvalidatedExternalFieldCoords
      ensures old(configurationDataByParentTypeName).Keys + {ConfigurationName(data)} == configurationDataByParentTypeName.Keys
      ensures ConfigurationsNamed(old(configurationDataByParentTypeName)) ==> ConfigurationsNamed(configurationDataByParentTypeName)
      ensures typeName in entityInterfaceDataByTypeName ==> typeName in concreteTypeNamesByAbstractTypeName
      ensures old(concreteTypeNamesByAbstractTypeName).Keys <= concreteTypeNamesByAbstractTypeName.Keys
      ensures old(errors) <= errors && old(warnings) <= warnings
    {
      ghost var _ := CheckCompositeFields(typeName, data);
      RecordConfiguration(typeName, data);
      CloseCompositeType(typeName, data);
    }

    /** The closing checks of an object or interface: its implementations, then whether it has fields. */
    method CloseCompositeType(typeName: string, data: ParentData)
      requires data.IsComposite()
      modifies this`errors, this`unvalidatedExternalFieldCoords
      ensures old(errors) <= errors
      ensures data.fields == map[] && !ext.isNodeQuery(typeName, Lookup(operationTypeNodeByTypeName, typeName)) ==>
        NoFieldDefinitions(data.Kind(), typeName) in errors
      ensures unvalidatedExternalFieldCoords <= old(unvalidatedExternalFieldCoords)
    {
      ghost var _ := ValidateInterfaceImplementations(data);
      CheckHasFields(typeName, data);
    }

    /**
     * Assembles one type: an operation type loses its federation fields, an object or
     * interface is checked and configured, and a leaf type is checked for emptiness.
     */
    method AssembleType(typeName: string)
      requires typeName in parentDefinitionDataByTypeName && parentDefinitionDataByTypeName[typeName].name == typeName
      modifies this`parentDefinitionDataByTypeName, this`errors, this`warnings, this`configurationDataByParentTypeName,
               this`concreteTypeNamesByAbstractTypeName, this`unvalidatedExternalFieldCoords
      ensures var data := old(parentDefinitionDataByTypeName)[typeName];
        parentDefinitionDataByTypeName == old(parentDefinitionDataByTypeName)[typeName :=
          StrippedType(data, typeName in operationTypeNodeByTypeName)]
      ensures old(configurationDataByParentTypeName).Keys <= configurationDataByParentTypeName.Keys
      ensures ConfigurationsNamed(old(configurationDataByParentTypeName)) ==>
        ConfigurationsNamed(configurationDataByParentTypeName)
      ensures old(concreteTypeNamesByAbstractTypeName).Keys <= concreteTypeNamesByAbstractTypeName.Keys
      ensures old(errors) <= errors && old(warnings) <= warnings
      ensures var data := old(parentDefinitionDataByTypeName)[typeName];
        && (data.IsComposite() ==> ConfigurationName(data) in configurationDataByParentTypeName)
        && (data.IsComposite() && typeName in entityInterfaceDataByTypeName ==> typeName in concreteTypeNamesByAbstractTypeName)
    {
      if parentDefinitionDataByTypeName[typeName].IsComposite() {
        var data := StripFederationFields(typeName);
        AssembleCompositeType(typeName, data);
      } else {
        AssembleLeafType(typeName);
      }
    }

    /**
     * Assembles every type of the subgraph, in no particular order: afterwards every
     * operation type has lost its federation fields and every object and interface is
     * configured.
     */
    method AssembleTypes()
      requires EntriesNamed(parentDefinitionDataByTypeName)
      modifies this`parentDefinitionDataByTypeName, this`errors, this`warnings, this`configurationDataByParentTypeName,
               this`concreteTypeNamesByAbstractTypeName, this`unvalidatedExternalFieldCoords
      ensures parentDefinitionDataByTypeName == PartlyStripped(old(parentDefinitionDataByTypeName),
        old(parentDefinitionDataByTypeName).Keys, operationTypeNodeByTypeName.Keys)
      ensures AssembledConfigured(old(parentDefinitionDataByTypeName), old(parentDefinitionDataByTypeName).Keys,
        entityInterfaceDataByTypeName.Keys, configurationDataByParentTypeName, concreteTypeNamesByAbstractTypeName)
      ensures CompositeTypesConfigured(parentDefinitionDataByTypeName, configurationDataByParentTypeName)
      ensures ConfigurationsNamed(old(configurationDataByParentTypeName)) ==>
        ConfigurationsNamed(configurationDataByParentTypeName)
    {
      ghost var original := parentDefinitionDataByTypeName;
      var remaining := parentDefinitionDataByTypeName.Keys;
      ghost var done: set<string> := {};
      while remaining != {}
        invariant remaining <= original.Keys && done == original.Keys - remaining
        invariant parentDefinitionDataByTypeName == PartlyStripped(original, done, operationTypeNodeByTypeName.Keys)
        invariant AssembledConfigured(original, done, entityInterfaceDataByTypeName.Keys,
          configurationDataByParentTypeName, concreteTypeNamesByAbstractTypeName)
        invariant ConfigurationsNamed(old(configurationDataByParentTypeName)) ==>
          ConfigurationsNamed(configurationDataByParentTypeName)
        decreases remaining
      {
        var typeName :| typeName in remaining;
        ghost var configs, concrete := configurationDataByParentTypeName, concreteTypeNamesByAbstractTypeName;
        PartlyStrippedStep(original, done, typeName, operationTypeNodeByTypeName.Keys);
        AssembleType(typeName);
        AssembledConfiguredStep(original, done, typeName, entityInterfaceDataByTypeName.Keys, configs, concrete,
          configurationDataByParentTypeName, concreteTypeNamesByAbstractTypeName);
        remaining := remaining - {typeName};
        done := done + {typeName};
      }
      assert done == original.Keys;
      AllAssembledConfigured(original, operationTypeNodeByTypeName.Keys, entityInterfaceDataByTypeName.Keys,
        configurationDataByParentTypeName, concreteTypeNamesByAbstractTypeName);
    }

    // ----- normalization: root operation types -----

    /** Every field type of a root type must be a base scalar or defined: one error per offending field. */
    method ReportUndefinedFieldTypes(fields: map<string, FieldData>) returns (ghost reported: seq<ErrorKind>)
      modifies this`errors
      ensures errors == old(errors) + reported
      ensures ReportsUndefined(reported, UndefinedFieldTypes(fields, ext.baseScalars, parentDefinitionDataByTypeName))
    {
      reported := [];
      var remaining := fields.Keys;
      while remaining != {}
        invariant remaining <= fields.Keys
        invariant errors == old(errors) + reported
        invariant ReportsUndefined(reported, UndefinedFieldTypes(fields - remaining, ext.baseScalars, parentDefinitionDataByTypeName))
        decreases remaining
      {
        var fieldName :| fieldName in remaining;
        var typeName := fields[fieldName].NamedTypeName();
        UndefinedFieldTypesStep(fields, remaining, fieldName, ext.baseScalars, parentDefinitionDataByTypeName);
        if typeName !in ext.baseScalars && typeName !in parentDefinitionDataByTypeName {
          errors := errors + [UndefinedType(typeName)];
          reported := reported + [UndefinedType(typeName)];
        }
        remaining := remaining - {fieldName};
      }
      assert fields - remaining == fields;
    }

    /**
     * Checks the type serving one operation. A custom type may not be used while the
     * canonical one is defined; a declared type must be defined and is then recorded as the
     * operation's type; the canonical type's configuration becomes a root node; and the
     * type must be an object whose field types are all known.
     */
    method ValidateOperationType(operation: OperationType) returns (ghost reported: seq<ErrorKind>)
      modifies this`errors, this`operationTypeNodeByTypeName, this`configurationDataByParentTypeName
      ensures old(errors) <= errors && old(operationTypeNodeByTypeName).Keys <= operationTypeNodeByTypeName.Keys
      ensures configurationDataByParentTypeName.Keys == old(configurationDataByParentTypeName).Keys
      ensures ConfigurationsNamed(old(configurationDataByParentTypeName)) ==>
        ConfigurationsNamed(configurationDataByParentTypeName)
      ensures (operation in schemaOperationTypeNames && schemaOperationTypeNames[operation] in parentDefinitionDataByTypeName &&
               !RootTypeConflict(schemaOperationTypeNames, parentDefinitionDataByTypeName, operation)) ==>
        schemaOperationTypeNames[operation] in operationTypeNodeByTypeName
      ensures var declared := schemaOperationTypeNames;
              var parents := parentDefinitionDataByTypeName;
              var name := OperationTypeName(declared, operation);
              var defaultTypeName := RootTypes.DefaultRootTypeName(operation);
        && errors == old(errors) + reported
        && (RootTypeConflict(declared, parents, operation) ==>
              && reported == [InvalidRootTypeDefinition(operation, name, defaultTypeName)]
              && operationTypeNodeByTypeName == old(operationTypeNodeByTypeName)
              && configurationDataByParentTypeName == old(configurationDataByParentTypeName))
        && (!RootTypeConflict(declared, parents, operation) && name !in parents ==>
              && reported == (if operation in declared then [UndefinedType(name)] else [])
              && operationTypeNodeByTypeName == old(operationTypeNodeByTypeName)
              && configurationDataByParentTypeName == old(configurationDataByParentTypeName))
        && (!RootTypeConflict(declared, parents, operation) && name in parents ==>
              && operationTypeNodeByTypeName ==
                   (if operation in declared then old(operationTypeNodeByTypeName)[name := operation]
                    else old(operationTypeNodeByTypeName))
              && configurationDataByParentTypeName == AsRootNode(old(configurationDataByParentTypeName), defaultTypeName)
              && (!parents[name].ObjectData? ==> reported == [OperationDefinition(name, operation, parents[name].Kind())])
              && (parents[name].ObjectData? ==>
                    ReportsUndefined(reported, UndefinedFieldTypes(parents[name].fields, ext.baseScalars, parents))))
    {
      var name := OperationTypeName(schemaOperationTypeNames, operation);
      var defaultTypeName := RootTypes.DefaultRootTypeName(operation);
      reported := [];
      if name != defaultTypeName && defaultTypeName in parentDefinitionDataByTypeName {
        errors := errors + [InvalidRootTypeDefinition(operation, name, defaultTypeName)];
        reported := [InvalidRootTypeDefinition(operation, name, defaultTypeName)];
        return;
      }
      if operation in schemaOperationTypeNames {
        if name !in parentDefinitionDataByTypeName {
          errors := errors + [UndefinedType(name)];
          reported := [UndefinedType(name)];
          return;
        }
        operationTypeNodeByTypeName := operationTypeNodeByTypeName[name := operation];
      }
      if name !in parentDefinitionDataByTypeName {
        return;
      }
      configurationDataByParentTypeName := AsRootNode(configurationDataByParentTypeName, defaultTypeName);
      var data := parentDefinitionDataByTypeName[name];
      if !data.ObjectData? {
        errors := errors + [OperationDefinition(name, operation, data.Kind())];
        reported := [OperationDefinition(name, operation, data.Kind())];
        return;
      }
      reported := ReportUndefinedFieldTypes(data.fields);
    }

    /** Checks the types serving queries, mutations and subscriptions, in that order. */
    method ValidateOperationTypes()
      modifies this`errors, this`operationTypeNodeByTypeName, this`configurationDataByParentTypeName
      ensures old(errors) <= errors
      ensures configurationDataByParentTypeName.Keys == old(configurationDataByParentTypeName).Keys
      ensures ConfigurationsNamed(old(configurationDataByParentTypeName)) ==>
        ConfigurationsNamed(configurationDataByParentTypeName)
    {
      ghost var _ := ValidateOperationType(Query);
      ghost var _ := ValidateOperationType(Mutation);
      ghost var _ := ValidateOperationType(Subscription);
    }

    // ----- normalization: referenced output types -----

    /** One referenced output type must be defined or be an entity; an interface needs an implementation. */
    method ValidateReferencedType(typeName: string)
      modifies this`errors, this`warnings
      ensures errors == old(errors) + ReferencedTypeErrors(parentDefinitionDataByTypeName, entityTypeNames)(typeName)
      ensures warnings == old(warnings) +
        ReferencedTypeWarnings(subgraphName, parentDefinitionDataByTypeName, concreteTypeNamesByAbstractTypeName)(typeName)
    {
      if typeName in parentDefinitionDataByTypeName {
        if parentDefinitionDataByTypeName[typeName].InterfaceData? &&
           HasNoImplementationsAsWritten(concreteTypeNamesByAbstractTypeName, typeName) {
          warnings := warnings + [UnimplementedInterfaceOutputType(subgraphName, typeName)];
        }
      } else if typeName !in entityTypeNames {
        errors := errors + [UndefinedType(typeName)];
      }
    }

    /** Checks every type referenced as an output, in no particular order. */
    method ValidateReferencedTypes()
      modifies this`errors, this`warnings
      ensures exists order ::
        && Enumerates(order, referencedTypeNames)
        && errors == old(errors) + Along(order, ReferencedTypeErrors(parentDefinitionDataByTypeName, entityTypeNames))
        && warnings == old(warnings) +
             Along(order, ReferencedTypeWarnings(subgraphName, parentDefinitionDataByTypeName, concreteTypeNamesByAbstractTypeName))
    {
      ghost var errorsOf := ReferencedTypeErrors(parentDefinitionDataByTypeName, entityTypeNames);
      ghost var warningsOf :=
        ReferencedTypeWarnings(subgraphName, parentDefinitionDataByTypeName, concreteTypeNamesByAbstractTypeName);
      var remaining := referencedTypeNames;
      ghost var order: seq<string> := [];
      while remaining != {}
        invariant remaining <= referencedTypeNames
        invariant Enumerates(order, referencedTypeNames - remaining)
        invariant errors == old(errors) + Along(order, errorsOf)
        invariant warnings == old(warnings) + Along(order, warningsOf)
        decreases remaining
      {
        var typeName :| typeName in remaining;
        EnumeratesStep(order, referencedTypeNames - remaining, typeName);
        assert (referencedTypeNames - remaining) + {typeName} == referencedTypeNames - (remaining - {typeName});
        AlongAppend(old(errors), order, errorsOf, typeName, errors);
        AlongAppend(old(warnings), order, warningsOf, typeName, warnings);
        ValidateReferencedType(typeName);
        order := order + [typeName];
        remaining := remaining - {typeName};
      }
      assert referencedTypeNames - remaining == referencedTypeNames;
      assert Enumerates(order, referencedTypeNames) && errors == old(errors) + Along(order, errorsOf) &&
             warnings == old(warnings) + Along(order, warningsOf);
    }

    // ----- normalization: keys -----

    /**
     * The `@key` field sets of one type: its parent must be an object or interface, whose
     * configuration then takes the router keys the key validator yields, if any.
     */
    method ValidateKeysOf(typeName: string)
      requires typeName in parentDefinitionDataByTypeName && parentDefinitionDataByTypeName[typeName].IsComposite() ==>
        ConfigurationName(parentDefinitionDataByTypeName[typeName]) in configurationDataByParentTypeName
      modifies this`errors, this`configurationDataByParentTypeName
      ensures errors == old(errors) +
        KeyErrors(keyFieldSetDataByTypeName, parentDefinitionDataByTypeName, old(configurationDataByParentTypeName), ext)(typeName)
      ensures configurationDataByParentTypeName == WithKeys(typeName, keyFieldSetDataByTypeName, parentDefinitionDataByTypeName,
        old(configurationDataByParentTypeName), old(configurationDataByParentTypeName), ext)
    {
      if typeName !in keyFieldSetDataByTypeName {
        return;
      }
      if typeName !in parentDefinitionDataByTypeName || !parentDefinitionDataByTypeName[typeName].IsComposite() {
        errors := errors + [UndefinedObjectLikeParent(typeName)];
        return;
      }
      var data := parentDefinitionDataByTypeName[typeName];
      var configuration := configurationDataByParentTypeName[ConfigurationName(data)];
      assert ConfiguredFieldNames(data, configurationDataByParentTypeName) == configuration.fieldNames;
      var validated := ext.validateKeyFieldSets(data, keyFieldSetDataByTypeName[typeName], configuration.fieldNames);
      errors := errors + validated.0;
      if validated.1.Some? {
        configurationDataByParentTypeName :=
          configurationDataByParentTypeName[ConfigurationName(data) := configuration.(keys := validated.1.value)];
      }
    }

    /** Checks the `@key` field sets of every type that has any and records the resulting router keys. */
    method ValidateAndAddKeysToConfiguration()
      requires CompositeTypesConfigured(parentDefinitionDataByTypeName, configurationDataByParentTypeName)
      modifies this`errors, this`configurationDataByParentTypeName
      ensures exists order ::
        && Enumerates(order, keyFieldSetDataByTypeName.Keys)
        && errors == old(errors) + Along(order, KeyErrors(keyFieldSetDataByTypeName, parentDefinitionDataByTypeName,
                                                         old(configurationDataByParentTypeName), ext))
        && configurationDataByParentTypeName == KeysAlong(order, keyFieldSetDataByTypeName, parentDefinitionDataByTypeName,
                                                          old(configurationDataByParentTypeName), ext)
    {
      ghost var base := configurationDataByParentTypeName;
      ghost var errorsOf := KeyErrors(keyFieldSetDataByTypeName, parentDefinitionDataByTypeName, base, ext);
      var remaining := keyFieldSetDataByTypeName.Keys;
      ghost var order: seq<string> := [];
      while remaining != {}
        invariant remaining <= keyFieldSetDataByTypeName.Keys
        invariant Enumerates(order, keyFieldSetDataByTypeName.Keys - remaining)
        invariant errors == old(errors) + Along(order, errorsOf)
        invariant configurationDataByParentTypeName ==
          KeysAlong(order, keyFieldSetDataByTypeName, parentDefinitionDataByTypeName, base, ext)
        decreases remaining
      {
        var typeName :| typeName in remaining;
        EnumeratesStep(order, keyFieldSetDataByTypeName.Keys - remaining, typeName);
        assert (keyFieldSetDataByTypeName.Keys - remaining) + {typeName} ==
               keyFieldSetDataByTypeName.Keys - (remaining - {typeName});
        AlongAppend(old(errors), order, errorsOf, typeName, errors);
        KeysAlongStep(order, typeName, keyFieldSetDataByTypeName, parentDefinitionDataByTypeName, base, ext);
        KeysAlongKeepsInvariants(order, keyFieldSetDataByTypeName, parentDefinitionDataByTypeName, base, ext);
        KeyChecksUnaffected(typeName, keyFieldSetDataByTypeName, parentDefinitionDataByTypeName, base,
          configurationDataByParentTypeName, ext);
        ValidateKeysOf(typeName);
        order := order + [typeName];
        remaining := remaining - {typeName};
      }
      assert keyFieldSetDataByTypeName.Keys - remaining == keyFieldSetDataByTypeName.Keys;
      assert Enumerates(order, keyFieldSetDataByTypeName.Keys) && errors == old(errors) + Along(order, errorsOf);
    }

    // ----- normalization: conditional field sets -----

    /** The `@provides` and `@requires` field sets of one type: its parent must be an object or interface. */
    method ValidateFieldSetsOf(typeName: string)
      modifies this`errors
      ensures errors == old(errors) + FieldSetErrors(fieldSetDataByTypeName, parentDefinitionDataByTypeName, ext)(typeName)
    {
      if typeName !in fieldSetDataByTypeName {
        return;
      }
      if typeName !in parentDefinitionDataByTypeName || !parentDefinitionDataByTypeName[typeName].IsComposite() {
        errors := errors + [UndefinedObjectLikeParent(typeName)];
        return;
      }
      errors := errors + ext.conditionalFieldSetErrors(parentDefinitionDataByTypeName[typeName], fieldSetDataByTypeName[typeName]);
    }

    /** Checks the `@provides` and `@requires` field sets of every type that has any. */
    method ValidateConditionalFieldSets()
      modifies this`errors
      ensures exists order ::
        && Enumerates(order, fieldSetDataByTypeName.Keys)
        && errors == old(errors) + Along(order, FieldSetErrors(fieldSetDataByTypeName, parentDefinitionDataByTypeName, ext))
    {
      ghost var errorsOf := FieldSetErrors(fieldSetDataByTypeName, parentDefinitionDataByTypeName, ext);
      var remaining := fieldSetDataByTypeName.Keys;
      ghost var order: seq<string> := [];
      while remaining != {}
        invariant remaining <= fieldSetDataByTypeName.Keys
        invariant Enumerates(order, fieldSetDataByTypeName.Keys - remaining)
        invariant errors == old(errors) + Along(order, errorsOf)
        decreases remaining
      {
        var typeName :| typeName in remaining;
        EnumeratesStep(order, fieldSetDataByTypeName.Keys - remaining, typeName);
        assert (fieldSetDataByTypeName.Keys - remaining) + {typeName} == fieldSetDataByTypeName.Keys - (remaining - {typeName});
        AlongAppend(old(errors), order, errorsOf, typeName, errors);
        ValidateFieldSetsOf(typeName);
        order := order + [typeName];
        remaining := remaining - {typeName};
      }
      assert fieldSetDataByTypeName.Keys - remaining == fieldSetDataByTypeName.Keys;
      assert Enumerates(order, fieldSetDataByTypeName.Keys) && errors == old(errors) + Along(order, errorsOf);
    }

    // ----- normalization: event directive names and unvalidated `@external` fields -----

    /** A referenced event directive must be one the catalogue defines. */
    method ValidateEdfsDirectiveName(directiveName: string)
      modifies this`errors
      ensures errors == old(errors) + EdfsDirectiveNameErrors()(directiveName)
    {
      if directiveName !in EventDirectiveNames {
        errors := errors + [InvalidEdfsDirectiveName(directiveName)];
      }
    }

    /** Checks every referenced event directive name. */
    method ValidateEdfsDirectiveNames()
      modifies this`errors
      ensures exists order ::
        && Enumerates(order, edfsDirectiveReferences)
        && errors == old(errors) + Along(order, EdfsDirectiveNameErrors())
    {
      ghost var errorsOf := EdfsDirectiveNameErrors();
      var remaining := edfsDirectiveReferences;
      ghost var order: seq<string> := [];
      while remaining != {}
        invariant remaining <= edfsDirectiveReferences
        invariant Enumerates(order, edfsDirectiveReferences - remaining)
        invariant errors == old(errors) + Along(order, errorsOf)
        decreases remaining
      {
        var directiveName :| directiveName in remaining;
        EnumeratesStep(order, edfsDirectiveReferences - remaining, directiveName);
        assert (edfsDirectiveReferences - remaining) + {directiveName} == edfsDirectiveReferences - (remaining - {directiveName});
        AlongAppend(old(errors), order, errorsOf, directiveName, errors);
        ValidateEdfsDirectiveName(directiveName);
        order := order + [directiveName];
        remaining := remaining - {directiveName};
      }
      assert edfsDirectiveReferences - remaining == edfsDirectiveReferences;
      assert Enumerates(order, edfsDirectiveReferences) && errors == old(errors) + Along(order, errorsOf);
    }

    /** An `@external` field no interface accounts for: an error in a V2 subgraph, else a warning. */
    method ReportUnvalidatedExternalField(fieldCoords: Path)
      modifies this`errors, this`warnings
      ensures errors == old(errors) + UnvalidatedExternalErrors(isSubgraphVersionTwo)(fieldCoords)
      ensures warnings == old(warnings) + UnvalidatedExternalWarnings(isSubgraphVersionTwo, subgraphName)(fieldCoords)
    {
      if isSubgraphVersionTwo {
        errors := errors + [InvalidExternalDirective(fieldCoords)];
      } else {
        warnings := warnings + [InvalidExternalField(fieldCoords, subgraphName)];
      }
    }

    /** Reports every `@external` field that no implemented interface accounts for. */
    method ReportUnvalidatedExternalFields()
      modifies this`errors, this`warnings
      ensures exists order ::
        && Enumerates(order, unvalidatedExternalFieldCoords)
        && errors == old(errors) + Along(order, UnvalidatedExternalErrors(isSubgraphVersionTwo))
        && warnings == old(warnings) + Along(order, UnvalidatedExternalWarnings(isSubgraphVersionTwo, subgraphName))
    {
      ghost var errorsOf := UnvalidatedExternalErrors(isSubgraphVersionTwo);
      ghost var warningsOf := UnvalidatedExternalWarnings(isSubgraphVersionTwo, subgraphName);
      var remaining := unvalidatedExternalFieldCoords;
      ghost var order: seq<Path> := [];
      while remaining != {}
        invariant remaining <= unvalidatedExternalFieldCoords
        invariant Enumerates(order, unvalidatedExternalFieldCoords - remaining)
        invariant errors == old(errors) + Along(order, errorsOf)
        invariant warnings == old(warnings) + Along(order, warningsOf)
        decreases remaining
      {
        var fieldCoords :| fieldCoords in remaining;
        EnumeratesStep(order, unvalidatedExternalFieldCoords - remaining, fieldCoords);
        assert (unvalidatedExternalFieldCoords - remaining) + {fieldCoords} ==
               unvalidatedExternalFieldCoords - (remaining - {fieldCoords});
        AlongAppend(old(errors), order, errorsOf, fieldCoords, errors);
        AlongAppend(old(warnings), order, warningsOf, fieldCoords, warnings);
        ReportUnvalidatedExternalField(fieldCoords);
        order := order + [fieldCoords];
        remaining := remaining - {fieldCoords};
      }
      assert unvalidatedExternalFieldCoords - remaining == unvalidatedExternalFieldCoords;
      assert Enumerates(order, unvalidatedExternalFieldCoords) && errors == old(errors) + Along(order, errorsOf) &&
             warnings == old(warnings) + Along(order, warningsOf);
    }

    // ----- event directives of root fields -----

    /**
     * A subscription filter may only be placed on a field of the subscription root type;
     * the first one found elsewhere is reported.
     */
    method ValidateSubscriptionFilterDirectiveLocation(fieldName: string, directives: seq<Directive>)
      modifies this`errors
      ensures var isSubscription :=
                RootTypes.GetOperationTypeNodeForRootTypeName(operationTypeNodeByTypeName, ParentTypeName()) == Some(Subscription);
              var hasFilter := exists i :: 0 <= i < |directives| && directives[i].name == SubscriptionFilterDirective;
        errors == old(errors) +
          if hasFilter && !isSubscription then [InvalidSubscriptionFilterLocation(ChildPath(ParentTypeName(), fieldName))]
          else []
    {
      var parentTypeName := ParentTypeName();
      var fieldPath := ChildPath(parentTypeName, fieldName);
      var isSubscription :=
        RootTypes.GetOperationTypeNodeForRootTypeName(operationTypeNodeByTypeName, parentTypeName) == Some(Subscription);
      for i := 0 to |directives|
        invariant forall j :: 0 <= j < i ==> directives[j].name != SubscriptionFilterDirective || isSubscription
        invariant errors == old(errors)
      {
        if directives[i].name != SubscriptionFilterDirective {
          continue;
        }
        if !isSubscription {
          errors := errors + [InvalidSubscriptionFilterLocation(fieldPath)];
          return;
        }
      }
    }

    /**
     * Reads the event directives of the root field being walked: each configuration is
     * recorded under the (renamed) root type, and each malformed directive is reported with
     * its messages instead.
     */
    method ExtractEventDirectivesToConfiguration(directives: seq<Directive>, argumentNames: set<string>)
      modifies this`errors, this`eventsConfigurations
      ensures var x := ExtractEventDirectives(directives, childName, ChildPath(ParentTypeName(), childName), argumentNames, ext,
                                              EventExtraction([], []));
        && errors == old(errors) + x.errors
        && eventsConfigurations == WithConfigurations(old(eventsConfigurations), ParentTypeName(), x.configurations)
    {
      var fieldPath := ChildPath(ParentTypeName(), childName);
      var key := ParentTypeName();
      ghost var final := ExtractEventDirectives(directives, childName, fieldPath, argumentNames, ext, EventExtraction([], []));
      ghost var acc := EventExtraction([], []);
      for i := 0 to |directives|
        invariant ExtractEventDirectives(directives[i..], childName, fieldPath, argumentNames, ext, acc) == final
        invariant errors == old(errors) + acc.errors
        invariant eventsConfigurations == WithConfigurations(old(eventsConfigurations), key, acc.configurations)
      {
        var directive := directives[i];
        assert directives[i..][0] == directive && directives[i..][1..] == directives[i + 1..];
        ghost var before := acc;
        acc := EventDirectiveStep(directive, childName, fieldPath, argumentNames, ext, acc);
        var configuration: Option<EventConfiguration> := None;
        var messages: seq<EventMessage> := [];
        var isEventDirective := true;
        if directive.name == EdfsKafkaPublish {
          configuration, messages := GetKafkaPublishConfiguration(childName, directive, argumentNames, ext);
        } else if directive.name == EdfsKafkaSubscribe {
          configuration, messages := GetKafkaSubscribeConfiguration(childName, directive, argumentNames, ext);
        } else if directive.name == EdfsNatsPublish {
          configuration, messages := GetNatsPublishAndRequestConfiguration(Publish, childName, directive, argumentNames, ext);
        } else if directive.name == EdfsNatsRequest {
          configuration, messages := GetNatsPublishAndRequestConfiguration(Request, childName, directive, argumentNames, ext);
        } else if directive.name == EdfsNatsSubscribe {
          configuration, messages := GetNatsSubscribeConfiguration(childName, directive, argumentNames, ext);
        } else {
          isEventDirective := false;
        }
        if !isEventDirective {
        } else if messages != [] {
          errors := errors + [InvalidEventDirective(directive.name, fieldPath, messages)];
        } else if configuration.Some? {
          WithConfigurationsAppend(old(eventsConfigurations), key, before.configurations, configuration.value);
          eventsConfigurations := eventsConfigurations[key := (if key in eventsConfigurations then eventsConfigurations[key] else []) +
                                                             [configuration.value]];
        }
      }
      assert directives[|directives|..] == [];
    }

    // ----- event-driven subgraphs -----

    /** The parts of the factory's state the event-driven rules read. */
    function EdfsState(): EdfsContext
      reads this`parentDefinitionDataByTypeName, this`operationTypeNodeByTypeName, this`concreteTypeNamesByAbstractTypeName
      reads this`entityTypeNames, this`keyFieldNamesByParentTypeName, this`keyFieldSetDataByTypeName
    {
      EdfsContext(parentDefinitionDataByTypeName, operationTypeNodeByTypeName, concreteTypeNamesByAbstractTypeName,
                  entityTypeNames, keyFieldNamesByParentTypeName, keyFieldSetDataByTypeName, subgraphName)
    }

    /**
     * Checks every field of a root type: its event directives must be ones its operation
     * admits, a mutation field must return `edfs__PublishResult!`, and a query or subscription
     * field a non-null entity. A root type whose operation cannot be told is reported alone.
     */
    method ValidateEventDrivenRootType(data: ParentData) returns (r: RootFindings)
      requires data.ObjectData?
      modifies this`errors
      ensures var op := RootTypes.GetOperationTypeNodeForRootTypeName(operationTypeNodeByTypeName, data.name);
        && (op.None? ==> r == RootFindings(map[], map[], map[]) && errors == old(errors) + [InvalidRootType(data.name)])
        && (op.Some? ==>
              && errors == old(errors)
              && r == RootFindingsOf(data.fields, data.fields.Keys, op.value, concreteTypeNamesByAbstractTypeName, entityTypeNames))
    {
      r := RootFindings(map[], map[], map[]);
      var op := RootTypes.GetOperationTypeNodeForRootTypeName(operationTypeNodeByTypeName, data.name);
      if op.None? {
        errors := errors + [InvalidRootType(data.name)];
        return;
      }
      var operation := op.value;
      var validEventDirectiveNames := RootTypes.GetValidEventsDirectiveNamesForOperationTypeNode(operation);
      var fields := data.fields;
      var remaining := fields.Keys;
      ghost var done: set<string> := {};
      while remaining != {}
        invariant done !! remaining && done + remaining == fields.Keys
        invariant r == RootFindingsOf(fields, done, operation, concreteTypeNamesByAbstractTypeName, entityTypeNames)
        invariant errors == old(errors)
        decreases remaining
      {
        var fieldName :| fieldName in remaining;
        RootFindingsStep(fields, done, fieldName, operation, concreteTypeNamesByAbstractTypeName, entityTypeNames);
        remaining := remaining - {fieldName};
        done := done + {fieldName};
        var field := fields[fieldName];
        var defined := DefinedEventDirectiveNames(field);
        var invalid := defined - validEventDirectiveNames;
        assert HasInvalidEventDirectives(field, operation) <==> defined == {} || invalid != {};
        if defined == {} || invalid != {} {
          r := r.(eventsDirectives := r.eventsDirectives[fieldName := InvalidEventsDirectiveData(defined != {}, invalid)]);
        }
        if operation == Mutation {
          if field.typ != PublishResultType {
            r := r.(mutationResponseTypes := r.mutationResponseTypes[fieldName := field.typ]);
          }
        } else {
          var namedTypeName := field.NamedTypeName();
          var concreteTypeNames := if namedTypeName in concreteTypeNamesByAbstractTypeName
                                   then concreteTypeNamesByAbstractTypeName[namedTypeName] else {namedTypeName};
          var isValid := exists c :: c in concreteTypeNames && c in entityTypeNames;
          if !isValid || field.typ != NonNullType(NamedType(namedTypeName)) {
            r := r.(responseTypes := r.responseTypes[fieldName := field.typ]);
          }
        }
      }
      assert done == fields.Keys;
    }

    /** The key field sets of an entity that are not marked unresolvable, which an event-driven subgraph forbids. */
    method ValidateEventDrivenKeyDefinition(typeName: string) returns (keyFieldSets: set<string>)
      ensures typeName !in keyFieldSetDataByTypeName ==> keyFieldSets == {}
      ensures typeName in keyFieldSetDataByTypeName ==>
        forall k :: k in keyFieldSets <==>
          k in keyFieldSetDataByTypeName[typeName] && !keyFieldSetDataByTypeName[typeName][k]
    {
      keyFieldSets := {};
      if typeName !in keyFieldSetDataByTypeName {
        return;
      }
      var unresolvableByFieldSet := keyFieldSetDataByTypeName[typeName];
      var remaining := unresolvableByFieldSet.Keys;
      while remaining != {}
        invariant remaining <= unresolvableByFieldSet.Keys
        invariant forall k :: k in keyFieldSets <==>
          k in unresolvableByFieldSet && k !in remaining && !unresolvableByFieldSet[k]
        decreases remaining
      {
        var keyFieldSet :| keyFieldSet in remaining;
        if !unresolvableByFieldSet[keyFieldSet] {
          keyFieldSets := keyFieldSets + {keyFieldSet};
        }
        remaining := remaining - {keyFieldSet};
      }
    }

    /**
     * Sorts the fields of an entity of an event-driven subgraph: a key field must be
     * `@external` here, and a field outside every key is not allowed at all.
     */
    method ValidateEventDrivenObjectFields(fields: map<string, FieldData>, keyFieldNames: set<string>)
      returns (nonExternalKeyFieldNames: set<string>, nonKeyFieldNames: set<string>)
      ensures forall f :: f in nonExternalKeyFieldNames <==>
        f in fields && f in keyFieldNames && !fields[f].IsExternalIn(subgraphName)
      ensures forall f :: f in nonKeyFieldNames <==> f in fields && f !in keyFieldNames
    {
      nonExternalKeyFieldNames, nonKeyFieldNames := {}, {};
      var remaining := fields.Keys;
      while remaining != {}
        invariant remaining <= fields.Keys
        invariant forall f :: f in nonExternalKeyFieldNames <==>
          f in fields && f !in remaining && f in keyFieldNames && !fields[f].IsExternalIn(subgraphName)
        invariant forall f :: f in nonKeyFieldNames <==> f in fields && f !in remaining && f !in keyFieldNames
        decreases remaining
      {
        var fieldName :| fieldName in remaining;
        if fieldName in keyFieldNames {
          if !fields[fieldName].IsExternalIn(subgraphName) {
            nonExternalKeyFieldNames := nonExternalKeyFieldNames + {fieldName};
          }
        } else {
          nonKeyFieldNames := nonKeyFieldNames + {fieldName};
        }
        remaining := remaining - {fieldName};
      }
    }
    /**
     * Applies the event-driven rules to one named type: a root type field by field, an
     * entity's keys and fields, and any other object (but the two helper types) is refused.
     */
    method ValidateEventDrivenType(typeName: string) returns (tf: TypeFindings)
      requires typeName in parentDefinitionDataByTypeName && parentDefinitionDataByTypeName[typeName].name == typeName
      modifies this`errors
      ensures tf == TypeFindingsOf(EdfsState(), typeName)
      ensures var ctx := EdfsState();
        errors == old(errors) +
          if IsCheckedRoot(ctx, typeName) && Operation(ctx, typeName).None? then [InvalidRootType(typeName)] else []
    {
      tf := TypeFindings(RootFindings(map[], map[], map[]), {}, {}, {}, false);
      var data := parentDefinitionDataByTypeName[typeName];
      if typeName == EdfsPublishResult || typeName == EdfsNatsStreamConfiguration || !data.ObjectData? {
        return;
      }
      if data.isRootType {
        var r := ValidateEventDrivenRootType(data);
        tf := tf.(root := r);
        return;
      }
      if typeName !in keyFieldNamesByParentTypeName {
        tf := tf.(isNonKeyComposing := true);
        return;
      }
      var invalidKeyFieldSets := ValidateEventDrivenKeyDefinition(typeName);
      var nonExternal, nonKey := ValidateEventDrivenObjectFields(data.fields, keyFieldNamesByParentTypeName[typeName]);
      tf := TypeFindings(tf.root, invalidKeyFieldSets, nonExternal, nonKey, false);
    }

    /** Adds the findings of one more type, and its error when it is a root type whose operation cannot be told. */
    method CollectTypeFindings(ghost ctx: EdfsContext, f: EdfsFindings, typeName: string, ghost done: set<string>,
                               ghost start: nat)
      returns (f': EdfsFindings)
      requires ctx == EdfsState()
      requires typeName in parentDefinitionDataByTypeName && parentDefinitionDataByTypeName[typeName].name == typeName
      requires f == FindingsOf(ctx, done)
      requires start <= |errors| && ReportsInvalidRootTypes(errors[start..], UnknownRootTypes(ctx, done))
      modifies this`errors
      ensures ctx == EdfsState()
      ensures f' == FindingsOf(ctx, done + {typeName})
      ensures old(errors) <= errors
      ensures ReportsInvalidRootTypes(errors[start..], UnknownRootTypes(ctx, done + {typeName}))
    {
      UnknownRootTypesStep(ctx, done, typeName);
      FindingsStep(ctx, done, typeName);
      var tf := ValidateEventDrivenType(typeName);
      f' := AddTypeFindings(f, typeName, tf);
      if IsCheckedRoot(ctx, typeName) && Operation(ctx, typeName).None? {
        assert errors[start..] == old(errors)[start..] + [InvalidRootType(typeName)];
      } else {
        assert errors == old(errors);
      }
    }

    /** The loop of the event-driven rules: reports each root type whose operation cannot be told and gathers the rest. */
    method CollectEventDrivenFindings() returns (f: EdfsFindings)
      requires EntriesNamed(parentDefinitionDataByTypeName)
      modifies this`errors
      ensures f == FindingsOf(EdfsState(), parentDefinitionDataByTypeName.Keys)
      ensures old(errors) <= errors
      ensures ReportsInvalidRootTypes(errors[|old(errors)|..], UnknownRootTypes(EdfsState(), parentDefinitionDataByTypeName.Keys))
    {
      ghost var ctx := EdfsState();
      f := EdfsFindings(map[], map[], map[], map[], map[], map[], {});
      var remaining := parentDefinitionDataByTypeName.Keys;
      ghost var done: set<string> := {};
      assert errors[|old(errors)|..] == [];
      while remaining != {}
        invariant done !! remaining && done + remaining == parentDefinitionDataByTypeName.Keys
        invariant ctx == EdfsState()
        invariant f == FindingsOf(ctx, done)
        invariant old(errors) <= errors
        invariant ReportsInvalidRootTypes(errors[|old(errors)|..], UnknownRootTypes(ctx, done))
        decreases remaining
      {
        var typeName :| typeName in remaining;
        f := CollectTypeFindings(ctx, f, typeName, done, |old(errors)|);
        remaining := remaining - {typeName};
        done := done + {typeName};
      }
      assert done == parentDefinitionDataByTypeName.Keys;
    }

    /** One message per non-empty group of findings, in the order they are reported. */
    static method GatherFindingsMessages(f: EdfsFindings) returns (messages: seq<EventGraphMessage>)
      ensures messages == FindingsMessages(f)
    {
      var events := if f.eventsDirectives != map[] then [InvalidRootTypeFieldEventsDirectives(f.eventsDirectives)] else [];
      var mutations := if f.mutationResponseTypes != map[] then [InvalidEventDrivenMutationResponseType(f.mutationResponseTypes)] else [];
      var responses := if f.responseTypes != map[] then [InvalidRootTypeFieldResponseTypes(f.responseTypes)] else [];
      var keys := if f.keyFieldSets != map[] then [InvalidKeyFieldSets(f.keyFieldSets)] else [];
      var nonExternal := if f.nonExternalKeyFields != map[] then [NonExternalKeyFieldNames(f.nonExternalKeyFields)] else [];
      var nonKey := if f.nonKeyFields != map[] then [NonKeyFieldNames(f.nonKeyFields)] else [];
      var composing := if f.nonKeyComposingTypeNames != {} then [NonKeyComposingObjectTypeNames(f.nonKeyComposingTypeNames)] else [];
      messages := events + mutations + responses + keys + nonExternal + nonKey + composing;
    }

    /**
     * The one event-driven-graph error, if there is anything to report: the checks of the
     * two helper types, then one message per non-empty group of findings.
     */
    method EventDrivenGraphErrors(f: EdfsFindings) returns (gathered: seq<ErrorKind>)
      ensures var messages := EventGraphMessages(parentDefinitionDataByTypeName, edfsDirectiveReferences, f);
        gathered == if messages == [] then [] else [InvalidEventDrivenGraph(messages)]
    {
      var parents := parentDefinitionDataByTypeName;
      var messages: seq<EventGraphMessage> := [];
      if !IsEdfsPublishResultValid(parents) {
        messages := messages + [InvalidEdfsPublishResultObject];
      }
      if EdfsNatsSubscribe in edfsDirectiveReferences {
        if EdfsNatsStreamConfiguration !in parents {
          messages := messages + [UndefinedNatsStreamConfigurationInput];
        } else if !IsNatsStreamConfigurationInputObjectValid(parents[EdfsNatsStreamConfiguration]) {
          messages := messages + [InvalidNatsStreamConfigurationDefinition];
        }
      }
      assert messages == (if !IsEdfsPublishResultValid(parents) then [InvalidEdfsPublishResultObject] else []) +
                         StreamConfigurationMessages(parents, edfsDirectiveReferences);
      var findingsMessages := GatherFindingsMessages(f);
      messages := messages + findingsMessages;
      gathered := if messages == [] then [] else [InvalidEventDrivenGraph(messages)];
    }

    /**
     * Applies the event-driven rules to the whole subgraph. After the root types whose
     * operation cannot be told, everything found, with the checks of the two helper types,
     * is gathered in a fixed order into one error.
     */
    method ValidateEventDrivenSubgraph()
      requires EntriesNamed(parentDefinitionDataByTypeName)
      modifies this`errors
      ensures old(errors) <= errors
      ensures var ctx := EdfsState();
              var added := errors[|old(errors)|..];
              var messages := EventGraphMessages(ctx.parents, edfsDirectiveReferences, FindingsOf(ctx, ctx.parents.Keys));
              var gathered := if messages == [] then [] else [InvalidEventDrivenGraph(messages)];
        && |gathered| <= |added|
        && added[|added| - |gathered|..] == gathered
        && ReportsInvalidRootTypes(added[..|added| - |gathered|], UnknownRootTypes(ctx, ctx.parents.Keys))
    {
      var f := CollectEventDrivenFindings();
      ghost var rootErrors := errors[|old(errors)|..];
      assert errors == old(errors) + rootErrors;
      var gathered := EventDrivenGraphErrors(f);
      errors := errors + gathered;
      AppendedParts(old(errors), rootErrors, gathered);
    }
  

    // ----- normalization: the result -----

    /** What the factory hands on once every check has passed. */
    function Result(): (r: NormalizationResult)
      reads this
      ensures r.parentDefinitionDataByTypeName == parentDefinitionDataByTypeName
      ensures r.configurationDataByTypeName == configurationDataByParentTypeName
    {
      NormalizationResult(authorizationDataByParentTypeName, concreteTypeNamesByAbstractTypeName,
        configurationDataByParentTypeName, entityTypeNames, entityInterfaceDataByTypeName, isSubgraphEventDrivenGraph,
        isSubgraphVersionTwo, keyFieldNamesByParentTypeName, operationTypeNodeByTypeName,
        originalTypeNameByRenamedTypeName, overridesByTargetSubgraphName, parentDefinitionDataByTypeName)
    }

    /**
     * Authorization is settled before any type is assembled: interface requirements reach
     * the implementing types, inherited requirements are merged, and every host path over
     * the OR-scopes limit is reported in one error.
     */
    method ConsolidateAuthorization()
      modifies this`authorizationDataByParentTypeName, this`invalidOrScopesHostPaths, this`errors
      ensures old(invalidOrScopesHostPaths) <= invalidOrScopesHostPaths
      ensures errors == old(errors) +
        if invalidOrScopesHostPaths == {} then [] else [OrScopesLimit(MaxOrScopes, invalidOrScopesHostPaths)]
    {
      PropagateInterfaceAuthorization();
      ApplyHeirFieldAuthorization();
      ReportOrScopesLimit();
    }

    /**
     * Every type is assembled, then the operation types are resolved: the types are left
     * stripped as assembly leaves them, and every object and interface stays configured.
     */
    method AssembleAndResolveOperationTypes()
      requires EntriesNamed(parentDefinitionDataByTypeName)
      modifies this`parentDefinitionDataByTypeName, this`errors, this`warnings, this`configurationDataByParentTypeName,
               this`concreteTypeNamesByAbstractTypeName, this`unvalidatedExternalFieldCoords, this`operationTypeNodeByTypeName
      ensures parentDefinitionDataByTypeName ==
        PartlyStripped(old(parentDefinitionDataByTypeName), old(parentDefinitionDataByTypeName).Keys,
                       old(operationTypeNodeByTypeName).Keys)
      ensures EntriesNamed(parentDefinitionDataByTypeName)
      ensures CompositeTypesConfigured(parentDefinitionDataByTypeName, configurationDataByParentTypeName)
    {
      AssembleTypes();
      ValidateOperationTypes();
    }

    /**
     * The references, keys and conditional field sets are checked against the assembled
     * types; adding the keys keeps every object and interface configured.
     */
    method ValidateReferences()
      requires CompositeTypesConfigured(parentDefinitionDataByTypeName, configurationDataByParentTypeName)
      modifies this`errors, this`warnings, this`configurationDataByParentTypeName
      ensures CompositeTypesConfigured(parentDefinitionDataByTypeName, configurationDataByParentTypeName)
    {
      ValidateReferencedTypes();
      ghost var base := configurationDataByParentTypeName;
      ValidateAndAddKeysToConfiguration();
      ghost var order :| Enumerates(order, keyFieldSetDataByTypeName.Keys) &&
        configurationDataByParentTypeName == KeysAlong(order, keyFieldSetDataByTypeName, parentDefinitionDataByTypeName, base, ext);
      KeysAlongKeepsInvariants(order, keyFieldSetDataByTypeName, parentDefinitionDataByTypeName, base, ext);
      ValidateConditionalFieldSets();
    }

    /** A subgraph that references any event directive is event-driven and is checked as a whole. */
    method CheckEventDrivenGraph()
      requires EntriesNamed(parentDefinitionDataByTypeName)
      modifies this`isSubgraphEventDrivenGraph, this`errors
      ensures isSubgraphEventDrivenGraph <==> edfsDirectiveReferences != {}
      ensures old(errors) <= errors
    {
      isSubgraphEventDrivenGraph := edfsDirectiveReferences != {};
      if isSubgraphEventDrivenGraph {
        ValidateEventDrivenSubgraph();
      }
    }

    /** The checks that close normalization: the event-driven graph, then the unaccounted `@external` fields. */
    method CloseNormalization()
      requires EntriesNamed(parentDefinitionDataByTypeName)
      modifies this`isSubgraphEventDrivenGraph, this`errors, this`warnings
      ensures isSubgraphEventDrivenGraph <==> edfsDirectiveReferences != {}
    {
      CheckEventDrivenGraph();
      ReportUnvalidatedExternalFields();
    }

    /**
     * The final phase of normalizing a subgraph, once the walkers have filled the factory:
     * interface authorization is propagated and inherited authorization applied, every type
     * is assembled, the operation types, referenced types, keys and conditional field sets
     * are validated, an event-driven subgraph is checked as a whole, and unaccounted
     * `@external` fields are reported. A result is handed on only when no error was found.
     */
    method Normalize() returns (outcome: NormalizationOutcome)
      requires EntriesNamed(parentDefinitionDataByTypeName)
      modifies this
      ensures outcome.Normalized? <==> errors == []
      ensures outcome.NotNormalized? ==> outcome == NotNormalized(errors, warnings)
      ensures outcome.Normalized? ==> outcome == Normalized(Result(), warnings)
      ensures parentDefinitionDataByTypeName ==
        PartlyStripped(old(parentDefinitionDataByTypeName), old(parentDefinitionDataByTypeName).Keys,
                       old(operationTypeNodeByTypeName).Keys)
      ensures CompositeTypesConfigured(parentDefinitionDataByTypeName, configurationDataByParentTypeName)
      ensures isSubgraphEventDrivenGraph <==> edfsDirectiveReferences != {}
    {
      ConsolidateAuthorization();
      ValidateEdfsDirectiveNames();
      AssembleAndResolveOperationTypes();
      ValidateReferences();
      CloseNormalization();
      if errors != [] {
        outcome := NotNormalized(errors, warnings);
      } else {
        outcome := Normalized(Result(), warnings);
      }
    }
  }
}
