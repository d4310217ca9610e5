/**
 * Root operation types: which type names are roots, their canonical (renamed)
 * names, their operation, and the event directives each operation admits.
 */
module RootTypes {
  import opened Ast
  import opened Model

  /** The canonical type name of an operation: `Query`, `Mutation` or `Subscription`. */
  function DefaultRootTypeName(operation: OperationType): string {
    match operation
    case Query => QueryTypeName
    case Mutation => MutationTypeName
    case Subscription => SubscriptionTypeName
  }

  /** A root type is a canonical root name or a name declared in the schema definition. */
  predicate IsTypeNameRootType(operationTypes: map<string, OperationType>, typeName: string) {
    typeName in RootTypeNames || typeName in operationTypes
  }

  /**
   * A type declared as an operation type is renamed to that operation's canonical name;
   * any other name is kept. The result is a canonical root name exactly for root types.
   */
  function GetRenamedRootTypeName(operationTypes: map<string, OperationType>, typeName: string): (r: string)
    ensures typeName !in operationTypes ==> r == typeName
    ensures r in RootTypeNames <==> IsTypeNameRootType(operationTypes, typeName)
  {
    if typeName !in operationTypes then typeName
    else
      match operationTypes[typeName]
      case Mutation => MutationTypeName
      case Subscription => SubscriptionTypeName
      case Query => QueryTypeName
  }

  /**
   * The operation a root type serves: the declared one, else the one named by a canonical
   * root name. Defined exactly for root types, and always agreeing with the renaming.
   */
  function GetOperationTypeNodeForRootTypeName(operationTypes: map<string, OperationType>, parentTypeName: string)
    : (r: Option<OperationType>)
    ensures r.Some? <==> IsTypeNameRootType(operationTypes, parentTypeName)
    ensures r.Some? ==> DefaultRootTypeName(r.value) == GetRenamedRootTypeName(operationTypes, parentTypeName)
  {
    if parentTypeName in operationTypes then Some(operationTypes[parentTypeName])
    else if parentTypeName == MutationTypeName then Some(Mutation)
    else if parentTypeName == QueryTypeName then Some(Query)
    else if parentTypeName == SubscriptionTypeName then Some(Subscription)
    else None
  }

  /**
   * The event directives a root field of each operation may carry: publishing belongs to
   * mutations, subscribing to subscriptions, and requests to queries and mutations.
   */
  function GetValidEventsDirectiveNamesForOperationTypeNode(operation: OperationType): (r: set<string>)
    ensures r <= EventDirectiveNames
    ensures EdfsNatsRequest in r <==> operation != Subscription
    ensures (EdfsKafkaPublish in r || EdfsNatsPublish in r) <==> operation == Mutation
    ensures (EdfsKafkaSubscribe in r || EdfsNatsSubscribe in r) <==> operation == Subscription
  {
    match operation
    case Mutation => {EdfsKafkaPublish, EdfsNatsPublish, EdfsNatsRequest}
    case Query => {EdfsNatsRequest}
    case Subscription => {EdfsKafkaSubscribe, EdfsNatsSubscribe}
  }
}
