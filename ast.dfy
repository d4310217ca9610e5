/**
 * The slice of a GraphQL document that the normalization core looks at:
 * type references, constant values, arguments, directives and the
 * definition/extension nodes of the six named-type kinds.
 */
module Ast {

  datatype Option<+T> = None | Some(value: T)

  /** A type reference: `Name`, `[T]` or `T!`. Two references print the same exactly when they are equal. */
  datatype TypeNode =
    | NamedType(name: string)
    | ListType(ofType: TypeNode)
    | NonNullType(ofType: TypeNode)

  /** The name at the bottom of a type reference (`[Foo!]!` has named type `Foo`). */
  function NamedTypeName(t: TypeNode): (r: string)
    ensures t.NamedType? ==> r == t.name
  {
    match t
    case NamedType(n) => n
    case ListType(inner) => NamedTypeName(inner)
    case NonNullType(inner) => NamedTypeName(inner)
  }

  /** A constant value as written in a directive argument. Int, float, enum and null values are not told apart. */
  datatype Value =
    | StringValue(s: string)
    | BooleanValue(b: bool)
    | ListValue(values: seq<Value>)
    | ObjectValue(fields: seq<ObjectField>)
    | OtherValue

  datatype ObjectField = ObjectField(name: string, value: Value)

  datatype Argument = Argument(name: string, value: Value)

  datatype Directive = Directive(name: string, arguments: seq<Argument>)

  /** The six kinds of named type definition. */
  datatype Kind = ObjectKind | InterfaceKind | EnumKind | InputObjectKind | ScalarKind | UnionKind

  datatype OperationType = Query | Mutation | Subscription

  /** Where a directive is written: on a named type of some kind, or on a field definition. */
  datatype Location = OnType(kind: Kind) | OnField

  /**
   * A type definition or type extension node. Only the parts the core reads are kept:
   * the implemented interfaces (objects, interfaces), the union members (unions),
   * the field names (objects, interfaces) and the description ("" when absent).
   */
  datatype TypeDefinitionNode = TypeDefinitionNode(
    kind: Kind,
    name: string,
    directives: seq<Directive>,
    interfaces: seq<string>,
    members: seq<string>,
    fieldNames: seq<string>,
    description: string)

  /** The string value of a non-empty string argument value. */
  predicate IsNonEmptyString(v: Value) {
    v.StringValue? && |v.s| > 0
  }
}
