/**
 * The syntax-tree nodes the analyzer inspects. The parser and the tree walk
 * are outside the model: a file is given as the sequence of its call
 * expressions in the order the walk visits them, each carrying the parts of
 * the node and of its container that the analyzer reads.
 */
module Ast {
  import opened Wrappers

  /** The type name of a pattern the analyzer does not tell apart: `ArrayPattern`, `AssignmentPattern`, ... */
  type OtherPatternType = t: string | t != "Identifier" && t != "ObjectPattern" witness "ArrayPattern"

  /** The type name of an argument other than a string literal. */
  type OtherArgumentType = t: string | t != "StringLiteral" witness "Identifier"

  /** The type name of a container node other than a variable declarator. */
  type OtherNodeType = t: string | t != "VariableDeclarator" witness "ExpressionStatement"

  /** A binding pattern, as found in the `id` of a variable declarator. */
  datatype Pattern =
    | Identifier(name: string)
    | ObjectPattern(properties: seq<PatternProperty>)
      /** Any other pattern kind: `ArrayPattern`, `AssignmentPattern`, ... */
    | OtherPattern(nodeType: OtherPatternType)

  /** One entry of an object pattern. */
  datatype PatternProperty =
      /** `key: value`; the shorthand `{ a }` has key and value both `a`. */
    | ObjectProperty(key: string, computed: bool, value: Pattern)
      /** `...argument` */
    | RestElement(argument: Pattern)

  /** An argument of a call; only string literals carry a value the analyzer reads. */
  datatype Argument =
    | StringLiteral(value: string)
    | OtherArgument(nodeType: OtherArgumentType)

  /**
   * What holds the call node in the tree. A call that initialises a declarator
   * sits in the `VariableDeclarator` itself; a call inside a list (another
   * call's arguments, an array literal) sits in a plain list, which has no
   * node type at all.
   */
  datatype Container =
    | VariableDeclarator(id: Pattern)
    | OtherNode(nodeType: OtherNodeType)
    | NodeList

  /** A visited call expression: the callee's name (absent for member or computed callees), its arguments and its container. */
  datatype CallExpression = CallExpression(calleeName: Option<string>, arguments: seq<Argument>, container: Container)
}
