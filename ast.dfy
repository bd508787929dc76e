/**
 * The node shapes of `src/ast.ts`: the part of the oxc parser's JSON output the
 * export scanner reads. Each `PotentiallyUnknown<T>` becomes an extra "unknown"
 * variant. A `directives` list the parser leaves out is the empty list, which is
 * how the scanner reads it (`directives ?? []`).
 */
module Ast {
  import opened Common

  datatype Directive = Directive(directive: string)

  datatype IdentifierName = IdentifierName(name: string)

  datatype IdentifierReference = IdentifierReference(name: string)

  datatype BindingIdentifier = BindingIdentifier(name: string)

  datatype StringLiteral = StringLiteral(value: string)

  datatype FunctionBody = FunctionBody(directives: seq<Directive>)

  datatype StaticMemberExpression = StaticMemberExpression(object: IdentifierReference, property: IdentifierName)

  /** The left side of an assignment: a static member, or some other target. */
  datatype AssignmentTarget = TargetMember(member: StaticMemberExpression) | UnknownTarget

  datatype Callee =
    | CalleeMember(member: StaticMemberExpression)
    | CalleeIdentifier(identifier: IdentifierReference)
    | UnknownCallee

  datatype Expression =
    | ArrowExpression(arrowBody: FunctionBody)
    | FunctionExpression(id: Option<BindingIdentifier>, functionBody: FunctionBody)
    | AssignmentExpression(operator: string, left: AssignmentTarget, right: AssignmentValue)
    | CallExpression(callee: Callee)
    | UnknownExpression

  /** The right side of an assignment: an expression or a bare identifier. */
  datatype AssignmentValue = ValueExpression(expression: Expression) | ValueIdentifier(identifier: IdentifierReference)

  datatype BindingPattern = BindingPattern(kind: BindingIdentifier)

  /** `init` is absent for a declarator such as `let x;`. */
  datatype VariableDeclarator = VariableDeclarator(id: BindingPattern, init: Option<Expression>)

  datatype Declaration =
    | FunctionDeclaration(id: Option<BindingIdentifier>, body: Option<FunctionBody>)
    | VariableDeclaration(declarations: seq<VariableDeclarator>)
    /** Any other declaration (a class, or a TypeScript type, interface or enum): only its `id` matters. */
    | UnknownDeclaration(id: Option<BindingIdentifier>)

  datatype ExportSpecifier = ExportSpecifier(local: IdentifierName, exported: IdentifierName)

  /** What follows `export default`: a declaration or an identifier. */
  datatype DefaultExported = DefaultDeclaration(declaration: Declaration) | DefaultIdentifier(identifier: IdentifierReference)

  datatype Body =
    | ExportNamedDeclaration(declaration: Option<Declaration>, specifiers: Option<seq<ExportSpecifier>>)
    | ExportDefaultDeclaration(defaultExported: DefaultExported, exported: IdentifierName)
    | DeclarationStatement(statement: Declaration)
    | ExpressionStatement(expression: Expression)
    | UnknownBody

  datatype Program = Program(directives: seq<Directive>, body: seq<Body>)

  /** `body?.directives` of a function declaration. */
  function BodyDirectives(body: Option<FunctionBody>): seq<Directive> {
    if body.Some? then body.value.directives else []
  }

  /** `init?.body?.directives` of a declarator: only function-like initialisers have a body. */
  function InitDirectives(init: Option<Expression>): seq<Directive> {
    if init.None? then []
    else
      match init.value
      case ArrowExpression(b) => b.directives
      case FunctionExpression(_, b) => b.directives
      case _ => []
  }
}
