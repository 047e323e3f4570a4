/**
 * The subset of the ESTree syntax tree that the two lint rules inspect.
 *
 * The rules read nodes by duck typing (`node.callee?.name`, `init?.arguments[0]?.value`):
 * a property that the node does not have reads as `undefined`. The accessors at the end of
 * this module give each such read in one place, returning `None` for `undefined`.
 * Every node carries the source text it spans (what the host's `getText` returns for it).
 */
module Estree {

  /** `None` stands for JavaScript's `undefined` and `null` alike where the rules read the
      syntax tree and the producer info, which they consume only through `??`, optional
      chaining and truthiness, treating the two the same. The one `=== undefined` test,
      on the looked-up translation, tells them apart: there a JSON `null` is the tree
      value `Null` (so `Some(Null)`, which is not reported), and only a missing key is
      `None`. */
  datatype Option<+T> = None | Some(value: T) {
    function GetOr(default: T): T {
      match this
      case Some(v) => v
      case None => default
    }
  }

  /** `id = init` inside a `VariableDeclaration`; `let t;` has no initialiser. */
  datatype Declarator = Declarator(id: Node, init: Option<Node>)

  datatype Node =
    | Identifier(name: string, text: string)
      /** A string literal (other literal kinds are not part of this model). */
    | Literal(literal: string, text: string)
    | CallExpression(callee: Node, arguments: seq<Node>, text: string)
    | NewExpression(callee: Node, arguments: seq<Node>, text: string)
    | MemberExpression(obj: Node, property: Node, text: string)
    | AwaitExpression(argument: Node, text: string)
    | ConditionalExpression(test: Node, consequent: Node, alternate: Node, text: string)
    | ObjectExpression(properties: seq<Node>, text: string)
    | ObjectPattern(properties: seq<Node>, text: string)
      /** A member of an object literal or of an object pattern: `key: value`. */
    | Property(key: Node, value: Node, text: string)
    | VariableDeclaration(declarations: seq<Declarator>, text: string)
      /** A node whose `body` is an array of statements: `Program`, `BlockStatement`. */
    | StatementList(body: seq<Node>, text: string)
      /** Any other node: none of the properties above can be read from it. */
    | OtherNode(text: string)

  /** `n?.name` */
  function NameOf(n: Node): (r: Option<string>)
    ensures r.Some? <==> n.Identifier?
  {
    if n.Identifier? then Some(n.name) else None
  }

  /** `n?.value` where only a literal carries a string value. */
  function LiteralValue(n: Node): (r: Option<string>)
    ensures r.Some? <==> n.Literal?
  {
    if n.Literal? then Some(n.literal) else None
  }

  /** `n?.callee?.name`: the name of the function a call or `new` expression invokes. */
  function CalleeName(n: Option<Node>): Option<string> {
    match n
    case Some(CallExpression(callee, _, _)) => NameOf(callee)
    case Some(NewExpression(callee, _, _)) => NameOf(callee)
    case _ => None
  }

  /** `n?.arguments`, empty when the node has none. */
  function ArgumentsOf(n: Option<Node>): seq<Node> {
    match n
    case Some(CallExpression(_, args, _)) => args
    case Some(NewExpression(_, args, _)) => args
    case _ => []
  }

  /** `n?.arguments?.[k]` */
  function ArgumentAt(n: Option<Node>, k: nat): (r: Option<Node>)
    ensures r.Some? <==> k < |ArgumentsOf(n)|
  {
    var args := ArgumentsOf(n);
    if k < |args| then Some(args[k]) else None
  }

  /** `n?.arguments?.[k]?.value` */
  function ArgumentValue(n: Option<Node>, k: nat): Option<string> {
    match ArgumentAt(n, k)
    case Some(a) => LiteralValue(a)
    case None => None
  }

  /** `n.body` when it is a statement array, empty otherwise. */
  function BodyOf(n: Node): seq<Node> {
    if n.StatementList? then n.body else []
  }

  /** `n.declarations` when the statement is a variable declaration, empty otherwise. */
  function DeclarationsOf(n: Node): seq<Declarator> {
    if n.VariableDeclaration? then n.declarations else []
  }
}
