/**
 * The SQL intermediate AST: a closed set of node variants, the canonical kind each
 * one reports for dispatch, and the error list a generator accumulates while rendering.
 */
module SqlAst {

  import opened Wrappers

  /**
   * A node's canonical kind (what `UseAs()` reports). Other nodes dispatch on the kind of
   * their operand, never on its concrete variant.
   */
  datatype Kind =
    | BooleanKind
    | StringKind
    | NumberKind
    | ArrayKind
    | EqualityKind
    | MemberOfKind
    | AndKind
    | OrKind

  /** Kinds whose nodes are boolean-valued expressions (those declaring `IsBooleanNode`). */
  predicate IsBooleanKind(k: Kind) {
    match k
    case BooleanKind | EqualityKind | MemberOfKind | AndKind | OrKind => true
    case StringKind | NumberKind | ArrayKind => false
  }

  datatype Node =
    | BoolLit(b: bool)
    | StringLit(s: string)
    /** A numeric literal: where it came from, and its decimal text, never parsed. */
    | Number(source: string, value: string)
    | ArrayLit(elems: seq<Node>)
    /** `left = right`, or `left != right` when `not` holds. */
    | Equality(left: Node, right: Node, not: bool)
    | MemberOf(elem: Node, collection: Node)
    | And(children: seq<Node>)
    | Or(children: seq<Node>)
    /** A node built by a variable converter: pre-rendered SQL text and a declared kind. */
    | Column(sql: string, kind: Kind)

  /** The canonical kind of a node. A number's kind does not depend on its value. */
  /**
   * The kind a node is used as (`UseAs`): each literal and operator variant has its own,
   * whatever its payload, and a column is used as the kind its converter declares.
   */
  function KindOf(n: Node): (k: Kind)
    ensures n.Column? ==> k == n.kind
    ensures !n.Column? ==> (k == NumberKind <==> n.Number?)
    ensures !n.Column? ==> (k == EqualityKind <==> n.Equality?)
    ensures !n.Column? ==> (k == BooleanKind <==> n.BoolLit?)
    ensures !n.Column? ==> (k == StringKind <==> n.StringLit?)
    ensures !n.Column? ==> (k == ArrayKind <==> n.ArrayLit?)
    ensures !n.Column? ==> (k == MemberOfKind <==> n.MemberOf?)
    ensures !n.Column? ==> (k == AndKind <==> n.And?)
    ensures !n.Column? ==> (k == OrKind <==> n.Or?)
  {
    match n
    case BoolLit(_) => BooleanKind
    case StringLit(_) => StringKind
    case Number(_, _) => NumberKind
    case ArrayLit(_) => ArrayKind
    case Equality(_, _, _) => EqualityKind
    case MemberOf(_, _) => MemberOfKind
    case And(_) => AndKind
    case Or(_) => OrKind
    case Column(_, k) => k
  }

  predicate IsBooleanNode(n: Node) {
    IsBooleanKind(KindOf(n))
  }

  /** An error recorded by the generator. */
  datatype GenError =
    /** Neither operand could render the comparison: both kinds and the operator. */
    | UnsupportedEquality(left: Kind, op: string, right: Kind)
    /** An error recorded by a variant whose rendering is not part of this model. */
    | Reported(tag: string)

  /** The generator's state: the errors it has accumulated so far, oldest first. */
  type Generator = seq<GenError>

  /** Rendered text, and the generator after rendering. */
  datatype Rendered = Rendered(text: string, gen: Generator)

  /**
   * Rendering of the variants whose code is not part of this model (booleans, strings,
   * arrays, membership, conjunction, disjunction, columns): the text a node renders to with
   * the errors it records, and the outcome of its comparison attempt against another node
   * (`None` when unsupported).
   */
  datatype Backend = Backend(
    sql: Node -> (string, seq<GenError>),
    equals: (Node, bool, Node) -> Option<(string, seq<GenError>)>)
}
