/**
 * The residual-query compiler: a recursive descent from the policy engine's partial
 * queries to a SQL AST. Unlike rendering, it fails fast: the first construct it cannot
 * convert ends the whole compilation with that construct's error.
 */
module Compile {

  import opened Wrappers
  import opened RegoAst
  import opened SqlAst

  /** Why a term, call, expression or query could not be converted. */
  datatype CompileError =
    | VarUnsupported
    | EmptyRef
    | NoVariableConverter
    | VariableNotConvertible
    | ObjectUnsupported
    | TermUnsupported
    | ArrayRejected
    | OperatorUnsupported(op: string)
    | WrongArity(expected: nat, got: nat)
    | NotBoolean
    | ExpressionUnsupported
    | NegationUnsupported

  /** Turns a reference's path into a node, or declines it. */
  type VariableConverter = seq<Term> -> Option<Node>

  /**
   * What the compiler is given: the variable converter, if one is configured; the policy
   * engine's canonical ordering of a set's members; whether the array constructor accepts
   * a list of elements; and the printed form of a term, kept as a number's source.
   */
  datatype Config = Config(
    converter: Option<VariableConverter>,
    sorted: seq<Term> -> seq<Term>,
    arrayOk: seq<Node> -> bool,
    show: Term -> string)

  /** Ordering a set's members neither drops nor invents any of them. */
  ghost predicate SortsByPermutation(sorted: seq<Term> -> seq<Term>) {
    forall s :: multiset(sorted(s)) == multiset(s)
  }

  type ValidConfig = c: Config | SortsByPermutation(c.sorted)
    witness Config(None, s => s, ns => true, t => "")

  /** The call operators compiled to an equality. */
  const EqualityOperators: set<string> := {"neq", "eq", "equals", "equal"}

  /** The call operator compiled to a membership test. */
  const MemberOperator := "internal.member_2"

  /**
   * Keeps a converted node only when it is boolean-valued. Conjunctions, disjunctions,
   * equalities, memberships and boolean literals always pass, so the check can only reject
   * a bare term.
   */
  function AsBoolean(r: Result<Node, CompileError>): (b: Result<Node, CompileError>)
    ensures b.Ok? <==> r.Ok? && IsBooleanNode(r.value)
    ensures b.Ok? ==> b == r
    ensures r.Ok? && (r.value.And? || r.value.Or? || r.value.Equality? || r.value.MemberOf? || r.value.BoolLit?) ==>
      b == r
    ensures r.Ok? && (r.value.StringLit? || r.value.Number? || r.value.ArrayLit?) ==> b == Err(NotBoolean)
    ensures r.Ok? && !IsBooleanNode(r.value) ==> b == Err(NotBoolean)
    ensures r.Err? ==> b == r
  {
    match r
    case Err(e) => Err(e)
    case Ok(n) => if IsBooleanNode(n) then Ok(n) else Err(NotBoolean)
  }

  /**
   * Compiles the partial queries: `false` when there are none, `true` when some query is
   * empty (checked before any query is converted), and otherwise a disjunction with one
   * conjunction per query, in order.
   */
  function ConvertRegoAst(cfg: ValidConfig, qs: PartialQueries): (r: Result<Node, CompileError>)
    ensures |qs| == 0 ==> r == Ok(BoolLit(false))
    ensures |qs| > 0 && [] in qs ==> r == Ok(BoolLit(true))
    ensures |qs| > 0 && [] !in qs ==>
      (r.Ok? <==> forall i, j :: 0 <= i < |qs| && 0 <= j < |qs[i]| ==> ConvertExpression(cfg, qs[i][j]).Ok?)
    ensures |qs| > 0 && [] !in qs && r.Ok? ==>
      && r.value.Or?
      && |r.value.children| == |qs|
      && forall i :: 0 <= i < |qs| ==>
           && r.value.children[i].And?
           && |r.value.children[i].children| == |qs[i]|
           && forall j :: 0 <= j < |qs[i]| ==> ConvertExpression(cfg, qs[i][j]) == Ok(r.value.children[i].children[j])
    ensures r.Err? ==>
      exists i :: 0 <= i < |qs| && ConvertQuery(cfg, qs[i]) == Err(r.error) &&
        forall h :: 0 <= h < i ==> ConvertQuery(cfg, qs[h]).Ok?
    ensures r.Ok? ==> IsBooleanNode(r.value)
  {
    if |qs| == 0 then Ok(BoolLit(false))
    else if [] in qs then Ok(BoolLit(true))
    else
      match ConvertQueries(cfg, qs)
      case Err(e) => Err(e)
      case Ok(children) =>
        assert forall i :: 0 <= i < |qs| ==> ConvertQuery(cfg, qs[i]) == Ok(children[i]);
        Ok(Or(children))
  }

  /** Each query in order, each required to be boolean-valued, stopping at the first error. */
  function ConvertQueries(cfg: ValidConfig, qs: PartialQueries): (r: Result<seq<Node>, CompileError>)
    ensures r.Ok? <==> forall i :: 0 <= i < |qs| ==> ConvertQuery(cfg, qs[i]).Ok?
    ensures r.Ok? ==> |r.value| == |qs| && forall i :: 0 <= i < |qs| ==> ConvertQuery(cfg, qs[i]) == Ok(r.value[i])
    ensures r.Err? ==>
      exists i :: 0 <= i < |qs| && ConvertQuery(cfg, qs[i]) == Err(r.error) &&
        forall h :: 0 <= h < i ==> ConvertQuery(cfg, qs[h]).Ok?
  {
    // A converted query is a conjunction, so the boolean check never rejects it.
    assert forall q :: AsBoolean(ConvertQuery(cfg, q)) == ConvertQuery(cfg, q);
    MapAll(qs, q => AsBoolean(ConvertQuery(cfg, q)))
  }

  /** A query compiles to the conjunction of its expressions, in order, or to the first error. */
  function ConvertQuery(cfg: ValidConfig, q: Body): (r: Result<Node, CompileError>)
    ensures r.Ok? <==> forall j :: 0 <= j < |q| ==> ConvertExpression(cfg, q[j]).Ok?
    ensures r.Ok? ==>
      && r.value.And?
      && |r.value.children| == |q|
      && forall j :: 0 <= j < |q| ==> ConvertExpression(cfg, q[j]) == Ok(r.value.children[j])
    ensures r.Err? ==>
      exists j :: 0 <= j < |q| && ConvertExpression(cfg, q[j]) == Err(r.error) &&
        forall h :: 0 <= h < j ==> ConvertExpression(cfg, q[h]).Ok?
  {
    match MapAll(q, e => ConvertExpression(cfg, e))
    case Err(e) => Err(e)
    case Ok(nodes) => Ok(And(nodes))
  }

  /**
   * An expression is a call, or a single term that must convert to a boolean-valued node.
   * A negated expression is rejected: the SQL tree has no negation to compile `not` into,
   * and compiling it as its positive form would invert the predicate.
   */
  function ConvertExpression(cfg: ValidConfig, e: Expr): (r: Result<Node, CompileError>)
    ensures r.Ok? ==> IsBooleanNode(r.value) && !e.negated
    ensures e.negated ==> r == Err(NegationUnsupported)
    ensures !e.negated && e.CallE? ==> r == ConvertCall(cfg, e.op, e.args)
    ensures !e.negated && e.TermE? ==>
      (r.Ok? <==> ConvertTerm(cfg, e.term).Ok? && IsBooleanNode(ConvertTerm(cfg, e.term).value))
    ensures !e.negated && e.TermE? && r.Ok? ==> r == ConvertTerm(cfg, e.term)
    ensures !e.negated && e.TermE? && ConvertTerm(cfg, e.term).Ok? && !IsBooleanNode(ConvertTerm(cfg, e.term).value) ==>
      r == Err(NotBoolean)
    ensures !e.negated && e.OtherE? ==> r == Err(ExpressionUnsupported)
  {
    if e.negated then Err(NegationUnsupported) else ConvertExpressionAsWritten(cfg, e)
  }

  /**
   * The expression conversion as the compiler has it: the negation flag is never read, so
   * `not x` converts exactly as `x` does. `ConvertExpression` is the corrected version.
   */
  function ConvertExpressionAsWritten(cfg: ValidConfig, e: Expr): (r: Result<Node, CompileError>)
    ensures r.Ok? ==> IsBooleanNode(r.value)
    ensures e.CallE? ==> r == ConvertCall(cfg, e.op, e.args)
    ensures e.TermE? ==>
      (r.Ok? <==> ConvertTerm(cfg, e.term).Ok? && IsBooleanNode(ConvertTerm(cfg, e.term).value))
    ensures e.TermE? && r.Ok? ==> r == ConvertTerm(cfg, e.term)
    ensures e.TermE? && ConvertTerm(cfg, e.term).Ok? && !IsBooleanNode(ConvertTerm(cfg, e.term).value) ==>
      r == Err(NotBoolean)
    ensures e.OtherE? ==> r == Err(ExpressionUnsupported)
  {
    match e
    case CallE(op, args, _) => AsBoolean(ConvertCall(cfg, op, args))
    case TermE(t, _) => AsBoolean(ConvertTerm(cfg, t))
    case OtherE(_) => Err(ExpressionUnsupported)
  }

  /**
   * A call: an equality operator or the membership operator, over exactly two converted
   * arguments; any other operator is rejected.
   */
  function ConvertCall(cfg: ValidConfig, op: string, args: seq<Term>): (r: Result<Node, CompileError>)
    ensures op !in EqualityOperators && op != MemberOperator ==> r == Err(OperatorUnsupported(op))
    ensures (op in EqualityOperators || op == MemberOperator) && |args| != 2 ==> r == Err(WrongArity(2, |args|))
    ensures r.Ok? ==> |args| == 2
    ensures (op in EqualityOperators || op == MemberOperator) && |args| == 2 ==>
      (r.Ok? <==> ConvertTerm(cfg, args[0]).Ok? && ConvertTerm(cfg, args[1]).Ok?)
    ensures r.Ok? && op in EqualityOperators ==>
      r.value == Equality(ConvertTerm(cfg, args[0]).value, ConvertTerm(cfg, args[1]).value, op == "neq")
    ensures r.Ok? && op == MemberOperator ==>
      r.value == MemberOf(ConvertTerm(cfg, args[0]).value, ConvertTerm(cfg, args[1]).value)
    ensures r.Ok? ==> IsBooleanNode(r.value)
    decreases ListSize(args), 4
  {
    if op in EqualityOperators then
      var nodes :- ConvertTerms(cfg, args, 2);
      // The negated spellings besides "neq" are tested here but never reach this branch.
      var not := op == "neq" || op == "notequals" || op == "notequal";
      Ok(Equality(nodes[0], nodes[1], not))
    else if op == MemberOperator then
      var nodes :- ConvertTerms(cfg, args, 2);
      Ok(MemberOf(nodes[0], nodes[1]))
    else
      Err(OperatorUnsupported(op))
  }

  /** Exactly `expected` terms, each converted, in order. */
  function ConvertTerms(cfg: ValidConfig, terms: seq<Term>, expected: nat): (r: Result<seq<Node>, CompileError>)
    ensures |terms| != expected ==> r == Err(WrongArity(expected, |terms|))
    ensures |terms| == expected ==> (r.Ok? <==> forall k :: 0 <= k < |terms| ==> ConvertTerm(cfg, terms[k]).Ok?)
    ensures r.Ok? ==>
      && |r.value| == |terms| == expected
      && forall k :: 0 <= k < |terms| ==> ConvertTerm(cfg, terms[k]) == Ok(r.value[k])
    decreases ListSize(terms), 3
  {
    if |terms| != expected then Err(WrongArity(expected, |terms|))
    else ConvertList(cfg, terms)
  }

  /** Converts each term in order, stopping at the first that fails. */
  function ConvertList(cfg: ValidConfig, ts: seq<Term>): (r: Result<seq<Node>, CompileError>)
    ensures r.Ok? <==> forall k :: 0 <= k < |ts| ==> ConvertTerm(cfg, ts[k]).Ok?
    ensures r.Ok? ==> |r.value| == |ts| && forall k :: 0 <= k < |ts| ==> ConvertTerm(cfg, ts[k]) == Ok(r.value[k])
    ensures r.Err? ==>
      exists k :: 0 <= k < |ts| && ConvertTerm(cfg, ts[k]) == Err(r.error) &&
        forall j :: 0 <= j < k ==> ConvertTerm(cfg, ts[j]).Ok?
    decreases ListSize(ts), 2
  {
    if |ts| == 0 then Ok([])
    else
      var n :- ConvertTerm(cfg, ts[0]);
      assert forall k :: 1 <= k < |ts| ==> ts[k] == ts[1..][k - 1];
      var ns :- ConvertList(cfg, ts[1..]);
      Ok([n] + ns)
  }

  /**
   * A term, by shape: literals map to literal nodes with their value unchanged, a reference
   * goes through the variable converter, arrays convert element by element, a set converts
   * as its sorted array, a nested call as a call; every other shape is an error.
   */
  function ConvertTerm(cfg: ValidConfig, t: Term): (r: Result<Node, CompileError>)
    ensures r.Ok? ==> !(t.Var? || t.Obj? || t.Null? || t.Comprehension?)
    ensures t.Ref? ==>
      (r.Ok? <==> |t.path| > 0 && cfg.converter.Some? && cfg.converter.value(t.path).Some?)
    ensures t.Ref? && r.Ok? ==> cfg.converter.value(t.path) == Some(r.value)
    ensures t.Arr? ==>
      (r.Ok? <==> ConvertList(cfg, t.elems).Ok? && cfg.arrayOk(ConvertList(cfg, t.elems).value))
    ensures t.Arr? && r.Ok? ==>
      && r.value.ArrayLit?
      && |r.value.elems| == |t.elems|
      && cfg.arrayOk(r.value.elems)
      && forall k :: 0 <= k < |t.elems| ==> ConvertTerm(cfg, t.elems[k]) == Ok(r.value.elems[k])
    ensures t.Arr? && r.Err? ==>
      || (exists k :: 0 <= k < |t.elems| && ConvertTerm(cfg, t.elems[k]) == Err(r.error) &&
            forall j :: 0 <= j < k ==> ConvertTerm(cfg, t.elems[j]).Ok?)
      || ((forall k :: 0 <= k < |t.elems| ==> ConvertTerm(cfg, t.elems[k]).Ok?) && r.error == ArrayRejected)
    ensures t.SetT? && r.Ok? ==>
      && r.value.ArrayLit?
      && |r.value.elems| == |t.members|
      && cfg.arrayOk(r.value.elems)
      && forall k :: 0 <= k < |t.members| ==> ConvertTerm(cfg, t.members[k]).Ok?
    ensures t.SetT? && (forall k :: 0 <= k < |t.members| ==> ConvertTerm(cfg, t.members[k]).Ok?) ==>
      r.Ok? || r == Err(ArrayRejected)
    ensures t.SetT? && r.Err? ==>
      r.error == ArrayRejected || exists k :: 0 <= k < |t.members| && ConvertTerm(cfg, t.members[k]) == Err(r.error)
    ensures t.CallT? ==> r == ConvertCall(cfg, t.op, t.args)
    decreases Size(t), 1
  {
    match t
    case Var(_) => Err(VarUnsupported)
    case Ref(path) =>
      if |path| == 0 then Err(EmptyRef)
      else if cfg.converter.None? then Err(NoVariableConverter)
      else if cfg.converter.value(path).None? then Err(VariableNotConvertible)
      else Ok(cfg.converter.value(path).value)
    case Str(s) => Ok(StringLit(s))
    case Num(text) => Ok(Number(cfg.show(t), text))
    case Boolean(v) => Ok(BoolLit(v))
    case Arr(es) => ConvertArray(cfg, es)
    case Obj(_) => Err(ObjectUnsupported)
    case SetT(ms) => ConvertSet(cfg, ms)
    case CallT(op, args) => ConvertCall(cfg, op, args)
    case Null => Err(TermUnsupported)
    case Comprehension => Err(TermUnsupported)
  }

  /** An array: its elements converted in order, then offered to the array constructor. */
  function ConvertArray(cfg: ValidConfig, es: seq<Term>): (r: Result<Node, CompileError>)
    ensures r.Ok? <==> ConvertList(cfg, es).Ok? && cfg.arrayOk(ConvertList(cfg, es).value)
    ensures r.Ok? ==>
      && r.value.ArrayLit?
      && |r.value.elems| == |es|
      && cfg.arrayOk(r.value.elems)
      && forall k :: 0 <= k < |es| ==> ConvertTerm(cfg, es[k]) == Ok(r.value.elems[k])
    ensures r.Err? ==>
      || (exists k :: 0 <= k < |es| && ConvertTerm(cfg, es[k]) == Err(r.error) &&
            forall j :: 0 <= j < k ==> ConvertTerm(cfg, es[j]).Ok?)
      || ((forall k :: 0 <= k < |es| ==> ConvertTerm(cfg, es[k]).Ok?) && r.error == ArrayRejected)
    decreases ListSize(es), 3
  {
    var nodes :- ConvertList(cfg, es);
    if cfg.arrayOk(nodes) then Ok(ArrayLit(nodes)) else Err(ArrayRejected)
  }

  /**
   * A set: its members in the policy engine's order, converted as an array. The ordering is
   * a permutation, so the set converts exactly when its members do and the array is
   * accepted, and a member's error is the set's error.
   */
  function ConvertSet(cfg: ValidConfig, ms: seq<Term>): (r: Result<Node, CompileError>)
    ensures r.Ok? ==>
      && r.value.ArrayLit?
      && |r.value.elems| == |ms|
      && cfg.arrayOk(r.value.elems)
      && forall k :: 0 <= k < |ms| ==> ConvertTerm(cfg, ms[k]).Ok?
    ensures (forall k :: 0 <= k < |ms| ==> ConvertTerm(cfg, ms[k]).Ok?) ==> r.Ok? || r == Err(ArrayRejected)
    ensures r.Err? ==>
      r.error == ArrayRejected || exists k :: 0 <= k < |ms| && ConvertTerm(cfg, ms[k]) == Err(r.error)
    decreases ListSize(ms) + 2, 0
  {
    var sorted := cfg.sorted(ms);
    ListSizePermutation(sorted, ms);
    SameMembers(sorted, ms);
    assert |sorted| == |multiset(sorted)| == |multiset(ms)| == |ms|;
    ConvertTerm(cfg, Arr(sorted))
  }
}
