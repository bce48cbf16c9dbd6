/** What the residual-query compiler guarantees beyond each function's own contract. */
module CompileProperties {

  import opened Wrappers
  import opened RegoAst
  import opened SqlAst
  import opened Compile

  /** Whether a term mentions a reference anywhere the compiler looks. */
  predicate HasRef(t: Term) {
    match t
    case Ref(_) => true
    case Arr(es) => exists k :: 0 <= k < |es| && HasRef(es[k])
    case SetT(ms) => exists k :: 0 <= k < |ms| && HasRef(ms[k])
    case CallT(_, args) => exists k :: 0 <= k < |args| && HasRef(args[k])
    case _ => false
  }

  /** The members of a set, in sorted order, are reference-free when the set is. */
  lemma SortedMembersHaveNoRef(cfg: ValidConfig, ms: seq<Term>)
    requires forall k :: 0 <= k < |ms| ==> !HasRef(ms[k])
    ensures forall k :: 0 <= k < |cfg.sorted(ms)| ==> !HasRef(cfg.sorted(ms)[k])
  {
    var sorted := cfg.sorted(ms);
    forall k | 0 <= k < |sorted|
      ensures !HasRef(sorted[k])
    {
      assert sorted[k] in multiset(ms);
    }
  }

  /**
   * The canonical term a successful conversion stands for: sets become their sorted arrays
   * and the equality aliases `equals`, `equal` become `eq`.
   */
  ghost function Normalize(cfg: ValidConfig, t: Term): Term
    decreases Size(t), 1
  {
    match t
    case Arr(es) => Arr(NormalizeList(cfg, es))
    case SetT(ms) =>
      ListSizePermutation(cfg.sorted(ms), ms);
      Normalize(cfg, Arr(cfg.sorted(ms)))
    case CallT(op, args) =>
      CallT(if op in EqualityOperators && op != "neq" then "eq" else op, NormalizeList(cfg, args))
    case _ => t
  }

  ghost function NormalizeList(cfg: ValidConfig, ts: seq<Term>): (r: seq<Term>)
    ensures |r| == |ts|
    decreases ListSize(ts), 2
  {
    if |ts| == 0 then [] else [Normalize(cfg, ts[0])] + NormalizeList(cfg, ts[1..])
  }

  /** Reads a node built from literals and calls back as the term it was compiled from. */
  function Decompile(n: Node): Option<Term> {
    match n
    case BoolLit(v) => Some(Boolean(v))
    case StringLit(s) => Some(Str(s))
    case Number(_, value) => Some(Num(value))
    case ArrayLit(elems) =>
      (match DecompileList(elems)
       case None => None
       case Some(ts) => Some(Arr(ts)))
    case Equality(l, r, not) =>
      (match (Decompile(l), Decompile(r))
       case (Some(a), Some(c)) => Some(CallT(if not then "neq" else "eq", [a, c]))
       case _ => None)
    case MemberOf(e, c) =>
      (match (Decompile(e), Decompile(c))
       case (Some(a), Some(d)) => Some(CallT(MemberOperator, [a, d]))
       case _ => None)
    case And(_) => None
    case Or(_) => None
    case Column(_, _) => None
  }

  function DecompileList(ns: seq<Node>): Option<seq<Term>>
    decreases ns
  {
    if |ns| == 0 then Some([])
    else
      match (Decompile(ns[0]), DecompileList(ns[1..]))
      case (Some(t), Some(ts)) => Some([t] + ts)
      case _ => None
  }

  /**
   * Compiling a reference-free term loses nothing: literal values, element and argument
   * order, the operator up to its aliases and the negation flag can all be read back.
   */
  lemma {:induction false} DecompileInvertsConvert(cfg: ValidConfig, t: Term)
    requires !HasRef(t)
    requires ConvertTerm(cfg, t).Ok?
    ensures Decompile(ConvertTerm(cfg, t).value) == Some(Normalize(cfg, t))
    decreases Size(t), 1
  {
    match t
    case Arr(es) =>
      DecompileInvertsConvertList(cfg, es);
    case SetT(ms) =>
      var sorted := cfg.sorted(ms);
      ListSizePermutation(sorted, ms);
      SortedMembersHaveNoRef(cfg, ms);
      DecompileInvertsConvert(cfg, Arr(sorted));
    case CallT(op, args) =>
      DecompileInvertsConvert(cfg, args[0]);
      DecompileInvertsConvert(cfg, args[1]);
      assert NormalizeList(cfg, args) == [Normalize(cfg, args[0]), Normalize(cfg, args[1])] by {
        assert args[1..][0] == args[1] && args[1..][1..] == [];
      }
    case _ =>
  }

  lemma {:induction false} DecompileInvertsConvertList(cfg: ValidConfig, ts: seq<Term>)
    requires forall k :: 0 <= k < |ts| ==> !HasRef(ts[k])
    requires ConvertList(cfg, ts).Ok?
    ensures DecompileList(ConvertList(cfg, ts).value) == Some(NormalizeList(cfg, ts))
    decreases ListSize(ts), 2
  {
    if |ts| > 0 {
      assert forall k :: 1 <= k < |ts| ==> ts[k] == ts[1..][k - 1];
      DecompileInvertsConvert(cfg, ts[0]);
      DecompileInvertsConvertList(cfg, ts[1..]);
      var ns := ConvertList(cfg, ts).value;
      assert ns[1..] == ConvertList(cfg, ts[1..]).value;
    }
  }

  /** Two reference-free terms that compile to the same node have the same canonical form. */
  lemma SameNodeSameNormalForm(cfg: ValidConfig, t1: Term, t2: Term)
    requires !HasRef(t1) && !HasRef(t2)
    requires ConvertTerm(cfg, t1).Ok? && ConvertTerm(cfg, t1) == ConvertTerm(cfg, t2)
    ensures Normalize(cfg, t1) == Normalize(cfg, t2)
  {
    DecompileInvertsConvert(cfg, t1);
    DecompileInvertsConvert(cfg, t2);
  }

  /** The variable converter is consulted for references only: without them, it makes no difference. */
  lemma {:induction false} ConverterOnlyForReferences(cfg: ValidConfig, c: Option<VariableConverter>, t: Term)
    requires !HasRef(t)
    ensures ConvertTerm(cfg, t) == ConvertTerm(cfg.(converter := c), t)
    decreases Size(t), 1
  {
    match t
    case Arr(es) =>
      ConverterOnlyForReferencesList(cfg, c, es);
    case SetT(ms) =>
      var sorted := cfg.sorted(ms);
      ListSizePermutation(sorted, ms);
      SortedMembersHaveNoRef(cfg, ms);
      ConverterOnlyForReferences(cfg, c, Arr(sorted));
    case CallT(op, args) =>
      var other: ValidConfig := cfg.(converter := c);
      ConverterOnlyForReferencesList(cfg, c, args);
      assert ConvertTerms(cfg, args, 2) == ConvertTerms(other, args, 2);
      assert ConvertCall(cfg, op, args) == ConvertCall(other, op, args);
    case _ =>
  }

  lemma {:induction false} ConverterOnlyForReferencesList(cfg: ValidConfig, c: Option<VariableConverter>, ts: seq<Term>)
    requires forall k :: 0 <= k < |ts| ==> !HasRef(ts[k])
    ensures ConvertList(cfg, ts) == ConvertList(cfg.(converter := c), ts)
    decreases ListSize(ts), 2
  {
    if |ts| > 0 {
      assert forall k :: 1 <= k < |ts| ==> ts[k] == ts[1..][k - 1];
      ConverterOnlyForReferences(cfg, c, ts[0]);
      ConverterOnlyForReferencesList(cfg, c, ts[1..]);
    }
  }

  /** Strings, numbers and booleans map to the matching literal node with the value unchanged. */
  lemma LiteralsConvertUnchanged(cfg: ValidConfig, s: string, text: string, v: bool)
    ensures ConvertTerm(cfg, Str(s)) == Ok(StringLit(s))
    ensures ConvertTerm(cfg, Num(text)) == Ok(Number(cfg.show(Num(text)), text))
    ensures ConvertTerm(cfg, Boolean(v)) == Ok(BoolLit(v))
  {
  }

  /** Every unsupported shape, and every reference that cannot be resolved, is an error: the compiler never guesses. */
  lemma UnsupportedTermsRejected(cfg: ValidConfig, name: string, path: seq<Term>, entries: seq<(Term, Term)>)
    ensures ConvertTerm(cfg, Var(name)) == Err(VarUnsupported)
    ensures ConvertTerm(cfg, Ref([])) == Err(EmptyRef)
    ensures |path| > 0 && cfg.converter.None? ==> ConvertTerm(cfg, Ref(path)) == Err(NoVariableConverter)
    ensures |path| > 0 && cfg.converter.Some? && cfg.converter.value(path).None? ==>
      ConvertTerm(cfg, Ref(path)) == Err(VariableNotConvertible)
    ensures ConvertTerm(cfg, Obj(entries)) == Err(ObjectUnsupported)
    ensures ConvertTerm(cfg, Null) == Err(TermUnsupported)
    ensures ConvertTerm(cfg, Comprehension) == Err(TermUnsupported)
  {
  }

  /** A set converts exactly as the array of its sorted members. */
  lemma SetConvertsAsSortedArray(cfg: ValidConfig, ms: seq<Term>)
    ensures ConvertTerm(cfg, SetT(ms)) == ConvertTerm(cfg, Arr(cfg.sorted(ms)))
  {
  }

  /** Whether the ordering depends only on which members a set has. */
  ghost predicate Canonical(sorted: seq<Term> -> seq<Term>) {
    forall a, b :: multiset(a) == multiset(b) ==> sorted(a) == sorted(b)
  }

  /**
   * Two enumerations of the same set convert identically. Once the ordering depends only on
   * the members, this is the congruence of `SetConvertsAsSortedArray`: equal sorted
   * enumerations give equal arrays.
   */
  lemma EqualSetsConvertIdentically(cfg: ValidConfig, a: seq<Term>, b: seq<Term>)
    requires Canonical(cfg.sorted)
    requires multiset(a) == multiset(b)
    ensures ConvertTerm(cfg, SetT(a)) == ConvertTerm(cfg, SetT(b))
  {
    assert cfg.sorted(a) == cfg.sorted(b);
  }

  /** `notequals` and `notequal` are not operators the compiler accepts, whatever their arguments. */
  lemma NegatedAliasesRejected(cfg: ValidConfig, args: seq<Term>)
    ensures ConvertCall(cfg, "notequals", args) == Err(OperatorUnsupported("notequals"))
    ensures ConvertCall(cfg, "notequal", args) == Err(OperatorUnsupported("notequal"))
  {
  }

  /** A reference used bare must resolve to a boolean-valued node; anything else is an error. */
  lemma BareReferenceMustBeBoolean(cfg: ValidConfig, path: seq<Term>, n: Node)
    requires |path| > 0 && cfg.converter.Some? && cfg.converter.value(path) == Some(n)
    ensures IsBooleanNode(n) ==> ConvertExpression(cfg, TermE(Ref(path), false)) == Ok(n)
    ensures !IsBooleanNode(n) ==> ConvertExpression(cfg, TermE(Ref(path), false)) == Err(NotBoolean)
  {
  }

  /** As written, the negation flag is never read: `not e` converts exactly as `e` does. */
  lemma NegationIgnoredAsWritten(cfg: ValidConfig, e: Expr)
    ensures ConvertExpressionAsWritten(cfg, e.(negated := !e.negated)) == ConvertExpressionAsWritten(cfg, e)
  {
  }

  /**
   * The input that shows it: `not input.post.deleted`, where the reference resolves to a
   * boolean-valued node, compiles as written to that very node, the same as
   * `input.post.deleted`, so the residual predicate is inverted.
   */
  lemma NegatedReferenceCompilesAsPositive(cfg: ValidConfig, path: seq<Term>, n: Node)
    requires |path| > 0 && cfg.converter.Some? && cfg.converter.value(path) == Some(n)
    requires IsBooleanNode(n)
    ensures ConvertExpressionAsWritten(cfg, TermE(Ref(path), true)) == Ok(n)
    ensures ConvertExpressionAsWritten(cfg, TermE(Ref(path), false)) == Ok(n)
  {
  }

  /** Corrected: of an expression and its negation, at most one compiles. */
  lemma NegationNeverCompilesAsPositive(cfg: ValidConfig, e: Expr)
    ensures !(ConvertExpression(cfg, e).Ok? && ConvertExpression(cfg, e.(negated := !e.negated)).Ok?)
    ensures !e.negated ==> ConvertExpression(cfg, e) == ConvertExpressionAsWritten(cfg, e)
  {
  }

  /** Corrected, per query: a query that compiles holds no negated expression. */
  lemma CompiledQueryHasNoNegation(cfg: ValidConfig, q: Body)
    requires ConvertQuery(cfg, q).Ok?
    ensures forall j :: 0 <= j < |q| ==> !q[j].negated
  {
  }
}
