# go-rego-sql in Dafny: the residual-query compiler and the equality rendering protocol

This project models two parts of go-rego-sql, which turns a policy engine's partial-evaluation
result into a SQL boolean predicate.

1. **The residual-query compiler** (`compile.go`). It is a fail-fast recursive descent over the
   partial queries: `ConvertRegoAst` → `convertQuery` → `convertExpression` → `convertCall` /
   `convertTerms` → `convertTerm`. It builds the SQL AST. No partial queries compile to `false`.
   An empty query compiles to `true`, and this is checked before any query is converted.
   Otherwise the result is a disjunction with one conjunction per query, in order. The
   operator table is closed and demands exactly two arguments. Every term shape is either
   converted or rejected, and a set converts as its sorted array. The code ignores an
   expression's negation; the model rejects a negated expression instead (see Findings).
2. **The equality double dispatch** (`sqlast/equality.go`, `sqlast/number.go`). Nodes render
   to text against a generator that only ever accumulates errors. An equality first asks its
   left operand to compare itself with the right. Then it asks the right operand, with the
   operands swapped. If neither can, it records one error and renders the sentinel
   `EqualityError`. Each variant decides by the kind (`UseAs()`) of the other operand.

Files and modules:

- `wrappers.dfy` (`Wrappers`): `Option`, `Result`, and `MapAll`, the fail-fast in-order map
  behind the compiler's loops.
- `rego_ast.dfy` (`RegoAst`): the policy engine's tree (`Term`, `Expr`, `Body`,
  `PartialQueries`). It also holds a size measure, with a lemma that reordering terms keeps
  their size; a set converts through its sorted array, and that lemma is what proves the
  conversion terminates.
- `sqlast.dfy` (`SqlAst`): the closed `Node` datatype, `Kind`, `KindOf` (`UseAs`), and the
  generator: an append-only `seq<GenError>` threaded through rendering.
- `generation.dfy` (`Generation`): `Render` (`SQLString`), `EqualsSQL` (the `SupportsEquality`
  dispatch), `EqualityEquals`, `NumberEquals`, `BasicSQLEquality`, `EqualsOp`.
- `generation_properties.dfy` (`GenerationProperties`): the dispatch order, the rendering
  layouts, and purity. It also counts the errors recorded for nodes built only from numbers
  and equalities, against an independent `ErrorCount` definition.
- `compile.dfy` (`Compile`): the compiler.
- `compile_properties.dfy` (`CompileProperties`): the compiler's all-inputs properties. These
  cover a decompiler that inverts conversion of reference-free terms (up to set ordering and
  operator aliases), the fact that the converter is consulted only for references, and set
  normalisation.

Modelling choices:

- **Compiler parameters.** The compiler takes a `Config` with four parts:
  - the variable converter, an optional partial function from a reference's path to a node;
  - the policy engine's ordering of a set's members, required to be a permutation;
  - whether the array constructor accepts a list of elements;
  - the printed form of a term, which becomes a number node's source.
- **Opaque variants.** The booleans, strings, arrays, membership, conjunction, disjunction and
  column nodes are constructors with a declared kind. Their `SQLString` and `EqualsSQLString`
  are parameters (`Backend`), not definitions.
- **Errors.** Errors are tags, without their message text. An unsupported equality's error
  names the operands' kinds where the source prints their concrete Go types.

## Model

| member | source | states |
|---|---|---|
| `Compile.ConvertRegoAst` | compile.go:55-90 | No queries give `false`. A query with no expressions gives `true` whatever the other queries hold. Otherwise the result is an `Or` with one `And` per query, in order, each holding that query's converted expressions in order. It succeeds exactly when every expression converts. Its error is that of the first failing query, and the result is always boolean. |
| `Compile.ConvertQueries` | compile.go:69-87 | Queries convert in order, stopping at the first failure. On success there is one node per query, each that query's conversion. The boolean check never rejects a conjunction. |
| `Compile.ConvertQuery` | compile.go:92-104 | A query converts to an `And` with exactly one child per expression, in order. It succeeds exactly when every expression does, and otherwise returns the first failing expression's error. |
| `Compile.ConvertExpression` | compile.go:106-136 | The corrected conversion (see Findings). A negated expression is `NegationUnsupported`. Otherwise a call expression is the call's conversion. A bare term is accepted exactly when it converts to a boolean-valued node, and a non-boolean one is `NotBoolean`. Other expression forms are rejected. Every accepted result is boolean and comes from an expression that is not negated. |
| `Compile.ConvertExpressionAsWritten` | compile.go:106-136 | The conversion as the code has it, where the negation flag is never read. A call expression is the call's conversion. A bare term is accepted exactly when it converts to a boolean-valued node, and a non-boolean one is `NotBoolean`. Other forms are rejected. |
| `Compile.AsBoolean` | compile.go:113-117 | The `BooleanNode` check, also made at compile.go:77 and :127. A converted node passes exactly when its kind is boolean-valued, unchanged. Conjunctions, disjunctions, equalities, memberships and boolean literals always pass. Strings, numbers and arrays give `NotBoolean`, and an earlier error passes through. |
| `Compile.ConvertCall` | compile.go:139-171 | `eq`, `equals`, `equal` and `neq` give an `Equality` of the two converted arguments in order, with `Not` true exactly for `neq`. `internal.member_2` gives `MemberOf`. These need exactly two arguments, else `WrongArity(2, n)`. Any other operator is rejected, and success means both arguments converted. |
| `Compile.ConvertTerms` | compile.go:173-188 | A count other than `expected` is `WrongArity(expected, n)`. Otherwise the result succeeds exactly when every term converts, and then has the same length and order as the input. |
| `Compile.ConvertList` | compile.go:225-232 | Each term converts in order. The result succeeds exactly when all do, and is then element-wise their conversions. Otherwise it returns the error of the first term that fails. |
| `Compile.ConvertTerm` | compile.go:190-249 | A `Var`, `Object`, `Null` or comprehension never converts. A reference converts exactly when its path is non-empty, a converter is configured and it accepts the path, and the result is the converter's node. An array converts exactly when all its elements convert and the array constructor accepts them, giving an `ArrayLit` of the element conversions in order. Otherwise its error is the first failing element's, or `ArrayRejected`. A set converts only when all its members do, and then to an accepted array of the same length. Its error is a member's or `ArrayRejected`. A nested call is exactly the call's conversion. |
| `Compile.ConvertArray` | compile.go:225-233 | An array converts exactly when its element list converts and the constructor accepts it, giving an `ArrayLit` of the element conversions in order. Otherwise the error is that of the first failing element, or `ArrayRejected` when all elements converted. |
| `Compile.ConvertSet` | compile.go:236-242 | A set converts only when every member converts, to an accepted array with one element per member. When every member converts, the only possible error is `ArrayRejected`. Any other error is some member's. |
| `CompileProperties.DecompileInvertsConvert` | compile.go:218-245 | For a reference-free term that converts, decompiling the node gives back the term's normal form. The normal form sorts sets and maps `equals`/`equal` to `eq`. So literal values, element and argument order, operator and negation are all preserved. |
| `CompileProperties.SameNodeSameNormalForm` | compile.go:218-245 | Two reference-free terms that compile to the same node have the same normal form: conversion merges nothing but aliases and set orderings. |
| `CompileProperties.ConverterOnlyForReferences` | compile.go:195-217 | Replacing the variable converter does not change how a reference-free term converts. |
| `CompileProperties.LiteralsConvertUnchanged` | compile.go:218-223 | String, number and boolean terms become the matching literal node, value unchanged. A number also keeps its source. |
| `CompileProperties.UnsupportedTermsRejected` | compile.go:192-248 | These are errors, each with its own tag: a bare `Var`, an empty `Ref`, a `Ref` with no converter, a `Ref` the converter declines, an `Object`, and any unlisted shape. |
| `CompileProperties.SetConvertsAsSortedArray` | compile.go:236-242 | A set converts exactly as the array of its sorted members. |
| `CompileProperties.EqualSetsConvertIdentically` | compile.go:236-242 | When the ordering depends only on the members, two enumerations of the same set convert identically. |
| `CompileProperties.NegatedAliasesRejected` | compile.go:148-170 | `notequals` and `notequal` are rejected as unsupported operators, although the negation test names them. |
| `CompileProperties.BareReferenceMustBeBoolean` | compile.go:121-133 | A bare reference resolving to a boolean-valued node compiles to that node. One resolving to any other node is a `NotBoolean` error. |
| `CompileProperties.NegationIgnoredAsWritten` | compile.go:106-136 | As written, flipping an expression's negation flag never changes its conversion. |
| `CompileProperties.NegatedReferenceCompilesAsPositive` | compile.go:121-133 | As written, `not r` and `r` both compile to the boolean-valued node that `r` resolves to. |
| `CompileProperties.NegationNeverCompilesAsPositive` | compile.go:106-136 | In the corrected conversion, an expression and its negation never both compile. A non-negated expression converts as the code has it. |
| `CompileProperties.CompiledQueryHasNoNegation` | compile.go:92-104 | In the corrected conversion, a query that compiles contains no negated expression. |
| `Generation.EqualsOp` | sqlast/equality.go:81-86 | The operator is `!=` exactly when `not` holds, and `=` exactly when it does not. |
| `Generation.Render` | sqlast/equality.go:40-59 | Rendering always returns text and only appends to the generator's errors. |
| `Generation.EqualsSQL` | sqlast/equality.go:10-14 | A comparison attempt that succeeds only appends to the generator. One that fails returns no generator, so it adds nothing. |
| `Generation.EqualityEquals` | sqlast/equality.go:61-79 | An equality can compare itself with another node exactly when that node's kind is boolean-valued. On success it only appends errors, and otherwise it fails without rendering. |
| `Generation.NumberEquals` | sqlast/number.go:29-35 | A number can compare itself with another node exactly when that node's kind is `AstNumber`. On success it is `basicSQLEquality` of the two. Its text is the number's value verbatim, the operator, then the other node's rendering. The errors recorded are exactly the other node's. |
| `Generation.BasicSQLEquality` | sqlast/equality.go:88-94 | Renders the left operand, then the right, only appending errors. `BasicSQLEqualityLayout` states its `<a> op <b>` text. |
| `SqlAst.KindOf` | sqlast/equality.go:38 | The kind a node is used as (`UseAs`, also sqlast/number.go:22). Each literal and operator variant has its own kind, whatever its payload. A column has the kind its converter declared. |
| `GenerationProperties.BasicSQLEqualityLayout` | sqlast/equality.go:88-94 | The text is `<a> op <b>` with single spaces. The left operand's errors are recorded before the right one's. |
| `GenerationProperties.RenderPure` | sqlast/equality.go:40-59 | A node's text does not depend on the errors already recorded, and its errors are appended after them. |
| `GenerationProperties.LeftOperandFirst` | sqlast/equality.go:43-48 | When the left operand's attempt succeeds, its result is the equality's rendering and the right operand is not consulted. |
| `GenerationProperties.RightOperandSwapped` | sqlast/equality.go:50-55 | When the left attempt fails, the result is the right operand's attempt with the operands swapped and the same flag. When that fails too, the result is the sentinel with one error. |
| `GenerationProperties.BothOrdersFail` | sqlast/equality.go:57-58 | When both orders fail, the text is `EqualityError` and exactly one error is appended. That error names both kinds and the operator. |
| `GenerationProperties.EqualityVersusBooleanLiteral` | sqlast/equality.go:63-69 | Against a boolean literal, an equality renders `(<self>) op <other>`, self first. |
| `GenerationProperties.EqualityVersusBooleanNode` | sqlast/equality.go:70-75 | Against any other boolean-valued kind, an equality renders `(<self>) op (<other>)`. |
| `GenerationProperties.NestedEqualities` | sqlast/equality.go:37-75 | Two nested equalities always render as `(<left>) op (<right>)`, with the left rendered first. |
| `GenerationProperties.NumberRendersVerbatim` | sqlast/number.go:22-27 | A number renders as its decimal text, whatever its source, and records nothing. Its kind is `AstNumber` whatever its value. |
| `GenerationProperties.NumbersCompare` | sqlast/number.go:29-32 | `Equality(not, a, b)` over two numbers renders `a = b` or `a != b` and records no error. |
| `GenerationProperties.NumberVersusNumberKind` | sqlast/number.go:29-32 | A number against any number-kind operand, a numeric column for instance, renders `<value> op <other>`. The other operand's rendering is its own, and its errors are the only ones recorded. |
| `GenerationProperties.NumberVersusEquality` | sqlast/number.go:29-35 | A number and an equality fail in both orders. The result is `EqualityError` plus exactly one error naming the two kinds. |
| `GenerationProperties.RenderErrorCount` | sqlast/equality.go:40-78 | For nodes made only of numbers and equalities, rendering appends exactly `ErrorCount` errors. `ErrorCount` is one per equality with incomparable operands, whose own operands are then never rendered. |
| `GenerationProperties.RenderCleanIffWellTyped` | sqlast/equality.go:40-78 | Such a node renders without recording any error exactly when every equality in it compares comparable kinds. |
| `GenerationProperties.OperandOrderErrorSymmetry` | sqlast/equality.go:40-58 | Swapping an equality's operands does not change how many errors its rendering records. |

## Left out

- The converter builders `NoACLConverter`, `DefaultVariableConverter` and `aclGroupMatchers`
  (compile.go:19-53) are not modelled. They are configuration built from matcher types that
  are not part of this model, so the converter is an abstract optional partial function.
- The policy engine itself is not modelled: partial evaluation, `Term.String()`, and the
  ordering `Set.Sorted()` uses. The ordering is a configuration parameter required to be a
  permutation. Printing appears only as the number source, through a parameter.
- An operator is represented by its printed name. The panic `call[0]` would raise on an
  empty call cannot be expressed, and the policy engine never produces one.
- The `RegoSource` diagnostics of `And`, `Or` and `Array` are not modelled. Error message
  text and `fmt.Errorf` wrapping are not modelled either, so errors propagate as tags.
- The rendering and comparison of `Bool`, `String`, `Array`, `MemberOf`, `And`, `Or` and the
  column nodes are not modelled, because their code is not part of this model. They are
  parameters (`Backend`). So is the array-overlap versus `= ANY` membership rule.
- A failed comparison attempt by one of those variants is modelled as recording no errors,
  as the equality and number variants do.
- The variable path tree, the `SQLGenerator` internals, and the top-level orchestration
  that renders the tree and fails on recorded errors are not part of this model.
- `sqlast.Array` may fail under conditions that are not part of this model. It is a
  parameter `arrayOk` deciding whether the array is accepted.
- Whether a node is a `BooleanNode` is decided by its kind. This holds for the equality,
  number, conjunction, disjunction and membership nodes. Strings and arrays are declared
  non-boolean, and a column node carries the kind its converter declares.
- Whether a number's text is valid SQL is not modelled; the text is kept verbatim.
- An OPA set is represented by an enumeration of its members. Two enumerations of the same
  set convert identically only when the ordering depends on the members alone
  (`EqualSetsConvertIdentically` requires this).
- An expression's `with` modifiers are not represented; the compiler does not read them either.
- `GenerationProperties.RenderErrorCount`, `RenderCleanIffWellTyped` and
  `OperandOrderErrorSymmetry` speak only of nodes built from numbers and equalities. Other
  variants' rendering is a parameter.

The negation test in `convertCall` also names `notequals` and `notequal`. Those operators
are not in its case list, so they are rejected, and the model follows the code here.

## Findings

| source | as written | input that shows it | evidently intended | confidence | as-written member | corrected member |
|---|---|---|---|---|---|---|
| compile.go:106-136 | `convertExpression` never reads the expression's negation flag, so `not x` compiles exactly as `x` | the residual query `not input.post.deleted`, where `input.post.deleted` resolves to a boolean column, compiles to that column itself, selecting the rows the policy denies | a negated expression is rejected (or compiled to its negation), never compiled as its positive form | medium, not executed | `Compile.ConvertExpressionAsWritten`, with `CompileProperties.NegationIgnoredAsWritten` and `CompileProperties.NegatedReferenceCompilesAsPositive` | `Compile.ConvertExpression`, with `CompileProperties.NegationNeverCompilesAsPositive` and `CompileProperties.CompiledQueryHasNoNegation` |
