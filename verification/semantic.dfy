/** The semantic actions of `src/semantic/semanticRules.ts`. Each rule
    number maps to a list of operations run in order on the context
    (`buildExecutioner`); a rule without an entry, or with an empty list,
    only reduces the semantic stack. Semantic errors of the program being
    compiled are logged and turn off the creation of the object file;
    inconsistencies of the compiler itself are thrown. */
module Semantic {
  import opened Common
  import opened SemanticStack

  const NOT_AN_ID := "Erro no semântico, tentando adicionar tipo fora de um identificador"
  const IMPOSSIBLE_DECLARATION := "Erro no semântico, atribuindo tipo impossível"
  const IMPOSSIBLE_TYPE := "Erro no semântico, identificador com tipo impossível"
  const ALREADY_DECLARED := "variável já declarada"
  const UNDECLARED := "variável não declarada"
  const ASSIGN_MISMATCH := "tipos diferentes para atribuição"
  const ARITH_MISMATCH := "Operandos com tipos incompativeis"
  const REL_MISMATCH := "Operandos com tipos incompatíveis"

  function MissingNonTerminal(nt: string): string {
    "Error no semântico: não foi possivel encontrar o não terminal " + nt + " na pilha"
  }

  // ---------------------------------------------------------------------
  // Operations.
  // ---------------------------------------------------------------------

  /** What a branch of `verifyIdAlreadyDefined` does with the context and
      the node it is given. */
  datatype Branch =
    | Keep                         // the default for a typed id
    | Report(message: string)      // `buildGenericSemanticalErrorHandler`
    | Raise(message: string)       // the default for an id not in the table
    | AssignFrom(nonTerminal: string)  // typing a declared id, rules 6 and 7
    | Declare                      // printing a declaration, rule 6
    | ReadInto                     // `leia`, rule 12
    | WriteUntyped                 // `escreva` of a constant, rule 13
    | WriteTyped                   // `escreva` of a variable, rule 13
    | AssignChecked                // assignment, rule 18

  /** The operations the rules are lists of. */
  datatype Op =
    | Printer(format: string, indexes: seq<Index>)
    | Reduction
    | VerifyId(offset: Offset, ifUntyped: Branch, ifTyped: Branch, ifAbsent: Branch)
    | Arithmetic
    | Relational
    | RenameTemp

  /** `verifyIdAlreadyDefined` with its default branches for a typed id and
      an id not in the table. */
  function Verify(offset: Offset, ifUntyped: Branch): Op {
    VerifyId(offset, ifUntyped, Keep, Raise(NOT_IN_TABLE))
  }

  /** `assignTypeFromLastNonTerminal(nt, offset)`. */
  function AssignType(nt: string, offset: Offset): Op {
    VerifyId(offset, AssignFrom(nt), Report(ALREADY_DECLARED), Raise(NOT_IN_TABLE))
  }

  /** A context evolves only forward: text and log only grow, the flag is
      never set back, it is cleared exactly when an error is logged, and
      the rule being reduced stays the same. */
  predicate Follows(c: SemContext, c': SemContext) {
    && |c.textObject| <= |c'.textObject| && c'.textObject[..|c.textObject|] == c.textObject
    && |c.log| <= |c'.log| && c'.log[..|c.log|] == c.log
    && (c'.shouldCreateOBJ ==> c.shouldCreateOBJ)
    && (|c'.log| > |c.log| ==> !c'.shouldCreateOBJ)
    && (c.shouldCreateOBJ && !c'.shouldCreateOBJ ==> |c'.log| > |c.log|)
    && c'.ruleSymbol == c.ruleSymbol && c'.amountToPop == c.amountToPop && c'.ruleIndex == c.ruleIndex
  }

  lemma FollowsTrans(a: SemContext, b: SemContext, c: SemContext)
    requires Follows(a, b) && Follows(b, c)
    ensures Follows(a, c)
  {
    assert c.textObject[..|a.textObject|] == c.textObject[..|b.textObject|][..|a.textObject|];
    assert c.log[..|a.log|] == c.log[..|b.log|][..|a.log|];
  }

  lemma PrintFollows(ctx: SemContext, format: string, indexes: seq<Index>)
    ensures Follows(ctx, Print(ctx, format, indexes))
  {
  }

  lemma ReportFollows(ctx: SemContext, message: string, node: Token)
    ensures Follows(ctx, ReportError(ctx, message, node))
  {
    assert ReportError(ctx, message, node).log[..|ctx.log|] == ctx.log;
  }

  /** The three-way type switch the printing branches share: the format for
      `literal`, `inteiro` and `real` (compared lower-cased), or `other`. */
  function ByType(ctx: SemContext, tipo: string, forLiteral: string, forInteiro: string, forReal: string, offset: Offset, other: Outcome<SemContext>): Outcome<SemContext> {
    var t := ToLower(tipo);
    if t == "literal" then Done(Print(ctx, forLiteral, [Index(offset, Lexema)]))
    else if t == "inteiro" then Done(Print(ctx, forInteiro, [Index(offset, Lexema)]))
    else if t == "real" then Done(Print(ctx, forReal, [Index(offset, Lexema)]))
    else other
  }

  /** The typing branch of `assignTypeFromLastNonTerminal`: the id at
      `offset` takes the type of the bottom-most `nt` node, on the stack
      and in the symbol table. */
  function TypeId(ctx: SemContext, node: Token, offset: Offset, nt: string): Outcome<SemContext>
    requires offset <= |ctx.stack|
  {
    if node.classe != "ID" then Thrown(NOT_AN_ID)
    else
      match BottomMost(ctx.stack, nt)
      case None => Thrown(MissingNonTerminal(nt))
      case Some(j) =>
        var typed := node.(classe := "ID", tipo := ctx.stack[j].tipo);
        Done(ctx.(stack := ctx.stack[|ctx.stack| - offset := typed], symbolTable := ctx.symbolTable[node.lexema := typed]))
  }

  /** Rule 6 prints the declaration of a freshly typed id. */
  function PrintDeclaration(ctx: SemContext, node: Token): Outcome<SemContext> {
    ByType(ctx, node.tipo, "literal {3};\n", "int {3};\n", "double {3};\n", 3, Thrown(IMPOSSIBLE_DECLARATION))
  }

  /** Rule 12 reads into a declared variable. */
  function PrintRead(ctx: SemContext, node: Token): Outcome<SemContext> {
    ByType(ctx, node.tipo, "scanf(\"%s\", {2});\n", "scanf(\"%d\", &{2});\n", "scanf(\"%lf\", &{2});\n", 2, Thrown(IMPOSSIBLE_TYPE))
  }

  /** Rule 13 writes a constant, or an id whose type is unknown. */
  function PrintConstant(ctx: SemContext, node: Token): SemContext {
    if ToLower(node.tipo) == "literal" then Print(ctx, "printf({2});\n", [Index(2, Lexema)])
    else Print(ctx, "printf(\"{2}\");\n", [Index(2, Lexema)])
  }

  /** Rule 13 writes a declared variable. */
  function PrintVariable(ctx: SemContext, node: Token): Outcome<SemContext> {
    ByType(ctx, node.tipo, "printf(\"%s\", {2});\n", "printf(\"%d\", &{2});\n", "printf(\"%lf\", &{2});\n", 2, Done(ctx))
  }

  /** Rule 18 checks the assigned value against the variable's type and
      prints the assignment either way. */
  function CheckAssignment(ctx: SemContext, node: Token): Outcome<SemContext> {
    match At(ctx.stack, -2)
    case None => Thrown(OVERFLOW)
    case Some(ld) =>
      var checked := if ToLower(ld.tipo) != ToLower(node.tipo) then ReportError(ctx, ASSIGN_MISMATCH, node) else ctx;
      Done(Print(checked, "{4} = {2};\n", [Index(4, Lexema), Index(2, Lexema)]))
  }

  /** One branch of `verifyIdAlreadyDefined`, given the node at `offset`. */
  function ApplyBranch(b: Branch, ctx: SemContext, node: Token, offset: Offset): Outcome<SemContext>
    requires offset <= |ctx.stack|
  {
    match b
    case Keep => Done(ctx)
    case Report(message) => Done(ReportError(ctx, message, node))
    case Raise(message) => Thrown(message)
    case AssignFrom(nt) => TypeId(ctx, node, offset, nt)
    case Declare => PrintDeclaration(ctx, node)
    case ReadInto => PrintRead(ctx, node)
    case WriteUntyped => Done(PrintConstant(ctx, node))
    case WriteTyped => PrintVariable(ctx, node)
    case AssignChecked => CheckAssignment(ctx, node)
  }

  /** Arithmetic rejects operands whose types differ or are `literal`. */
  predicate ArithMismatch(one: string, two: string) {
    ToLower(one) != ToLower(two) || ToLower(one) == "literal" || ToLower(two) == "literal"
  }

  /** Relational operators reject only a literal compared with a number. */
  predicate RelMismatch(one: string, two: string) {
    var p := (ToLower(one), ToLower(two));
    p == ("literal", "inteiro") || p == ("inteiro", "literal") || p == ("literal", "real") || p == ("real", "literal")
  }

  /** The C text of a relational operator: `<>` is written `==`. */
  function RelOperator(lexema: string): string {
    if lexema == "<>" then "==" else lexema
  }

  /** Registers a new temporary at `lastX` and prints its definition. */
  function DefineTemp(ctx: SemContext, operand: Token, format: string -> string, indexes: seq<Index>): SemContext {
    var temp := NewTemp(operand, ctx.lastX, ctx.symbolTable);
    var c := ctx.(temporaries := ctx.temporaries[ctx.lastX := temp]);
    Print(c, format(temp.identifier), indexes)
  }

  function ArithFormat(name: string): string {
    name + " = {3} {2} {1};\n"
  }

  /** The format of rule 26 for the temporary `name` and operator `op`. */
  function RelFormat(op: string): string -> string {
    name => name + " = {3} " + op + " {1};\n"
  }

  /** The first operation of rule 19: `OPRD opm OPRD`. */
  function ApplyArithmetic(ctx: SemContext): Outcome<SemContext> {
    match (At(ctx.stack, -3), At(ctx.stack, -1))
    case (Some(one), Some(two)) => Done(Arithmetic2(ctx, one, two))
    case _ => Thrown(OVERFLOW)
  }

  /** Rule 19 once both operands exist. */
  function Arithmetic2(ctx: SemContext, one: Token, two: Token): SemContext {
    if ArithMismatch(one.tipo, two.tipo) then ReportError(ctx, ARITH_MISMATCH, one)
    else DefineTemp(ctx, one, ArithFormat, [Index(3, Lexema), Index(2, Lexema), Index(1, Lexema)])
  }

  /** The first operation of rule 26: `OPRD opr OPRD`. */
  function ApplyRelational(ctx: SemContext): Outcome<SemContext> {
    match (At(ctx.stack, -3), At(ctx.stack, -2), At(ctx.stack, -1))
    case (Some(one), Some(opr), Some(two)) => Done(Relational3(ctx, one, opr, two))
    case _ => Thrown(OVERFLOW)
  }

  /** Rule 26 once both operands and the operator exist. */
  function Relational3(ctx: SemContext, one: Token, opr: Token, two: Token): SemContext {
    if RelMismatch(one.tipo, two.tipo) then ReportError(ctx, REL_MISMATCH, one)
    else DefineTemp(ctx, one, RelFormat(RelOperator(opr.lexema)), [Index(3, Lexema), Index(1, Lexema)])
  }

  /** The name the reduced node of rules 19 and 26 takes: the temporary
      registered at `lastX`, or `t` followed by `lastX` when none is. */
  function TempLexeme(ctx: SemContext): string {
    if ctx.lastX in ctx.temporaries then ctx.temporaries[ctx.lastX].identifier else "t" + IntToString(ctx.lastX)
  }

  /** The last operation of rules 19 and 26: the top node takes the
      temporary's name and `lastX` moves on. */
  function ApplyRename(ctx: SemContext): SemContext {
    var s := ctx.stack;
    var s' := if |s| == 0 then s else s[..|s| - 1] + [s[|s| - 1].(lexema := TempLexeme(ctx))];
    ctx.(stack := s', lastX := ctx.lastX + 1)
  }

  /** The branch `verifyIdAlreadyDefined` takes after the lookup. */
  function Chosen(found: Lookup, ifUntyped: Branch, ifTyped: Branch, ifAbsent: Branch): Branch {
    if found.Absent? then ifAbsent else if found.Untyped? then ifUntyped else ifTyped
  }

  function Apply(op: Op, ctx: SemContext): Outcome<SemContext> {
    match op
    case Printer(format, indexes) => Done(Print(ctx, format, indexes))
    case Reduction => DoReduction(ctx)
    case VerifyId(offset, ifUntyped, ifTyped, ifAbsent) =>
      var found := LookupId(ctx, offset);
      if found.Overflow? then Thrown(OVERFLOW)
      else ApplyBranch(Chosen(found, ifUntyped, ifTyped, ifAbsent), ctx, found.node, offset)
    case Arithmetic => ApplyArithmetic(ctx)
    case Relational => ApplyRelational(ctx)
    case RenameTemp => Done(ApplyRename(ctx))
  }

  /** The operations run in order; the first throw ends the run. */
  function Sequence(ops: seq<Op>, ctx: SemContext): Outcome<SemContext>
    decreases |ops|
  {
    if |ops| == 0 then Done(ctx)
    else
      match Apply(ops[0], ctx)
      case Done(c) => Sequence(ops[1..], c)
      case Thrown(m) => Thrown(m)
      case RangeError => RangeError
  }

  // ---------------------------------------------------------------------
  // Every operation moves the context forward.
  // ---------------------------------------------------------------------

  lemma PrintsFollow(ctx: SemContext)
    ensures forall format, indexes :: Follows(ctx, Print(ctx, format, indexes))
  {
    forall format, indexes
      ensures Follows(ctx, Print(ctx, format, indexes))
    {
      PrintFollows(ctx, format, indexes);
    }
  }

  lemma TypeIdFollows(ctx: SemContext, node: Token, offset: Offset, nt: string)
    requires offset <= |ctx.stack|
    ensures var r := TypeId(ctx, node, offset, nt); r.Done? ==> Follows(ctx, r.value)
  {
  }

  lemma DeclarationFollows(ctx: SemContext, node: Token)
    ensures var r := PrintDeclaration(ctx, node); r.Done? ==> Follows(ctx, r.value)
  {
    PrintsFollow(ctx);
  }

  lemma ReadFollows(ctx: SemContext, node: Token)
    ensures var r := PrintRead(ctx, node); r.Done? ==> Follows(ctx, r.value)
  {
    PrintsFollow(ctx);
  }

  lemma WriteFollows(ctx: SemContext, node: Token)
    ensures Follows(ctx, PrintConstant(ctx, node))
    ensures var r := PrintVariable(ctx, node); r.Done? ==> Follows(ctx, r.value)
  {
    PrintsFollow(ctx);
  }

  lemma AssignmentFollows(ctx: SemContext, node: Token)
    ensures var r := CheckAssignment(ctx, node); r.Done? ==> Follows(ctx, r.value)
  {
    if At(ctx.stack, -2).Some? {
      var ld := At(ctx.stack, -2).value;
      var checked := if ToLower(ld.tipo) != ToLower(node.tipo) then ReportError(ctx, ASSIGN_MISMATCH, node) else ctx;
      ReportFollows(ctx, ASSIGN_MISMATCH, node);
      PrintFollows(checked, "{4} = {2};\n", [Index(4, Lexema), Index(2, Lexema)]);
      FollowsTrans(ctx, checked, Print(checked, "{4} = {2};\n", [Index(4, Lexema), Index(2, Lexema)]));
    }
  }

  lemma BranchFollows(b: Branch, ctx: SemContext, node: Token, offset: Offset)
    requires offset <= |ctx.stack|
    ensures var r := ApplyBranch(b, ctx, node, offset); r.Done? ==> Follows(ctx, r.value)
  {
    match b
    case Keep =>
    case Raise(_) =>
    case Report(message) => ReportFollows(ctx, message, node);
    case AssignFrom(nt) => TypeIdFollows(ctx, node, offset, nt);
    case Declare => DeclarationFollows(ctx, node);
    case ReadInto => ReadFollows(ctx, node);
    case WriteUntyped => WriteFollows(ctx, node);
    case WriteTyped => WriteFollows(ctx, node);
    case AssignChecked => AssignmentFollows(ctx, node);
  }

  lemma DefineTempFollows(ctx: SemContext, operand: Token, format: string -> string, indexes: seq<Index>)
    ensures Follows(ctx, DefineTemp(ctx, operand, format, indexes))
  {
    var temp := NewTemp(operand, ctx.lastX, ctx.symbolTable);
    var c := ctx.(temporaries := ctx.temporaries[ctx.lastX := temp]);
    PrintFollows(c, format(temp.identifier), indexes);
  }

  lemma Arithmetic2Follows(ctx: SemContext, one: Token, two: Token)
    ensures Follows(ctx, Arithmetic2(ctx, one, two))
  {
    ReportFollows(ctx, ARITH_MISMATCH, one);
    DefineTempFollows(ctx, one, ArithFormat, [Index(3, Lexema), Index(2, Lexema), Index(1, Lexema)]);
  }

  lemma Relational3Follows(ctx: SemContext, one: Token, opr: Token, two: Token)
    ensures Follows(ctx, Relational3(ctx, one, opr, two))
  {
    ReportFollows(ctx, REL_MISMATCH, one);
    DefineTempFollows(ctx, one, RelFormat(RelOperator(opr.lexema)), [Index(3, Lexema), Index(1, Lexema)]);
  }

  lemma ApplyFollows(op: Op, ctx: SemContext)
    ensures var r := Apply(op, ctx); r.Done? ==> Follows(ctx, r.value)
  {
    match op
    case Printer(format, indexes) => PrintFollows(ctx, format, indexes);
    case Reduction =>
    case VerifyId(offset, ifUntyped, ifTyped, ifAbsent) =>
      var found := LookupId(ctx, offset);
      if !found.Overflow? {
        BranchFollows(Chosen(found, ifUntyped, ifTyped, ifAbsent), ctx, found.node, offset);
      }
    case Arithmetic =>
      match (At(ctx.stack, -3), At(ctx.stack, -1)) {
        case (Some(one), Some(two)) => Arithmetic2Follows(ctx, one, two);
        case _ =>
      }
    case Relational =>
      match (At(ctx.stack, -3), At(ctx.stack, -2), At(ctx.stack, -1)) {
        case (Some(one), Some(opr), Some(two)) => Relational3Follows(ctx, one, opr, two);
        case _ =>
      }
    case RenameTemp =>
  }

  /** A run of operations that does not throw moves the context forward:
      each step does, and the relation is transitive. */
  lemma {:induction false} SequenceFollows(ops: seq<Op>, ctx: SemContext)
    ensures var r := Sequence(ops, ctx); r.Done? ==> Follows(ctx, r.value)
    decreases |ops|
  {
    if |ops| > 0 && Apply(ops[0], ctx).Done? {
      var c := Apply(ops[0], ctx).value;
      ApplyFollows(ops[0], ctx);
      SequenceFollows(ops[1..], c);
      var r := Sequence(ops[1..], c);
      if r.Done? {
        FollowsTrans(ctx, c, r.value);
      }
    }
  }

  /** `buildExecutioner`: an empty list reduces the stack. */
  function Execute(ops: seq<Op>, ctx: SemContext): Outcome<SemContext> {
    if |ops| == 0 then DoReduction(ctx) else Sequence(ops, ctx)
  }

  // ---------------------------------------------------------------------
  // The rules.
  // ---------------------------------------------------------------------

  /** The rule numbers with actions of their own. */
  const RULES: set<int> := {4, 6, 7, 8, 9, 10, 12, 13, 16, 18, 19, 21, 24, 25, 26}

  /** The `rules` map. */
  function Actions(rule: int): (ops: seq<Op>)
    ensures rule !in RULES ==> ops == []
  {
    match rule
    case 4 => [Printer("\n\n\n", []), Reduction]
    case 6 => [AssignType("L", 3), VerifyId(3, Report(ALREADY_DECLARED), Declare, Raise(NOT_IN_TABLE)), Reduction]
    case 7 => [AssignType("TIPO", 1), Printer("{1};\n", [Index(1, Lexema)]), Reduction]
    case 8 => [Reduction, Printer("int", [])]
    case 9 => [Reduction, Printer("double", [])]
    case 10 => [Reduction, Printer("{1}", [Index(1, Tipo)])]
    case 12 => [VerifyId(2, Report(UNDECLARED), ReadInto, Raise(NOT_IN_TABLE)), Reduction]
    case 13 => [VerifyId(2, WriteUntyped, WriteTyped, WriteUntyped), Reduction]
    case 16 => [Verify(1, Report(UNDECLARED)), Reduction]
    case 18 => [VerifyId(4, Report(UNDECLARED), AssignChecked, Raise(NOT_IN_TABLE)), Reduction]
    case 19 => [Arithmetic, Reduction, RenameTemp]
    case 21 => [Verify(1, Report(UNDECLARED)), Reduction]
    case 24 => [Printer("}\n", []), Reduction]
    case 25 => [Printer("if ({3}) {\n", [Index(3, Lexema)]), Reduction]
    case 26 => [Relational, Reduction, RenameTemp]
    case _ => []
  }

  /** `SemanticAnalyzer.analyze`. Whatever the rule, a context it returns
      follows the one it got: text and log only grow, the flag is never set
      back and is cleared exactly when an error is logged. */
  function Analyze(rule: int, ctx: SemContext): (r: Outcome<SemContext>)
    ensures r.Done? ==> Follows(ctx, r.value)
  {
    SequenceFollows(Actions(rule), ctx);
    Execute(Actions(rule), ctx)
  }
}
