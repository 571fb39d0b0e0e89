/** The rules of `src/semantic/semanticRules.ts` that consult the symbol
    table: declarations (6, 7), input and output (12, 13), uses of an id
    (16, 21), assignment (18) and the operators (19, 26). Each lemma states,
    for every case of the lookup, the outcome of the whole rule in terms of
    the C text it appends, the error it logs and the tables it updates. */
module RuleLaws {
  import opened Common
  import opened SemanticStack
  import opened Semantic
  import opened SemanticLaws

  /** The entry of an id that is in the table with a type. */
  predicate IsTyped(ctx: SemContext, name: string) {
    name in ctx.symbolTable && ctx.symbolTable[name].tipo != "NULO"
  }

  predicate IsUntyped(ctx: SemContext, name: string) {
    name in ctx.symbolTable && ctx.symbolTable[name].tipo == "NULO"
  }

  // ---------------------------------------------------------------------
  // Rule 12: `ES -> leia id pt_v`.
  // ---------------------------------------------------------------------

  /** The C statement that reads a variable of the given type. */
  function ReadStatement(tipo: string, name: string): Option<string> {
    var t := ToLower(tipo);
    if t == "literal" then Some("scanf(\"%s\", " + name + ");\n")
    else if t == "inteiro" then Some("scanf(\"%d\", &" + name + ");\n")
    else if t == "real" then Some("scanf(\"%lf\", &" + name + ");\n")
    else None
  }

  /** The `scanf` formats of rule 12, split around their placeholder. */
  lemma ScanfFormats()
    ensures "scanf(\"%s\", {2});\n" == "scanf(\"%s\", " + Placeholder(2) + ");\n" && '{' !in "scanf(\"%s\", "
    ensures "scanf(\"%d\", &{2});\n" == "scanf(\"%d\", &" + Placeholder(2) + ");\n" && '{' !in "scanf(\"%d\", &"
    ensures "scanf(\"%lf\", &{2});\n" == "scanf(\"%lf\", &" + Placeholder(2) + ");\n" && '{' !in "scanf(\"%lf\", &"
  {
    Placeholders();
  }

  /** The three `scanf` formats of rule 12, filled. */
  lemma ScanfString(ctx: SemContext)
    requires 2 <= |ctx.stack|
    ensures Print(ctx, "scanf(\"%s\", {2});\n", [Index(2, Lexema)]).textObject
      == ctx.textObject + " " + ("scanf(\"%s\", " + ctx.stack[|ctx.stack| - 2].lexema + ");\n")
  {
    ScanfFormats();
    PrintLexeme(ctx, "scanf(\"%s\", {2});\n", "scanf(\"%s\", ", 2, ");\n");
  }

  lemma ScanfInt(ctx: SemContext)
    requires 2 <= |ctx.stack|
    ensures Print(ctx, "scanf(\"%d\", &{2});\n", [Index(2, Lexema)]).textObject
      == ctx.textObject + " " + ("scanf(\"%d\", &" + ctx.stack[|ctx.stack| - 2].lexema + ");\n")
  {
    ScanfFormats();
    PrintLexeme(ctx, "scanf(\"%d\", &{2});\n", "scanf(\"%d\", &", 2, ");\n");
  }

  lemma ScanfDouble(ctx: SemContext)
    requires 2 <= |ctx.stack|
    ensures Print(ctx, "scanf(\"%lf\", &{2});\n", [Index(2, Lexema)]).textObject
      == ctx.textObject + " " + ("scanf(\"%lf\", &" + ctx.stack[|ctx.stack| - 2].lexema + ");\n")
  {
    ScanfFormats();
    PrintLexeme(ctx, "scanf(\"%lf\", &{2});\n", "scanf(\"%lf\", &", 2, ");\n");
  }

  /** The `verifyIdAlreadyDefined` of rule 12 on a declared variable. */
  lemma ReadBranch(ctx: SemContext, op: Op)
    requires op == VerifyId(2, Report(UNDECLARED), ReadInto, Raise(NOT_IN_TABLE))
    requires 2 <= |ctx.stack| && IsTyped(ctx, ctx.stack[|ctx.stack| - 2].lexema)
    ensures var id := ctx.stack[|ctx.stack| - 2];
      Apply(op, ctx) == PrintRead(ctx, id.(tipo := ctx.symbolTable[id.lexema].tipo))
  {
    var id := ctx.stack[|ctx.stack| - 2];
    var node := id.(tipo := ctx.symbolTable[id.lexema].tipo);
    assert LookupId(ctx, 2) == Typed(node);
    VerifyIdRuns(ctx, 2, Report(UNDECLARED), ReadInto, Raise(NOT_IN_TABLE), Typed(node));
    ReadIntoRuns(ctx, node, 2);
  }

  /** The printing branch of rule 12 against the reference statements. */
  lemma PrintReadText(ctx: SemContext, node: Token)
    requires 2 <= |ctx.stack|
    ensures match ReadStatement(node.tipo, ctx.stack[|ctx.stack| - 2].lexema)
      case None => PrintRead(ctx, node) == Thrown(IMPOSSIBLE_TYPE)
      case Some(text) => PrintRead(ctx, node) == Done(ctx.(textObject := ctx.textObject + " " + text))
  {
    var t := ToLower(node.tipo);
    if t == "literal" {
      ScanfString(ctx);
    } else if t == "inteiro" {
      ScanfInt(ctx);
    } else if t == "real" {
      ScanfDouble(ctx);
    }
  }

  /** Reading a declared variable appends the `scanf` for the type in its
      entry and reduces; a type without a `scanf` is an internal error. */
  lemma Rule12Read(ctx: SemContext)
    requires Reducible(ctx) && 2 <= |ctx.stack|
    requires IsTyped(ctx, ctx.stack[|ctx.stack| - 2].lexema)
    ensures var id := ctx.stack[|ctx.stack| - 2];
      match ReadStatement(ctx.symbolTable[id.lexema].tipo, id.lexema)
      case None => Analyze(12, ctx) == Thrown(IMPOSSIBLE_TYPE)
      case Some(text) => PrintsAndReduces(12, ctx, text)
  {
    var op := VerifyId(2, Report(UNDECLARED), ReadInto, Raise(NOT_IN_TABLE));
    var id := ctx.stack[|ctx.stack| - 2];
    ReadBranch(ctx, op);
    PrintReadText(ctx, id.(tipo := ctx.symbolTable[id.lexema].tipo));
    OneThenReduce(12, ctx, op);
  }

  /** Reading a variable that was never declared logs the error and only
      reduces; an id missing from the table is an internal error. */
  lemma Rule12Undeclared(ctx: SemContext)
    requires Reducible(ctx) && 2 <= |ctx.stack|
    ensures var id := ctx.stack[|ctx.stack| - 2];
      && (id.lexema !in ctx.symbolTable ==> Analyze(12, ctx) == Thrown(NOT_IN_TABLE))
      && (IsUntyped(ctx, id.lexema) ==>
            Analyze(12, ctx) == Done(ReportError(ctx, UNDECLARED, id).(stack := ReducedStack(ctx))))
  {
    var op := VerifyId(2, Report(UNDECLARED), ReadInto, Raise(NOT_IN_TABLE));
    var id := ctx.stack[|ctx.stack| - 2];
    Rule12Runs(ctx, op);
    if id.lexema !in ctx.symbolTable {
      AbsentBranch(ctx, op);
      ThrowStops(op, Reduction, ctx);
    } else if IsUntyped(ctx, id.lexema) {
      UntypedBranch(ctx, op);
      StepThenReduce(op, ctx, ReportError(ctx, UNDECLARED, id));
    }
  }

  /** Rule 12 is its lookup followed by the reduction. */
  lemma Rule12Runs(ctx: SemContext, op: Op)
    requires op == VerifyId(2, Report(UNDECLARED), ReadInto, Raise(NOT_IN_TABLE))
    ensures Analyze(12, ctx) == Sequence([op, Reduction], ctx)
  {
    RuleRuns(12, ctx, [op, Reduction]);
  }

  /** The lookup of rule 12 on an id missing from the table. */
  lemma AbsentBranch(ctx: SemContext, op: Op)
    requires op == VerifyId(2, Report(UNDECLARED), ReadInto, Raise(NOT_IN_TABLE))
    requires 2 <= |ctx.stack| && ctx.stack[|ctx.stack| - 2].lexema !in ctx.symbolTable
    ensures Apply(op, ctx) == Thrown(NOT_IN_TABLE)
  {
    assert LookupId(ctx, 2).Absent?;
  }

  /** The lookup of rule 12 on a variable that was never declared. */
  lemma UntypedBranch(ctx: SemContext, op: Op)
    requires op == VerifyId(2, Report(UNDECLARED), ReadInto, Raise(NOT_IN_TABLE))
    requires 2 <= |ctx.stack| && IsUntyped(ctx, ctx.stack[|ctx.stack| - 2].lexema)
    ensures Apply(op, ctx) == Done(ReportError(ctx, UNDECLARED, ctx.stack[|ctx.stack| - 2]))
    ensures ReportError(ctx, UNDECLARED, ctx.stack[|ctx.stack| - 2]).stack == ctx.stack
  {
    assert LookupId(ctx, 2) == Untyped(ctx.stack[|ctx.stack| - 2]);
  }

  // ---------------------------------------------------------------------
  // Rule 13: `ES -> escreva ARG pt_v`.
  // ---------------------------------------------------------------------

  /** The C statement that writes a constant: a literal is passed as it
      is, anything else is quoted. */
  function WriteConstant(tipo: string, name: string): string {
    if ToLower(tipo) == "literal" then "printf(" + name + ");\n" else "printf(\"" + name + "\");\n"
  }

  /** The C statement that writes a variable of the given type, if any. */
  function WriteVariable(tipo: string, name: string): Option<string> {
    var t := ToLower(tipo);
    if t == "literal" then Some("printf(\"%s\", " + name + ");\n")
    else if t == "inteiro" then Some("printf(\"%d\", &" + name + ");\n")
    else if t == "real" then Some("printf(\"%lf\", &" + name + ");\n")
    else None
  }

  /** The `printf` formats of rule 13, split around their placeholder. */
  lemma PrintfFormats()
    ensures "printf({2});\n" == "printf(" + Placeholder(2) + ");\n" && '{' !in "printf("
    ensures "printf(\"{2}\");\n" == "printf(\"" + Placeholder(2) + "\");\n" && '{' !in "printf(\""
    ensures "printf(\"%s\", {2});\n" == "printf(\"%s\", " + Placeholder(2) + ");\n" && '{' !in "printf(\"%s\", "
    ensures "printf(\"%d\", &{2});\n" == "printf(\"%d\", &" + Placeholder(2) + ");\n" && '{' !in "printf(\"%d\", &"
    ensures "printf(\"%lf\", &{2});\n" == "printf(\"%lf\", &" + Placeholder(2) + ");\n" && '{' !in "printf(\"%lf\", &"
  {
    Placeholders();
  }

  /** The five `printf` formats of rule 13, filled. */
  lemma PrintfBare(ctx: SemContext)
    requires 2 <= |ctx.stack|
    ensures Print(ctx, "printf({2});\n", [Index(2, Lexema)]).textObject
      == ctx.textObject + " " + ("printf(" + ctx.stack[|ctx.stack| - 2].lexema + ");\n")
  {
    PrintfFormats();
    PrintLexeme(ctx, "printf({2});\n", "printf(", 2, ");\n");
  }

  lemma PrintfQuoted(ctx: SemContext)
    requires 2 <= |ctx.stack|
    ensures Print(ctx, "printf(\"{2}\");\n", [Index(2, Lexema)]).textObject
      == ctx.textObject + " " + ("printf(\"" + ctx.stack[|ctx.stack| - 2].lexema + "\");\n")
  {
    PrintfFormats();
    PrintLexeme(ctx, "printf(\"{2}\");\n", "printf(\"", 2, "\");\n");
  }

  lemma PrintfString(ctx: SemContext)
    requires 2 <= |ctx.stack|
    ensures Print(ctx, "printf(\"%s\", {2});\n", [Index(2, Lexema)]).textObject
      == ctx.textObject + " " + ("printf(\"%s\", " + ctx.stack[|ctx.stack| - 2].lexema + ");\n")
  {
    PrintfFormats();
    PrintLexeme(ctx, "printf(\"%s\", {2});\n", "printf(\"%s\", ", 2, ");\n");
  }

  lemma PrintfInt(ctx: SemContext)
    requires 2 <= |ctx.stack|
    ensures Print(ctx, "printf(\"%d\", &{2});\n", [Index(2, Lexema)]).textObject
      == ctx.textObject + " " + ("printf(\"%d\", &" + ctx.stack[|ctx.stack| - 2].lexema + ");\n")
  {
    PrintfFormats();
    PrintLexeme(ctx, "printf(\"%d\", &{2});\n", "printf(\"%d\", &", 2, ");\n");
  }

  lemma PrintfDouble(ctx: SemContext)
    requires 2 <= |ctx.stack|
    ensures Print(ctx, "printf(\"%lf\", &{2});\n", [Index(2, Lexema)]).textObject
      == ctx.textObject + " " + ("printf(\"%lf\", &" + ctx.stack[|ctx.stack| - 2].lexema + ");\n")
  {
    PrintfFormats();
    PrintLexeme(ctx, "printf(\"%lf\", &{2});\n", "printf(\"%lf\", &", 2, ");\n");
  }

  /** The branches rules 12, 13 and 18 choose, one lemma per branch. */
  lemma WriteUntypedRuns(ctx: SemContext, node: Token, offset: Offset)
    requires offset <= |ctx.stack|
    ensures ApplyBranch(WriteUntyped, ctx, node, offset) == Done(PrintConstant(ctx, node))
  {
  }

  lemma WriteTypedRuns(ctx: SemContext, node: Token, offset: Offset)
    requires offset <= |ctx.stack|
    ensures ApplyBranch(WriteTyped, ctx, node, offset) == PrintVariable(ctx, node)
  {
  }

  lemma ReadIntoRuns(ctx: SemContext, node: Token, offset: Offset)
    requires offset <= |ctx.stack|
    ensures ApplyBranch(ReadInto, ctx, node, offset) == PrintRead(ctx, node)
  {
  }

  lemma AssignCheckedRuns(ctx: SemContext, node: Token, offset: Offset)
    requires offset <= |ctx.stack|
    ensures ApplyBranch(AssignChecked, ctx, node, offset) == CheckAssignment(ctx, node)
  {
  }

  lemma ConstantBranch(ctx: SemContext, op: Op)
    requires op == VerifyId(2, WriteUntyped, WriteTyped, WriteUntyped)
    requires 2 <= |ctx.stack| && !IsTyped(ctx, ctx.stack[|ctx.stack| - 2].lexema)
    ensures Apply(op, ctx) == Done(PrintConstant(ctx, ctx.stack[|ctx.stack| - 2]))
  {
    var arg := ctx.stack[|ctx.stack| - 2];
    if arg.lexema in ctx.symbolTable {
      assert LookupId(ctx, 2) == Untyped(arg);
      VerifyIdRuns(ctx, 2, WriteUntyped, WriteTyped, WriteUntyped, Untyped(arg));
    } else {
      assert LookupId(ctx, 2) == Absent(arg);
      VerifyIdRuns(ctx, 2, WriteUntyped, WriteTyped, WriteUntyped, Absent(arg));
    }
    WriteUntypedRuns(ctx, arg, 2);
  }

  /** The constant branch of rule 13 against the reference statements. */
  lemma PrintConstantText(ctx: SemContext, node: Token)
    requires 2 <= |ctx.stack|
    ensures PrintConstant(ctx, node)
      == ctx.(textObject := ctx.textObject + " " + WriteConstant(node.tipo, ctx.stack[|ctx.stack| - 2].lexema))
  {
    if ToLower(node.tipo) == "literal" {
      PrintfBare(ctx);
    } else {
      PrintfQuoted(ctx);
    }
  }

  /** Writing something that is not a declared variable (a constant, or
      an id whose type is still `NULO`) prints it as a constant, by the
      type its own node carries. */
  lemma Rule13Constant(ctx: SemContext)
    requires Reducible(ctx) && 2 <= |ctx.stack|
    requires !IsTyped(ctx, ctx.stack[|ctx.stack| - 2].lexema)
    ensures var arg := ctx.stack[|ctx.stack| - 2];
      PrintsAndReduces(13, ctx, WriteConstant(arg.tipo, arg.lexema))
  {
    var op := VerifyId(2, WriteUntyped, WriteTyped, WriteUntyped);
    ConstantBranch(ctx, op);
    PrintConstantText(ctx, ctx.stack[|ctx.stack| - 2]);
    OneThenReduce(13, ctx, op);
  }

  lemma WriteBranch(ctx: SemContext, op: Op)
    requires op == VerifyId(2, WriteUntyped, WriteTyped, WriteUntyped)
    requires 2 <= |ctx.stack| && IsTyped(ctx, ctx.stack[|ctx.stack| - 2].lexema)
    ensures var id := ctx.stack[|ctx.stack| - 2];
      Apply(op, ctx) == PrintVariable(ctx, id.(tipo := ctx.symbolTable[id.lexema].tipo))
  {
    var id := ctx.stack[|ctx.stack| - 2];
    var node := id.(tipo := ctx.symbolTable[id.lexema].tipo);
    assert LookupId(ctx, 2) == Typed(node);
    VerifyIdRuns(ctx, 2, WriteUntyped, WriteTyped, WriteUntyped, Typed(node));
    WriteTypedRuns(ctx, node, 2);
  }

  /** The variable branch of rule 13 against the reference statements. */
  lemma PrintVariableText(ctx: SemContext, node: Token)
    requires 2 <= |ctx.stack|
    ensures match WriteVariable(node.tipo, ctx.stack[|ctx.stack| - 2].lexema)
      case None => PrintVariable(ctx, node) == Done(ctx)
      case Some(text) => PrintVariable(ctx, node) == Done(ctx.(textObject := ctx.textObject + " " + text))
  {
    var t := ToLower(node.tipo);
    if t == "literal" {
      PrintfString(ctx);
    } else if t == "inteiro" {
      PrintfInt(ctx);
    } else if t == "real" {
      PrintfDouble(ctx);
    }
  }

  /** Writing a declared variable prints it with the format of the type in
      its entry; a type without a format prints nothing. */
  lemma Rule13Variable(ctx: SemContext)
    requires Reducible(ctx) && 2 <= |ctx.stack|
    requires IsTyped(ctx, ctx.stack[|ctx.stack| - 2].lexema)
    ensures var id := ctx.stack[|ctx.stack| - 2];
      match WriteVariable(ctx.symbolTable[id.lexema].tipo, id.lexema)
      case None => Analyze(13, ctx) == Done(ctx.(stack := ReducedStack(ctx)))
      case Some(text) => PrintsAndReduces(13, ctx, text)
  {
    var op := VerifyId(2, WriteUntyped, WriteTyped, WriteUntyped);
    var id := ctx.stack[|ctx.stack| - 2];
    WriteBranch(ctx, op);
    PrintVariableText(ctx, id.(tipo := ctx.symbolTable[id.lexema].tipo));
    OneThenReduce(13, ctx, op);
  }

  // ---------------------------------------------------------------------
  // Rules 16 and 21: an id used as an operand or in a condition.
  // ---------------------------------------------------------------------

  /** Using an id checks that it was declared: an undeclared one is
      reported, and either way the rule reduces. */
  lemma Rule16And21(rule: int, ctx: SemContext)
    requires rule == 16 || rule == 21
    requires Reducible(ctx)
    ensures var id := ctx.stack[|ctx.stack| - 1];
      && (id.lexema !in ctx.symbolTable ==> Analyze(rule, ctx) == Thrown(NOT_IN_TABLE))
      && (IsUntyped(ctx, id.lexema) ==>
            Analyze(rule, ctx) == Done(ReportError(ctx, UNDECLARED, id).(stack := ReducedStack(ctx))))
      && (IsTyped(ctx, id.lexema) ==> Analyze(rule, ctx) == Done(ctx.(stack := ReducedStack(ctx))))
  {
    var op := VerifyId(1, Report(UNDECLARED), Keep, Raise(NOT_IN_TABLE));
    var id := ctx.stack[|ctx.stack| - 1];
    assert Actions(rule) == [op, Reduction];
    if id.lexema !in ctx.symbolTable {
      ThrowStops(op, Reduction, ctx);
    } else if IsUntyped(ctx, id.lexema) {
      StepThenReduce(op, ctx, ReportError(ctx, UNDECLARED, id));
    } else {
      StepThenReduce(op, ctx, ctx);
    }
  }

  // ---------------------------------------------------------------------
  // Rule 18: `CMD -> id rcb LD pt_v`.
  // ---------------------------------------------------------------------

  lemma NoBraceJoin(a: string, b: string)
    requires '{' !in a && '{' !in b
    ensures '{' !in a + b
  {
    assert forall i :: 0 <= i < |a + b| ==> (a + b)[i] == if i < |a| then a[i] else b[i - |a|];
  }

  /** The assignment format, split around each placeholder. */
  lemma AssignFormat()
    ensures "{4} = {2};\n" == "" + Placeholder(4) + " = {2};\n" && '{' !in ""
    ensures " = {2};\n" == " = " + Placeholder(2) + ";\n" && '{' !in " = "
  {
    Placeholders();
  }

  lemma AssignTarget(s: seq<Token>, format: string)
    requires format == "{4} = {2};\n" && 4 <= |s|
    ensures Fill(format, [Index(4, Lexema)], s) == s[|s| - 4].lexema + " = {2};\n"
  {
    AssignFormat();
    FillOne("", 4, Lexema, " = {2};\n", s);
    EmptyJoin(s[|s| - 4].lexema);
  }

  lemma EmptyJoin(x: string)
    ensures "" + x == x
  {
  }

  lemma AssignValue(target: string, s: seq<Token>, rest: string)
    requires rest == " = {2};\n" && 2 <= |s| && '{' !in target
    ensures Fill(target + rest, [Index(2, Lexema)], s) == target + " = " + s[|s| - 2].lexema + ";\n"
  {
    var before := target + " = ";
    AssignFormat();
    assert target + rest == before + Placeholder(2) + ";\n";
    assert '{' !in before by {
      NoBraceJoin(target, " = ");
    }
    FillOne(before, 2, Lexema, ";\n", s);
  }

  /** The assignment format, filled: the target replaces `{4}` first, so
      the result is as written when the target has no `{` (an identifier
      never has one). */
  lemma AssignText(ctx: SemContext, format: string)
    requires format == "{4} = {2};\n"
    requires 4 <= |ctx.stack| && '{' !in ctx.stack[|ctx.stack| - 4].lexema
    ensures var s := ctx.stack;
      Print(ctx, format, [Index(4, Lexema), Index(2, Lexema)]).textObject
      == ctx.textObject + " " + (s[|s| - 4].lexema + " = " + s[|s| - 2].lexema + ";\n")
  {
    var s := ctx.stack;
    FillTwo(format, Index(4, Lexema), Index(2, Lexema), s);
    AssignTarget(s, format);
    AssignValue(s[|s| - 4].lexema, s, " = {2};\n");
  }

  /** The context the assignment is printed from: the mismatch, if any,
      reported against the target carrying the type of its entry. Only
      the log and the flag can differ from the context given. */
  function Checked(ctx: SemContext): (r: SemContext)
    requires 4 <= |ctx.stack| && IsTyped(ctx, ctx.stack[|ctx.stack| - 4].lexema)
    ensures r == ctx.(log := r.log, shouldCreateOBJ := r.shouldCreateOBJ)
  {
    var s := ctx.stack;
    var target := s[|s| - 4];
    var node := target.(tipo := ctx.symbolTable[target.lexema].tipo);
    if ToLower(s[|s| - 2].tipo) != ToLower(node.tipo)
    then ReportError(ctx, ASSIGN_MISMATCH, node) else ctx
  }

  /** The type check of an assignment: a value whose type differs from
      the variable's, ignoring case, is reported at the target (and turns
      off the object file); a matching one leaves the context alone. */
  lemma AssignCheck(ctx: SemContext)
    requires 4 <= |ctx.stack| && IsTyped(ctx, ctx.stack[|ctx.stack| - 4].lexema)
    ensures var s := ctx.stack;
      var target := s[|s| - 4];
      var mismatch := ToLower(s[|s| - 2].tipo) != ToLower(ctx.symbolTable[target.lexema].tipo);
      && (mismatch ==> Checked(ctx).log == ctx.log + [ErrorMessage(ASSIGN_MISMATCH, target)] && !Checked(ctx).shouldCreateOBJ)
      && (!mismatch ==> Checked(ctx) == ctx)
  {
    var target := ctx.stack[|ctx.stack| - 4];
    assert ErrorMessage(ASSIGN_MISMATCH, target.(tipo := ctx.symbolTable[target.lexema].tipo)) == ErrorMessage(ASSIGN_MISMATCH, target);
  }

  lemma AssignBranch(ctx: SemContext, op: Op, format: string)
    requires op == VerifyId(4, Report(UNDECLARED), AssignChecked, Raise(NOT_IN_TABLE))
    requires format == "{4} = {2};\n"
    requires 4 <= |ctx.stack| && IsTyped(ctx, ctx.stack[|ctx.stack| - 4].lexema)
    ensures Apply(op, ctx) == Done(Print(Checked(ctx), format, [Index(4, Lexema), Index(2, Lexema)]))
  {
    var s := ctx.stack;
    var target := s[|s| - 4];
    var node := target.(tipo := ctx.symbolTable[target.lexema].tipo);
    TypedRuns(ctx, 4, Report(UNDECLARED), AssignChecked, Raise(NOT_IN_TABLE));
    AssignCheckedRuns(ctx, node, 4);
    CheckedAssignment(ctx, format);
  }

  lemma {:induction false} CheckedAssignment(ctx: SemContext, format: string)
    requires format == "{4} = {2};\n"
    requires 4 <= |ctx.stack| && IsTyped(ctx, ctx.stack[|ctx.stack| - 4].lexema)
    ensures var target := ctx.stack[|ctx.stack| - 4];
      CheckAssignment(ctx, target.(tipo := ctx.symbolTable[target.lexema].tipo))
        == Done(Print(Checked(ctx), format, [Index(4, Lexema), Index(2, Lexema)]))
  {
    var s := ctx.stack;
    var target := s[|s| - 4];
    var node := target.(tipo := ctx.symbolTable[target.lexema].tipo);
    assert At(s, -2) == Some(s[|s| - 2]);
    CheckAssignmentOn(ctx, node, s[|s| - 2], format);
  }

  lemma {:induction false} CheckAssignmentOn(ctx: SemContext, node: Token, ld: Token, format: string)
    requires format == "{4} = {2};\n"
    requires At(ctx.stack, -2) == Some(ld)
    ensures CheckAssignment(ctx, node)
      == Done(Print(if ToLower(ld.tipo) != ToLower(node.tipo) then ReportError(ctx, ASSIGN_MISMATCH, node) else ctx,
                    format, [Index(4, Lexema), Index(2, Lexema)]))
  {
  }

  /** The text rule 18 appends for a declared target. */
  function AssignStatement(ctx: SemContext): string
    requires 4 <= |ctx.stack|
  {
    var s := ctx.stack;
    s[|s| - 4].lexema + " = " + s[|s| - 2].lexema + ";\n"
  }

  lemma AssignRun(ctx: SemContext, ops: seq<Op>)
    requires ops == [VerifyId(4, Report(UNDECLARED), AssignChecked, Raise(NOT_IN_TABLE)), Reduction]
    requires Reducible(ctx) && 4 <= |ctx.stack|
    requires var target := ctx.stack[|ctx.stack| - 4];
      IsTyped(ctx, target.lexema) && '{' !in target.lexema
    ensures Sequence(ops, ctx)
      == Done(Checked(ctx).(stack := ReducedStack(ctx), textObject := ctx.textObject + " " + AssignStatement(ctx)))
  {
    var op := VerifyId(4, Report(UNDECLARED), AssignChecked, Raise(NOT_IN_TABLE));
    var format := "{4} = {2};\n";
    AssignBranch(ctx, op, format);
    AssignResult(ctx, format);
    StepThenReduce(op, ctx, Print(Checked(ctx), format, [Index(4, Lexema), Index(2, Lexema)]));
  }

  /** What rule 18 leaves before the reduction, and after it. */
  lemma {:induction false} AssignResult(ctx: SemContext, format: string)
    requires format == "{4} = {2};\n"
    requires Reducible(ctx) && 4 <= |ctx.stack|
    requires var target := ctx.stack[|ctx.stack| - 4];
      IsTyped(ctx, target.lexema) && '{' !in target.lexema
    ensures var p := Print(Checked(ctx), format, [Index(4, Lexema), Index(2, Lexema)]);
      && p.stack == ctx.stack
      && p.(stack := ReducedStack(ctx))
        == Checked(ctx).(stack := ReducedStack(ctx), textObject := ctx.textObject + " " + AssignStatement(ctx))
  {
    AssignText(Checked(ctx), format);
  }

  /** Assigning to a declared variable appends `target = value;` to the
      context the type check leaves (see `AssignCheck`): the statement is
      printed whether or not the types agree. */
  lemma Rule18Assign(ctx: SemContext)
    requires Reducible(ctx) && 4 <= |ctx.stack|
    requires var target := ctx.stack[|ctx.stack| - 4];
      IsTyped(ctx, target.lexema) && '{' !in target.lexema
    ensures Analyze(18, ctx)
      == Done(Checked(ctx).(stack := ReducedStack(ctx), textObject := ctx.textObject + " " + AssignStatement(ctx)))
  {
    var ops := [VerifyId(4, Report(UNDECLARED), AssignChecked, Raise(NOT_IN_TABLE)), Reduction];
    RuleRuns(18, ctx, ops);
    AssignRun(ctx, ops);
  }

  /** Assigning to an undeclared variable reports it and prints nothing. */
  lemma Rule18Undeclared(ctx: SemContext)
    requires Reducible(ctx) && 4 <= |ctx.stack|
    ensures var id := ctx.stack[|ctx.stack| - 4];
      && (id.lexema !in ctx.symbolTable ==> Analyze(18, ctx) == Thrown(NOT_IN_TABLE))
      && (IsUntyped(ctx, id.lexema) ==>
            Analyze(18, ctx) == Done(ReportError(ctx, UNDECLARED, id).(stack := ReducedStack(ctx))))
  {
    var op := VerifyId(4, Report(UNDECLARED), AssignChecked, Raise(NOT_IN_TABLE));
    var id := ctx.stack[|ctx.stack| - 4];
    if id.lexema !in ctx.symbolTable {
      ThrowStops(op, Reduction, ctx);
    } else if IsUntyped(ctx, id.lexema) {
      StepThenReduce(op, ctx, ReportError(ctx, UNDECLARED, id));
    }
  }
}
