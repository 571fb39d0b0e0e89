/** Rules 6 and 7 of `src/semantic/semanticRules.ts`, the declaration of
    the ids of a list `TIPO id, ..., id;`: each id takes the type of the
    bottom-most node of the given class, in the symbol table and on the
    stack, and rule 6 prints its C declaration. */
module DeclLaws {
  import opened Common
  import opened SemanticStack
  import opened Semantic
  import opened SemanticLaws
  import opened RuleLaws

  /** The context once the id `offset` nodes from the top has class `ID`
      and type `tipo`, on the stack and in the symbol table. */
  function Declared(ctx: SemContext, offset: Offset, tipo: string): (r: SemContext)
    requires offset <= |ctx.stack|
    ensures var i := |ctx.stack| - offset;
      var name := ctx.stack[i].lexema;
      && |r.stack| == |ctx.stack|
      && r.stack[i] == ctx.stack[i].(classe := "ID", tipo := tipo)
      && (forall j :: 0 <= j < |ctx.stack| && j != i ==> r.stack[j] == ctx.stack[j])
      && r.symbolTable.Keys == ctx.symbolTable.Keys + {name}
      && r.symbolTable[name] == r.stack[i]
      && (forall k :: k in ctx.symbolTable && k != name ==> r.symbolTable[k] == ctx.symbolTable[k])
      && r == ctx.(stack := r.stack, symbolTable := r.symbolTable)
  {
    var i := |ctx.stack| - offset;
    var typed := ctx.stack[i].(classe := "ID", tipo := tipo);
    ctx.(stack := ctx.stack[i := typed], symbolTable := ctx.symbolTable[typed.lexema := typed])
  }

  /** The typing branch of `assignTypeFromLastNonTerminal` refuses a node
      that is not an `ID` and a stack without a node of class `nt`;
      otherwise it declares the id with the type of the bottom-most such
      node. */
  lemma TypeIdMeaning(ctx: SemContext, offset: Offset, nt: string)
    requires offset <= |ctx.stack|
    ensures var node := ctx.stack[|ctx.stack| - offset];
      && (node.classe != "ID" ==> TypeId(ctx, node, offset, nt) == Thrown(NOT_AN_ID))
      && (node.classe == "ID" && BottomMost(ctx.stack, nt).None? ==>
            TypeId(ctx, node, offset, nt) == Thrown(MissingNonTerminal(nt)))
      && (node.classe == "ID" && BottomMost(ctx.stack, nt).Some? ==>
            TypeId(ctx, node, offset, nt) == Done(Declared(ctx, offset, ctx.stack[BottomMost(ctx.stack, nt).value].tipo)))
  {
  }

  /** The type the declaration rules give the id: the one of the
      bottom-most node of class `nt`. */
  function DeclaredType(ctx: SemContext, nt: string): string
    requires BottomMost(ctx.stack, nt).Some?
  {
    ctx.stack[BottomMost(ctx.stack, nt).value].tipo
  }

  /** Every way the typing step of the declaration rules refuses: the id
      is not in the table, is not an `ID`, or there is no node of class
      `nt` to take the type from. */
  predicate Refused(ctx: SemContext, offset: Offset, nt: string, o: Outcome<SemContext>)
    requires offset <= |ctx.stack|
  {
    var id := ctx.stack[|ctx.stack| - offset];
    && (id.lexema !in ctx.symbolTable ==> o == Thrown(NOT_IN_TABLE))
    && (IsUntyped(ctx, id.lexema) && id.classe != "ID" ==> o == Thrown(NOT_AN_ID))
    && (IsUntyped(ctx, id.lexema) && id.classe == "ID" && BottomMost(ctx.stack, nt).None? ==>
          o == Thrown(MissingNonTerminal(nt)))
  }

  /** `assignTypeFromLastNonTerminal(nt, offset)`: an untyped `ID` is
      declared with the type of the bottom-most `nt` node, a typed one is
      reported as declared twice, and the rest is refused. */
  lemma AssignTypeMeaning(ctx: SemContext, offset: Offset, nt: string)
    requires offset <= |ctx.stack|
    ensures var id := ctx.stack[|ctx.stack| - offset];
      var o := Apply(AssignType(nt, offset), ctx);
      && Refused(ctx, offset, nt, o)
      && (IsUntyped(ctx, id.lexema) && id.classe == "ID" && BottomMost(ctx.stack, nt).Some? ==>
            o == Done(Declared(ctx, offset, DeclaredType(ctx, nt))))
      && (IsTyped(ctx, id.lexema) ==> o == Done(ReportError(ctx, ALREADY_DECLARED, id)))
  {
    var id := ctx.stack[|ctx.stack| - offset];
    if IsTyped(ctx, id.lexema) {
      AssignTypeTyped(ctx, offset, nt);
    } else if IsUntyped(ctx, id.lexema) {
      AssignTypeUntyped(ctx, offset, nt);
      TypeIdMeaning(ctx, offset, nt);
    } else {
      assert LookupId(ctx, offset) == Absent(id);
      VerifyIdRuns(ctx, offset, AssignFrom(nt), Report(ALREADY_DECLARED), Raise(NOT_IN_TABLE), Absent(id));
    }
  }

  /** The typing step on an id entered but still untyped runs the typing
      branch on the id's own node. */
  lemma AssignTypeUntyped(ctx: SemContext, offset: Offset, nt: string)
    requires offset <= |ctx.stack| && IsUntyped(ctx, ctx.stack[|ctx.stack| - offset].lexema)
    ensures Apply(AssignType(nt, offset), ctx) == TypeId(ctx, ctx.stack[|ctx.stack| - offset], offset, nt)
  {
    var id := ctx.stack[|ctx.stack| - offset];
    assert LookupId(ctx, offset) == Untyped(id);
    VerifyIdRuns(ctx, offset, AssignFrom(nt), Report(ALREADY_DECLARED), Raise(NOT_IN_TABLE), Untyped(id));
  }

  /** The typing branch on an `ID` with a node of class `nt` below. */
  lemma TypeIdDeclares(ctx: SemContext, offset: Offset, nt: string)
    requires offset <= |ctx.stack| && ctx.stack[|ctx.stack| - offset].classe == "ID"
    requires BottomMost(ctx.stack, nt).Some?
    ensures TypeId(ctx, ctx.stack[|ctx.stack| - offset], offset, nt) == Done(Declared(ctx, offset, DeclaredType(ctx, nt)))
  {
  }

  /** The typing step on an untyped `ID` with a node of class `nt` below
      declares it. */
  lemma AssignTypeDeclares(ctx: SemContext, offset: Offset, nt: string)
    requires offset <= |ctx.stack|
    requires var id := ctx.stack[|ctx.stack| - offset];
      IsUntyped(ctx, id.lexema) && id.classe == "ID" && BottomMost(ctx.stack, nt).Some?
    ensures Apply(AssignType(nt, offset), ctx) == Done(Declared(ctx, offset, DeclaredType(ctx, nt)))
  {
    AssignTypeUntyped(ctx, offset, nt);
    TypeIdDeclares(ctx, offset, nt);
  }

  // ---------------------------------------------------------------------
  // Rule 7: `L -> id`, the last id of the list.
  // ---------------------------------------------------------------------

  /** The format of rule 7, split around its placeholder. */
  lemma NameFormat()
    ensures "{1};\n" == "" + Placeholder(1) + ";\n" && '{' !in ""
  {
    Placeholders();
  }

  /** The format of rule 7, filled: the name on top and a semicolon. */
  lemma NameText(c: SemContext, format: string)
    requires format == "{1};\n" && 1 <= |c.stack|
    ensures Print(c, format, [Index(1, Lexema)]) == c.(textObject := c.textObject + " " + (c.stack[|c.stack| - 1].lexema + ";\n"))
  {
    NameFormat();
    PrintLexeme(c, format, "", 1, ";\n");
    assert "" + c.stack[|c.stack| - 1].lexema + ";\n" == c.stack[|c.stack| - 1].lexema + ";\n";
  }

  /** The operations of rule 7. */
  lemma Rule7Actions()
    ensures Actions(7) == [AssignType("TIPO", 1), Printer("{1};\n", [Index(1, Lexema)]), Reduction]
  {
  }

  /** Rule 7 declares the id on top with the type of the bottom-most
      `TIPO` node and prints its name to end the C declaration. */
  lemma Rule7Declare(ctx: SemContext)
    requires Reducible(ctx)
    requires var id := ctx.stack[|ctx.stack| - 1];
      IsUntyped(ctx, id.lexema) && id.classe == "ID" && BottomMost(ctx.stack, "TIPO").Some?
    ensures var c := Declared(ctx, 1, DeclaredType(ctx, "TIPO"));
      Analyze(7, ctx)
        == Done(c.(stack := ReducedStack(c), textObject := ctx.textObject + " " + (ctx.stack[|ctx.stack| - 1].lexema + ";\n")))
  {
    var c := Declared(ctx, 1, DeclaredType(ctx, "TIPO"));
    Rule7Actions();
    AssignTypeDeclares(ctx, 1, "TIPO");
    NameText(c, "{1};\n");
    TwoThenReduce(7, ctx, AssignType("TIPO", 1), Printer("{1};\n", [Index(1, Lexema)]), c);
  }

  /** An id declared before is reported, and rule 7 still prints its name
      and reduces; nothing is typed again. */
  lemma Rule7Redeclared(ctx: SemContext)
    requires Reducible(ctx)
    requires IsTyped(ctx, ctx.stack[|ctx.stack| - 1].lexema)
    ensures var id := ctx.stack[|ctx.stack| - 1];
      Analyze(7, ctx)
        == Done(ReportError(ctx, ALREADY_DECLARED, id).(stack := ReducedStack(ctx), textObject := ctx.textObject + " " + (id.lexema + ";\n")))
  {
    var id := ctx.stack[|ctx.stack| - 1];
    var r := ReportError(ctx, ALREADY_DECLARED, id);
    var d := r.(textObject := r.textObject + " " + (id.lexema + ";\n"));
    Rule7Actions();
    AssignTypeTyped(ctx, 1, "TIPO");
    ReportFrame(ctx, ALREADY_DECLARED, id);
    RedeclaredName(ctx);
    TwoDone(7, ctx, AssignType("TIPO", 1), Printer("{1};\n", [Index(1, Lexema)]), r, d);
  }

  /** The second step of rule 7 after a report prints the name. */
  lemma RedeclaredName(ctx: SemContext)
    requires Reducible(ctx)
    ensures var id := ctx.stack[|ctx.stack| - 1];
      var r := ReportError(ctx, ALREADY_DECLARED, id);
      Apply(Printer("{1};\n", [Index(1, Lexema)]), r) == Done(r.(textObject := r.textObject + " " + (id.lexema + ";\n")))
  {
    var r := ReportError(ctx, ALREADY_DECLARED, ctx.stack[|ctx.stack| - 1]);
    ReportFrame(ctx, ALREADY_DECLARED, ctx.stack[|ctx.stack| - 1]);
    NameText(r, "{1};\n");
  }

  /** Rule 7 throws when the id is not in the table, is not an `ID`, or
      there is no `TIPO` node. */
  lemma Rule7Refused(ctx: SemContext)
    requires Reducible(ctx)
    ensures Refused(ctx, 1, "TIPO", Analyze(7, ctx))
  {
    AssignTypeMeaning(ctx, 1, "TIPO");
    if !Apply(AssignType("TIPO", 1), ctx).Done? {
      FirstThrows(7, ctx, AssignType("TIPO", 1), Printer("{1};\n", [Index(1, Lexema)]), Reduction);
    }
  }

  // ---------------------------------------------------------------------
  // Rule 6: `L -> id vir L`, an id before the rest of the list.
  // ---------------------------------------------------------------------

  /** The C declaration of `name` for a type, compared lower-cased. */
  function DeclarationText(tipo: string, name: string): Option<string> {
    var t := ToLower(tipo);
    if t == "literal" then Some("literal " + name + ";\n")
    else if t == "inteiro" then Some("int " + name + ";\n")
    else if t == "real" then Some("double " + name + ";\n")
    else None
  }

  lemma DeclarationFormat(ctx: SemContext, format: string, prefix: string)
    requires 3 <= |ctx.stack| && format == prefix + "{3};\n" && '{' !in prefix
    ensures Print(ctx, format, [Index(3, Lexema)]).textObject
      == ctx.textObject + " " + (prefix + ctx.stack[|ctx.stack| - 3].lexema + ";\n")
  {
    Placeholders();
    PrintLexeme(ctx, format, prefix, 3, ";\n");
  }

  /** The printing branch of rule 6 against the reference declarations. */
  lemma PrintDeclarationText(ctx: SemContext, node: Token)
    requires 3 <= |ctx.stack|
    ensures match DeclarationText(node.tipo, ctx.stack[|ctx.stack| - 3].lexema)
      case None => PrintDeclaration(ctx, node) == Thrown(IMPOSSIBLE_DECLARATION)
      case Some(text) => PrintDeclaration(ctx, node) == Done(ctx.(textObject := ctx.textObject + " " + text))
  {
    var t := ToLower(node.tipo);
    if t == "literal" {
      DeclarationFormat(ctx, "literal {3};\n", "literal ");
    } else if t == "inteiro" {
      DeclarationFormat(ctx, "int {3};\n", "int ");
    } else if t == "real" {
      DeclarationFormat(ctx, "double {3};\n", "double ");
    }
  }

  /** The second step of rule 6 on a context `c` whose entry for the id
      has type `tipo`: still `NULO` is reported, a type with a C
      declaration prints it, and any other type is an internal error. */
  lemma DeclareStep(c: SemContext, tipo: string)
    requires 3 <= |c.stack|
    requires var name := c.stack[|c.stack| - 3].lexema; name in c.symbolTable && c.symbolTable[name].tipo == tipo
    ensures var id := c.stack[|c.stack| - 3];
      var o := Apply(VerifyId(3, Report(ALREADY_DECLARED), Declare, Raise(NOT_IN_TABLE)), c);
      && (tipo == "NULO" ==> o == Done(ReportError(c, ALREADY_DECLARED, id)))
      && (tipo != "NULO" && DeclarationText(tipo, id.lexema).None? ==> o == Thrown(IMPOSSIBLE_DECLARATION))
      && (DeclarationText(tipo, id.lexema).Some? ==>
            tipo != "NULO" && o == Done(c.(textObject := c.textObject + " " + DeclarationText(tipo, id.lexema).value)))
  {
    var id := c.stack[|c.stack| - 3];
    if tipo == "NULO" {
      assert LookupId(c, 3) == Untyped(id);
      VerifyIdRuns(c, 3, Report(ALREADY_DECLARED), Declare, Raise(NOT_IN_TABLE), Untyped(id));
      assert ToLower(tipo)[0] == 'n';
    } else {
      assert LookupId(c, 3) == Typed(id.(tipo := tipo));
      VerifyIdRuns(c, 3, Report(ALREADY_DECLARED), Declare, Raise(NOT_IN_TABLE), Typed(id.(tipo := tipo)));
      PrintDeclarationText(c, id.(tipo := tipo));
    }
  }

  /** The second step of rule 6 on an id whose entry is still `NULO`
      reports it. */
  lemma DeclareUnset(c: SemContext)
    requires 3 <= |c.stack|
    requires var name := c.stack[|c.stack| - 3].lexema; name in c.symbolTable && c.symbolTable[name].tipo == "NULO"
    ensures Apply(VerifyId(3, Report(ALREADY_DECLARED), Declare, Raise(NOT_IN_TABLE)), c)
      == Done(ReportError(c, ALREADY_DECLARED, c.stack[|c.stack| - 3]))
  {
    var id := c.stack[|c.stack| - 3];
    assert LookupId(c, 3) == Untyped(id);
    VerifyIdRuns(c, 3, Report(ALREADY_DECLARED), Declare, Raise(NOT_IN_TABLE), Untyped(id));
  }

  /** The operations of rule 6. */
  lemma Rule6Actions()
    ensures Actions(6) == [AssignType("L", 3), VerifyId(3, Report(ALREADY_DECLARED), Declare, Raise(NOT_IN_TABLE)), Reduction]
  {
  }

  /** An untyped `ID` under a bottom-most `L` node: the first step of rule
      6 declares it, and the second step sees the type it was given. */
  lemma Rule6First(ctx: SemContext)
    requires Reducible(ctx) && 3 <= |ctx.stack|
    requires var id := ctx.stack[|ctx.stack| - 3];
      IsUntyped(ctx, id.lexema) && id.classe == "ID" && BottomMost(ctx.stack, "L").Some?
    ensures var tipo := DeclaredType(ctx, "L");
      var c := Declared(ctx, 3, tipo);
      var name := c.stack[|c.stack| - 3].lexema;
      && Apply(AssignType("L", 3), ctx) == Done(c) && Reducible(c) && 3 <= |c.stack|
      && name == ctx.stack[|ctx.stack| - 3].lexema && name in c.symbolTable && c.symbolTable[name].tipo == tipo
      && c.textObject == ctx.textObject
  {
    AssignTypeDeclares(ctx, 3, "L");
  }

  /** Rule 6 declares the id before the comma with the type of the
      bottom-most `L` node, then prints its C declaration. */
  lemma Rule6Declare(ctx: SemContext)
    requires Reducible(ctx) && 3 <= |ctx.stack|
    requires var id := ctx.stack[|ctx.stack| - 3];
      IsUntyped(ctx, id.lexema) && id.classe == "ID" && BottomMost(ctx.stack, "L").Some?
    requires DeclarationText(DeclaredType(ctx, "L"), ctx.stack[|ctx.stack| - 3].lexema).Some?
    ensures var tipo := DeclaredType(ctx, "L");
      var c := Declared(ctx, 3, tipo);
      Reducible(c)
      && Analyze(6, ctx)
        == Done(c.(stack := ReducedStack(c), textObject := ctx.textObject + " " + DeclarationText(tipo, ctx.stack[|ctx.stack| - 3].lexema).value))
  {
    var tipo := DeclaredType(ctx, "L");
    var c := Declared(ctx, 3, tipo);
    var text := DeclarationText(tipo, ctx.stack[|ctx.stack| - 3].lexema).value;
    Rule6Actions();
    Rule6First(ctx);
    DeclareStep(c, tipo);
    TwoDone(6, ctx, AssignType("L", 3), VerifyId(3, Report(ALREADY_DECLARED), Declare, Raise(NOT_IN_TABLE)), c, c.(textObject := c.textObject + " " + text));
  }

  /** A bottom-most `L` node whose type is still `NULO` makes rule 6
      report the id it has just entered as declared twice. */
  lemma {:induction false} Rule6Unset(ctx: SemContext)
    requires Reducible(ctx) && 3 <= |ctx.stack|
    requires var id := ctx.stack[|ctx.stack| - 3];
      IsUntyped(ctx, id.lexema) && id.classe == "ID" && BottomMost(ctx.stack, "L").Some?
    requires DeclaredType(ctx, "L") == "NULO"
    ensures var c := Declared(ctx, 3, "NULO");
      Reducible(c)
      && Analyze(6, ctx) == Done(ReportError(c, ALREADY_DECLARED, ctx.stack[|ctx.stack| - 3]).(stack := ReducedStack(c)))
  {
    var c := Declared(ctx, 3, "NULO");
    var id := ctx.stack[|ctx.stack| - 3];
    Rule6Actions();
    Rule6First(ctx);
    DeclareUnset(c);
    ReportSamePlace(c, ALREADY_DECLARED, c.stack[|c.stack| - 3], id);
    TwoDone(6, ctx, AssignType("L", 3), VerifyId(3, Report(ALREADY_DECLARED), Declare, Raise(NOT_IN_TABLE)), c, ReportError(c, ALREADY_DECLARED, id));
  }

  /** A bottom-most `L` node whose type has no C declaration is an
      internal error. */
  lemma {:induction false} Rule6NoDeclaration(ctx: SemContext)
    requires Reducible(ctx) && 3 <= |ctx.stack|
    requires var id := ctx.stack[|ctx.stack| - 3];
      IsUntyped(ctx, id.lexema) && id.classe == "ID" && BottomMost(ctx.stack, "L").Some?
    requires DeclaredType(ctx, "L") != "NULO" && DeclarationText(DeclaredType(ctx, "L"), ctx.stack[|ctx.stack| - 3].lexema).None?
    ensures Analyze(6, ctx) == Thrown(IMPOSSIBLE_DECLARATION)
  {
    var c := Declared(ctx, 3, DeclaredType(ctx, "L"));
    Rule6Actions();
    Rule6First(ctx);
    DeclareStep(c, DeclaredType(ctx, "L"));
    TwoThrown(6, ctx, AssignType("L", 3), VerifyId(3, Report(ALREADY_DECLARED), Declare, Raise(NOT_IN_TABLE)), c, IMPOSSIBLE_DECLARATION);
  }

  /** The typing step on an id declared before reports it. */
  lemma {:induction false} AssignTypeTyped(ctx: SemContext, offset: Offset, nt: string)
    requires offset <= |ctx.stack| && IsTyped(ctx, ctx.stack[|ctx.stack| - offset].lexema)
    ensures Apply(AssignType(nt, offset), ctx) == Done(ReportError(ctx, ALREADY_DECLARED, ctx.stack[|ctx.stack| - offset]))
  {
    var id := ctx.stack[|ctx.stack| - offset];
    var node := id.(tipo := ctx.symbolTable[id.lexema].tipo);
    TypedRuns(ctx, offset, AssignFrom(nt), Report(ALREADY_DECLARED), Raise(NOT_IN_TABLE));
    assert ApplyBranch(Report(ALREADY_DECLARED), ctx, node, offset) == Done(ReportError(ctx, ALREADY_DECLARED, node));
    ReportSamePlace(ctx, ALREADY_DECLARED, node, id);
  }

  /** An id declared before: the first step of rule 6 reports it and
      leaves the stack and the table alone. */
  lemma {:induction false} Rule6RedeclaredFirst(ctx: SemContext)
    requires Reducible(ctx) && 3 <= |ctx.stack|
    requires IsTyped(ctx, ctx.stack[|ctx.stack| - 3].lexema)
    ensures var id := ctx.stack[|ctx.stack| - 3];
      var r := ReportError(ctx, ALREADY_DECLARED, id);
      && Apply(AssignType("L", 3), ctx) == Done(r)
      && Reducible(r) && r.stack == ctx.stack && r.symbolTable == ctx.symbolTable
      && r.textObject == ctx.textObject && ReducedStack(r) == ReducedStack(ctx)
  {
    AssignTypeTyped(ctx, 3, "L");
    ReportFrame(ctx, ALREADY_DECLARED, ctx.stack[|ctx.stack| - 3]);
  }

  /** The second step of rule 6 after a report, on a type without a C
      declaration. */
  lemma {:induction false} RedeclaredNoText(ctx: SemContext)
    requires 3 <= |ctx.stack|
    requires var id := ctx.stack[|ctx.stack| - 3];
      IsTyped(ctx, id.lexema) && DeclarationText(ctx.symbolTable[id.lexema].tipo, id.lexema).None?
    ensures var r := ReportError(ctx, ALREADY_DECLARED, ctx.stack[|ctx.stack| - 3]);
      Apply(VerifyId(3, Report(ALREADY_DECLARED), Declare, Raise(NOT_IN_TABLE)), r) == Thrown(IMPOSSIBLE_DECLARATION)
  {
    var id := ctx.stack[|ctx.stack| - 3];
    DeclareStep(ReportError(ctx, ALREADY_DECLARED, id), ctx.symbolTable[id.lexema].tipo);
  }

  /** An id declared before is reported by rule 6, whose second step then
      prints its C declaration again, with the type it already has. */
  lemma {:induction false} Rule6Redeclared(ctx: SemContext)
    requires Reducible(ctx) && 3 <= |ctx.stack|
    requires var id := ctx.stack[|ctx.stack| - 3];
      IsTyped(ctx, id.lexema) && DeclarationText(ctx.symbolTable[id.lexema].tipo, id.lexema).Some?
    ensures var id := ctx.stack[|ctx.stack| - 3];
      var r := ReportError(ctx, ALREADY_DECLARED, id);
      Analyze(6, ctx)
        == Done(r.(stack := ReducedStack(ctx), textObject := ctx.textObject + " " + DeclarationText(ctx.symbolTable[id.lexema].tipo, id.lexema).value))
  {
    var id := ctx.stack[|ctx.stack| - 3];
    var tipo := ctx.symbolTable[id.lexema].tipo;
    var r := ReportError(ctx, ALREADY_DECLARED, id);
    var text := DeclarationText(tipo, id.lexema).value;
    Rule6Actions();
    Rule6RedeclaredFirst(ctx);
    DeclareStep(r, tipo);
    TwoDone(6, ctx, AssignType("L", 3), VerifyId(3, Report(ALREADY_DECLARED), Declare, Raise(NOT_IN_TABLE)), r, r.(textObject := r.textObject + " " + text));
  }

  /** An id declared before with a type that has no C declaration ends
      rule 6 with an internal error. */
  lemma {:induction false} Rule6RedeclaredNoText(ctx: SemContext)
    requires Reducible(ctx) && 3 <= |ctx.stack|
    requires var id := ctx.stack[|ctx.stack| - 3];
      IsTyped(ctx, id.lexema) && DeclarationText(ctx.symbolTable[id.lexema].tipo, id.lexema).None?
    ensures Analyze(6, ctx) == Thrown(IMPOSSIBLE_DECLARATION)
  {
    var id := ctx.stack[|ctx.stack| - 3];
    var r := ReportError(ctx, ALREADY_DECLARED, id);
    Rule6Actions();
    Rule6RedeclaredFirst(ctx);
    RedeclaredNoText(ctx);
    TwoThrown(6, ctx, AssignType("L", 3), VerifyId(3, Report(ALREADY_DECLARED), Declare, Raise(NOT_IN_TABLE)), r, IMPOSSIBLE_DECLARATION);
  }

  /** Rule 6 throws when the id is not in the table, is not an `ID`, or
      there is no `L` node. */
  lemma Rule6Refused(ctx: SemContext)
    requires Reducible(ctx) && 3 <= |ctx.stack|
    ensures Refused(ctx, 3, "L", Analyze(6, ctx))
  {
    AssignTypeMeaning(ctx, 3, "L");
    if !Apply(AssignType("L", 3), ctx).Done? {
      FirstThrows(6, ctx, AssignType("L", 3), VerifyId(3, Report(ALREADY_DECLARED), Declare, Raise(NOT_IN_TABLE)), Reduction);
    }
  }
}
