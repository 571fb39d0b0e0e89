/** Rules 19 and 26 of `src/semantic/semanticRules.ts`: an arithmetic or
    relational expression `OPRD op OPRD` is computed into a fresh
    temporary, whose name the reduced node then carries. */
module TempLaws {
  import opened Common
  import opened SemanticStack
  import opened Semantic
  import opened SemanticLaws

  /** A lexeme without `{`, so that no placeholder can occur inside it once
      it is filled into a format. */
  predicate Plain(s: string) {
    '{' !in s
  }

  /** The stack with the top node renamed `name`. */
  function Renamed(s: seq<Token>, name: string): (r: seq<Token>)
    requires |s| > 0
    ensures |r| == |s| && r[..|s| - 1] == s[..|s| - 1] && r[|s| - 1] == s[|s| - 1].(lexema := name)
  {
    s[..|s| - 1] + [s[|s| - 1].(lexema := name)]
  }

  /** The last operation of rules 19 and 26 renames only the top node, and
      moves `lastX` on by one. */
  lemma {:induction false} RenameMeaning(c: SemContext)
    requires |c.stack| > 0
    ensures ApplyRename(c) == c.(stack := Renamed(c.stack, TempLexeme(c)), lastX := c.lastX + 1)
  {
  }

  /** The reduction and the renaming after a first operation that left
      `c1`, whose name for the temporary is `name`. */
  lemma {:induction false} TempTail(ctx: SemContext, c1: SemContext, name: string)
    requires Reducible(ctx) && c1.stack == ctx.stack
    requires c1.amountToPop == ctx.amountToPop && c1.ruleSymbol == ctx.ruleSymbol
    requires c1.lastX == ctx.lastX && TempLexeme(c1) == name
    ensures |ReducedStack(ctx)| > 0
    ensures Then(Then(Done(c1), Reduction), RenameTemp)
      == Done(c1.(stack := Renamed(ReducedStack(ctx), name), lastX := ctx.lastX + 1))
  {
    var c2 := c1.(stack := ReducedStack(ctx));
    ReduceFrame(c1, ctx);
    ThenReduction(c1, c2);
    SameLexeme(c2, c1);
    ThenRenamed(c2, name);
    UpdateTwice(c1, ReducedStack(ctx), Renamed(ReducedStack(ctx), name), ctx.lastX + 1);
  }

  lemma {:induction false} SameLexeme(c: SemContext, d: SemContext)
    requires c.lastX == d.lastX && c.temporaries == d.temporaries
    ensures TempLexeme(c) == TempLexeme(d)
  {
  }

  lemma {:induction false} ThenReduction(c: SemContext, c2: SemContext)
    requires DoReduction(c) == Done(c2)
    ensures Then(Done(c), Reduction) == Done(c2)
  {
  }

  /** The renaming of a context whose name for the temporary is `name`. */
  lemma {:induction false} ThenRenamed(c: SemContext, name: string)
    requires |c.stack| > 0 && TempLexeme(c) == name
    ensures Then(Done(c), RenameTemp) == Done(c.(stack := Renamed(c.stack, name), lastX := c.lastX + 1))
  {
    RenameMeaning(c);
  }

  lemma {:induction false} UpdateTwice(c: SemContext, s1: seq<Token>, s2: seq<Token>, x: int)
    ensures c.(stack := s1).(stack := s2, lastX := x) == c.(stack := s2, lastX := x)
  {
  }

  /** The operations of rules 19 and 26. */
  lemma {:induction false} TempActions()
    ensures Actions(19) == [Arithmetic, Reduction, RenameTemp]
    ensures Actions(26) == [Relational, Reduction, RenameTemp]
  {
  }

  /** The first operation of rule `rule` left `c1` on the same stack and
      reduction, and the rule goes on to reduce and rename. */
  predicate FirstStep(rule: int, ctx: SemContext, first: Op, c1: SemContext) {
    && Actions(rule) == [first, Reduction, RenameTemp]
    && Apply(first, ctx) == Done(c1)
    && c1.stack == ctx.stack && c1.amountToPop == ctx.amountToPop && c1.ruleSymbol == ctx.ruleSymbol
  }

  /** The first operation of rule 19 is `Arithmetic`. */
  lemma {:induction false} ArithFirst(ctx: SemContext, c1: SemContext)
    requires ApplyArithmetic(ctx) == Done(c1)
    requires c1.stack == ctx.stack && c1.amountToPop == ctx.amountToPop && c1.ruleSymbol == ctx.ruleSymbol
    ensures FirstStep(19, ctx, Arithmetic, c1)
  {
    TempActions();
    assert Apply(Arithmetic, ctx) == ApplyArithmetic(ctx);
  }

  /** The first operation of rule 26 is `Relational`. */
  lemma {:induction false} RelFirst(ctx: SemContext, c1: SemContext)
    requires ApplyRelational(ctx) == Done(c1)
    requires c1.stack == ctx.stack && c1.amountToPop == ctx.amountToPop && c1.ruleSymbol == ctx.ruleSymbol
    ensures FirstStep(26, ctx, Relational, c1)
  {
    TempActions();
    assert Apply(Relational, ctx) == ApplyRelational(ctx);
  }

  /** Rules 19 and 26 once their first operation left `c1`, whose name for
      the temporary is `name`. */
  lemma {:induction false} TempRule(rule: int, ctx: SemContext, first: Op, c1: SemContext, name: string)
    requires Reducible(ctx) && FirstStep(rule, ctx, first, c1)
    requires c1.lastX == ctx.lastX && TempLexeme(c1) == name
    ensures |ReducedStack(ctx)| > 0
    ensures Analyze(rule, ctx) == Done(c1.(stack := Renamed(ReducedStack(ctx), name), lastX := ctx.lastX + 1))
  {
    RuleRuns(rule, ctx, [first, Reduction, RenameTemp]);
    Steps3(first, Reduction, RenameTemp, ctx);
    TempTail(ctx, c1, name);
  }

  /** A context that registered `temp` at `lastX` names the node after it. */
  lemma {:induction false} NamedLexeme(c: SemContext, temp: Temp)
    requires c.lastX in c.temporaries && c.temporaries[c.lastX] == temp
    ensures TempLexeme(c) == temp.identifier
  {
  }

  /** The three nodes on top of a stack that holds them. */
  lemma {:induction false} TopThree(s: seq<Token>)
    requires 3 <= |s|
    ensures At(s, -3) == Some(s[|s| - 3]) && At(s, -2) == Some(s[|s| - 2]) && At(s, -1) == Some(s[|s| - 1])
  {
  }

  /** With fewer than three nodes, rules 19 and 26 throw. */
  lemma {:induction false} ShortStack(ctx: SemContext)
    requires |ctx.stack| < 3
    ensures Analyze(19, ctx) == Thrown(OVERFLOW) && Analyze(26, ctx) == Thrown(OVERFLOW)
  {
    FirstThrows(19, ctx, Arithmetic, Reduction, RenameTemp);
    FirstThrows(26, ctx, Relational, Reduction, RenameTemp);
  }

  // ---------------------------------------------------------------------
  // Filling the formats.
  // ---------------------------------------------------------------------

  /** No `{` in the concatenation of three plain strings. */
  lemma {:induction false} PlainJoin(x: string, y: string, z: string)
    requires Plain(x) && Plain(y) && Plain(z)
    ensures Plain(x + y + z)
  {
    assert forall i :: 0 <= i < |x + y + z| ==> (x + y + z)[i] in x || (x + y + z)[i] in y || (x + y + z)[i] in z;
  }

  /** Regrouping a concatenation of five strings. */
  lemma {:induction false} Regroup(a: string, b: string, c: string, d: string, e: string)
    ensures a + b + c + d + e == a + b + (c + d + e)
    ensures a + b + c + d + e == (a + b + c) + d + e
  {
  }

  /** A format `p0{j}p1{k}p2` filled with the lexemes at `j` and `k`. */
  lemma {:induction false} FillGaps2(p0: string, p1: string, p2: string, j: Offset, k: Offset, s: seq<Token>)
    requires j <= |s| && k <= |s|
    requires Plain(p0) && Plain(p1) && Plain(s[|s| - j].lexema)
    ensures Fill(p0 + Placeholder(j) + p1 + Placeholder(k) + p2, [Index(j, Lexema), Index(k, Lexema)], s)
      == p0 + s[|s| - j].lexema + p1 + s[|s| - k].lexema + p2
  {
    var x, y := s[|s| - j].lexema, s[|s| - k].lexema;
    var pj, pk := Placeholder(j), Placeholder(k);
    var msg := p0 + pj + p1 + pk + p2;
    var once := p0 + x + p1 + pk + p2;
    FillTwo(msg, Index(j, Lexema), Index(k, Lexema), s);
    assert Fill(msg, [Index(j, Lexema)], s) == once by {
      Regroup(p0, pj, p1, pk, p2);
      Regroup(p0, x, p1, pk, p2);
      FillOne(p0, j, Lexema, p1 + pk + p2, s);
    }
    assert Fill(once, [Index(k, Lexema)], s) == p0 + x + p1 + y + p2 by {
      PlainJoin(p0, x, p1);
      Regroup(p0, x, p1, y, p2);
      FillOne(p0 + x + p1, k, Lexema, p2, s);
    }
  }

  /** A format `p0{i}p1{j}p2{k}p3` filled with the lexemes at `i`, `j`
      and `k`. */
  lemma {:induction false} FillGaps3(p0: string, p1: string, p2: string, p3: string, i: Offset, j: Offset, k: Offset, s: seq<Token>)
    requires i <= |s| && j <= |s| && k <= |s|
    requires Plain(p0) && Plain(p1) && Plain(p2) && Plain(s[|s| - i].lexema) && Plain(s[|s| - j].lexema)
    ensures Fill(p0 + Placeholder(i) + p1 + Placeholder(j) + p2 + Placeholder(k) + p3, [Index(i, Lexema), Index(j, Lexema), Index(k, Lexema)], s)
      == p0 + s[|s| - i].lexema + p1 + s[|s| - j].lexema + p2 + s[|s| - k].lexema + p3
  {
    var x := s[|s| - i].lexema;
    var pi, pj, pk := Placeholder(i), Placeholder(j), Placeholder(k);
    var rest := p2 + pk + p3;
    var msg := p0 + pi + p1 + pj + rest;
    var once := p0 + x + p1 + pj + rest;
    assert [Index(i, Lexema), Index(j, Lexema), Index(k, Lexema)] == [Index(i, Lexema)] + [Index(j, Lexema), Index(k, Lexema)];
    assert Fill(msg, [Index(i, Lexema)], s) == once by {
      Regroup(p0, pi, p1, pj, rest);
      Regroup(p0, x, p1, pj, rest);
      FillOne(p0, i, Lexema, p1 + pj + rest, s);
    }
    PlainJoin(p0, x, p1);
    FillGaps2(p0 + x + p1, p2, p3, j, k, s);
    Regroup(p0 + x + p1, pj, p2, pk, p3);
    Regroup(p0 + pi + p1, pj, p2, pk, p3);
    FillCons(msg, Index(i, Lexema), [Index(j, Lexema), Index(k, Lexema)], s);
  }

  /** Filling a non-empty list of indexes fills the first, then the rest. */
  lemma {:induction false} FillCons(msg: string, a: Index, rest: seq<Index>, s: seq<Token>)
    ensures Fill(msg, [a] + rest, s) == Fill(Fill(msg, [a], s), rest, s)
  {
    assert ([a] + rest)[1..] == rest;
    assert [a][1..] == [];
  }

  /** A temporary's name never holds a `{`. */
  lemma {:induction false} TempPlain(operand: Token, lastX: int, table: map<string, Token>)
    ensures Plain(NewTemp(operand, lastX, table).identifier)
  {
    NewTempShortest(operand, lastX, table);
    var n :| n >= 1 && NewTemp(operand, lastX, table).identifier == Ts(n) + IntToString(lastX);
    TempNoBrace(n, lastX);
  }

  /** Defining a temporary whose filled format is `text`. */
  lemma {:induction false} DefineTempText(ctx: SemContext, operand: Token, format: string -> string, indexes: seq<Index>, text: string)
    requires Fill(format(NewTemp(operand, ctx.lastX, ctx.symbolTable).identifier), indexes, ctx.stack) == text
    ensures var temp := NewTemp(operand, ctx.lastX, ctx.symbolTable);
      DefineTemp(ctx, operand, format, indexes)
        == ctx.(temporaries := ctx.temporaries[ctx.lastX := temp], textObject := ctx.textObject + " " + text)
  {
  }

  // ---------------------------------------------------------------------
  // Rule 19: `LD -> OPRD opm OPRD`.
  // ---------------------------------------------------------------------

  /** The C statement of rule 19: the temporary `name` gets the three
      nodes on top, in order. */
  function ArithStatement(name: string, s: seq<Token>): string
    requires 3 <= |s|
  {
    name + " = " + s[|s| - 3].lexema + " " + s[|s| - 2].lexema + " " + s[|s| - 1].lexema + ";\n"
  }

  lemma {:induction false} ArithFill(name: string, s: seq<Token>)
    requires 3 <= |s|
    requires Plain(name) && Plain(s[|s| - 3].lexema) && Plain(s[|s| - 2].lexema)
    ensures Fill(ArithFormat(name), [Index(3, Lexema), Index(2, Lexema), Index(1, Lexema)], s) == ArithStatement(name, s)
  {
    Placeholders();
    assert ArithFormat(name) == (name + " = ") + Placeholder(3) + " " + Placeholder(2) + " " + Placeholder(1) + ";\n";
    PlainJoin(name, " = ", "");
    FillGaps3(name + " = ", " ", " ", ";\n", 3, 2, 1, s);
  }

  /** The context once rule 19 has defined its temporary. */
  function ArithDefined(ctx: SemContext): SemContext
    requires 3 <= |ctx.stack|
  {
    var temp := NewTemp(ctx.stack[|ctx.stack| - 3], ctx.lastX, ctx.symbolTable);
    ctx.(temporaries := ctx.temporaries[ctx.lastX := temp],
         textObject := ctx.textObject + " " + ArithStatement(temp.identifier, ctx.stack))
  }

  /** Defining the temporary of rule 19 leaves the stack, the reduction
      and `lastX` as they were. */
  lemma {:induction false} ArithDefinedFields(ctx: SemContext, temp: Temp)
    requires 3 <= |ctx.stack| && temp == NewTemp(ctx.stack[|ctx.stack| - 3], ctx.lastX, ctx.symbolTable)
    ensures var c1 := ArithDefined(ctx);
      && c1.stack == ctx.stack && c1.amountToPop == ctx.amountToPop && c1.ruleSymbol == ctx.ruleSymbol
      && c1.lastX == ctx.lastX && ctx.lastX in c1.temporaries && c1.temporaries[ctx.lastX] == temp
  {
  }

  lemma {:induction false} ArithMismatchStep(ctx: SemContext)
    requires 3 <= |ctx.stack|
    requires ArithMismatch(ctx.stack[|ctx.stack| - 3].tipo, ctx.stack[|ctx.stack| - 1].tipo)
    ensures ApplyArithmetic(ctx) == Done(ReportError(ctx, ARITH_MISMATCH, ctx.stack[|ctx.stack| - 3]))
  {
    ArithOperands(ctx);
  }

  /** Rule 19 acts on the first and third nodes from the top. */
  lemma {:induction false} ArithOperands(ctx: SemContext)
    requires 3 <= |ctx.stack|
    ensures ApplyArithmetic(ctx) == Done(Arithmetic2(ctx, ctx.stack[|ctx.stack| - 3], ctx.stack[|ctx.stack| - 1]))
  {
    TopThree(ctx.stack);
    ArithUnfold(ctx, ctx.stack[|ctx.stack| - 3], ctx.stack[|ctx.stack| - 1]);
  }

  lemma {:induction false} ArithUnfold(ctx: SemContext, one: Token, two: Token)
    requires At(ctx.stack, -3) == Some(one) && At(ctx.stack, -1) == Some(two)
    ensures ApplyArithmetic(ctx) == Done(Arithmetic2(ctx, one, two))
  {
  }

  /** The temporary rule 19 defines, and the statement it prints. */
  lemma {:induction false} ArithDefineText(ctx: SemContext)
    requires 3 <= |ctx.stack|
    requires Plain(ctx.stack[|ctx.stack| - 3].lexema) && Plain(ctx.stack[|ctx.stack| - 2].lexema)
    ensures DefineTemp(ctx, ctx.stack[|ctx.stack| - 3], ArithFormat, [Index(3, Lexema), Index(2, Lexema), Index(1, Lexema)]) == ArithDefined(ctx)
  {
    var one := ctx.stack[|ctx.stack| - 3];
    var temp := NewTemp(one, ctx.lastX, ctx.symbolTable);
    TempPlain(one, ctx.lastX, ctx.symbolTable);
    ArithFill(temp.identifier, ctx.stack);
    DefineTempText(ctx, one, ArithFormat, [Index(3, Lexema), Index(2, Lexema), Index(1, Lexema)], ArithStatement(temp.identifier, ctx.stack));
  }

  /** Operands that match define a temporary. */
  lemma {:induction false} ArithMatch(ctx: SemContext, one: Token, two: Token)
    requires !ArithMismatch(one.tipo, two.tipo)
    ensures Arithmetic2(ctx, one, two) == DefineTemp(ctx, one, ArithFormat, [Index(3, Lexema), Index(2, Lexema), Index(1, Lexema)])
  {
  }

  lemma {:induction false} ArithDefineStep(ctx: SemContext)
    requires 3 <= |ctx.stack|
    requires !ArithMismatch(ctx.stack[|ctx.stack| - 3].tipo, ctx.stack[|ctx.stack| - 1].tipo)
    requires Plain(ctx.stack[|ctx.stack| - 3].lexema) && Plain(ctx.stack[|ctx.stack| - 2].lexema)
    ensures ApplyArithmetic(ctx) == Done(ArithDefined(ctx))
  {
    ArithOperands(ctx);
    ArithMatch(ctx, ctx.stack[|ctx.stack| - 3], ctx.stack[|ctx.stack| - 1]);
    ArithDefineText(ctx);
  }

  /** Operands whose types differ, or either of which is `literal`, are
      reported; the rule still reduces, names the node after the
      temporary at `lastX` (which it did not define) and moves `lastX` on. */
  lemma {:induction false} Rule19Mismatch(ctx: SemContext)
    requires Reducible(ctx) && 3 <= |ctx.stack|
    requires ArithMismatch(ctx.stack[|ctx.stack| - 3].tipo, ctx.stack[|ctx.stack| - 1].tipo)
    ensures |ReducedStack(ctx)| > 0
    ensures Analyze(19, ctx)
      == Done(ReportError(ctx, ARITH_MISMATCH, ctx.stack[|ctx.stack| - 3]).(
           stack := Renamed(ReducedStack(ctx), TempLexeme(ctx)), lastX := ctx.lastX + 1))
  {
    var c1 := ReportError(ctx, ARITH_MISMATCH, ctx.stack[|ctx.stack| - 3]);
    ArithMismatchStep(ctx);
    ArithFirst(ctx, c1);
    SameLexeme(c1, ctx);
    TempRule(19, ctx, Arithmetic, c1, TempLexeme(ctx));
  }

  /** Operands of the same numeric type define a fresh temporary at
      `lastX` and print `temp = a op b;`; the reduced node takes the
      temporary's name and `lastX` moves on. */
  lemma {:induction false} Rule19Defines(ctx: SemContext)
    requires Reducible(ctx) && 3 <= |ctx.stack|
    requires !ArithMismatch(ctx.stack[|ctx.stack| - 3].tipo, ctx.stack[|ctx.stack| - 1].tipo)
    requires Plain(ctx.stack[|ctx.stack| - 3].lexema) && Plain(ctx.stack[|ctx.stack| - 2].lexema)
    ensures |ReducedStack(ctx)| > 0
    ensures var temp := NewTemp(ctx.stack[|ctx.stack| - 3], ctx.lastX, ctx.symbolTable);
      Analyze(19, ctx)
        == Done(ArithDefined(ctx).(stack := Renamed(ReducedStack(ctx), temp.identifier), lastX := ctx.lastX + 1))
  {
    var temp := NewTemp(ctx.stack[|ctx.stack| - 3], ctx.lastX, ctx.symbolTable);
    var c1 := ArithDefined(ctx);
    ArithDefineStep(ctx);
    ArithDefinedFields(ctx, temp);
    ArithFirst(ctx, c1);
    NamedLexeme(c1, temp);
    TempRule(19, ctx, Arithmetic, c1, temp.identifier);
  }

  // ---------------------------------------------------------------------
  // Rule 26: `EXP_R -> OPRD opr OPRD`.
  // ---------------------------------------------------------------------

  /** The C statement of rule 26: the temporary `name` gets the comparison
      of the two operands, with `<>` written `==`. */
  function RelStatement(name: string, s: seq<Token>): string
    requires 3 <= |s|
  {
    name + " = " + s[|s| - 3].lexema + " " + RelOperator(s[|s| - 2].lexema) + " " + s[|s| - 1].lexema + ";\n"
  }

  lemma {:induction false} RelFill(name: string, s: seq<Token>)
    requires 3 <= |s|
    requires Plain(name) && Plain(s[|s| - 3].lexema) && Plain(s[|s| - 2].lexema)
    ensures Fill(RelFormat(RelOperator(s[|s| - 2].lexema))(name), [Index(3, Lexema), Index(1, Lexema)], s) == RelStatement(name, s)
  {
    var op := RelOperator(s[|s| - 2].lexema);
    assert Plain(op) by {
      if s[|s| - 2].lexema == "<>" { assert op == "=="; } else { assert op == s[|s| - 2].lexema; }
    }
    RelFormatSplit(op, name);
    PlainJoin(name, " = ", "");
    PlainJoin(" ", op, " ");
    FillGaps2(name + " = ", " " + op + " ", ";\n", 3, 1, s);
    RelRegroup(name, s[|s| - 3].lexema, op, s[|s| - 1].lexema);
  }

  /** The format of rule 26, split around its placeholders. */
  lemma {:induction false} RelFormatSplit(op: string, name: string)
    ensures RelFormat(op)(name) == (name + " = ") + Placeholder(3) + (" " + op + " ") + Placeholder(1) + ";\n"
  {
    Placeholders();
  }

  /** The filled format of rule 26, regrouped as its C statement. */
  lemma {:induction false} RelRegroup(name: string, x: string, op: string, y: string)
    ensures (name + " = ") + x + (" " + op + " ") + y + ";\n" == name + " = " + x + " " + op + " " + y + ";\n"
  {
  }

  /** `RelFill` needs its first operand to hold no `{`: a first operand
      spelled `{1}` is filled in before the second operand is, so the
      second operand's lexeme replaces the first operand's text. */
  lemma RelFillNeedsPlain(p: Pos)
    ensures var s := [Token("LIT", "literal", "{1}", p, p, None), Token("OPR", "NULO", ">", p, p, None),
                      Token("ID", "inteiro", "x", p, p, None)];
      Fill(RelFormat(">")("T0"), [Index(3, Lexema), Index(1, Lexema)], s) != RelStatement("T0", s)
  {
    var s := [Token("LIT", "literal", "{1}", p, p, None), Token("OPR", "NULO", ">", p, p, None),
              Token("ID", "inteiro", "x", p, p, None)];
    Placeholders();
    assert RelFormat(">")("T0") == "T0 = " + Placeholder(3) + " > {1};\n";
    ReplaceFirstSplit("T0 = ", Placeholder(3), " > {1};\n", "{1}");
    var once := "T0 = " + "{1}" + " > {1};\n";
    assert once == "T0 = " + Placeholder(1) + " > {1};\n";
    ReplaceFirstSplit("T0 = ", Placeholder(1), " > {1};\n", "x");
    var filled := "T0 = " + "x" + " > {1};\n";
    assert Fill(RelFormat(">")("T0"), [Index(3, Lexema), Index(1, Lexema)], s) == filled;
    assert RelStatement("T0", s) == "T0 = {1} > x;\n";
    assert filled[5] != RelStatement("T0", s)[5];
  }

  /** The context once rule 26 has defined its temporary. */
  function RelDefined(ctx: SemContext): SemContext
    requires 3 <= |ctx.stack|
  {
    var temp := NewTemp(ctx.stack[|ctx.stack| - 3], ctx.lastX, ctx.symbolTable);
    ctx.(temporaries := ctx.temporaries[ctx.lastX := temp],
         textObject := ctx.textObject + " " + RelStatement(temp.identifier, ctx.stack))
  }

  /** Rule 26 acts on the three nodes on top. */
  lemma {:induction false} RelOperands(ctx: SemContext)
    requires 3 <= |ctx.stack|
    ensures ApplyRelational(ctx) == Done(Relational3(ctx, ctx.stack[|ctx.stack| - 3], ctx.stack[|ctx.stack| - 2], ctx.stack[|ctx.stack| - 1]))
  {
    TopThree(ctx.stack);
    RelUnfold(ctx, ctx.stack[|ctx.stack| - 3], ctx.stack[|ctx.stack| - 2], ctx.stack[|ctx.stack| - 1]);
  }

  lemma {:induction false} RelUnfold(ctx: SemContext, one: Token, opr: Token, two: Token)
    requires At(ctx.stack, -3) == Some(one) && At(ctx.stack, -2) == Some(opr) && At(ctx.stack, -1) == Some(two)
    ensures ApplyRelational(ctx) == Done(Relational3(ctx, one, opr, two))
  {
  }

  /** Defining the temporary of rule 26 leaves the stack, the reduction
      and `lastX` as they were. */
  lemma {:induction false} RelDefinedFields(ctx: SemContext, temp: Temp)
    requires 3 <= |ctx.stack| && temp == NewTemp(ctx.stack[|ctx.stack| - 3], ctx.lastX, ctx.symbolTable)
    ensures var c1 := RelDefined(ctx);
      && c1.stack == ctx.stack && c1.amountToPop == ctx.amountToPop && c1.ruleSymbol == ctx.ruleSymbol
      && c1.lastX == ctx.lastX && ctx.lastX in c1.temporaries && c1.temporaries[ctx.lastX] == temp
  {
  }

  lemma {:induction false} RelMismatchStep(ctx: SemContext)
    requires 3 <= |ctx.stack|
    requires RelMismatch(ctx.stack[|ctx.stack| - 3].tipo, ctx.stack[|ctx.stack| - 1].tipo)
    ensures ApplyRelational(ctx) == Done(ReportError(ctx, REL_MISMATCH, ctx.stack[|ctx.stack| - 3]))
  {
    RelOperands(ctx);
  }

  /** The temporary rule 26 defines, and the statement it prints. */
  lemma {:induction false} RelDefineText(ctx: SemContext)
    requires 3 <= |ctx.stack|
    requires Plain(ctx.stack[|ctx.stack| - 3].lexema) && Plain(ctx.stack[|ctx.stack| - 2].lexema)
    ensures DefineTemp(ctx, ctx.stack[|ctx.stack| - 3], RelFormat(RelOperator(ctx.stack[|ctx.stack| - 2].lexema)), [Index(3, Lexema), Index(1, Lexema)])
      == RelDefined(ctx)
  {
    var one := ctx.stack[|ctx.stack| - 3];
    var temp := NewTemp(one, ctx.lastX, ctx.symbolTable);
    var op := RelOperator(ctx.stack[|ctx.stack| - 2].lexema);
    TempPlain(one, ctx.lastX, ctx.symbolTable);
    var text := RelStatement(temp.identifier, ctx.stack);
    RelFill(temp.identifier, ctx.stack);
    DefineTempText(ctx, one, RelFormat(op), [Index(3, Lexema), Index(1, Lexema)], text);
    RelDefinedAs(ctx, temp, text);
  }

  lemma {:induction false} RelDefinedAs(ctx: SemContext, temp: Temp, text: string)
    requires 3 <= |ctx.stack|
    requires temp == NewTemp(ctx.stack[|ctx.stack| - 3], ctx.lastX, ctx.symbolTable)
    requires text == RelStatement(temp.identifier, ctx.stack)
    ensures RelDefined(ctx) == ctx.(temporaries := ctx.temporaries[ctx.lastX := temp], textObject := ctx.textObject + " " + text)
  {
  }

  /** Operands that are not a `literal` against a number define a temporary. */
  lemma {:induction false} RelMatch(ctx: SemContext, one: Token, opr: Token, two: Token)
    requires !RelMismatch(one.tipo, two.tipo)
    ensures Relational3(ctx, one, opr, two) == DefineTemp(ctx, one, RelFormat(RelOperator(opr.lexema)), [Index(3, Lexema), Index(1, Lexema)])
  {
  }

  lemma {:induction false} RelDefineStep(ctx: SemContext)
    requires 3 <= |ctx.stack|
    requires !RelMismatch(ctx.stack[|ctx.stack| - 3].tipo, ctx.stack[|ctx.stack| - 1].tipo)
    requires Plain(ctx.stack[|ctx.stack| - 3].lexema) && Plain(ctx.stack[|ctx.stack| - 2].lexema)
    ensures ApplyRelational(ctx) == Done(RelDefined(ctx))
  {
    RelOperands(ctx);
    RelMatch(ctx, ctx.stack[|ctx.stack| - 3], ctx.stack[|ctx.stack| - 2], ctx.stack[|ctx.stack| - 1]);
    RelDefineText(ctx);
  }

  /** A `literal` compared with a number is reported; the rule still
      reduces and renames the node, and `lastX` moves on. */
  lemma {:induction false} Rule26Mismatch(ctx: SemContext)
    requires Reducible(ctx) && 3 <= |ctx.stack|
    requires RelMismatch(ctx.stack[|ctx.stack| - 3].tipo, ctx.stack[|ctx.stack| - 1].tipo)
    ensures |ReducedStack(ctx)| > 0
    ensures Analyze(26, ctx)
      == Done(ReportError(ctx, REL_MISMATCH, ctx.stack[|ctx.stack| - 3]).(
           stack := Renamed(ReducedStack(ctx), TempLexeme(ctx)), lastX := ctx.lastX + 1))
  {
    var c1 := ReportError(ctx, REL_MISMATCH, ctx.stack[|ctx.stack| - 3]);
    RelMismatchStep(ctx);
    RelFirst(ctx, c1);
    SameLexeme(c1, ctx);
    TempRule(26, ctx, Relational, c1, TempLexeme(ctx));
  }

  /** Any other pair of operands defines a fresh temporary holding the
      comparison, and the reduced node takes its name. */
  lemma {:induction false} Rule26Defines(ctx: SemContext)
    requires Reducible(ctx) && 3 <= |ctx.stack|
    requires !RelMismatch(ctx.stack[|ctx.stack| - 3].tipo, ctx.stack[|ctx.stack| - 1].tipo)
    requires Plain(ctx.stack[|ctx.stack| - 3].lexema) && Plain(ctx.stack[|ctx.stack| - 2].lexema)
    ensures |ReducedStack(ctx)| > 0
    ensures var temp := NewTemp(ctx.stack[|ctx.stack| - 3], ctx.lastX, ctx.symbolTable);
      Analyze(26, ctx)
        == Done(RelDefined(ctx).(stack := Renamed(ReducedStack(ctx), temp.identifier), lastX := ctx.lastX + 1))
  {
    var temp := NewTemp(ctx.stack[|ctx.stack| - 3], ctx.lastX, ctx.symbolTable);
    var c1 := RelDefined(ctx);
    RelDefineStep(ctx);
    RelDefinedFields(ctx, temp);
    RelFirst(ctx, c1);
    NamedLexeme(c1, temp);
    TempRule(26, ctx, Relational, c1, temp.identifier);
  }
}
