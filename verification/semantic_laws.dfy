/** What the semantic actions of `src/semantic/semanticRules.ts` do, rule by
    rule, stated in terms of the source program being compiled: which C
    text a reduction appends, when it reports an error, and how it changes
    the symbol table, the temporaries and the semantic stack. */
module SemanticLaws {
  import opened Common
  import opened SemanticStack
  import opened Semantic

  // ---------------------------------------------------------------------
  // Running operation lists.
  // ---------------------------------------------------------------------

  /** Runs one more operation after an outcome that did not throw. */
  function Then(o: Outcome<SemContext>, op: Op): Outcome<SemContext> {
    match o
    case Done(c) => Apply(op, c)
    case Thrown(m) => Thrown(m)
    case RangeError => RangeError
  }

  lemma Steps2(a: Op, b: Op, ctx: SemContext)
    ensures Sequence([a, b], ctx) == Then(Apply(a, ctx), b)
  {
    assert [a, b][1..] == [b];
    assert [b][1..] == [];
    if Apply(a, ctx).Done? {
      var c := Apply(a, ctx).value;
      assert Sequence([b], c) == Apply(b, c);
    }
  }

  lemma Steps3(a: Op, b: Op, c: Op, ctx: SemContext)
    ensures Sequence([a, b, c], ctx) == Then(Then(Apply(a, ctx), b), c)
  {
    assert [a, b, c][1..] == [b, c];
    if Apply(a, ctx).Done? {
      Steps2(b, c, Apply(a, ctx).value);
    }
  }

  /** A reduction only looks at the stack, the amount and the rule symbol. */
  lemma ReduceFrame(c: SemContext, d: SemContext)
    requires c.stack == d.stack && c.amountToPop == d.amountToPop && c.ruleSymbol == d.ruleSymbol
    ensures DoReduction(c).Done? <==> DoReduction(d).Done?
    ensures DoReduction(c).Done? ==> DoReduction(c).value == c.(stack := DoReduction(d).value.stack)
  {
  }

  /** The placeholders the rules use. */
  lemma Placeholders()
    ensures Placeholder(1) == "{1}" && Placeholder(2) == "{2}" && Placeholder(3) == "{3}" && Placeholder(4) == "{4}"
  {
  }

  /** A context a reduction applies to. */
  predicate Reducible(ctx: SemContext) {
    1 <= ctx.amountToPop <= |ctx.stack|
  }

  /** The stack after the reduction of the current rule. */
  function ReducedStack(ctx: SemContext): seq<Token>
    requires Reducible(ctx)
  {
    DoReduction(ctx).value.stack
  }

  // ---------------------------------------------------------------------
  // Rules without an entry; rules that only print.
  // ---------------------------------------------------------------------

  /** A rule without actions of its own performs the plain reduction. */
  lemma DefaultReduction(rule: int, ctx: SemContext)
    requires rule !in RULES
    ensures Analyze(rule, ctx) == DoReduction(ctx)
  {
  }

  /** The reduction of rule `rule` is the plain reduction with `fragment`
      appended to the object text after a space. */
  predicate PrintsAndReduces(rule: int, ctx: SemContext, fragment: string)
    requires Reducible(ctx)
  {
    Analyze(rule, ctx) == Done(ctx.(stack := ReducedStack(ctx), textObject := ctx.textObject + " " + fragment))
  }

  /** Rule 4 appends three line breaks after the declarations. */
  lemma Rule4(ctx: SemContext)
    requires Reducible(ctx)
    ensures PrintsAndReduces(4, ctx, "\n\n\n")
  {
    RuleRuns(4, ctx, [Printer("\n\n\n", []), Reduction]);
    PrintNothing(ctx, "\n\n\n");
    PrintThenReduce(ctx, "\n\n\n", [], "\n\n\n");
  }

  /** Rule 24 closes the block of a conditional with a brace. */
  lemma Rule24(ctx: SemContext)
    requires Reducible(ctx)
    ensures PrintsAndReduces(24, ctx, "}\n")
  {
    RuleRuns(24, ctx, [Printer("}\n", []), Reduction]);
    PrintNothing(ctx, "}\n");
    PrintThenReduce(ctx, "}\n", [], "}\n");
  }

  /** A format without indexes is printed as it is. */
  lemma {:induction false} PrintNothing(ctx: SemContext, format: string)
    ensures Print(ctx, format, []).textObject == ctx.textObject + " " + format
  {
  }

  /** Printing then reducing appends the printed text and reduces. */
  lemma PrintThenReduce(ctx: SemContext, format: string, indexes: seq<Index>, fragment: string)
    requires Reducible(ctx)
    requires Print(ctx, format, indexes).textObject == ctx.textObject + " " + fragment
    ensures Sequence([Printer(format, indexes), Reduction], ctx)
      == Done(ctx.(stack := ReducedStack(ctx), textObject := ctx.textObject + " " + fragment))
  {
    Steps2(Printer(format, indexes), Reduction, ctx);
    ReduceFrame(Print(ctx, format, indexes), ctx);
  }

  /** Reducing then printing likewise. */
  lemma ReduceThenPrint(ctx: SemContext, format: string, indexes: seq<Index>, fragment: string)
    requires Reducible(ctx)
    requires Print(DoReduction(ctx).value, format, indexes).textObject == ctx.textObject + " " + fragment
    ensures Sequence([Reduction, Printer(format, indexes)], ctx)
      == Done(ctx.(stack := ReducedStack(ctx), textObject := ctx.textObject + " " + fragment))
  {
    Steps2(Reduction, Printer(format, indexes), ctx);
  }

  /** The statement rule 25 opens for the condition `cond`. */
  function IfStatement(cond: string): string {
    "if (" + cond + ") {\n"
  }

  lemma IfRun(ctx: SemContext, ops: seq<Op>, format: string)
    requires Reducible(ctx) && 3 <= |ctx.stack|
    requires format == "if ({3}) {\n" && ops == [Printer(format, [Index(3, Lexema)]), Reduction]
    ensures Sequence(ops, ctx)
      == Done(ctx.(stack := ReducedStack(ctx), textObject := ctx.textObject + " " + IfStatement(ctx.stack[|ctx.stack| - 3].lexema)))
  {
    Placeholders();
    assert format == "if (" + Placeholder(3) + ") {\n";
    PrintLexeme(ctx, format, "if (", 3, ") {\n");
    PrintThenReduce(ctx, format, [Index(3, Lexema)], IfStatement(ctx.stack[|ctx.stack| - 3].lexema));
  }

  /** Rule 25 (`CAB -> se ( EXP_R ) entao`) opens an `if` on the condition,
      the third node from the top. */
  lemma Rule25(ctx: SemContext)
    requires Reducible(ctx) && 3 <= |ctx.stack|
    ensures PrintsAndReduces(25, ctx, IfStatement(ctx.stack[|ctx.stack| - 3].lexema))
  {
    var ops := Actions(25);
    RuleRuns(25, ctx, ops);
    IfRun(ctx, ops, "if ({3}) {\n");
  }

  /** Rules 8 and 9 print the C name of the type after reducing. */
  lemma Rule8And9(ctx: SemContext)
    requires Reducible(ctx)
    ensures PrintsAndReduces(8, ctx, "int")
    ensures PrintsAndReduces(9, ctx, "double")
  {
    var r := DoReduction(ctx).value;
    assert r.textObject == ctx.textObject;
    PrintNothing(r, "int");
    PrintNothing(r, "double");
    RuleRuns(8, ctx, [Reduction, Printer("int", [])]);
    ReduceThenPrint(ctx, "int", [], "int");
    RuleRuns(9, ctx, [Reduction, Printer("double", [])]);
    ReduceThenPrint(ctx, "double", [], "double");
  }

  lemma TypeText(r: SemContext)
    requires 1 <= |r.stack|
    ensures Print(r, "{1}", [Index(1, Tipo)]).textObject == r.textObject + " " + r.stack[|r.stack| - 1].tipo
  {
    Placeholders();
    assert "{1}" == "" + "{1}" + "";
    PrintOne(r, "", 1, Tipo, "");
  }

  /** Rule 10 prints the type of the reduced node, which is the type of
      the node that was on top. */
  lemma Rule10(ctx: SemContext)
    requires Reducible(ctx)
    ensures PrintsAndReduces(10, ctx, ctx.stack[|ctx.stack| - 1].tipo)
  {
    var r := DoReduction(ctx).value;
    TypeText(r);
    assert r.stack[|r.stack| - 1].tipo == ctx.stack[|ctx.stack| - 1].tipo;
    ReduceThenPrint(ctx, "{1}", [Index(1, Tipo)], ctx.stack[|ctx.stack| - 1].tipo);
    RuleRuns(10, ctx, [Reduction, Printer("{1}", [Index(1, Tipo)])]);
  }

  // ---------------------------------------------------------------------
  // Helpers for the rules that look at the stack first.
  // ---------------------------------------------------------------------

  /** Filling two indexes fills the first, then the second. */
  lemma FillTwo(msg: string, a: Index, b: Index, s: seq<Token>)
    ensures Fill(msg, [a, b], s) == Fill(Fill(msg, [a], s), [b], s)
  {
    assert [a, b][1..] == [b];
    assert [a][1..] == [];
  }

  /** A format with one placeholder, written out. */
  lemma PrintLexeme(ctx: SemContext, format: string, before: string, k: Offset, after: string)
    requires format == before + Placeholder(k) + after
    requires k <= |ctx.stack| && '{' !in before
    ensures Print(ctx, format, [Index(k, Lexema)]).textObject
      == ctx.textObject + " " + (before + ctx.stack[|ctx.stack| - k].lexema + after)
  {
    PrintOne(ctx, before, k, Lexema, after);
  }

  /** A rule with actions runs them in sequence. */
  lemma RuleRuns(rule: int, ctx: SemContext, ops: seq<Op>)
    requires ops == Actions(rule) && |ops| > 0
    ensures Analyze(rule, ctx) == Sequence(ops, ctx)
  {
  }

  /** An operation that leaves the stack as it is, then the reduction. */
  lemma StepThenReduce(op: Op, ctx: SemContext, c: SemContext)
    requires Reducible(ctx) && Apply(op, ctx) == Done(c) && c.stack == ctx.stack
    ensures Sequence([op, Reduction], ctx) == Done(c.(stack := ReducedStack(ctx)))
  {
    ApplyFollows(op, ctx);
    Steps2(op, Reduction, ctx);
    ReduceFrame(c, ctx);
  }

  /** A rule made of one operation and the reduction: the reduction runs
      on what the operation leaves, unless it throws. */
  lemma OneThenReduce(rule: int, ctx: SemContext, op: Op)
    requires Actions(rule) == [op, Reduction] && Reducible(ctx)
    ensures var first := Apply(op, ctx);
      && (first.Done? && first.value.stack == ctx.stack ==>
            Analyze(rule, ctx) == Done(first.value.(stack := ReducedStack(ctx))))
      && (!first.Done? ==> Analyze(rule, ctx) == first)
  {
    RuleRuns(rule, ctx, [op, Reduction]);
    if Apply(op, ctx).Done? {
      if Apply(op, ctx).value.stack == ctx.stack {
        StepThenReduce(op, ctx, Apply(op, ctx).value);
      }
    } else {
      ThrowStops(op, Reduction, ctx);
    }
  }

  /** A first operation that throws ends the rule. */
  lemma ThrowStops(a: Op, b: Op, ctx: SemContext)
    requires !Apply(a, ctx).Done?
    ensures Sequence([a, b], ctx) == Apply(a, ctx)
  {
    Steps2(a, b, ctx);
  }

  /** A rule made of two operations and the reduction, whose first
      operation left `c1`: the reduction runs on what the second leaves,
      unless it throws. */
  lemma TwoThenReduce(rule: int, ctx: SemContext, a: Op, b: Op, c1: SemContext)
    requires Actions(rule) == [a, b, Reduction] && Apply(a, ctx) == Done(c1) && Reducible(c1)
    ensures var second := Apply(b, c1);
      && (second.Done? && second.value.stack == c1.stack ==>
            Analyze(rule, ctx) == Done(second.value.(stack := ReducedStack(c1))))
      && (!second.Done? ==> Analyze(rule, ctx) == second)
  {
    RuleRuns(rule, ctx, [a, b, Reduction]);
    TwoSteps(ctx, a, b, c1);
  }

  /** Two operations and the reduction, the first of which left `c1`. */
  lemma TwoSteps(ctx: SemContext, a: Op, b: Op, c1: SemContext)
    requires Apply(a, ctx) == Done(c1) && Reducible(c1)
    ensures var second := Apply(b, c1);
      && (second.Done? && second.value.stack == c1.stack ==>
            Sequence([a, b, Reduction], ctx) == Done(second.value.(stack := ReducedStack(c1))))
      && (!second.Done? ==> Sequence([a, b, Reduction], ctx) == second)
  {
    Steps3(a, b, Reduction, ctx);
    if Apply(b, c1).Done? && Apply(b, c1).value.stack == c1.stack {
      ReduceAfter(b, c1);
    }
  }

  /** The reduction after an operation that left the stack as it was. */
  lemma ReduceAfter(b: Op, c1: SemContext)
    requires Reducible(c1) && Apply(b, c1).Done? && Apply(b, c1).value.stack == c1.stack
    ensures Then(Apply(b, c1), Reduction) == Done(Apply(b, c1).value.(stack := ReducedStack(c1)))
  {
    ApplyFollows(b, c1);
    ReduceFrame(Apply(b, c1).value, c1);
  }

  /** Two operations that leave `d` on the stack the first left, then the
      reduction. */
  lemma TwoDone(rule: int, ctx: SemContext, a: Op, b: Op, c1: SemContext, d: SemContext)
    requires Actions(rule) == [a, b, Reduction] && Apply(a, ctx) == Done(c1) && Reducible(c1)
    requires Apply(b, c1) == Done(d) && d.stack == c1.stack
    ensures Analyze(rule, ctx) == Done(d.(stack := ReducedStack(c1)))
  {
    TwoThenReduce(rule, ctx, a, b, c1);
  }

  /** A second operation that throws ends a rule of two operations and
      the reduction. */
  lemma TwoThrown(rule: int, ctx: SemContext, a: Op, b: Op, c1: SemContext, m: string)
    requires Actions(rule) == [a, b, Reduction] && Apply(a, ctx) == Done(c1) && Reducible(c1)
    requires Apply(b, c1) == Thrown(m)
    ensures Analyze(rule, ctx) == Thrown(m)
  {
    TwoThenReduce(rule, ctx, a, b, c1);
  }

  /** Reducing depends only on the stack, the count and the symbol. */
  lemma {:induction false} ReducedFrame(c: SemContext, d: SemContext)
    requires Reducible(d) && c.stack == d.stack && c.amountToPop == d.amountToPop && c.ruleSymbol == d.ruleSymbol
    ensures Reducible(c) && ReducedStack(c) == ReducedStack(d)
  {
    ReduceFrame(c, d);
  }

  /** A report leaves the stack, the table, the text and the reduction
      alone. */
  lemma {:induction false} ReportFrame(ctx: SemContext, message: string, node: Token)
    requires Reducible(ctx)
    ensures var r := ReportError(ctx, message, node);
      && Reducible(r) && r.stack == ctx.stack && r.symbolTable == ctx.symbolTable
      && r.textObject == ctx.textObject && ReducedStack(r) == ReducedStack(ctx)
  {
    ReducedFrame(ReportError(ctx, message, node), ctx);
  }

  /** The error report names only the node's position. */
  lemma {:induction false} ReportSamePlace(c: SemContext, message: string, a: Token, b: Token)
    requires a.start == b.start
    ensures ReportError(c, message, a) == ReportError(c, message, b)
  {
    assert ErrorMessage(message, a) == ErrorMessage(message, b);
  }

  /** The branch a typed lookup chooses, run on the typed node. */
  lemma {:induction false} TypedRuns(ctx: SemContext, offset: Offset, ifUntyped: Branch, ifTyped: Branch, ifAbsent: Branch)
    requires offset <= |ctx.stack|
    requires var name := ctx.stack[|ctx.stack| - offset].lexema; name in ctx.symbolTable && ctx.symbolTable[name].tipo != "NULO"
    ensures var id := ctx.stack[|ctx.stack| - offset];
      Apply(VerifyId(offset, ifUntyped, ifTyped, ifAbsent), ctx)
        == ApplyBranch(ifTyped, ctx, id.(tipo := ctx.symbolTable[id.lexema].tipo), offset)
  {
    var id := ctx.stack[|ctx.stack| - offset];
    var node := id.(tipo := ctx.symbolTable[id.lexema].tipo);
    assert LookupId(ctx, offset) == Typed(node);
    VerifyIdRuns(ctx, offset, ifUntyped, ifTyped, ifAbsent, Typed(node));
  }

  /** A lookup that finds its node runs the branch chosen for it. */
  lemma {:induction false} VerifyIdRuns(ctx: SemContext, offset: Offset, ifUntyped: Branch, ifTyped: Branch, ifAbsent: Branch, found: Lookup)
    requires LookupId(ctx, offset) == found && !found.Overflow?
    ensures offset <= |ctx.stack|
    ensures Apply(VerifyId(offset, ifUntyped, ifTyped, ifAbsent), ctx)
      == ApplyBranch(Chosen(found, ifUntyped, ifTyped, ifAbsent), ctx, found.node, offset)
  {
  }

  /** A first operation that throws ends a rule of three operations. */
  lemma FirstThrows(rule: int, ctx: SemContext, a: Op, b: Op, c: Op)
    requires Actions(rule) == [a, b, c] && !Apply(a, ctx).Done?
    ensures Analyze(rule, ctx) == Apply(a, ctx)
  {
    RuleRuns(rule, ctx, [a, b, c]);
    Steps3(a, b, c, ctx);
  }

  /** Temporary names are made of `t`s, digits and a sign, never `{`. */
  lemma {:induction false} TempNoBrace(n: nat, x: int)
    ensures '{' !in Ts(n) + IntToString(x)
  {
    TsLetters(n);
    assert '{' !in Ts(n);
    NumberNoBrace(x);
  }

  lemma {:induction false} NumberNoBrace(x: int)
    ensures '{' !in IntToString(x)
  {
    var magnitude: nat := if x >= 0 then x else -x;
    NatToStringRoundTrip(magnitude);
    assert '{' !in NatToString(magnitude);
  }
}
