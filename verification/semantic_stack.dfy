/** The building blocks of `src/semantic/semanticRules.ts`: the context a
    semantic action works on, the reduction of the semantic stack, the
    printer that appends C text to the object program, the symbol-table
    lookup, temporary names and the reporting of semantic errors. */
module SemanticStack {
  import opened Common

  const EMPTY_STACK := "Erro no semântico, pilha semantica vazia"
  const OVERFLOW := "Erro no semântico, pilha semantica extrapolada"
  const NOT_IN_TABLE := "Erro no semântico, tentando utilizar identificador não presente na tabela de simbolos"

  /** The C type of a temporary. */
  datatype CType = IntType | DoubleType | LiteralType

  datatype Temp = Temp(identifier: string, kind: CType)

  /** `SemanticContext`. The source writes semantic errors to the console;
      `log` collects those lines in order. */
  datatype SemContext = SemContext(
    ruleSymbol: string,
    amountToPop: int,
    ruleIndex: int,
    textObject: string,
    stack: seq<Token>,
    lastX: int,
    symbolTable: map<string, Token>,
    temporaries: map<int, Temp>,
    shouldCreateOBJ: bool,
    log: seq<string>
  )

  /** How a semantic step ends: with a value, with the message the source
      throws, or with the `RangeError` JavaScript raises for a negative
      array length. */
  datatype Outcome<T> = Done(value: T) | Thrown(message: string) | RangeError

  /** The offsets the rules address the stack with: `k` names the k-th node
      from the top. */
  type Offset = k: int | k >= 1 witness 1

  /** `s.at(i)`: a negative index counts from the end. */
  function At(s: seq<Token>, i: int): Option<Token> {
    var k := if i < 0 then |s| + i else i;
    if 0 <= k < |s| then Some(s[k]) else None
  }

  /** The k-th node from the top, if the stack holds that many. */
  lemma AtFromTop(s: seq<Token>, k: Offset)
    ensures At(s, -(k as int)).Some? <==> k <= |s|
    ensures k <= |s| ==> At(s, -(k as int)).value == s[|s| - k]
  {
  }

  // ---------------------------------------------------------------------
  // `joinLexemas`, `popFromStack` and `doReduction`.
  // ---------------------------------------------------------------------

  /** The lexemes of the nodes, concatenated in order. */
  function Lexemes(nodes: seq<Token>): string {
    if |nodes| == 0 then "" else nodes[0].lexema + Lexemes(nodes[1..])
  }

  /** One step of the `reduceRight` of `joinLexemas`. */
  function Merge(acc: Token, node: Token): Token {
    acc.(lexema := acc.lexema + node.lexema, tipo := node.tipo, end := node.end)
  }

  /** The `reduceRight` over the keys `k - 1` down to `0`: key `i` merges
      the node at `at(-1 - i)`, so the nodes of the top `k` positions are
      merged from the lowest to the top one. */
  function FoldNodes(s: seq<Token>, acc: Token, k: nat): (r: Token)
    requires k < |s|
    ensures r.lexema == acc.lexema + Lexemes(s[|s| - k..])
    ensures r.classe == acc.classe && r.start == acc.start && r.description == acc.description
    ensures k > 0 ==> r.tipo == s[|s| - 1].tipo && r.end == s[|s| - 1].end
    ensures k == 0 ==> r == acc
    decreases k
  {
    if k == 0 then acc
    else
      var r := FoldNodes(s, Merge(acc, s[|s| - k]), k - 1);
      assert s[|s| - k..][1..] == s[|s| - k + 1..];
      r
  }

  /** `joinLexemas(amount)`: a node spanning the top `amount` nodes. It
      throws when the stack holds fewer, and a non-positive amount that
      still addresses a node makes `Array(amount - 1)` raise. */
  function JoinLexemas(s: seq<Token>, amount: int): (r: Outcome<Token>)
    ensures r.Done? <==> 1 <= amount <= |s|
    ensures r.Thrown? ==> r.message == EMPTY_STACK
    ensures amount > |s| ==> r.Thrown?
    ensures r.Done? ==> var first := s[|s| - amount];
      && r.value.lexema == Lexemes(s[|s| - amount..])
      && r.value.tipo == s[|s| - 1].tipo && r.value.end == s[|s| - 1].end
      && r.value.classe == first.classe && r.value.start == first.start && r.value.description == first.description
  {
    match At(s, -amount)
    case None => Thrown(EMPTY_STACK)
    case Some(first) =>
      if amount - 1 < 0 then RangeError
      else
        var r := FoldNodes(s, first, amount - 1);
        assert s[|s| - amount..] == [first] + s[|s| - (amount - 1)..];
        Done(r)
  }

  /** `slice(0, -amount)`. */
  function PopFromStack(s: seq<Token>, amount: int): seq<Token> {
    if amount > 0 then (if amount <= |s| then s[..|s| - amount] else [])
    else if amount == 0 then []
    else if -amount <= |s| then s[..-amount]
    else s
  }

  /** `doReduction`: the top `amountToPop` nodes are replaced by one node of
      class `ruleSymbol` that spans them. Nodes below are untouched, and so
      is everything else in the context. */
  function DoReduction(ctx: SemContext): (r: Outcome<SemContext>)
    ensures r.Done? <==> 1 <= ctx.amountToPop <= |ctx.stack|
    ensures r.Thrown? ==> r.message == EMPTY_STACK
    ensures r.Done? ==> var n, s, s' := ctx.amountToPop, ctx.stack, r.value.stack;
      && |s'| == |s| - n + 1
      && s'[..|s| - n] == s[..|s| - n]
      && s'[|s| - n].classe == ctx.ruleSymbol
      && s'[|s| - n].lexema == Lexemes(s[|s| - n..])
      && s'[|s| - n].tipo == s[|s| - 1].tipo && s'[|s| - n].end == s[|s| - 1].end
      && s'[|s| - n].start == s[|s| - n].start
      && r.value == ctx.(stack := s')
  {
    match JoinLexemas(ctx.stack, ctx.amountToPop)
    case Done(node) => Done(ctx.(stack := PopFromStack(ctx.stack, ctx.amountToPop) + [node.(classe := ctx.ruleSymbol)]))
    case Thrown(m) => Thrown(m)
    case RangeError => RangeError
  }

  // ---------------------------------------------------------------------
  // `makePrinter`.
  // ---------------------------------------------------------------------

  datatype Field = Tipo | Lexema

  /** `[offset, field]`: replace `{offset}` by that field of the node at
      that offset from the top. */
  datatype Index = Index(offset: Offset, field: Field)

  function FieldOf(t: Token, f: Field): string {
    match f
    case Tipo => t.tipo
    case Lexema => t.lexema
  }

  /** The text `{k}`. */
  function Placeholder(k: int): string {
    "{" + IntToString(k) + "}"
  }

  /** The `reduce` of `makePrinter`: each index in turn replaces the first
      occurrence of its placeholder, unless the stack is too short for it. */
  function Fill(msg: string, indexes: seq<Index>, s: seq<Token>): string
    decreases |indexes|
  {
    if |indexes| == 0 then msg
    else
      var next := match At(s, -(indexes[0].offset as int))
        case None => msg
        case Some(a) => ReplaceFirst(msg, Placeholder(indexes[0].offset), FieldOf(a, indexes[0].field));
      Fill(next, indexes[1..], s)
  }

  /** `makePrinter(format, indexes)`: appends a space and the filled format
      to the object text, and changes nothing else. */
  function Print(ctx: SemContext, format: string, indexes: seq<Index>): (r: SemContext)
    ensures |r.textObject| > |ctx.textObject| && r.textObject[..|ctx.textObject|] == ctx.textObject
    ensures r == ctx.(textObject := r.textObject)
  {
    ctx.(textObject := ctx.textObject + " " + Fill(format, indexes, ctx.stack))
  }

  /** With one index whose node exists, and a format whose placeholder is
      preceded by no `{`, the printed text is the format with the field in
      place of the placeholder. */
  lemma PrintOne(ctx: SemContext, before: string, k: Offset, f: Field, after: string)
    requires k <= |ctx.stack| && '{' !in before
    ensures Print(ctx, before + Placeholder(k) + after, [Index(k, f)]).textObject
      == ctx.textObject + " " + (before + FieldOf(ctx.stack[|ctx.stack| - k], f) + after)
  {
    FillOne(before, k, f, after, ctx.stack);
  }

  lemma FillOne(before: string, k: Offset, f: Field, after: string, s: seq<Token>)
    requires k <= |s| && '{' !in before
    ensures Fill(before + Placeholder(k) + after, [Index(k, f)], s) == before + FieldOf(s[|s| - k], f) + after
  {
    var p := Placeholder(k);
    assert p[0] == '{';
    FillSingle(before + p + after, k, f, s);
    ReplaceFirstSplit(before, p, after, FieldOf(s[|s| - k], f));
  }

  /** One index whose node exists replaces the first occurrence of its
      placeholder. */
  lemma FillSingle(msg: string, k: Offset, f: Field, s: seq<Token>)
    requires k <= |s|
    ensures Fill(msg, [Index(k, f)], s) == ReplaceFirst(msg, Placeholder(k), FieldOf(s[|s| - k], f))
  {
    AtFromTop(s, k);
    assert [Index(k, f)][1..] == [];
  }

  /** A format without indexes is appended as it is. */
  lemma PrintPlain(ctx: SemContext, format: string)
    ensures Print(ctx, format, []).textObject == ctx.textObject + " " + format
  {
  }

  // ---------------------------------------------------------------------
  // Semantic errors.
  // ---------------------------------------------------------------------

  /** `createSemanticalErrorMessage`. */
  function ErrorMessage(message: string, node: Token): string {
    "Erro Semântico: " + message + ", linha: " + IntToString(node.start.line) + ", coluna: " + IntToString(node.start.column)
  }

  /** `buildGenericSemanticalErrorHandler(message)`: logs the message with
      the node's position and turns off the creation of the object file;
      nothing else changes and nothing is thrown. */
  function ReportError(ctx: SemContext, message: string, node: Token): (r: SemContext)
    ensures !r.shouldCreateOBJ
    ensures r.log == ctx.log + [ErrorMessage(message, node)]
    ensures r == ctx.(shouldCreateOBJ := false, log := r.log)
  {
    ctx.(log := ctx.log + [ErrorMessage(message, node)], shouldCreateOBJ := false)
  }

  // ---------------------------------------------------------------------
  // `verifyIdAlreadyDefined`.
  // ---------------------------------------------------------------------

  /** Which branch of `verifyIdAlreadyDefined` runs, with the node it gets:
      the stack is too short; the node's lexeme has no table entry; the
      entry's type is still `NULO`; or the entry is typed, and the node
      carries the entry's type. */
  datatype Lookup = Overflow | Absent(node: Token) | Untyped(node: Token) | Typed(node: Token)

  function LookupId(ctx: SemContext, offset: Offset): (r: Lookup)
    ensures r.Overflow? <==> offset > |ctx.stack|
    ensures !r.Overflow? ==> var id := ctx.stack[|ctx.stack| - offset];
      && (r.Absent? <==> id.lexema !in ctx.symbolTable)
      && (r.Untyped? <==> id.lexema in ctx.symbolTable && ctx.symbolTable[id.lexema].tipo == "NULO")
      && (r.Absent? || r.Untyped? ==> r.node == id)
      && (r.Typed? ==> r.node == id.(tipo := ctx.symbolTable[id.lexema].tipo))
  {
    match At(ctx.stack, -(offset as int))
    case None => Overflow
    case Some(id) =>
      if id.lexema !in ctx.symbolTable then Absent(id)
      else if ctx.symbolTable[id.lexema].tipo == "NULO" then Untyped(id)
      else Typed(id.(tipo := ctx.symbolTable[id.lexema].tipo))
  }

  // ---------------------------------------------------------------------
  // `assignTypeFromLastNonTerminal`'s search.
  // ---------------------------------------------------------------------

  /** The `reduceRight` of `assignTypeFromLastNonTerminal`: it walks from
      the top down and keeps overwriting its accumulator with every match,
      so it ends with the bottom-most node whose upper-cased class is `nt`. */
  function ReduceRightMatch(s: seq<Token>, nt: string, acc: Option<nat>): (r: Option<nat>)
    requires acc.Some? ==> |s| <= acc.value
    ensures r.Some? ==> r == acc || (r.value < |s| && ToUpper(s[r.value].classe) == nt)
    ensures r.None? ==> acc.None?
    ensures (exists j :: 0 <= j < |s| && ToUpper(s[j].classe) == nt) ==>
      r.Some? && r.value < |s| && ToUpper(s[r.value].classe) == nt
      && forall j :: 0 <= j < r.value ==> ToUpper(s[j].classe) != nt
    ensures (forall j :: 0 <= j < |s| ==> ToUpper(s[j].classe) != nt) ==> r == acc
    decreases |s|
  {
    if |s| == 0 then acc
    else
      var last := |s| - 1;
      ReduceRightMatch(s[..last], nt, if ToUpper(s[last].classe) == nt then Some(last) else acc)
  }

  /** The bottom-most node of class `nt` (compared upper-cased), if any. */
  function BottomMost(s: seq<Token>, nt: string): (r: Option<nat>)
    ensures r.Some? ==> r.value < |s| && ToUpper(s[r.value].classe) == nt
    ensures r.Some? ==> forall j :: 0 <= j < r.value ==> ToUpper(s[j].classe) != nt
    ensures r.None? <==> forall j :: 0 <= j < |s| ==> ToUpper(s[j].classe) != nt
  {
    ReduceRightMatch(s, nt, None)
  }

  // ---------------------------------------------------------------------
  // `createTempVariableName`.
  // ---------------------------------------------------------------------

  /** `k` letters `t`. */
  function Ts(k: nat): (r: string)
    ensures |r| == k
  {
    if k == 0 then "" else Ts(k - 1) + "t"
  }

  lemma {:induction false} TsLetters(k: nat)
    ensures forall i :: 0 <= i < k ==> Ts(k)[i] == 't'
  {
    if k > 0 {
      TsLetters(k - 1);
      assert forall i :: 0 <= i < k - 1 ==> Ts(k)[i] == Ts(k - 1)[i];
    }
  }

  /** The table's keys at least `len` characters long. */
  ghost function LongKeys(table: map<string, Token>, len: nat): set<string> {
    set key | key in table && |key| >= len
  }

  lemma LongKeysShrink(table: map<string, Token>, w: string)
    requires w in table
    ensures |LongKeys(table, |w| + 1)| < |LongKeys(table, |w|)|
  {
    var a, b := LongKeys(table, |w|), LongKeys(table, |w| + 1);
    assert b + {w} <= a;
    assert w !in b;
    SubsetCard(b + {w}, a);
  }

  lemma {:induction false} SubsetCard(a: set<string>, b: set<string>)
    requires a <= b
    ensures |a| <= |b|
    decreases |b|
  {
    if |b| > 0 {
      var x :| x in b;
      SubsetCard(a - {x}, b - {x});
    }
  }

  /** The loop of `createTempVariableName` from `k` letters on: the first
      count whose name is free. */
  function TempCount(table: map<string, Token>, suffix: string, k: nat): (n: nat)
    ensures n >= k && Ts(n) + suffix !in table
    decreases |LongKeys(table, |Ts(k) + suffix|)|
  {
    if Ts(k) + suffix !in table then k
    else
      LongKeysShrink(table, Ts(k) + suffix);
      TempCount(table, suffix, k + 1)
  }

  /** Every count the loop passes over names a taken key. */
  lemma {:induction false} TempCountFirst(table: map<string, Token>, suffix: string, k: nat)
    ensures forall j :: k <= j < TempCount(table, suffix, k) ==> Ts(j) + suffix in table
    decreases |LongKeys(table, |Ts(k) + suffix|)|
  {
    if Ts(k) + suffix in table {
      LongKeysShrink(table, Ts(k) + suffix);
      TempCountFirst(table, suffix, k + 1);
    }
  }

  /** The C type of a temporary, from the first operand's type. */
  function TempType(tipo: string): (c: CType)
    ensures c == IntType <==> ToLower(tipo) == "inteiro"
    ensures c == DoubleType <==> ToLower(tipo) == "real"
  {
    if ToLower(tipo) == "inteiro" then IntType
    else if ToLower(tipo) == "real" then DoubleType
    else LiteralType
  }

  /** `createTempVariableName`: the shortest run of `t` (at least one)
      followed by `lastX` that is not a key of the symbol table. */
  function NewTemp(operand: Token, lastX: int, table: map<string, Token>): (r: Temp)
    ensures r.identifier !in table
    ensures r.kind == TempType(operand.tipo)
  {
    var n := TempCount(table, IntToString(lastX), 1);
    Temp(Ts(n) + IntToString(lastX), TempType(operand.tipo))
  }

  /** The name is the shortest run of `t` (at least one) followed by
      `lastX` that the table does not hold. */
  lemma {:induction false} NewTempShortest(operand: Token, lastX: int, table: map<string, Token>)
    ensures exists n ::
      && n >= 1
      && NewTemp(operand, lastX, table).identifier == Ts(n) + IntToString(lastX)
      && forall j :: 1 <= j < n ==> Ts(j) + IntToString(lastX) in table
  {
    var n := TempCount(table, IntToString(lastX), 1);
    TempCountFirst(table, IntToString(lastX), 1);
    assert NewTemp(operand, lastX, table).identifier == Ts(n) + IntToString(lastX);
  }
}
