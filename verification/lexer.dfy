/** The scanner of `src/lexer/lexer.ts`.

    A scanner owns a character reader, a symbol table seeded with the
    reserved words, and a context: the lexeme read so far, the automaton
    state it reached, and the positions of its first and last characters.
    Each call reads characters until the automaton has no move on the one
    just read; it then turns the pending lexeme into a token, reseeds the
    context with the character that stopped it, and returns the token, unless
    it was a comment, in which case it keeps reading. Identifiers are looked
    up in (and added to) the symbol table, so reserved words come back with
    their own class. The closure and its mutable context are modelled as a
    value `Scanner` that each call returns updated. */
module Lexer {
  import opened Common
  import opened Reader
  import opened Automata

  /** The words seeded into the symbol table, in the source's order; `fimse`
      is seeded twice, which the map absorbs. */
  const RESERVED_WORDS: seq<string> := [
    "se", "fimse", "inicio", "varinicio", "varfim", "escreva", "leia",
    "entao", "fimse", "fim", "inteiro", "literal", "real"
  ]

  type Symbols = map<string, Token>

  /** The entry `addToSymbols` writes: class, type and lexeme are the word
      itself and both positions are (-1, -1). */
  function ReservedToken(word: string): Token {
    Token(word, word, word, Pos(-1, -1), Pos(-1, -1), None)
  }

  /** `addToSymbols` applied to each word in turn. */
  function Seed(symbols: Symbols, words: seq<string>): Symbols
    decreases |words|
  {
    if |words| == 0 then symbols else Seed(symbols[words[0] := ReservedToken(words[0])], words[1..])
  }

  /** Seeding adds exactly the given words, each with its reserved entry,
      and keeps the other entries. */
  lemma {:induction false} SeedContents(symbols: Symbols, words: seq<string>, k: string)
    ensures k in Seed(symbols, words) <==> k in symbols || k in words
    ensures k in words ==> Seed(symbols, words)[k] == ReservedToken(k)
    ensures k !in words && k in symbols ==> Seed(symbols, words)[k] == symbols[k]
    decreases |words|
  {
    if |words| > 0 {
      SeedContents(symbols[words[0] := ReservedToken(words[0])], words[1..], k);
      assert k in words <==> k == words[0] || k in words[1..];
    }
  }

  const INITIAL_SYMBOLS := Seed(map[], RESERVED_WORDS)

  /** The scanner's mutable context. */
  datatype Context = Context(lexema: string, state: State, start: Pos, end: Pos)

  datatype Scanner = Scanner(cursor: Cursor, symbols: Symbols, context: Context)

  /** What one call of the scanner produces: a token and the scanner to use
      next, or the `TypeError` the source throws when it has to build a token
      from a state without registered info (the state -1). */
  datatype ScanResult = Emitted(token: Token, next: Scanner) | Crashed

  // ---------------------------------------------------------------------
  // The invariant of reachable scanners.
  // ---------------------------------------------------------------------

  /** The context the scanner enters on reading `EOF`. */
  predicate EofContext(ctx: Context) {
    ctx.lexema == EOF_TEXT && ctx.state == 12
  }

  /** Every reserved word keeps its seeded entry; every entry is keyed by
      its lexeme and carries no description; every other entry is an
      identifier. */
  predicate SymbolsOk(m: Symbols) {
    && (forall w :: w in RESERVED_WORDS ==> w in m && m[w] == ReservedToken(w))
    && (forall k :: k in m ==>
          && m[k].lexema == k
          && m[k].description.None?
          && (k !in RESERVED_WORDS ==> m[k].classe == "ID" && m[k].tipo == "NULO"))
  }

  /** `L` is the text of `f` just before index `k`. */
  predicate EndsAt(f: seq<char>, k: int, L: string) {
    && |L| <= k <= |f|
    && forall j :: 0 <= j < |L| ==> L[j] == f[k - |L| + j]
  }

  lemma EndsAtSlice(f: seq<char>, k: int, L: string)
    ensures EndsAt(f, k, L) <==> |L| <= k <= |f| && L == f[k - |L|..k]
  {
  }

  /** The pending lexeme is the text ending at index `i`, the state is the
      automaton's state after it, and, once a token has begun, the recorded
      positions are those of the lexeme's first and last characters. */
  predicate LexemeOk(f: seq<char>, i: int, ctx: Context)
    requires -1 <= i < |f|
  {
    var L := ctx.lexema;
    && ctx.state == Walk(0, L)
    && EndsAt(f, i + 1, L)
    && (ctx.state != 0 ==>
          && |L| >= 1
          && Unpadded(L)
          && ctx.start == PosAt(f, i + 1 - |L|)
          && ctx.end == PosAt(f, i))
  }

  /** A reachable scanner: a valid cursor, a well-formed symbol table, and
      either a pending lexeme as above or the `EOF` context at the end. */
  predicate Inv(sc: Scanner) {
    && Valid(sc.cursor)
    && SymbolsOk(sc.symbols)
    && if EofContext(sc.context) then
         && AtEnd(sc.cursor)
         && sc.context.start == Pos(sc.cursor.line, sc.cursor.column)
         && sc.context.end == sc.context.start
       else
         LexemeOk(sc.cursor.file, sc.cursor.index, sc.context)
  }

  /** Extending the pending lexeme by the next character keeps it well
      formed. */
  lemma LexemeExtend(f: seq<char>, i: int, ctx: Context, here: Pos)
    requires -1 <= i && i + 1 < |f| && LexemeOk(f, i, ctx)
    requires here == PosAt(f, i + 1)
    requires NextState(Ch(f[i + 1]), ctx.state) != DEAD
    requires ctx.state != 0 || NextState(Ch(f[i + 1]), 0) == 0
    ensures LexemeOk(f, i + 1, Context(ctx.lexema + [f[i + 1]], NextState(Ch(f[i + 1]), ctx.state), ctx.start, here))
  {
    var L := ctx.lexema;
    var c := f[i + 1];
    var L' := L + [c];
    WalkSnoc(L, c);
    if NextState(Ch(c), ctx.state) != 0 {
      Predecessors(c, 0);
      assert L'[0] == L[0];
    }
  }

  /** The context reseeded with the next character is well formed. */
  lemma LexemeStart(f: seq<char>, i: int, here: Pos)
    requires -1 <= i && i + 1 < |f|
    requires here == PosAt(f, i + 1)
    ensures LexemeOk(f, i + 1, Reseed(Ch(f[i + 1]), here))
  {
    var c := f[i + 1];
    Predecessors(c, 0);
    WalkSnoc([], c);
    assert [] + [c] == [c];
  }

  lemma InitialSymbolsOk()
    ensures SymbolsOk(INITIAL_SYMBOLS)
  {
    forall w | w in RESERVED_WORDS
      ensures w in INITIAL_SYMBOLS && INITIAL_SYMBOLS[w] == ReservedToken(w)
    {
      SeedContents(map[], RESERVED_WORDS, w);
    }
    forall k | k in INITIAL_SYMBOLS
      ensures INITIAL_SYMBOLS[k].lexema == k && INITIAL_SYMBOLS[k].description.None?
      ensures k in RESERVED_WORDS
    {
      SeedContents(map[], RESERVED_WORDS, k);
    }
  }

  /** `Lexer(reader)`: the seeded symbol table and an empty context in state
      0 at position (0, 0). */
  function NewLexer(cursor: Cursor): (sc: Scanner)
    requires Valid(cursor)
    ensures Inv(sc)
    ensures sc.context.state == 0 && sc.context.lexema == ""
    ensures forall k :: k in sc.symbols <==> k in RESERVED_WORDS
  {
    InitialSymbolsOk();
    assert forall k :: k in INITIAL_SYMBOLS <==> k in RESERVED_WORDS by {
      forall k {
        SeedContents(map[], RESERVED_WORDS, k);
      }
    }
    Scanner(cursor, INITIAL_SYMBOLS, Context("", 0, Pos(0, 0), Pos(0, 0)))
  }

  // ---------------------------------------------------------------------
  // Building tokens.
  // ---------------------------------------------------------------------

  /** `generateToken`: `None` when the state has no info, where the source
      destructures `undefined` and throws. An accepted identifier is looked
      up in the symbol table: a saved entry comes back with the new
      positions, a new one is stored. */
  function GenerateToken(accepted: bool, info: Option<StateInfo>, lexema: string, symbols: Symbols, start: Pos, end: Pos): (r: Option<(Token, Symbols)>)
    ensures r.None? <==> info.None?
    ensures r.Some? ==> forall k :: k in symbols ==> k in r.value.1 && r.value.1[k] == symbols[k]
    ensures r.Some? ==> forall k :: k in r.value.1 ==> k in symbols || k == lexema
  {
    match info
    case None => None
    case Some(si) =>
      if accepted then
        var token := Token(si.classe, si.tipo, lexema, start, end, None);
        if si.classe == "ID" && lexema in symbols then
          Some((symbols[lexema].(start := start, end := end), symbols))
        else if si.classe == "ID" then
          Some((token, symbols[lexema := token]))
        else
          Some((token, symbols))
      else
        Some((Token(si.classe, si.tipo, lexema, start, end, Some(si.description)), symbols))
  }

  /** The text appended to an error description. */
  function ErrorSuffix(p: Pos): string {
    ", linha: " + IntToString(p.line) + " e coluna: " + IntToString(p.column)
  }

  /** `postProcess`: drops comments and appends the start position to the
      description of error tokens; `undefined` would be spelled out. */
  function PostProcess(t: Token): (r: Option<Token>)
    ensures r.None? <==> t.classe == "COMMENT"
    ensures r.Some? && t.classe != "ERROR" ==> r.value == t
    ensures r.Some? && t.classe == "ERROR" ==>
      r.value == t.(description := Some(t.description.GetOr("undefined") + ErrorSuffix(t.start)))
  {
    if t.classe == "COMMENT" then None
    else if t.classe == "ERROR" then
      Some(t.(description := Some(t.description.GetOr("undefined") + ErrorSuffix(t.start))))
    else Some(t)
  }

  // ---------------------------------------------------------------------
  // One iteration of the scanning loop, and the loop.
  // ---------------------------------------------------------------------

  datatype StepResult = Continue(next: Scanner) | Emit(token: Token, next: Scanner) | Crash

  /** The loop's measure at the end of the input: only the `EOF` state is
      sure to emit on its next iteration. */
  function Rank(s: State): nat {
    if s == 12 then 0 else 1
  }

  /** The index just past an emitted lexeme: the position of the character
      that stopped it, or the file's length when `EOF` stopped it. */
  function StopIndex(nx: Scanner): int {
    if EofContext(nx.context) then |nx.cursor.file| else nx.cursor.index
  }

  /** The symbol the reader delivers at index `k`. */
  function SymAt(f: seq<char>, k: int): Sym {
    if 0 <= k < |f| then Ch(f[k]) else Eof
  }

  /** The token of lexeme `L` given the symbol table before (`symbols`) and
      after (`after`) it is built: for an identifier the saved entry with the
      token's positions, or a fresh identifier entry that is then stored;
      the class and type of any other accepting state; for a non-accepting
      state an `ERROR` carrying the state's description followed by the
      start position. */
  predicate Classified(symbols: Symbols, L: string, t: Token, after: Symbols) {
    var s := Walk(0, L);
    && t.lexema == L
    && InfoOf(s).Some?
    && var info := InfoOf(s).value;
    && (s in ACCEPTING && info.classe == "ID" && L in symbols ==>
          t == symbols[L].(start := t.start, end := t.end) && after == symbols)
    && (s in ACCEPTING && info.classe == "ID" && L !in symbols ==>
          t == Token("ID", info.tipo, L, t.start, t.end, None) && after == symbols[L := t])
    && (s in ACCEPTING && info.classe != "ID" ==>
          t == Token(info.classe, info.tipo, L, t.start, t.end, None) && after == symbols)
    && (s !in ACCEPTING ==>
          && t == Token("ERROR", "NULO", L, t.start, t.end, Some(info.description + ErrorSuffix(t.start)))
          && after == symbols)
  }

  /** What a token emitted from a scanner with symbol table `symbols` on
      file `f` is, given the scanner `nx` left behind.
      The `EOF` token repeats the `EOF` context. Any other token's lexeme
      is the text just before the stop index, the automaton has no move on
      the symbol there from the lexeme's state (so the lexeme cannot be
      extended by one more character), the positions are those of the
      lexeme's first and last characters once a token has begun, and the
      token is classified as above. The next context begins with the
      stopping character unless it is white space. Where the lexeme begins
      is stated by `Begins`. */
  predicate Emission(symbols: Symbols, f: seq<char>, t: Token, nx: Scanner) {
    if t.classe == "EOF" then
      && EofContext(nx.context)
      && t == Token("EOF", "NULO", EOF_TEXT, nx.context.start, nx.context.end, None)
      && nx.symbols == symbols
    else
      var L := t.lexema;
      var s := Walk(0, L);
      var k := StopIndex(nx);
      && EndsAt(f, k, L)
      && NextState(SymAt(f, k), s) == DEAD
      && (s != 0 ==> |L| >= 1 && Unpadded(L) && t.start == PosAt(f, k - |L|) && t.end == PosAt(f, k - 1))
      && Classified(symbols, L, t, nx.symbols)
      && (k < |f| && IsWhiteSpace(f[k]) ==> nx.context.lexema == "" && nx.context.state == 0)
      && (k < |f| && !IsWhiteSpace(f[k]) ==>
            nx.context.lexema == [f[k]] && nx.context.state == NextState(Ch(f[k]), 0))
  }

  /** No character left to read stops the automaton in state 0, and the
      current state is not the dead one: the scanner cannot reach a state
      without info. */
  predicate CrashFree(sc: Scanner)
    requires Valid(sc.cursor)
  {
    && sc.context.state != DEAD
    && forall i :: sc.cursor.index < i < |sc.cursor.file| ==> Startable(sc.cursor.file, i)
  }

  /** The automaton has a move from state 0 on the character at index `i`. */
  predicate Startable(f: seq<char>, i: int)
    requires 0 <= i < |f|
  {
    NextState(Ch(f[i]), 0) != DEAD
  }

  lemma WalkFromStart(L: string)
    ensures Walk(0, L) != 12
    ensures Walk(0, L) == DEAD || Walk(0, L) == INVALID_CHARACTER || 0 <= Walk(0, L) <= 23
  {
  }

  lemma WalkSnoc(L: string, c: char)
    ensures Walk(0, L + [c]) == NextState(Ch(c), Walk(0, L))
  {
    assert (L + [c])[..|L|] == L;
  }

  /** `EOF` and `COMMENT` are not classes of symbol-table entries. */
  lemma EntryClasses(m: Symbols, k: string)
    requires SymbolsOk(m) && k in m
    ensures m[k].classe != "EOF" && m[k].classe != "COMMENT" && m[k].classe != "ERROR"
  {
    if k in RESERVED_WORDS {
      var i :| 0 <= i < |RESERVED_WORDS| && RESERVED_WORDS[i] == k;
    }
  }

  /** Index of the pending lexeme's first character: the lexeme ends at the
      cursor. */
  function Begin(sc: Scanner): int {
    sc.cursor.index + 1 - |sc.context.lexema|
  }

  /** `f[p..q]` is what the scanner reads past without returning a token:
      white space and closed comments (text that begins with an opening
      brace and on which the automaton reaches the `COMMENT` state 11). */
  ghost predicate Gap(f: seq<char>, p: int, q: int)
    decreases q - p
  {
    && 0 <= p <= q <= |f|
    && (|| p == q
        || (IsWhiteSpace(f[p]) && Gap(f, p + 1, q))
        || (f[p] == '{' && exists e :: p < e <= q && Walk(0, f[p..e]) == 11 && Gap(f, e, q)))
  }

  /** Gaps compose. */
  lemma {:induction false} GapTrans(f: seq<char>, p: int, q: int, b: int)
    requires Gap(f, p, q) && Gap(f, q, b)
    ensures Gap(f, p, b)
    decreases q - p
  {
    if p < q {
      if IsWhiteSpace(f[p]) && Gap(f, p + 1, q) {
        GapTrans(f, p + 1, q, b);
      } else {
        var e :| p < e <= q && Walk(0, f[p..e]) == 11 && Gap(f, e, q);
        GapTrans(f, e, q, b);
      }
    }
  }

  /** `GapTrans` in the form used along the scanning loop. */
  lemma GapChain(f: seq<char>, p: int, q: int, b: int)
    ensures Gap(f, p, q) && Gap(f, q, b) ==> Gap(f, p, b)
  {
    if Gap(f, p, q) && Gap(f, q, b) {
      GapTrans(f, p, q, b);
    }
  }

  /** The empty gap at the start of a pending lexeme. */
  lemma GapAtBegin(sc: Scanner)
    requires Inv(sc) && !EofContext(sc.context)
    ensures Gap(sc.cursor.file, Begin(sc), Begin(sc))
  {
    assert LexemeOk(sc.cursor.file, sc.cursor.index, sc.context);
  }

  /** A run of white space is a gap. */
  lemma {:induction false} GapWhiteSpace(f: seq<char>, p: int, q: int)
    requires 0 <= p <= q <= |f| && AllWhiteSpace(f[p..q])
    ensures Gap(f, p, q)
    decreases q - p
  {
    if p < q {
      assert f[p] == f[p..q][0];
      assert f[p + 1..q] == f[p..q][1..];
      GapWhiteSpace(f, p + 1, q);
    }
  }

  /** The context `reseed` after a token: empty in state 0 after white
      space, otherwise the stopping symbol's text in the state the
      automaton reaches on it from state 0. */
  function Reseed(sym: Sym, here: Pos): Context {
    var ws := sym.Ch? && IsWhiteSpace(sym.c);
    Context(if ws then "" else SymText(sym), if ws then 0 else NextState(sym, 0), here, here)
  }

  /** The reader's answer to `sc` and where it was read. */
  predicate Reads(sc: Scanner, rd: Read, cur: Cursor, here: Pos)
    requires Valid(sc.cursor)
  {
    (rd, cur) == NextChar(sc.cursor) && here == Pos(rd.line, rd.column)
  }

  /** The token built for a pending lexeme in any state but the dead one:
      it is classified, never an `EOF`, and dropped only in the comment
      state; the symbol table stays well formed. */
  lemma Generated(L: string, symbols: Symbols, start: Pos, end: Pos)
    requires SymbolsOk(symbols) && Walk(0, L) != DEAD
    ensures var acc := AcceptState(Walk(0, L));
      var g := GenerateToken(acc.accepted, acc.info, L, symbols, start, end);
      && g.Some?
      && SymbolsOk(g.value.1)
      && (PostProcess(g.value.0).None? ==> g.value.1 == symbols && Walk(0, L) == 11)
      && (PostProcess(g.value.0).Some? ==>
            var t := PostProcess(g.value.0).value;
            && t.start == start && t.end == end
            && t.classe != "EOF" && t.classe != "COMMENT"
            && Classified(symbols, L, t, g.value.1))
  {
    var s := Walk(0, L);
    WalkFromStart(L);
    InfoFacts(s);
    var info := InfoOf(s).value;
    var acc := AcceptState(s);
    assert acc == Acceptance(s in ACCEPTING, Some(info));
    var g := GenerateToken(acc.accepted, acc.info, L, symbols, start, end);
    var t := g.value.0;
    if s in ACCEPTING && info.classe == "ID" {
      if L in symbols {
        EntryClasses(symbols, L);
        assert t == symbols[L].(start := start, end := end);
      } else {
        assert L !in RESERVED_WORDS;
        assert t == Token("ID", "NULO", L, start, end, None);
        assert g.value.1 == symbols[L := t];
      }
    } else if s in ACCEPTING {
      assert t == Token(info.classe, info.tipo, L, start, end, None);
    } else {
      assert t == Token("ERROR", "NULO", L, start, end, Some(info.description));
    }
  }

  /** The registered info of the states a lexeme can reach, as the scanner
      uses it. */
  lemma InfoFacts(s: State)
    requires s == INVALID_CHARACTER || 0 <= s <= 23
    ensures InfoOf(s).Some?
    ensures InfoOf(s).value.classe == "ID" <==> s == 9
    ensures InfoOf(s).value.classe == "COMMENT" <==> s == 11
    ensures InfoOf(s).value.classe == "EOF" <==> s == 12
    ensures s in ACCEPTING <==> InfoOf(s).value.classe != "ERROR"
    ensures s !in ACCEPTING ==> InfoOf(s).value.tipo == "NULO"
    ensures s == 9 ==> InfoOf(s).value.tipo == "NULO"
  {
  }

  /** The facts behind an emission: the automaton has no move on the symbol
      just read from a state other than the dead one. */
  lemma EmitCase(sc: Scanner, rd: Read, cur: Cursor, here: Pos)
    requires Inv(sc) && Reads(sc, rd, cur, here)
    requires NextState(rd.sym, sc.context.state) == DEAD && sc.context.state != DEAD
    ensures var ctx := sc.context;
      var acc := AcceptState(ctx.state);
      var g := GenerateToken(acc.accepted, acc.info, ctx.lexema, sc.symbols, ctx.start, ctx.end);
      && g.Some?
      && var nx := Scanner(cur, g.value.1, Reseed(rd.sym, here));
      && Inv(nx)
      && (PostProcess(g.value.0).None? ==> nx.symbols == sc.symbols)
      && (PostProcess(g.value.0).Some? ==> Emission(sc.symbols, sc.cursor.file, PostProcess(g.value.0).value, nx))
      && (PostProcess(g.value.0).Some? ==> PostProcess(g.value.0).value.classe != "COMMENT")
      && (AtEnd(sc.cursor) ==> EofContext(nx.context) && cur == sc.cursor)
      && (AtEnd(sc.cursor) && PostProcess(g.value.0).None? ==> ctx.state != 12)
      && (CrashFree(sc) ==> CrashFree(nx))
  {
    if EofContext(sc.context) {
      EofEmit(sc, rd, cur, here);
    } else {
      LexemeEmit(sc, rd, cur, here);
    }
  }

  /** Emission from the `EOF` context: the `EOF` token, and the scanner
      unchanged. */
  lemma EofEmit(sc: Scanner, rd: Read, cur: Cursor, here: Pos)
    requires Inv(sc) && Reads(sc, rd, cur, here) && EofContext(sc.context)
    ensures var ctx := sc.context;
      var acc := AcceptState(ctx.state);
      var g := GenerateToken(acc.accepted, acc.info, ctx.lexema, sc.symbols, ctx.start, ctx.end);
      && g.Some?
      && g.value.1 == sc.symbols
      && PostProcess(g.value.0) == Some(Token("EOF", "NULO", EOF_TEXT, ctx.start, ctx.end, None))
      && Scanner(cur, g.value.1, Reseed(rd.sym, here)) == sc
  {
  }

  /** Emission of a pending lexeme. */
  lemma LexemeEmit(sc: Scanner, rd: Read, cur: Cursor, here: Pos)
    requires Inv(sc) && Reads(sc, rd, cur, here) && !EofContext(sc.context)
    requires NextState(rd.sym, sc.context.state) == DEAD && sc.context.state != DEAD
    ensures var ctx := sc.context;
      var acc := AcceptState(ctx.state);
      var g := GenerateToken(acc.accepted, acc.info, ctx.lexema, sc.symbols, ctx.start, ctx.end);
      && g.Some?
      && var nx := Scanner(cur, g.value.1, Reseed(rd.sym, here));
      && Inv(nx)
      && (PostProcess(g.value.0).None? ==> nx.symbols == sc.symbols)
      && (PostProcess(g.value.0).Some? ==> Emission(sc.symbols, sc.cursor.file, PostProcess(g.value.0).value, nx))
      && (PostProcess(g.value.0).Some? ==> PostProcess(g.value.0).value.classe != "COMMENT")
      && (AtEnd(sc.cursor) ==> EofContext(nx.context) && cur == sc.cursor)
      && (CrashFree(sc) ==> CrashFree(nx))
  {
    LexemeEmitNext(sc, rd, cur, here);
    LexemeEmitToken(sc, rd, cur, here);
  }

  /** The scanner left by the emission of a pending lexeme. */
  lemma LexemeEmitNext(sc: Scanner, rd: Read, cur: Cursor, here: Pos)
    requires Inv(sc) && Reads(sc, rd, cur, here) && !EofContext(sc.context)
    requires NextState(rd.sym, sc.context.state) == DEAD && sc.context.state != DEAD
    ensures var ctx := sc.context;
      var acc := AcceptState(ctx.state);
      var g := GenerateToken(acc.accepted, acc.info, ctx.lexema, sc.symbols, ctx.start, ctx.end);
      && g.Some?
      && var nx := Scanner(cur, g.value.1, Reseed(rd.sym, here));
      && Inv(nx)
      && (PostProcess(g.value.0).None? ==> nx.symbols == sc.symbols)
      && (AtEnd(sc.cursor) ==> EofContext(nx.context) && cur == sc.cursor)
      && (CrashFree(sc) ==> CrashFree(nx))
  {
    var ctx := sc.context;
    Generated(ctx.lexema, sc.symbols, ctx.start, ctx.end);
    var acc := AcceptState(ctx.state);
    var g := GenerateToken(acc.accepted, acc.info, ctx.lexema, sc.symbols, ctx.start, ctx.end);
    ReseedOk(sc, rd, cur, here, g.value.1);
  }

  /** The token emitted for a pending lexeme. */
  lemma LexemeEmitToken(sc: Scanner, rd: Read, cur: Cursor, here: Pos)
    requires Inv(sc) && Reads(sc, rd, cur, here) && !EofContext(sc.context)
    requires NextState(rd.sym, sc.context.state) == DEAD && sc.context.state != DEAD
    ensures var ctx := sc.context;
      var acc := AcceptState(ctx.state);
      var g := GenerateToken(acc.accepted, acc.info, ctx.lexema, sc.symbols, ctx.start, ctx.end);
      && g.Some?
      && var nx := Scanner(cur, g.value.1, Reseed(rd.sym, here));
      && (PostProcess(g.value.0).Some? ==> Emission(sc.symbols, sc.cursor.file, PostProcess(g.value.0).value, nx))
      && (PostProcess(g.value.0).Some? ==> PostProcess(g.value.0).value.classe != "COMMENT")
  {
    var ctx := sc.context;
    var f := sc.cursor.file;
    Generated(ctx.lexema, sc.symbols, ctx.start, ctx.end);
    var acc := AcceptState(ctx.state);
    var g := GenerateToken(acc.accepted, acc.info, ctx.lexema, sc.symbols, ctx.start, ctx.end);
    var nx := Scanner(cur, g.value.1, Reseed(rd.sym, here));
    ReseedStop(sc, rd, cur, here, g.value.1);
    var p := PostProcess(g.value.0);
    if p.Some? {
      EmissionOf(sc.symbols, f, sc.cursor.index, ctx, p.value, nx);
    }
  }

  /** The scanner after an emission is reachable again, and the stop index
      is the index of the symbol just read. */
  lemma ReseedOk(sc: Scanner, rd: Read, cur: Cursor, here: Pos, symbols: Symbols)
    requires Inv(sc) && Reads(sc, rd, cur, here) && !EofContext(sc.context)
    requires SymbolsOk(symbols)
    requires NextState(rd.sym, sc.context.state) == DEAD
    ensures var nx := Scanner(cur, symbols, Reseed(rd.sym, here));
      var f := sc.cursor.file;
      && Inv(nx)
      && nx.cursor.file == f
      && StopIndex(nx) == sc.cursor.index + 1
      && SymAt(f, StopIndex(nx)) == rd.sym
      && nx.context == Reseed(SymAt(f, StopIndex(nx)), here)
      && (AtEnd(sc.cursor) ==> EofContext(nx.context) && cur == sc.cursor)
      && (!AtEnd(sc.cursor) ==> cur.index == sc.cursor.index + 1)
      && (CrashFree(sc) ==> CrashFree(nx))
  {
    var f := sc.cursor.file;
    var i := sc.cursor.index;
    var nctx := Reseed(rd.sym, here);
    if AtEnd(sc.cursor) {
      assert rd.sym == Eof && cur == sc.cursor;
      assert EofContext(nctx);
    } else {
      assert rd.sym == Ch(f[i + 1]) && cur.index == i + 1 && here == PosAt(f, i + 1);
      LexemeStart(f, i, here);
      assert !EofContext(nctx);
      assert CrashFree(sc) ==> Startable(f, i + 1);
    }
  }

  /** The symbol just read is the one at the stop index of the scanner
      reseeded with it. */
  lemma ReseedStop(sc: Scanner, rd: Read, cur: Cursor, here: Pos, symbols: Symbols)
    requires Valid(sc.cursor) && Reads(sc, rd, cur, here)
    ensures var nx := Scanner(cur, symbols, Reseed(rd.sym, here));
      && StopIndex(nx) == sc.cursor.index + 1
      && SymAt(sc.cursor.file, StopIndex(nx)) == rd.sym
  {
    if AtEnd(sc.cursor) {
      assert rd.sym == Eof;
    } else {
      assert rd.sym == Ch(sc.cursor.file[sc.cursor.index + 1]);
    }
  }

  /** The emission facts for a token built from a well-formed pending
      lexeme stopped by the symbol at the stop index. */
  lemma EmissionOf(symbols: Symbols, f: seq<char>, i: int, ctx: Context, t: Token, nx: Scanner)
    requires -1 <= i < |f| && LexemeOk(f, i, ctx)
    requires Classified(symbols, ctx.lexema, t, nx.symbols) && t.classe != "EOF"
    requires t.start == ctx.start && t.end == ctx.end
    requires StopIndex(nx) == i + 1
    requires NextState(SymAt(f, i + 1), ctx.state) == DEAD
    requires nx.context == Reseed(SymAt(f, i + 1), nx.context.start)
    ensures Emission(symbols, f, t, nx)
  {
    var k := i + 1;
    if k < |f| {
      Predecessors(f[k], 0);
    }
  }

  /** A token begins: state 0 moves elsewhere on the symbol just read. */
  lemma StartCase(sc: Scanner, rd: Read, cur: Cursor, here: Pos)
    requires Inv(sc) && Reads(sc, rd, cur, here)
    requires sc.context.state == 0
    requires NextState(rd.sym, 0) != DEAD && NextState(rd.sym, 0) != 0
    ensures var nx := Scanner(cur, sc.symbols, Context(SymText(rd.sym), NextState(rd.sym, 0), here, here));
      && Inv(nx)
      && (AtEnd(sc.cursor) ==> EofContext(nx.context) && cur == sc.cursor)
  {
    if rd.sym.Ch? {
      Predecessors(rd.sym.c, 0);
      LexemeStart(sc.cursor.file, sc.cursor.index, here);
    }
  }

  /** The lexeme grows: the automaton moves on the character just read and
      the scanner is not in state 0 or stays there. */
  lemma ExtendCase(sc: Scanner, rd: Read, cur: Cursor, here: Pos)
    requires Inv(sc) && Reads(sc, rd, cur, here)
    requires NextState(rd.sym, sc.context.state) != DEAD
    requires sc.context.state != 0 || NextState(rd.sym, 0) == 0
    ensures !AtEnd(sc.cursor)
    ensures var ctx := sc.context;
      var nx := Scanner(cur, sc.symbols, Context(ctx.lexema + SymText(rd.sym), NextState(rd.sym, ctx.state), ctx.start, here));
      && Inv(nx)
      && !EofContext(ctx)
      && Begin(nx) == Begin(sc)
  {
    var f := sc.cursor.file;
    var i := sc.cursor.index;
    var ctx := sc.context;
    assert !EofContext(ctx);
    assert !AtEnd(sc.cursor);
    assert rd.sym == Ch(f[i + 1]) && cur.index == i + 1 && cur.file == f;
    assert here == PosAt(f, i + 1);
    LexemeExtend(f, i, ctx, here);
    var n := NextState(rd.sym, ctx.state);
    var nctx := Context(ctx.lexema + SymText(rd.sym), n, ctx.start, here);
    assert nctx == Context(ctx.lexema + [f[i + 1]], NextState(Ch(f[i + 1]), ctx.state), ctx.start, here);
    assert LexemeOk(f, i + 1, nctx);
    assert !EofContext(nctx);
    assert Valid(cur);
  }

  /** What an emission says about the pending lexeme: from the `EOF`
      context the `EOF` token; otherwise the token carries the pending
      lexeme and its positions and the stop index is the index of the symbol
      just read; a dropped comment is followed by the gap it leaves. */
  lemma EmitFrom(sc: Scanner, rd: Read, cur: Cursor, here: Pos)
    requires Inv(sc) && Reads(sc, rd, cur, here)
    requires NextState(rd.sym, sc.context.state) == DEAD && sc.context.state != DEAD
    ensures var ctx := sc.context;
      var acc := AcceptState(ctx.state);
      var g := GenerateToken(acc.accepted, acc.info, ctx.lexema, sc.symbols, ctx.start, ctx.end);
      && g.Some?
      && var nx := Scanner(cur, g.value.1, Reseed(rd.sym, here));
      && var p := PostProcess(g.value.0);
      && (EofContext(ctx) ==> p.Some? && p.value.classe == "EOF")
      && (!EofContext(ctx) ==> StopIndex(nx) == sc.cursor.index + 1)
      && (!EofContext(ctx) && p.Some? ==>
            && p.value.lexema == ctx.lexema && p.value.start == ctx.start && p.value.end == ctx.end
            && p.value.classe != "EOF")
      && (p.None? ==> !EofContext(ctx) && ctx.state == 11)
  {
    var ctx := sc.context;
    if EofContext(ctx) {
      EofEmit(sc, rd, cur, here);
    } else {
      Generated(ctx.lexema, sc.symbols, ctx.start, ctx.end);
      var acc := AcceptState(ctx.state);
      var g := GenerateToken(acc.accepted, acc.info, ctx.lexema, sc.symbols, ctx.start, ctx.end);
      ReseedStop(sc, rd, cur, here, g.value.1);
    }
  }

  /** A comment dropped from a reachable scanner leaves a gap up to the next
      pending lexeme. */
  lemma DropFrom(sc: Scanner, rd: Read, cur: Cursor, here: Pos, symbols: Symbols)
    requires Inv(sc) && Reads(sc, rd, cur, here) && !EofContext(sc.context) && sc.context.state == 11
    ensures !AtEnd(sc.cursor) ==>
      Gap(sc.cursor.file, Begin(sc), Begin(Scanner(cur, symbols, Reseed(rd.sym, here))))
  {
    if !AtEnd(sc.cursor) {
      var f, i, L := sc.cursor.file, sc.cursor.index, sc.context.lexema;
      assert LexemeOk(f, i, sc.context);
      assert rd.sym == Ch(f[i + 1]) && cur.index == i + 1;
      DropGap(f, i, L, rd.sym, here, Begin(sc), Begin(Scanner(cur, symbols, Reseed(rd.sym, here))));
    }
  }

  /** A comment just dropped, with the white space character that stopped
      it if any, is a gap before the next pending lexeme. */
  lemma DropGap(f: seq<char>, i: int, L: string, sym: Sym, here: Pos, p: int, q: int)
    requires 0 <= i + 1 < |f| && sym == Ch(f[i + 1])
    requires EndsAt(f, i + 1, L) && |L| >= 1 && Unpadded(L) && Walk(0, L) == 11
    requires p == i + 1 - |L| && q == i + 2 - |Reseed(sym, here).lexema|
    ensures Gap(f, p, q)
  {
    EndsAtSlice(f, i + 1, L);
    CommentGap(f, p, i + 1);
    ReseedLexema(sym, here);
  }

  /** The text of a reseeded context: empty after white space, otherwise
      the symbol read. */
  lemma ReseedLexema(sym: Sym, here: Pos)
    ensures Reseed(sym, here).lexema == if sym.Ch? && IsWhiteSpace(sym.c) then "" else SymText(sym)
  {
  }

  /** A closed comment is a gap, and so is a closed comment followed by a
      white space character. */
  lemma CommentGap(f: seq<char>, b: int, k: int)
    requires 0 <= b <= k < |f| && Unpadded(f[b..k]) && Walk(0, f[b..k]) == 11
    ensures Gap(f, b, k)
    ensures IsWhiteSpace(f[k]) ==> Gap(f, b, k + 1)
  {
    CommentIff(f[b..k]);
    assert Gap(f, k, k);
    if IsWhiteSpace(f[k]) {
      assert Gap(f, k + 1, k + 1);
      assert Gap(f, k, k + 1);
    }
  }

  /** A token begins after the white space pending in state 0. */
  lemma StartGap(sc: Scanner, rd: Read, cur: Cursor, here: Pos)
    requires Inv(sc) && Reads(sc, rd, cur, here)
    requires sc.context.state == 0
    requires NextState(rd.sym, 0) != DEAD && NextState(rd.sym, 0) != 0
    ensures var nx := Scanner(cur, sc.symbols, Context(SymText(rd.sym), NextState(rd.sym, 0), here, here));
      && !EofContext(sc.context)
      && (!AtEnd(sc.cursor) ==> Gap(sc.cursor.file, Begin(sc), Begin(nx)))
  {
    if !AtEnd(sc.cursor) {
      StartGapAt(sc.cursor, sc.context, rd, cur);
    }
  }

  /** `StartGap` before the end of the file. */
  lemma StartGapAt(c: Cursor, ctx: Context, rd: Read, cur: Cursor)
    requires Valid(c) && !AtEnd(c) && (rd, cur) == NextChar(c)
    requires LexemeOk(c.file, c.index, ctx) && ctx.state == 0
    ensures Gap(c.file, c.index + 1 - |ctx.lexema|, cur.index + 1 - |SymText(rd.sym)|)
  {
    assert rd.sym == Ch(c.file[c.index + 1]) && cur.index == c.index + 1;
    PendingWhiteSpace(c.file, c.index + 1, ctx.lexema);
  }

  /** The lexeme pending in state 0 is a run of white space, hence a gap. */
  lemma PendingWhiteSpace(f: seq<char>, k: int, L: string)
    requires EndsAt(f, k, L) && Walk(0, L) == 0
    ensures Gap(f, k - |L|, k)
  {
    EndsAtSlice(f, k, L);
    StartStateIffWhiteSpace(L);
    GapWhiteSpace(f, k - |L|, k);
  }

  /** One iteration of the `while (true)` loop. An emitted token other
      than `EOF` carries the pending lexeme and its positions, and the
      scanner left behind stops just after it. */
  function Step(sc: Scanner): (r: StepResult)
    requires Inv(sc)
    ensures r.Crash? <==> sc.context.state == DEAD
    ensures !r.Crash? ==> Inv(r.next) && r.next.cursor.file == sc.cursor.file
    ensures r.Continue? ==> r.next.symbols == sc.symbols
    ensures r.Emit? ==> Emission(sc.symbols, sc.cursor.file, r.token, r.next)
    ensures r.Emit? ==> r.token.classe != "COMMENT"
    ensures !r.Crash? && !AtEnd(sc.cursor) ==> r.next.cursor.index == sc.cursor.index + 1
    ensures !r.Crash? && AtEnd(sc.cursor) ==> EofContext(r.next.context) && r.next.cursor == sc.cursor
    ensures r.Continue? && AtEnd(sc.cursor) ==> sc.context.state != 12
    ensures CrashFree(sc) ==> !r.Crash? && CrashFree(r.next)
    ensures r.Emit? && !EofContext(sc.context) ==>
      r.token.lexema == sc.context.lexema && r.token.start == sc.context.start && r.token.end == sc.context.end
    ensures r.Emit? && r.token.classe != "EOF" ==>
      !EofContext(sc.context) && StopIndex(r.next) == sc.cursor.index + 1
  {
    var (rd, cur) := NextChar(sc.cursor);
    var ctx := sc.context;
    var here := Pos(rd.line, rd.column);
    var next := NextState(rd.sym, ctx.state);
    if next == DEAD then
      var acc := AcceptState(ctx.state);
      var generated := GenerateToken(acc.accepted, acc.info, ctx.lexema, sc.symbols, ctx.start, ctx.end);
      if generated.None? then
        WalkFromStart(ctx.lexema);
        Crash
      else
        EmitCase(sc, rd, cur, here);
        EmitFrom(sc, rd, cur, here);
        var nx := Scanner(cur, generated.value.1, Reseed(rd.sym, here));
        match PostProcess(generated.value.0)
        case None => Continue(nx)
        case Some(t) => Emit(t, nx)
    else if ctx.state == 0 && next != 0 then
      StartCase(sc, rd, cur, here);
      Continue(Scanner(cur, sc.symbols, Context(SymText(rd.sym), next, here, here)))
    else
      ExtendCase(sc, rd, cur, here);
      Continue(Scanner(cur, sc.symbols, Context(ctx.lexema + SymText(rd.sym), next, ctx.start, here)))
  }

  /** An iteration that continues reads past a gap: it extends the pending
      lexeme, starts a token after the white space pending in state 0, or
      drops a comment together with the white space character after it. */
  ghost predicate StepGapOk(sc: Scanner)
    requires Inv(sc)
  {
    var r := Step(sc);
    r.Continue? && !EofContext(r.next.context) ==>
      !EofContext(sc.context) && Gap(sc.cursor.file, Begin(sc), Begin(r.next))
  }

  lemma StepGap(sc: Scanner)
    requires Inv(sc)
    ensures StepGapOk(sc)
  {
    var (rd, cur) := NextChar(sc.cursor);
    var next := NextState(rd.sym, sc.context.state);
    if next == DEAD {
      StepGapDrop(sc, rd, cur);
    } else if sc.context.state == 0 && next != 0 {
      StepGapStart(sc, rd, cur);
    } else {
      StepGapExtend(sc, rd, cur);
    }
  }

  lemma StepGapDrop(sc: Scanner, rd: Read, cur: Cursor)
    requires Inv(sc) && (rd, cur) == NextChar(sc.cursor)
    requires NextState(rd.sym, sc.context.state) == DEAD
    ensures StepGapOk(sc)
  {
    var ctx := sc.context;
    var here := Pos(rd.line, rd.column);
    if ctx.state != DEAD {
      EmitFrom(sc, rd, cur, here);
      var acc := AcceptState(ctx.state);
      var g := GenerateToken(acc.accepted, acc.info, ctx.lexema, sc.symbols, ctx.start, ctx.end);
      if PostProcess(g.value.0).None? {
        if AtEnd(sc.cursor) {
          assert rd.sym == Eof;
        } else {
          DropFrom(sc, rd, cur, here, g.value.1);
        }
      }
    }
  }

  lemma StepGapStart(sc: Scanner, rd: Read, cur: Cursor)
    requires Inv(sc) && (rd, cur) == NextChar(sc.cursor)
    requires sc.context.state == 0 && NextState(rd.sym, 0) != DEAD && NextState(rd.sym, 0) != 0
    ensures StepGapOk(sc)
  {
    var here := Pos(rd.line, rd.column);
    StartCase(sc, rd, cur, here);
    StartGap(sc, rd, cur, here);
  }

  lemma StepGapExtend(sc: Scanner, rd: Read, cur: Cursor)
    requires Inv(sc) && (rd, cur) == NextChar(sc.cursor)
    requires NextState(rd.sym, sc.context.state) != DEAD
    requires sc.context.state != 0 || NextState(rd.sym, 0) == 0
    ensures StepGapOk(sc)
  {
    var here := Pos(rd.line, rd.column);
    ExtendCase(sc, rd, cur, here);
    GapAtBegin(sc);
  }

  /** One call of the scanner: loop iterations until a token is emitted or
      the source throws. Comments are never returned, the scanner stays
      reachable, and the dead state is the only way to the throw. */
  function Scan(sc: Scanner): (r: ScanResult)
    requires Inv(sc)
    ensures r.Emitted? ==> Inv(r.next) && r.next.cursor.file == sc.cursor.file
    ensures r.Emitted? ==> Emission(sc.symbols, sc.cursor.file, r.token, r.next)
    ensures r.Emitted? ==> r.token.classe != "COMMENT"
    ensures r.Emitted? ==> r.next.cursor.index >= sc.cursor.index
    ensures r.Emitted? && !AtEnd(sc.cursor) ==> r.next.cursor.index > sc.cursor.index
    ensures r.Emitted? && AtEnd(sc.cursor) ==> EofContext(r.next.context)
    ensures sc.context.state == DEAD ==> r.Crashed?
    ensures CrashFree(sc) ==> r.Emitted? && CrashFree(r.next)
    ensures Begins(sc, r)
    decreases Remaining(sc.cursor), Rank(sc.context.state)
  {
    match Step(sc)
    case Continue(next) =>
      StepGap(sc);
      var r := Scan(next);
      BeginsChain(sc, next, r);
      r
    case Emit(t, next) =>
      if t.classe != "EOF" then GapAtBegin(sc); Emitted(t, next) else Emitted(t, next)
    case Crash => Crashed
  }

  /** Where the token of a call from `sc` begins: unless it is `EOF`, the
      text from the first character of the lexeme pending in `sc` up to the
      token's first character is white space and closed comments. With
      `Emission`, which places the lexeme just before the stop index and
      kills the automaton on the symbol there, this is maximal munch from
      the token's first character. */
  ghost predicate Begins(sc: Scanner, r: ScanResult) {
    r.Emitted? && r.token.classe != "EOF" ==>
      && !EofContext(sc.context)
      && Gap(sc.cursor.file, Begin(sc), StopIndex(r.next) - |r.token.lexema|)
  }

  /** The gap of one continuing iteration extends the gap of the rest of
      the call. */
  lemma BeginsChain(sc: Scanner, next: Scanner, r: ScanResult)
    requires Begins(next, r)
    requires !EofContext(next.context) ==> !EofContext(sc.context) && Gap(sc.cursor.file, Begin(sc), Begin(next))
    requires next.cursor.file == sc.cursor.file
    ensures Begins(sc, r)
  {
    if r.Emitted? && r.token.classe != "EOF" {
      GapTrans(sc.cursor.file, Begin(sc), Begin(next), StopIndex(r.next) - |r.token.lexema|);
    }
  }

  // ---------------------------------------------------------------------
  // What `Emission` and `Begins` pin down.
  // ---------------------------------------------------------------------

  /** Two tokens that both meet the contract of a call from `sc` and whose
      lexemes leave state 0 are the same token, with the same symbol table
      after them: the contract fixes where the token begins, how far it
      reaches and what it is. */
  lemma TokenDetermined(sc: Scanner, t1: Token, nx1: Scanner, t2: Token, nx2: Scanner)
    requires Emission(sc.symbols, sc.cursor.file, t1, nx1) && Begins(sc, Emitted(t1, nx1))
    requires Emission(sc.symbols, sc.cursor.file, t2, nx2) && Begins(sc, Emitted(t2, nx2))
    requires t1.classe != "EOF" && t1.classe != "COMMENT" && Walk(0, t1.lexema) != 0
    requires t2.classe != "EOF" && t2.classe != "COMMENT" && Walk(0, t2.lexema) != 0
    ensures StopIndex(nx1) == StopIndex(nx2)
    ensures t1 == t2 && nx1.symbols == nx2.symbols
  {
    var f := sc.cursor.file;
    var p := Begin(sc);
    var k1, k2 := StopIndex(nx1), StopIndex(nx2);
    var b1, b2 := k1 - |t1.lexema|, k2 - |t2.lexema|;
    EmittedLexeme(sc.symbols, f, t1, nx1);
    EmittedLexeme(sc.symbols, f, t2, nx2);
    SameSpan(f, p, b1, k1, b2, k2);
    ClassifiedUnique(sc.symbols, t1.lexema, t1, nx1.symbols, t2, nx2.symbols);
  }

  /** The facts about an emitted lexeme `L` that leaves state 0: it is the
      text from `b` to the stop index `k`, it does not begin with white
      space, the automaton is alive after it and dead on the symbol at `k`,
      and it is not a closed comment. */
  predicate Munched(f: seq<char>, b: int, k: int)
  {
    && 0 <= b < k <= |f|
    && !IsWhiteSpace(f[b])
    && Walk(0, f[b..k]) != DEAD && Walk(0, f[b..k]) != 11
    && NextState(SymAt(f, k), Walk(0, f[b..k])) == DEAD
  }

  lemma EmittedLexeme(symbols: Symbols, f: seq<char>, t: Token, nx: Scanner)
    requires Emission(symbols, f, t, nx) && t.classe != "EOF" && t.classe != "COMMENT" && Walk(0, t.lexema) != 0
    ensures var k := StopIndex(nx);
      && |t.lexema| <= k
      && t.lexema == f[k - |t.lexema|..k]
      && Munched(f, k - |t.lexema|, k)
  {
    var L := t.lexema;
    var k := StopIndex(nx);
    EndsAtSlice(f, k, L);
    WalkFromStart(L);
    InfoFacts(Walk(0, L));
    assert L[0] == f[k - |L|];
  }

  /** Two munched lexemes that both follow a gap from `p` span the same
      text. */
  lemma SameSpan(f: seq<char>, p: int, b1: int, k1: int, b2: int, k2: int)
    requires Gap(f, p, b1) && Gap(f, p, b2)
    requires Munched(f, b1, k1) && Munched(f, b2, k2)
    ensures b1 == b2 && k1 == k2
  {
    SameStart(f, p, b1, k1, b2, k2);
    DeadAfter(f, b1, k1, k2);
    DeadAfter(f, b1, k2, k1);
  }

  /** Two munched lexemes that both follow a gap from `p` begin at the same
      index. */
  lemma SameStart(f: seq<char>, p: int, b1: int, k1: int, b2: int, k2: int)
    requires Gap(f, p, b1) && Gap(f, p, b2)
    requires Munched(f, b1, k1) && Munched(f, b2, k2)
    ensures b1 == b2
  {
    GapStartOrdered(f, p, b1, b2);
    GapStartOrdered(f, p, b2, b1);
    NotInComment(f, b1, k1);
    NotInComment(f, b2, k2);
  }

  /** `GapStart` for either order of the two ends. */
  lemma GapStartOrdered(f: seq<char>, p: int, b1: int, b2: int)
    requires Gap(f, p, b1) && Gap(f, p, b2)
    ensures b1 < b2 ==>
      IsWhiteSpace(f[b1]) || (f[b1] == '{' && exists e :: b1 < e <= b2 && Walk(0, f[b1..e]) == 11)
  {
    if b1 < b2 {
      GapStart(f, p, b1, b2);
    }
  }

  /** A shorter gap from the same index stops where the longer one has a
      white space character or the opening brace of a closed comment:
      gaps split the text the same way. */
  lemma {:induction false} GapStart(f: seq<char>, p: int, b1: int, b2: int)
    requires Gap(f, p, b1) && Gap(f, p, b2) && b1 < b2
    ensures IsWhiteSpace(f[b1]) || (f[b1] == '{' && exists e :: b1 < e <= b2 && Walk(0, f[b1..e]) == 11)
    decreases b1 - p
  {
    if p < b1 {
      GapFirst(f, p, b1);
      GapFirst(f, p, b2);
      if IsWhiteSpace(f[p]) {
        GapStart(f, p + 1, b1, b2);
      } else {
        var e := CommonComment(f, p, b1, b2);
        GapStart(f, e, b1, b2);
      }
    } else {
      GapFirst(f, p, b2);
    }
  }

  /** Two gaps from an opening brace begin with the same closed comment. */
  lemma CommonComment(f: seq<char>, p: int, b1: int, b2: int) returns (e: int)
    requires Gap(f, p, b1) && Gap(f, p, b2) && p < b1 && p < b2 && !IsWhiteSpace(f[p])
    ensures p < e <= b1 && Gap(f, e, b1) && Gap(f, e, b2)
  {
    GapFirst(f, p, b1);
    GapFirst(f, p, b2);
    var e1 :| p < e1 <= b1 && Walk(0, f[p..e1]) == 11 && Gap(f, e1, b1);
    var e2 :| p < e2 <= b2 && Walk(0, f[p..e2]) == 11 && Gap(f, e2, b2);
    CommentEnd(f, p, e1, e2);
    CommentEnd(f, p, e2, e1);
    e := e1;
  }

  /** The first piece of a non-empty gap. */
  lemma GapFirst(f: seq<char>, p: int, q: int)
    requires Gap(f, p, q) && p < q
    ensures IsWhiteSpace(f[p]) ==> Gap(f, p + 1, q)
    ensures !IsWhiteSpace(f[p]) ==> f[p] == '{' && exists e :: p < e <= q && Walk(0, f[p..e]) == 11 && Gap(f, e, q)
  {
  }

  /** A closed comment ends at the first closing brace. */
  lemma CommentEnd(f: seq<char>, p: int, e1: int, e2: int)
    requires 0 <= p < e1 <= |f| && 0 <= p < e2 <= |f| && f[p] == '{'
    requires Walk(0, f[p..e1]) == 11 && Walk(0, f[p..e2]) == 11
    ensures e2 <= e1
  {
    var w1, w2 := f[p..e1], f[p..e2];
    CommentIff(w2);
    assert e1 < e2 ==> f[e1 - 1] != '}' by {
      if e1 < e2 {
        assert w2[1..|w2| - 1][e1 - 2 - p] == f[e1 - 1];
      }
    }
    CommentIff(w1);
    assert w1[|w1| - 1] == f[e1 - 1];
  }

  /** A munched lexeme does not begin with the opening brace of a closed
      comment: from such a brace the automaton stays alive up to the closing
      one, reaches 11 there and dies after it. */
  lemma NotInComment(f: seq<char>, b: int, k: int)
    requires Munched(f, b, k)
    ensures !(f[b] == '{' && exists e :: b < e <= |f| && Walk(0, f[b..e]) == 11)
  {
    if f[b] == '{' && exists e :: b < e <= |f| && Walk(0, f[b..e]) == 11 {
      var e :| b < e <= |f| && Walk(0, f[b..e]) == 11;
      DeadAfter(f, b, k, e);
      NotClosedAt(f, b, k, e);
    }
  }

  /** A text from `b` that is alive and not closed at `k`, and dead at `e`
      if `e` lies beyond `k`, is not closed at `e`. */
  lemma NotClosedAt(f: seq<char>, b: int, k: int, e: int)
    requires 0 <= b < k <= |f| && b < e <= |f|
    requires Walk(0, f[b..k]) != DEAD && Walk(0, f[b..k]) != 11
    requires k < e ==> Walk(0, f[b..e]) == DEAD
    ensures Walk(0, f[b..e]) != 11
  {
    ClosedDeadAfter(f, b, e, k);
  }

  /** Once the text from `b` is a closed comment at `e`, every longer text
      from `b` leaves the automaton dead. */
  lemma ClosedDeadAfter(f: seq<char>, b: int, e: int, k: int)
    requires 0 <= b <= e <= |f| && b <= k <= |f|
    ensures Walk(0, f[b..e]) == 11 && e < k ==> Walk(0, f[b..k]) == DEAD
  {
    if Walk(0, f[b..e]) == 11 {
      ClosedIsFinal(SymAt(f, e));
      DeadAfter(f, b, e, k);
    }
  }

  /** The `COMMENT` state 11 has no move. */
  lemma ClosedIsFinal(sym: Sym)
    ensures NextState(sym, 11) == DEAD
  {
  }

  /** Once the automaton dies on the symbol at `k1`, every longer text from
      `b` leaves it dead. */
  lemma DeadAfter(f: seq<char>, b: int, k1: int, k2: int)
    requires 0 <= b <= k1 <= |f| && b <= k2 <= |f|
    requires NextState(SymAt(f, k1), Walk(0, f[b..k1])) == DEAD
    ensures k1 < k2 ==> Walk(0, f[b..k2]) == DEAD
  {
    if k1 < k2 {
      var u, v := f[b..k1], f[k1 + 1..k2];
      assert f[b..k2] == (u + [f[k1]]) + v;
      WalkAppend(0, u + [f[k1]], v);
      WalkSnoc(u, f[k1]);
      WalkDead(v);
    }
  }

  /** `Classified` fixes the token, given its positions, and the table
      after it. */
  lemma ClassifiedUnique(symbols: Symbols, L: string, t1: Token, a1: Symbols, t2: Token, a2: Symbols)
    requires Classified(symbols, L, t1, a1) && Classified(symbols, L, t2, a2)
    requires t1.start == t2.start && t1.end == t2.end
    ensures t1 == t2 && a1 == a2
  {
  }

  // ---------------------------------------------------------------------
  // Properties of the scanner across calls.
  // ---------------------------------------------------------------------

  /** Once `EOF` has been read, every call returns the `EOF` token at the
      same position and leaves the scanner as it was. */
  lemma EofFixedPoint(sc: Scanner)
    requires Inv(sc) && EofContext(sc.context)
    ensures Scan(sc) == Emitted(Token("EOF", "NULO", EOF_TEXT, sc.context.start, sc.context.end, None), sc)
  {
    var (rd, cur) := NextChar(sc.cursor);
    EofEmit(sc, rd, cur, Pos(rd.line, rd.column));
  }

  /** The token returned by every call once `EOF` has been read. */
  function EofToken(sc: Scanner): Token {
    Token("EOF", "NULO", EOF_TEXT, sc.context.start, sc.context.end, None)
  }

  /** `n` copies of a token. */
  function Repeat(t: Token, n: nat): (r: seq<Token>)
    ensures |r| == n && forall k :: 0 <= k < n ==> r[k] == t
  {
    if n == 0 then [] else [t] + Repeat(t, n - 1)
  }

  /** One call of the scanner as the parser sees it: the value of `Scan`,
      with only the facts the parser and the error handler rely on. */
  function Next(sc: Scanner): (r: ScanResult)
    requires Inv(sc)
    ensures r.Emitted? ==> Inv(r.next) && r.next.cursor.file == sc.cursor.file
    ensures r.Emitted? ==> r.token.classe != "COMMENT"
    ensures r.Emitted? ==> r.next.cursor.index >= sc.cursor.index
    ensures r.Emitted? && !AtEnd(sc.cursor) ==> r.next.cursor.index > sc.cursor.index
    ensures r.Emitted? && AtEnd(sc.cursor) ==> EofContext(r.next.context)
    ensures EofContext(sc.context) ==> r == Emitted(EofToken(sc), sc)
  {
    var r := Scan(sc);
    assert EofContext(sc.context) ==> r == Emitted(EofToken(sc), sc) by {
      if EofContext(sc.context) {
        EofFixedPoint(sc);
      }
    }
    r
  }

  /** What successive calls of the scanner return: the tokens, in order,
      and the scanner after the last call. */
  datatype Scanned = Scanned(tokens: seq<Token>, after: Scanner)

  /** The tokens returned by `n` successive calls and the scanner after them,
      or `None` when one of the calls throws. */
  function ScanN(sc: Scanner, n: nat): (r: Option<Scanned>)
    requires Inv(sc)
    ensures r.Some? ==> |r.value.tokens| == n && Inv(r.value.after) && r.value.after.cursor.file == sc.cursor.file
    decreases n
  {
    if n == 0 then Some(Scanned([], sc))
    else
      match Next(sc)
      case Crashed => None
      case Emitted(t, nx) =>
        match ScanN(nx, n - 1)
        case None => None
        case Some(rest) => Some(Scanned([t] + rest.tokens, rest.after))
  }

  /** After `EOF` the scanner hands out nothing but the same `EOF` token and
      stays where it is, however many times it is called. */
  lemma {:induction false} ScanNEof(sc: Scanner, n: nat)
    requires Inv(sc) && EofContext(sc.context)
    ensures ScanN(sc, n) == Some(Scanned(Repeat(EofToken(sc), n), sc))
    decreases n
  {
    if n > 0 {
      ScanNEof(sc, n - 1);
    }
  }

  /** A call that starts with the whole file read leaves the scanner in the
      `EOF` context, so every later call returns `EOF`. */
  lemma EofAfterEnd(sc: Scanner)
    requires Inv(sc) && AtEnd(sc.cursor) && Scan(sc).Emitted?
    ensures var nx := Scan(sc).next;
      Scan(nx) == Emitted(Token("EOF", "NULO", EOF_TEXT, nx.context.start, nx.context.end, None), nx)
  {
    EofFixedPoint(Scan(sc).next);
  }

  /** Entries of the symbol table are never changed or removed. */
  lemma SymbolsOnlyGrow(sc: Scanner, k: string)
    requires Inv(sc) && Scan(sc).Emitted? && k in sc.symbols
    ensures k in Scan(sc).next.symbols && Scan(sc).next.symbols[k] == sc.symbols[k]
  {
    var r := Scan(sc);
    EmissionKeeps(sc.symbols, sc.cursor.file, r.token, r.next, k);
  }

  /** An emission only adds entries to the symbol table. */
  lemma EmissionKeeps(symbols: Symbols, f: seq<char>, t: Token, nx: Scanner, k: string)
    requires Emission(symbols, f, t, nx) && k in symbols
    ensures k in nx.symbols && nx.symbols[k] == symbols[k]
  {
    if t.classe != "EOF" {
      var L := t.lexema;
      assert Classified(symbols, L, t, nx.symbols);
      assert nx.symbols == symbols || (L !in symbols && nx.symbols == symbols[L := t]);
    }
  }

  predicate LowerCaseWord(w: string) {
    |w| > 0 && forall j :: 0 <= j < |w| ==> 'a' <= w[j] <= 'z'
  }

  /** Every reserved word is spelled as an identifier. */
  lemma ReservedWordsAreIdentifiers(w: string)
    requires w in RESERVED_WORDS
    ensures LowerCaseWord(w) && Walk(0, w) == 9
  {
    var i :| 0 <= i < |RESERVED_WORDS| && RESERVED_WORDS[i] == w;
    assert i == 0 || i == 1 || i == 2 || i == 3 || i == 4 || i == 5 || i == 6
      || i == 7 || i == 8 || i == 9 || i == 10 || i == 11 || i == 12;
    assert LowerCaseWord(w);
    IdentifierIff(w);
  }

  /** A reserved word comes back with its own class and type, at the
      position where it was read, and the table does not change. */
  lemma ReservedWordToken(sc: Scanner)
    requires Inv(sc) && Scan(sc).Emitted?
    requires Scan(sc).token.lexema in RESERVED_WORDS
    ensures var t := Scan(sc).token;
      && t.classe == t.lexema && t.tipo == t.lexema && t.description.None?
      && Scan(sc).next.symbols == sc.symbols
  {
    var r := Scan(sc);
    var t := r.token;
    var L := t.lexema;
    ReservedWordsAreIdentifiers(L);
    assert !LowerCaseWord(EOF_TEXT) by {
      assert EOF_TEXT[0] == 'E';
    }
    assert t.classe != "EOF";
    assert Classified(sc.symbols, L, t, r.next.symbols);
    InfoFacts(9);
    assert L in sc.symbols && sc.symbols[L] == ReservedToken(L);
  }

  /** Any other identifier comes back as an `ID` of type `NULO`; the first
      occurrence is stored and later ones find it. */
  lemma IdentifierToken(sc: Scanner)
    requires Inv(sc) && Scan(sc).Emitted?
    requires Scan(sc).token.classe != "EOF"
    requires Walk(0, Scan(sc).token.lexema) == 9 && Scan(sc).token.lexema !in RESERVED_WORDS
    ensures var t := Scan(sc).token;
      && t.classe == "ID" && t.tipo == "NULO" && t.description.None?
      && t.lexema in Scan(sc).next.symbols
      && Scan(sc).next.symbols[t.lexema] == if t.lexema in sc.symbols then sc.symbols[t.lexema] else t
  {
    InfoFacts(9);
  }

  /** A token stopped by a character on which state 0 has no move (such as
      `_`, `?` or `.`) leaves the scanner in the dead state, and the next
      call throws. */
  lemma StrayCharacterCrashes(sc: Scanner)
    requires Inv(sc) && Scan(sc).Emitted?
    requires var nx := Scan(sc).next;
      var f := sc.cursor.file;
      StopIndex(nx) < |f| && NextState(Ch(f[StopIndex(nx)]), 0) == DEAD
    ensures Scan(Scan(sc).next).Crashed?
  {
    var t := Scan(sc).token;
    var f := sc.cursor.file;
    var nx := Scan(sc).next;
    if t.classe != "EOF" {
      Predecessors(f[StopIndex(nx)], 0);
    }
  }

  /** The suffix appended to an error description determines the start
      position: two positions with the same suffix are equal. */
  lemma ErrorSuffixDetermines(p: Pos, q: Pos)
    ensures ErrorSuffix(p) == ErrorSuffix(q) ==> p == q
  {
    var head, mid := ", linha: ", " e coluna: ";
    var a1, b1 := IntToString(p.line), IntToString(p.column);
    var a2, b2 := IntToString(q.line), IntToString(q.column);
    var s1, s2 := ErrorSuffix(p), ErrorSuffix(q);
    assert s1 == head + a1 + mid + b1 && s2 == head + a2 + mid + b2;
    if s1 == s2 {
      if |a1| < |a2| {
        assert s1[|head| + |a1|] == mid[0];
        assert s2[|head| + |a1|] == a2[|a1|];
        IntToStringNoSpace(q.line, |a1|);
      } else if |a2| < |a1| {
        assert s2[|head| + |a2|] == mid[0];
        assert s1[|head| + |a2|] == a1[|a2|];
        IntToStringNoSpace(p.line, |a2|);
      }
      assert a1 == s1[|head|..|head| + |a1|];
      assert a2 == s2[|head|..|head| + |a2|];
      assert b1 == s1[|head| + |a1| + |mid|..];
      assert b2 == s2[|head| + |a2| + |mid|..];
      IntToStringInjective(p.line, q.line);
      IntToStringInjective(p.column, q.column);
    }
  }
}
