/** Error recovery of `src/parser/errorHandler.ts`.

    An ERROR cell of the action table hands the parser's stack, lookahead
    and scanner to `handle`. The table of phrase-level handlers is empty,
    so every error goes to panic mode: states are popped until one whose
    GOTO row holds a synchronising nonterminal, and tokens are then read
    until one belongs to that nonterminal's FOLLOW set. Reading a token may
    throw like the scanner does, and a search that reaches the end of the
    input never ends, because the scanner returns `EOF` forever. */
module Recovery {
  import opened Common
  import opened ParseTables

  /** The nonterminals panic mode synchronises on, in order of preference. */
  const PANIC_SYNC: seq<string> := ["P'", "P", "V", "LV", "D", "A", "ES", "CMD", "COND"]

  const EMPTY_STACK_ERROR := "Erro pilha vazia no panic handler"

  /** What the parser hands to a handler and gets back. */
  datatype ParsingContext = ParsingContext(stack: seq<int>, a: Token, lexer: Source)

  /** How a handler ends: with a context to resume parsing from, with the
      message the source throws, with a `TypeError` raised by JavaScript
      (the scanner building a token from the state without info, or a
      handler that no longer holds the scanner), or never. */
  datatype Handled = Resumed(ctx: ParsingContext) | Thrown(message: string) | TypeError | Diverges

  // ---------------------------------------------------------------------
  // Choosing where to synchronise.
  // ---------------------------------------------------------------------

  /** Index of the first name that has an entry in `row`. */
  function FirstIn(names: seq<string>, row: map<string, int>): (r: Option<nat>)
    ensures r.Some? ==> r.value < |names| && names[r.value] in row
    ensures r.Some? ==> forall j :: 0 <= j < r.value ==> names[j] !in row
    ensures r.None? ==> forall j :: 0 <= j < |names| ==> names[j] !in row
    decreases |names|
  {
    if |names| == 0 then None
    else if names[0] in row then Some(0)
    else
      match FirstIn(names[1..], row)
      case None => None
      case Some(i) => Some(i + 1)
  }

  /** `panicSync.find`: the first synchronising nonterminal, in list order,
      that the GOTO row of a state has an entry for. */
  function SyncOf(row: map<string, int>): (r: Option<string>)
    ensures r.Some? ==> r.value in row && r.value in PANIC_SYNC
    ensures r.Some? ==>
      exists i :: 0 <= i < |PANIC_SYNC| && PANIC_SYNC[i] == r.value && (forall j :: 0 <= j < i ==> PANIC_SYNC[j] !in row)
    ensures r.None? <==> forall j :: 0 <= j < |PANIC_SYNC| ==> PANIC_SYNC[j] !in row
  {
    match FirstIn(PANIC_SYNC, row)
    case None => None
    case Some(i) => Some(PANIC_SYNC[i])
  }

  /** A state the popping loop can synchronise on. */
  predicate HasSync(goto: map<int, map<string, int>>, s: int) {
    s in goto && SyncOf(goto[s]).Some?
  }

  /** A state the popping loop discards and pops past. State 0 is not one:
      the source tests the popped value for truthiness, so popping 0 is
      taken for an empty stack. */
  predicate Skippable(goto: map<int, map<string, int>>, s: int) {
    s != 0 && !HasSync(goto, s)
  }

  /** Where the popping loop stops: at the index of the state it
      synchronises on, or where it throws, at the index of a 0 state or at
      -1 below the bottom. */
  datatype Stop = SyncAt(at: int, sync: string) | EmptyAt(at: int)

  function PopToSync(goto: map<int, map<string, int>>, stack: seq<int>): (r: Stop)
    ensures r.SyncAt? ==> 0 <= r.at < |stack| && stack[r.at] != 0 && HasSync(goto, stack[r.at])
    ensures r.SyncAt? ==> SyncOf(goto[stack[r.at]]) == Some(r.sync)
    ensures r.EmptyAt? ==> -1 <= r.at < |stack| && (r.at >= 0 ==> stack[r.at] == 0)
    ensures forall j :: r.at < j < |stack| ==> Skippable(goto, stack[j])
    decreases |stack|
  {
    if |stack| == 0 then EmptyAt(-1)
    else
      var s := stack[|stack| - 1];
      if s == 0 then EmptyAt(|stack| - 1)
      else if HasSync(goto, s) then SyncAt(|stack| - 1, SyncOf(goto[s]).value)
      else PopToSync(goto, stack[..|stack| - 1])
  }

  /** Index of the topmost 0 state, or -1 when there is none. */
  function TopZero(stack: seq<int>): (z: int)
    ensures -1 <= z < |stack| && (z >= 0 ==> stack[z] == 0)
    ensures forall j :: z < j < |stack| ==> stack[j] != 0
    decreases |stack|
  {
    if |stack| == 0 then -1
    else if stack[|stack| - 1] == 0 then |stack| - 1
    else TopZero(stack[..|stack| - 1])
  }

  /** Popping fails exactly when no state above the topmost 0 can be
      synchronised on. */
  lemma PopToSyncFails(goto: map<int, map<string, int>>, stack: seq<int>)
    ensures PopToSync(goto, stack).EmptyAt?
      <==> forall j :: TopZero(stack) < j < |stack| ==> !HasSync(goto, stack[j])
  {
    var r := PopToSync(goto, stack);
    var z := TopZero(stack);
    if z >= 0 {
      assert stack[z] == 0;
    }
    if r.at >= 0 {
      assert r.EmptyAt? <==> stack[r.at] == 0;
    }
  }

  // ---------------------------------------------------------------------
  // Skipping tokens.
  // ---------------------------------------------------------------------

  /** Result of reading tokens until one is in a FOLLOW set: the tokens
      skipped, the token found and the source after it; or, when the source
      is exhausted first and its last token (`EOF`) is not in the set, the
      tokens skipped up to that point; or the scanner throwing after the
      tokens skipped. */
  datatype Skip = Found(skipped: seq<Token>, t: Token, next: Source) | Stuck(skipped: seq<Token>) | ScanThrew(skipped: seq<Token>)

  /** The empty set stands for a nonterminal without a FOLLOW entry: the
      source's optional call then yields `undefined` and never matches. */
  function FollowOf(follow: map<string, set<string>>, nt: string): set<string> {
    if nt in follow then follow[nt] else {}
  }

  /** None of the tokens has its class in the set. */
  predicate Avoids(ts: seq<Token>, sync: set<string>) {
    forall k :: 0 <= k < |ts| ==> ts[k].classe !in sync
  }

  /** The tokens are what the first calls of the scanner return, in order. */
  predicate Returns(src: Source, ts: seq<Token>) {
    forall k :: 0 <= k < |ts| ==> Peek(src, k) == Some(ts[k])
  }

  /** A token read, then the tokens after it. */
  lemma ReturnsCons(src: Source, sync: set<string>, ts: seq<Token>)
    requires Scanner(src).Got? && Scanner(src).token.classe !in sync
    requires Returns(Scanner(src).rest, ts) && Avoids(ts, sync)
    ensures Returns(src, [Scanner(src).token] + ts) && Avoids([Scanner(src).token] + ts, sync)
  {
    var t := Scanner(src).token;
    forall k | 0 <= k < |[t] + ts|
      ensures Peek(src, k) == Some(([t] + ts)[k]) && ([t] + ts)[k].classe !in sync
    {
      if k > 0 {
        PeekAdvance(src, 1, k - 1);
        assert ([t] + ts)[k] == ts[k - 1];
      }
    }
  }

  /** Calls the scanner can still make before it is exhausted or throws. */
  function Unread(src: Source): nat {
    if src.pos < |src.tokens| then |src.tokens| - src.pos else 0
  }

  /** The inner loop of `panicHandler`: call the scanner until it returns a
      token whose class is in `sync`. */
  function SkipUntil(src: Source, sync: set<string>): (r: Skip)
    ensures Returns(src, r.skipped) && Avoids(r.skipped, sync)
    ensures r.Found? ==>
      r.t.classe in sync && Peek(src, |r.skipped|) == Some(r.t) && r.next == Advance(src, |r.skipped| + 1)
    ensures r.Stuck? ==>
      Exhausted(Advance(src, |r.skipped|)) && src.tokens[|src.tokens| - 1].classe !in sync
    ensures r.ScanThrew? ==> Peek(src, |r.skipped|).None?
    decreases Unread(src)
  {
    match Scanner(src)
    case Threw => ScanThrew([])
    case Got(t, rest) =>
      if t.classe in sync then Found([], t, rest)
      else if Exhausted(src) then Stuck([])
      else
        var r := SkipUntil(rest, sync);
        ReturnsCons(src, sync, r.skipped);
        AdvanceAdvance(src, 1, |r.skipped|);
        PeekAdvance(src, 1, |r.skipped|);
        match r
        case Found(skipped, found, after) =>
          AdvanceAdvance(src, 1, |skipped| + 1);
          Found([t] + skipped, found, after)
        case Stuck(skipped) => Stuck([t] + skipped)
        case ScanThrew(skipped) => ScanThrew([t] + skipped)
  }

  /** A search that got stuck never ends: from there on every call of the
      scanner returns the same token, which is not in the set. */
  lemma {:induction false} StuckForever(src: Source, sync: set<string>, k: nat)
    requires SkipUntil(src, sync).Stuck?
    ensures var n := |SkipUntil(src, sync).skipped|;
      Peek(src, n + k).Some? && Peek(src, n + k).value.classe !in sync
  {
    var n := |SkipUntil(src, sync).skipped|;
    PeekAdvance(src, n, k);
    PeekExhausted(Advance(src, n), k);
  }

  /** Conversely, a search over a scanner that never returns a token of the
      set does get stuck. */
  lemma {:induction false} NeverFoundIsStuck(src: Source, sync: set<string>)
    requires NeverIn(src, sync)
    ensures SkipUntil(src, sync).Stuck?
  {
    var r := SkipUntil(src, sync);
    assert Peek(src, |r.skipped|).Some?;
  }

  // ---------------------------------------------------------------------
  // Panic mode.
  // ---------------------------------------------------------------------

  /** `panicHandler`. The state it synchronises on is popped and not pushed
      back, so the stack it returns is a strict prefix of the one it got. */
  function Panic(t: Tables, ctx: ParsingContext): (r: Handled)
    ensures r.Resumed? ==> |r.ctx.stack| < |ctx.stack| && r.ctx.stack == ctx.stack[..|r.ctx.stack|]
    ensures r.Resumed? ==> var p := ctx.stack[|r.ctx.stack|];
      p != 0 && HasSync(t.goto, p) && r.ctx.a.classe in FollowOf(t.follow, SyncOf(t.goto[p]).value)
    ensures r.Resumed? ==> forall j :: |r.ctx.stack| < j < |ctx.stack| ==> Skippable(t.goto, ctx.stack[j])
    ensures r.Thrown? <==> forall j :: TopZero(ctx.stack) < j < |ctx.stack| ==> !HasSync(t.goto, ctx.stack[j])
    ensures r.Thrown? ==> r.message == EMPTY_STACK_ERROR
  {
    PopToSyncFails(t.goto, ctx.stack);
    match PopToSync(t.goto, ctx.stack)
    case EmptyAt(_) => Thrown(EMPTY_STACK_ERROR)
    case SyncAt(k, nt) =>
      match SkipUntil(ctx.lexer, FollowOf(t.follow, nt))
      case Found(_, a, next) => Resumed(ParsingContext(ctx.stack[..k], a, next))
      case Stuck(_) => Diverges
      case ScanThrew(_) => TypeError
  }

  /** The FOLLOW set panic mode reads up to, once it has found a state to
      synchronise on. */
  function PanicFollow(t: Tables, ctx: ParsingContext): set<string>
    requires PopToSync(t.goto, ctx.stack).SyncAt?
  {
    FollowOf(t.follow, PopToSync(t.goto, ctx.stack).sync)
  }

  /** When panic mode resumes, the lookahead is the first token the scanner
      returns whose class is in the FOLLOW set, every token read before it
      is dropped, and the scanner has moved past the lookahead. */
  lemma PanicLookahead(t: Tables, ctx: ParsingContext)
    requires Panic(t, ctx).Resumed?
    ensures PopToSync(t.goto, ctx.stack).SyncAt?
    ensures var r := Panic(t, ctx).ctx;
      exists n: nat ::
        && Peek(ctx.lexer, n) == Some(r.a)
        && r.lexer == Advance(ctx.lexer, n + 1)
        && forall k :: 0 <= k < n ==> Peek(ctx.lexer, k).Some? && Peek(ctx.lexer, k).value.classe !in PanicFollow(t, ctx)
  {
    var s := SkipUntil(ctx.lexer, PanicFollow(t, ctx));
    var n := |s.skipped|;
    forall k | 0 <= k < n
      ensures Peek(ctx.lexer, k).Some? && Peek(ctx.lexer, k).value.classe !in PanicFollow(t, ctx)
    {
      assert Peek(ctx.lexer, k) == Some(s.skipped[k]);
    }
  }

  /** No call of the scanner returns a token of the set. */
  ghost predicate NeverIn(src: Source, sync: set<string>) {
    forall k :: Peek(src, k).Some? && Peek(src, k).value.classe !in sync
  }

  lemma {:induction false} StuckNeverIn(src: Source, sync: set<string>)
    requires SkipUntil(src, sync).Stuck?
    ensures NeverIn(src, sync)
  {
    var s := SkipUntil(src, sync);
    forall k: nat
      ensures Peek(src, k).Some? && Peek(src, k).value.classe !in sync
    {
      if k < |s.skipped| {
        assert Peek(src, k) == Some(s.skipped[k]);
      } else {
        StuckForever(src, sync, k - |s.skipped|);
      }
    }
  }

  /** Panic mode never ends exactly when, once it has found a state to
      synchronise on, no call of the scanner ever returns a token of the
      FOLLOW set. */
  lemma PanicDiverges(t: Tables, ctx: ParsingContext)
    requires PopToSync(t.goto, ctx.stack).SyncAt?
    ensures Panic(t, ctx).Diverges? <==> NeverIn(ctx.lexer, PanicFollow(t, ctx))
  {
    var sync := PanicFollow(t, ctx);
    if SkipUntil(ctx.lexer, sync).Stuck? {
      StuckNeverIn(ctx.lexer, sync);
    }
    if NeverIn(ctx.lexer, sync) {
      NeverFoundIsStuck(ctx.lexer, sync);
    }
  }

  // ---------------------------------------------------------------------
  // Phrase-level actions.
  // ---------------------------------------------------------------------

  /** The micro-actions a phrase-level handler is built from. */
  datatype PhraseAction = AddToStack(state: int) | ReadNewToken

  /** `addToStack(state)` and `readNewToken` applied to a context that holds
      the scanner. */
  function Act(action: PhraseAction, ctx: ParsingContext): (r: Handled)
    ensures r.Resumed? || r.TypeError?
    ensures action.AddToStack? ==>
      r.Resumed? && r.ctx.stack == ctx.stack + [action.state] && r.ctx.a == ctx.a && r.ctx.lexer == ctx.lexer
    ensures action.ReadNewToken? ==> (r.TypeError? <==> Peek(ctx.lexer, 0).None?)
    ensures action.ReadNewToken? && r.Resumed? ==>
      r.ctx.stack == ctx.stack && Some(r.ctx.a) == Peek(ctx.lexer, 0) && r.ctx.lexer == Advance(ctx.lexer, 1)
  {
    match action
    case AddToStack(s) => Resumed(ctx.(stack := ctx.stack + [s]))
    case ReadNewToken =>
      match Scanner(ctx.lexer)
      case Threw => TypeError
      case Got(a, next) => Resumed(ctx.(a := a, lexer := next))
  }

  /** The states a list of actions pushes, in order. */
  function Pushed(actions: seq<PhraseAction>): seq<int> {
    if |actions| == 0 then []
    else (if actions[0].AddToStack? then [actions[0].state] else []) + Pushed(actions[1..])
  }

  /** The number of tokens a list of actions reads. */
  function ReadCount(actions: seq<PhraseAction>): nat {
    if |actions| == 0 then 0
    else (if actions[0].ReadNewToken? then 1 else 0) + ReadCount(actions[1..])
  }

  /** `createPhraseHandler` with the scanner kept in the accumulated
      context: the actions run in list order, the result pushes exactly the
      states of the `addToStack` actions, the scanner has made one call per
      `readNewToken`, and the lookahead is the token of the last of those
      calls (the old one if there is none). It fails exactly when one of
      those calls throws. */
  function PhraseHandler(actions: seq<PhraseAction>, ctx: ParsingContext): (r: Handled)
    ensures r.Resumed? || r.TypeError?
    ensures r.TypeError? <==> ReadCount(actions) > 0 && Peek(ctx.lexer, ReadCount(actions) - 1).None?
    ensures r.Resumed? ==>
      r.ctx.stack == ctx.stack + Pushed(actions) && r.ctx.lexer == Advance(ctx.lexer, ReadCount(actions))
    ensures r.Resumed? && ReadCount(actions) > 0 ==> Some(r.ctx.a) == Peek(ctx.lexer, ReadCount(actions) - 1)
    ensures r.Resumed? && ReadCount(actions) == 0 ==> r.ctx.a == ctx.a
    decreases |actions|
  {
    if |actions| == 0 then Resumed(ctx)
    else
      match Act(actions[0], ctx)
      case Resumed(next) => PhraseHandler(actions[1..], next)
      case other => other
  }

  /** `createPhraseHandler` as written. Each action's result is spread into
      the accumulator, but `addToStack` and `readNewToken` return only the
      stack and the lookahead, so after the first action the accumulator no
      longer holds the scanner, and a later `readNewToken` throws a
      `TypeError` when it calls `scanner` on `undefined`. */
  function PhraseHandlerAsWritten(actions: seq<PhraseAction>, ctx: ParsingContext): (r: Handled)
    ensures r.Resumed? || r.TypeError?
  {
    ApplyAsWritten(actions, ctx, true)
  }

  function ApplyAsWritten(actions: seq<PhraseAction>, ctx: ParsingContext, holdsLexer: bool): (r: Handled)
    ensures r.Resumed? || r.TypeError?
    decreases |actions|
  {
    if |actions| == 0 then Resumed(ctx)
    else if actions[0].ReadNewToken? && !holdsLexer then TypeError
    else
      match Act(actions[0], ctx)
      case Resumed(next) => ApplyAsWritten(actions[1..], next, false)
      case other => other
  }

  /** The two agree when only the first action reads a token. */
  lemma {:induction false} AsWrittenAgrees(actions: seq<PhraseAction>, ctx: ParsingContext, holdsLexer: bool)
    requires forall i :: 0 <= i < |actions| && (i > 0 || !holdsLexer) ==> actions[i].AddToStack?
    ensures ApplyAsWritten(actions, ctx, holdsLexer) == PhraseHandler(actions, ctx)
    decreases |actions|
  {
    if |actions| > 0 {
      match Act(actions[0], ctx)
      case Resumed(next) =>
        forall i | 0 <= i < |actions[1..]|
          ensures actions[1..][i].AddToStack?
        {
          assert actions[1..][i] == actions[i + 1];
        }
        AsWrittenAgrees(actions[1..], next, false);
      case _ =>
    }
  }

  /** Pushing a state and then reading a token throws as written, while the
      intended handler reads the token whenever the scanner can. */
  lemma AsWrittenLosesScanner(ctx: ParsingContext, s: int)
    ensures PhraseHandlerAsWritten([AddToStack(s), ReadNewToken], ctx) == TypeError
    ensures Peek(ctx.lexer, 0).Some? ==>
      PhraseHandler([AddToStack(s), ReadNewToken], ctx)
        == Resumed(ParsingContext(ctx.stack + [s], Peek(ctx.lexer, 0).value, Advance(ctx.lexer, 1)))
  {
    var actions := [AddToStack(s), ReadNewToken];
    var pushed := ctx.(stack := ctx.stack + [s]);
    assert actions[1..] == [ReadNewToken];
    assert actions[1..][1..] == [];
    assert Act(actions[0], ctx) == Resumed(pushed);
    assert ApplyAsWritten(actions[1..], pushed, false) == TypeError;
  }

  // ---------------------------------------------------------------------
  // The handler.
  // ---------------------------------------------------------------------

  /** Phrase-level handlers by error number. The source leaves the table
      empty. */
  const ERROR_TABLE: map<int, seq<PhraseAction>> := map[]

  /** The dispatch of `ErrorHandler.handle` over a table of phrase-level
      handlers: the handler registered for the error if there is one, panic
      mode otherwise. */
  function Dispatch(table: map<int, seq<PhraseAction>>, t: Tables, code: int, ctx: ParsingContext): Handled {
    if code in table then PhraseHandler(table[code], ctx) else Panic(t, ctx)
  }

  /** `ErrorHandler.handle`: with the source's empty table, every error is
      handled in panic mode. */
  function Handle(t: Tables, code: int, ctx: ParsingContext): (r: Handled)
    ensures r == Panic(t, ctx)
  {
    Dispatch(ERROR_TABLE, t, code, ctx)
  }
}
