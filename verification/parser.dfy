/** The LR driver of `src/parser/parser.ts`: the two tables it derives from
    the grammar rules (how many states a rule pops and which nonterminal it
    produces), and the shift/reduce/accept/error loop over the ACTION and
    GOTO tables. The driver returns the texts of the rules it reduced by, in
    order. */
module Parser {
  import opened Common
  import opened ParseTables
  import Recovery

  const TABLE_ERROR := "Erro na tabela de ações"
  const ACTION_NOT_FOUND := "Erro ação não encontrada"

  // ---------------------------------------------------------------------
  // `split(' ')` and its inverse.
  // ---------------------------------------------------------------------

  /** `s.split(sep)` for a one-character separator: the pieces between the
      separators, empty ones included. */
  function Split(s: string, sep: char): (parts: seq<string>)
    ensures |parts| == 1 + CountChar(s, sep)
    ensures forall i :: 0 <= i < |parts| ==> sep !in parts[i]
    decreases |s|
  {
    if |s| == 0 then [""]
    else
      var init := Split(s[..|s| - 1], sep);
      var c := s[|s| - 1];
      if c == sep then init + [""]
      else init[..|init| - 1] + [init[|init| - 1] + [c]]
  }

  /** `parts.join(sep)`. */
  function Join(parts: seq<string>, sep: char): string
    requires |parts| > 0
    decreases |parts|
  {
    if |parts| == 1 then parts[0] else Join(parts[..|parts| - 1], sep) + [sep] + parts[|parts| - 1]
  }

  /** Joining the pieces gives back the text. */
  lemma {:induction false} JoinSplit(s: string, sep: char)
    ensures Join(Split(s, sep), sep) == s
    decreases |s|
  {
    if |s| > 0 {
      var init := Split(s[..|s| - 1], sep);
      var c := s[|s| - 1];
      JoinSplit(s[..|s| - 1], sep);
      if c == sep {
        assert (init + [""])[..|init|] == init;
      } else {
        var parts := init[..|init| - 1] + [init[|init| - 1] + [c]];
        if |init| > 1 {
          assert parts[..|parts| - 1] == init[..|init| - 1];
          assert Join(init, sep) == Join(init[..|init| - 1], sep) + [sep] + init[|init| - 1];
        }
      }
    }
  }

  /** Splitting a join of separator-free pieces gives back the pieces. */
  lemma {:induction false} SplitJoin(parts: seq<string>, sep: char)
    requires |parts| > 0
    requires forall i :: 0 <= i < |parts| ==> sep !in parts[i]
    ensures Split(Join(parts, sep), sep) == parts
    decreases |parts|
  {
    if |parts| == 1 {
      SplitFree(parts[0], sep);
    } else {
      var init := parts[..|parts| - 1];
      SplitJoin(init, sep);
      SplitAfterSep(Join(init, sep), parts[|parts| - 1], sep);
    }
  }

  /** A text without the separator is one piece. */
  lemma {:induction false} SplitFree(s: string, sep: char)
    requires sep !in s
    ensures Split(s, sep) == [s]
    decreases |s|
  {
    if |s| > 0 {
      assert s[|s| - 1] in s;
      SplitFree(s[..|s| - 1], sep);
      assert s[..|s| - 1] + [s[|s| - 1]] == s;
    }
  }

  /** Appending a separator and a separator-free piece appends that piece. */
  lemma {:induction false} SplitAfterSep(s: string, last: string, sep: char)
    requires sep !in last
    ensures Split(s + [sep] + last, sep) == Split(s, sep) + [last]
    decreases |last|
  {
    var t := s + [sep] + last;
    if |last| == 0 {
      assert t[..|t| - 1] == s;
    } else {
      var init := last[..|last| - 1];
      assert t[..|t| - 1] == s + [sep] + init;
      SplitAfterSep(s, init, sep);
      assert init + [last[|last| - 1]] == last;
    }
  }

  // ---------------------------------------------------------------------
  // `popAmountPerRule`: `replace(/[A-Z']+->/, '').split(' ').length`.
  // ---------------------------------------------------------------------

  predicate IsRuleChar(c: char) {
    'A' <= c <= 'Z' || c == '\''
  }

  /** The end of the run of rule characters starting at `i`. */
  function RunEnd(s: string, i: nat): (j: nat)
    requires i <= |s|
    ensures i <= j <= |s|
    ensures forall k :: i <= k < j ==> IsRuleChar(s[k])
    ensures j == |s| || !IsRuleChar(s[j])
    decreases |s| - i
  {
    if i == |s| || !IsRuleChar(s[i]) then i else RunEnd(s, i + 1)
  }

  /** The pattern `[A-Z']+->` matches at `i`. Since `-` is not a rule
      character, a match must take the whole run that starts at `i`. */
  predicate LhsMatchAt(s: string, i: nat) {
    i < |s| && IsRuleChar(s[i]) && OccursAt(s, "->", RunEnd(s, i))
  }

  /** The leftmost match at or after `from`. */
  function FirstLhsMatch(s: string, from: nat): (r: Option<nat>)
    requires from <= |s|
    ensures r.Some? ==> from <= r.value && LhsMatchAt(s, r.value)
    ensures r.Some? ==> forall i :: from <= i < r.value ==> !LhsMatchAt(s, i)
    ensures r.None? ==> forall i :: from <= i < |s| ==> !LhsMatchAt(s, i)
    decreases |s| - from
  {
    if from == |s| then None
    else if LhsMatchAt(s, from) then Some(from)
    else FirstLhsMatch(s, from + 1)
  }

  /** `text.replace(/[A-Z']+->/, '')`: the leftmost match is removed. */
  function StripLhs(text: string): string {
    match FirstLhsMatch(text, 0)
    case None => text
    case Some(i) => text[..i] + text[RunEnd(text, i) + 2..]
  }

  /** The number of states a reduction by the rule pops. */
  function PopCount(text: string): (n: nat)
    ensures n >= 1
  {
    |Split(StripLhs(text), ' ')|
  }

  // ---------------------------------------------------------------------
  // `ruleLetter`: `replace(/->.*/, '')`.
  // ---------------------------------------------------------------------

  /** The characters `.` does not match. */
  predicate IsLineTerminator(c: char) {
    c == '\n' || c == '\r' || c == '\U{2028}' || c == '\U{2029}'
  }

  /** The first line terminator at or after `i`, or the end of the text. */
  function LineEnd(s: string, i: nat): (j: nat)
    requires i <= |s|
    ensures i <= j <= |s|
    ensures forall k :: i <= k < j ==> !IsLineTerminator(s[k])
    ensures j == |s| || IsLineTerminator(s[j])
    decreases |s| - i
  {
    if i == |s| || IsLineTerminator(s[i]) then i else LineEnd(s, i + 1)
  }

  /** The nonterminal a rule produces: the text with its first `->` and the
      rest of that line removed. */
  function RuleLetter(text: string): string {
    IndexOfFromFirst(text, "->", 0);
    match IndexOf(text, "->")
    case None => text
    case Some(i) => text[..i] + text[LineEnd(text, i + 2)..]
  }

  /** A run of rule characters holds no `-`. */
  lemma NoDash(lhs: string)
    requires forall k :: 0 <= k < |lhs| ==> IsRuleChar(lhs[k])
    ensures '-' !in lhs
  {
    forall k | 0 <= k < |lhs|
      ensures lhs[k] != '-'
    {
      assert IsRuleChar(lhs[k]);
    }
  }

  lemma LetterOf(lhs: string, rhs: string)
    requires forall k :: 0 <= k < |lhs| ==> IsRuleChar(lhs[k])
    requires forall k :: 0 <= k < |rhs| ==> !IsLineTerminator(rhs[k])
    ensures RuleLetter(lhs + "->" + rhs) == lhs
  {
    var text := lhs + "->" + rhs;
    NoDash(lhs);
    IndexOfSplit(lhs, "->", rhs);
    assert LineEnd(text, |lhs| + 2) == |text| by {
      assert forall k :: |lhs| + 2 <= k < |text| ==> text[k] == rhs[k - |lhs| - 2];
    }
    assert text[..|lhs|] == lhs;
  }

  lemma StripOf(lhs: string, rhs: string)
    requires |lhs| > 0 && forall k :: 0 <= k < |lhs| ==> IsRuleChar(lhs[k])
    ensures StripLhs(lhs + "->" + rhs) == rhs
  {
    var text := lhs + "->" + rhs;
    assert RunEnd(text, 0) == |lhs| by {
      assert forall k :: 0 <= k < |lhs| ==> text[k] == lhs[k];
      assert text[|lhs|] == '-';
    }
    assert text[|lhs|..|lhs| + 2] == "->";
    assert LhsMatchAt(text, 0);
    assert text[|lhs| + 2..] == rhs;
  }

  /** A rule `LHS->X Y Z` pops one state per symbol of its right-hand side
      and produces its left-hand side, as long as the left-hand side is a
      run of rule characters and the right-hand side is one line. */
  lemma RuleShape(lhs: string, rhs: string)
    requires |lhs| > 0 && forall k :: 0 <= k < |lhs| ==> IsRuleChar(lhs[k])
    requires forall k :: 0 <= k < |rhs| ==> !IsLineTerminator(rhs[k])
    ensures RuleLetter(lhs + "->" + rhs) == lhs
    ensures StripLhs(lhs + "->" + rhs) == rhs
    ensures PopCount(lhs + "->" + rhs) == 1 + CountChar(rhs, ' ')
    ensures Join(Split(StripLhs(lhs + "->" + rhs), ' '), ' ') == rhs
  {
    LetterOf(lhs, rhs);
    StripOf(lhs, rhs);
    JoinSplit(rhs, ' ');
  }

  // ---------------------------------------------------------------------
  // The driver.
  // ---------------------------------------------------------------------

  /** The driver's state: the stack of states, the lookahead, the scanner
      and the rule texts reduced by so far. */
  datatype Config = Config(stack: seq<int>, a: Token, lexer: Source, trace: seq<string>)

  /** How a parse ends: accepted with its trace, with the message thrown
      by the driver or the error handler, with a `TypeError` from the
      scanner, in the endless loop of panic mode, or out of fuel. */
  datatype Outcome = Accepted(trace: seq<string>) | Thrown(message: string) | TypeError | Diverges | OutOfFuel

  /** One iteration of the loop: go on from a new state, or stop. */
  datatype Move = Continue(next: Config) | Halt(outcome: Outcome)

  function Top(stack: seq<int>): int
    requires |stack| > 0
  {
    stack[|stack| - 1]
  }

  /** The ACTION cell for the top state and the lookahead's class, if the
      row and the cell exist. */
  function ActionOf(t: Tables, c: Config): Option<Action> {
    if |c.stack| > 0 && Top(c.stack) in t.action && c.a.classe in t.action[Top(c.stack)] then
      Some(t.action[Top(c.stack)][c.a.classe])
    else None
  }

  /** The stack after a reduction by `rule`, or `None` when the source would
      push `undefined` (an unknown rule, a rule that pops the whole stack,
      or a missing GOTO cell); the next iteration then finds no ACTION row. */
  function Reduced(t: Tables, stack: seq<int>, rule: int): Option<seq<int>> {
    if rule !in t.rules then None
    else
      var n := PopCount(t.rules[rule]);
      if n >= |stack| then None
      else
        var rest := stack[..|stack| - n];
        var lhs := RuleLetter(t.rules[rule]);
        if Top(rest) in t.goto && lhs in t.goto[Top(rest)] then Some(rest + [t.goto[Top(rest)][lhs]])
        else None
  }

  /** One iteration of the loop of `Parser.parse`. */
  function Step(t: Tables, c: Config): (m: Move)
    ensures (|c.stack| == 0 || Top(c.stack) !in t.action) ==> m == Halt(Thrown(TABLE_ERROR))
    ensures |c.stack| > 0 && Top(c.stack) in t.action && c.a.classe !in t.action[Top(c.stack)] ==>
      m == Halt(Thrown(ACTION_NOT_FOUND))
    ensures ActionOf(t, c).Some? && ActionOf(t, c).value.Shift? ==>
      (m.Halt? <==> Peek(c.lexer, 0).None?) && (m.Halt? ==> m.outcome.TypeError?)
    ensures ActionOf(t, c).Some? && ActionOf(t, c).value.Shift? && m.Continue? ==>
      && m.next.stack == c.stack + [ActionOf(t, c).value.target]
      && Some(m.next.a) == Peek(c.lexer, 0)
      && m.next.lexer == Advance(c.lexer, 1)
      && m.next.trace == c.trace
    ensures ActionOf(t, c) == Some(Accept) ==> m == Halt(Accepted(c.trace))
    ensures ActionOf(t, c).Some? && ActionOf(t, c).value.Reduce? ==> ReduceStep(t, c, ActionOf(t, c).value.rule, m)
    ensures ActionOf(t, c).Some? && ActionOf(t, c).value.Error? ==> ErrorStep(t, c, ActionOf(t, c).value.code, m)
  {
    if |c.stack| == 0 || Top(c.stack) !in t.action then Halt(Thrown(TABLE_ERROR))
    else if c.a.classe !in t.action[Top(c.stack)] then Halt(Thrown(ACTION_NOT_FOUND))
    else
      match t.action[Top(c.stack)][c.a.classe]
      case Shift(g) =>
        (match Scanner(c.lexer)
         case Threw => Halt(TypeError)
         case Got(a, rest) => Continue(c.(stack := c.stack + [g], a := a, lexer := rest)))
      case Reduce(rule) =>
        ReduceMeaning(t, c, rule);
        (match Reduced(t, c.stack, rule)
         case None => Halt(Thrown(TABLE_ERROR))
         case Some(stack) => Continue(c.(stack := stack, trace := c.trace + [t.rules[rule]])))
      case Accept => Halt(Accepted(c.trace))
      case Error(code) =>
        (match Recovery.Handle(t, code, Recovery.ParsingContext(c.stack, c.a, c.lexer))
         case Resumed(ctx) => Continue(Config(ctx.stack, ctx.a, ctx.lexer, c.trace))
         case Thrown(message) => Halt(Thrown(message))
         case TypeError => Halt(TypeError)
         case Diverges => Halt(Diverges))
  }

  /** What a reduction by `rule` does: with `n` the rule's pop count, it
      removes exactly `n` states, pushes the GOTO entry of the new top for
      the rule's nonterminal, keeps the lookahead and the scanner, and
      appends the rule's text to the trace. It throws `TABLE_ERROR` exactly
      when the rule is unknown, it would pop the whole stack, or the GOTO
      entry is missing. */
  predicate ReduceStep(t: Tables, c: Config, rule: int, m: Move) {
    && (m.Halt? ==> m.outcome == Thrown(TABLE_ERROR))
    && (m.Continue? <==>
      && rule in t.rules
      && PopCount(t.rules[rule]) < |c.stack|
      && var top := c.stack[|c.stack| - PopCount(t.rules[rule]) - 1];
        top in t.goto && RuleLetter(t.rules[rule]) in t.goto[top])
    && (m.Continue? ==>
      && rule in t.rules
      && var n := PopCount(t.rules[rule]);
      && n < |c.stack|
      && var top := c.stack[|c.stack| - n - 1];
      && top in t.goto && RuleLetter(t.rules[rule]) in t.goto[top]
      && |m.next.stack| == |c.stack| - n + 1
      && m.next.stack[..|c.stack| - n] == c.stack[..|c.stack| - n]
      && m.next.stack[|c.stack| - n] == t.goto[top][RuleLetter(t.rules[rule])]
      && m.next.a == c.a && m.next.lexer == c.lexer
      && m.next.trace == c.trace + [t.rules[rule]])
  }

  lemma ReduceFails(t: Tables, c: Config, rule: int)
    requires Reduced(t, c.stack, rule).None?
    ensures ReduceStep(t, c, rule, Halt(Thrown(TABLE_ERROR)))
  {
  }

  lemma ReduceSucceeds(t: Tables, c: Config, rule: int)
    requires Reduced(t, c.stack, rule).Some?
    ensures rule in t.rules
    ensures ReduceStep(t, c, rule, Continue(c.(stack := Reduced(t, c.stack, rule).value, trace := c.trace + [t.rules[rule]])))
  {
    var stack := Reduced(t, c.stack, rule).value;
    var n := PopCount(t.rules[rule]);
    assert stack[..|c.stack| - n] == c.stack[..|c.stack| - n];
  }

  lemma ReduceMeaning(t: Tables, c: Config, rule: int)
    ensures match Reduced(t, c.stack, rule)
      case None => ReduceStep(t, c, rule, Halt(Thrown(TABLE_ERROR)))
      case Some(stack) => rule in t.rules && ReduceStep(t, c, rule, Continue(c.(stack := stack, trace := c.trace + [t.rules[rule]])))
  {
    if Reduced(t, c.stack, rule).Some? {
      ReduceSucceeds(t, c, rule);
    } else {
      ReduceFails(t, c, rule);
    }
  }

  /** What an ERROR cell does: the stack, the lookahead and the scanner
      become exactly what the error handler returns, and the trace is kept;
      when the handler fails, the parse fails the same way. */
  predicate ErrorStep(t: Tables, c: Config, code: int, m: Move) {
    var h := Recovery.Handle(t, code, Recovery.ParsingContext(c.stack, c.a, c.lexer));
    && (m.Continue? <==> h.Resumed?)
    && (m.Continue? ==> m.next == Config(h.ctx.stack, h.ctx.a, h.ctx.lexer, c.trace))
    && (h.Thrown? ==> m == Halt(Thrown(h.message)))
    && (h.TypeError? ==> m == Halt(TypeError))
    && (h.Diverges? ==> m == Halt(Diverges))
  }

  /** Every rule text is a value of the rule table. */
  predicate RuleTexts(t: Tables, trace: seq<string>) {
    forall i :: 0 <= i < |trace| ==> trace[i] in t.rules.Values
  }

  /** The loop of `Parser.parse`, for at most `fuel` iterations. An accepted
      parse extends the trace it started from, with rule texts only. */
  function Run(t: Tables, c: Config, fuel: nat): (o: Outcome)
    ensures o.Accepted? ==> |c.trace| <= |o.trace| && o.trace[..|c.trace|] == c.trace
    ensures o.Accepted? ==> RuleTexts(t, o.trace[|c.trace|..])
    decreases fuel
  {
    if fuel == 0 then OutOfFuel
    else
      match Step(t, c)
      case Halt(o) =>
        assert o.Accepted? ==> o.trace[|c.trace|..] == [];
        o
      case Continue(next) =>
        var o := Run(t, next, fuel - 1);
        TraceStep(t, c, next, o);
        o
  }

  /** One iteration keeps the trace or appends one rule text to it. */
  lemma TraceStep(t: Tables, c: Config, next: Config, o: Outcome)
    requires Step(t, c) == Continue(next)
    requires o.Accepted? ==> |next.trace| <= |o.trace| && o.trace[..|next.trace|] == next.trace
    requires o.Accepted? ==> RuleTexts(t, o.trace[|next.trace|..])
    ensures o.Accepted? ==> |c.trace| <= |o.trace| && o.trace[..|c.trace|] == c.trace
    ensures o.Accepted? ==> RuleTexts(t, o.trace[|c.trace|..])
  {
    var act := ActionOf(t, c).value;
    if o.Accepted? && act.Reduce? {
      var k := |c.trace|;
      assert next.trace == c.trace + [t.rules[act.rule]];
      assert o.trace[..|next.trace|][..k] == o.trace[..k];
      assert o.trace[k] == next.trace[k];
      forall i | 0 <= i < |o.trace[k..]|
        ensures o.trace[k..][i] in t.rules.Values
      {
        if i > 0 {
          assert o.trace[k..][i] == o.trace[k + 1..][i - 1];
        }
      }
    }
  }

  /** `Parser.parse`: the stack starts as `[0]`, the lookahead is the
      scanner's first token and the trace is empty. */
  function Parse(t: Tables, lexer: Source, fuel: nat): (o: Outcome)
    ensures Peek(lexer, 0).None? ==> o == TypeError
    ensures Peek(lexer, 0).Some? ==> o == Run(t, Config([0], Peek(lexer, 0).value, Advance(lexer, 1), []), fuel)
    ensures o.Accepted? ==> RuleTexts(t, o.trace)
  {
    match Scanner(lexer)
    case Threw => TypeError
    case Got(a, rest) =>
      var o := Run(t, Config([0], a, rest, []), fuel);
      assert o.Accepted? ==> o.trace[0..] == o.trace;
      o
  }

  /** More fuel does not change a parse that ended. */
  lemma {:induction false} RunFuelMonotone(t: Tables, c: Config, fuel: nat, more: nat)
    requires Run(t, c, fuel) != OutOfFuel && fuel <= more
    ensures Run(t, c, more) == Run(t, c, fuel)
    decreases fuel
  {
    match Step(t, c)
    case Halt(_) =>
    case Continue(next) =>
      RunFuelMonotone(t, next, fuel - 1, more - 1);
  }
}
