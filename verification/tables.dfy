/** The tables that drive the LR parser and its error recovery. The module
    `parsingTable` that fills them is not part of this model, so every
    operation of the parser and of the error handler takes them as a
    parameter. */
module ParseTables {
  import opened Common

  /** One cell of the ACTION table; `Error` carries the number of the error
      to recover from. */
  datatype Action = Shift(target: int) | Reduce(rule: int) | Accept | Error(code: int)

  /** `action`: state, then token class, to action. `goto`: state, then
      nonterminal, to state. `rules`: rule number to rule text, written
      `LHS->X Y Z`. `follow`: nonterminal to its FOLLOW set of token
      classes. */
  datatype Tables = Tables(
    action: map<int, map<string, Action>>,
    goto: map<int, map<string, int>>,
    rules: map<int, string>,
    follow: map<string, set<string>>
  )

  /** The scanner as the parser and the error handler see it: the tokens its
      successive calls return. Once they are used up, the scanner either
      keeps returning the last one (the `EOF` token, which it repeats
      forever) or throws; a source with no tokens at all throws. `pos`
      counts the calls made so far. */
  datatype Source = Source(tokens: seq<Token>, pos: nat, throws: bool)

  /** The outcome of one call of `scanner`. */
  datatype Call = Got(token: Token, rest: Source) | Threw

  /** The source has been read to its end and keeps returning its last
      token. */
  predicate Exhausted(src: Source) {
    src.pos >= |src.tokens| && !src.throws && |src.tokens| > 0
  }

  /** The token the `k`-th call from now returns (counting from 0), if it
      does not throw. */
  function Peek(src: Source, k: nat): Option<Token> {
    if src.pos + k < |src.tokens| then Some(src.tokens[src.pos + k])
    else if src.throws || |src.tokens| == 0 then None
    else Some(src.tokens[|src.tokens| - 1])
  }

  /** The source after `k` calls that did not throw. */
  function Advance(src: Source, k: nat): Source {
    src.(pos := src.pos + k)
  }

  /** One call of `scanner`: the next token, or the throw. */
  function Scanner(src: Source): (r: Call)
    ensures r.Threw? <==> Peek(src, 0).None?
    ensures r.Got? ==> Some(r.token) == Peek(src, 0) && r.rest == Advance(src, 1)
  {
    if src.pos < |src.tokens| then Got(src.tokens[src.pos], src.(pos := src.pos + 1))
    else if src.throws || |src.tokens| == 0 then Threw
    else Got(src.tokens[|src.tokens| - 1], src.(pos := src.pos + 1))
  }

  /** Advancing twice is advancing by the sum. */
  lemma AdvanceAdvance(src: Source, m: nat, n: nat)
    ensures Advance(Advance(src, m), n) == Advance(src, m + n)
  {
  }

  /** An advanced source looks further on in the original one. */
  lemma PeekAdvance(src: Source, m: nat, k: nat)
    ensures Peek(Advance(src, m), k) == Peek(src, m + k)
  {
  }

  /** Once a call throws, every later one would too. */
  lemma PeekNoneLater(src: Source, k: nat, m: nat)
    requires Peek(src, k).None? && k <= m
    ensures Peek(src, m).None?
  {
  }

  /** An exhausted source returns its last token on every call. */
  lemma PeekExhausted(src: Source, k: nat)
    requires Exhausted(src)
    ensures Peek(src, k) == Some(src.tokens[|src.tokens| - 1])
  {
  }
}
