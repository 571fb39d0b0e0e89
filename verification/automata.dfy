/** The lexical automaton of `src/lexer/automata.ts`.

    The source builds three tables once, at load time, by a script of
    `addTransition`, `addAcceptableState` and `addStateInfo` calls grouped in
    one `create*Branch` function per token family; each call refuses to
    overwrite an existing entry. `nextState` and `acceptState` then read those
    tables. This module models the builder as written (`CreateTransitionTable`)
    and, independently, the automaton the script writes, as a transition
    function over character classes (`NextState`, `AcceptState`). The
    builder's lemmas relate a run of the script to the history of its calls;
    the lemmas on `NextState` describe the token shapes it recognises. */
module Automata {
  import opened Common

  type State = int

  /** Returned when no transition exists. */
  const DEAD: State := -1

  const EOF_TEXT := "EOF"
  const DIGITS := "0123456789"
  const LOWER_LETTERS := "abcdefghijklmnopqrstuvwxyz"
  const UPPER_LETTERS := "ABCDEFGHIJKLMNOPQRSTUVWXYZ"
  const LETTERS := LOWER_LETTERS + UPPER_LETTERS
  /** The non-alphanumeric part of the alphabet, in the source's order. */
  const SYMBOLS := " \n\t?!;:,.<>=/*+-\\(){}_||'[]\""
  const ALPHABET := DIGITS + LETTERS + SYMBOLS
  /** `ALPHABET.replace('"', '')`, see `AlphabetWithoutQuotesIsReplace`. */
  const ALPHABET_WITHOUT_QUOTES := DIGITS + LETTERS + " \n\t?!;:,.<>=/*+-\\(){}_||'[]"
  /** `ALPHABET.replace('{}', '')`, see `AlphabetWithoutBracesIsReplace`. */
  const ALPHABET_WITHOUT_BRACES := DIGITS + LETTERS + " \n\t?!;:,.<>=/*+-\\()_||'[]\""

  // Error states and their descriptions.
  const REAL_NUMBER_ERROR: State := 2
  const REAL_NUMBER_DESCRIPTION := "Erro número real incompleto"
  const EXPONENTIAL_ERROR: State := 4
  const EXPONENTIAL_WITH_SIGN_ERROR: State := 5
  const EXPONENTIAL_DESCRIPTION := "Erro exponencial incompleto"
  const LITERAL_ERROR: State := 7
  const LITERAL_DESCRIPTION := "Erro literal incompleto"
  const COMMENT_ERROR: State := 10
  /** The description registered for state 10; the source's error catalogue
      spells it differently but that spelling is never registered. */
  const COMMENT_DESCRIPTION := "Erro comentário incompleto"
  const INVALID_CHARACTER: State := -3
  const INVALID_CHARACTER_DESCRIPTION := "Erro caractere inválido"
  const INVALID_PATTERN: State := 0
  const INVALID_PATTERN_DESCRIPTION := "Erro token fora do padrão"

  /** What the scanner learns about a state: the token class, its
      description, the type tag, and whether it may read white space. */
  datatype StateInfo = StateInfo(
    state: State,
    classe: string,
    description: string,
    tipo: string,
    canReadWhiteSpace: bool
  )

  /** One row of the transition table: explicit transitions keyed by symbol,
      and the target for characters outside the alphabet. */
  datatype Row = Row(entries: map<Sym, State>, outOfAlphabet: State)

  datatype Tables = Tables(
    transitions: map<State, Row>,
    accepting: set<State>,
    info: map<State, StateInfo>
  )

  /** The answer of `acceptState`. */
  datatype Acceptance = Acceptance(accepted: bool, info: Option<StateInfo>)

  // ---------------------------------------------------------------------
  // The table builder, as written.
  // ---------------------------------------------------------------------

  const EMPTY_TABLES := Tables(map[], {}, map[])

  /** The keys one `addTransition` call writes: every character of the
      text, or the single `EOF` key when the text is exactly `EOF`. */
  function LabelKeys(text: string): set<Sym> {
    if text == EOF_TEXT then {Eof} else set c | c in text :: Ch(c)
  }

  /** `includeTransitions.has(charOrString)`: the map is keyed by single
      characters and by `EOF`, so only a one-character text or `EOF` can be
      found; a longer text is never detected as a duplicate. */
  predicate HasLabel(row: Row, text: string) {
    || (|text| == 1 && Ch(text[0]) in row.entries)
    || (text == EOF_TEXT && Eof in row.entries)
  }

  /** The explicit entry of row `s` for key `k`, if any. */
  function Entry(t: Tables, s: State, k: Sym): Option<State> {
    if s in t.transitions && k in t.transitions[s].entries then Some(t.transitions[s].entries[k]) else None
  }

  /** The out-of-alphabet target of row `s`, or `None` when there is no row. */
  function RowOoa(t: Tables, s: State): Option<State> {
    if s in t.transitions then Some(t.transitions[s].outOfAlphabet) else None
  }

  function InfoAt(t: Tables, s: State): Option<StateInfo> {
    if s in t.info then Some(t.info[s]) else None
  }

  /** `addTransition`: refuses the call exactly when the label is a single
      character or `EOF` already present in the row; otherwise sends every
      key of the label to `to`, creating the row on first use with the given
      out-of-alphabet target (by default the invalid-character state), and
      changes nothing else. */
  function AddTransition(t: Tables, from: State, to: State, text: string, outOfAlphabet: Option<State>): (r: Result<Tables>)
    ensures r.Failure? <==>
      || (|text| == 1 && Entry(t, from, Ch(text[0])).Some?)
      || (text == EOF_TEXT && Entry(t, from, Eof).Some?)
    ensures r.Failure? ==> r.error == "Error trying to overwrite a transition on state: " + IntToString(from) + " with char: " + text
    ensures r.Success? ==> r.value.accepting == t.accepting && r.value.info == t.info
    ensures r.Success? ==> forall s, k ::
      Entry(r.value, s, k) == if s == from && k in LabelKeys(text) then Some(to) else Entry(t, s, k)
    ensures r.Success? ==> forall s ::
      RowOoa(r.value, s) ==
        if s == from && from !in t.transitions then Some(outOfAlphabet.GetOr(INVALID_CHARACTER)) else RowOoa(t, s)
  {
    var row := if from in t.transitions then t.transitions[from] else Row(map[], outOfAlphabet.GetOr(INVALID_CHARACTER));
    if HasLabel(row, text) then
      Failure("Error trying to overwrite a transition on state: " + IntToString(from) + " with char: " + text)
    else
      var added := map k | k in LabelKeys(text) :: to;
      Success(t.(transitions := t.transitions[from := Row(row.entries + added, row.outOfAlphabet)]))
  }

  /** `addAcceptableState`: refuses a state already accepting. */
  function AddAcceptableState(t: Tables, s: State): (r: Result<Tables>)
    ensures r.Failure? <==> s in t.accepting
    ensures r.Failure? ==> r.error == "Error trying to add the state: " + IntToString(s) + " to acceptable state list"
    ensures r.Success? ==> r.value == t.(accepting := t.accepting + {s})
  {
    if s in t.accepting then
      Failure("Error trying to add the state: " + IntToString(s) + " to acceptable state list")
    else
      Success(t.(accepting := t.accepting + {s}))
  }

  /** `addStateInfo`: refuses a second registration for the same state. */
  function AddStateInfo(t: Tables, info: StateInfo): (r: Result<Tables>)
    ensures r.Failure? <==> info.state in t.info
    ensures r.Failure? ==> r.error == "Error trying to register info to the state: " + IntToString(info.state)
    ensures r.Success? ==> r.value == t.(info := t.info[info.state := info])
  {
    if info.state in t.info then
      Failure("Error trying to register info to the state: " + IntToString(info.state))
    else
      Success(t.(info := t.info[info.state := info]))
  }

  // ---------------------------------------------------------------------
  // The construction script: each `create*Branch` function is the list of
  // builder calls it makes, in the source's order, and `Run` makes them.
  // ---------------------------------------------------------------------

  /** One builder call of the script. */
  datatype Call =
    | AddTransitionCall(from: State, to: State, text: string, outOfAlphabet: Option<State>)
    | AddAcceptableStateCall(accepting: State)
    | AddStateInfoCall(info: StateInfo)

  function Apply(t: Tables, c: Call): Result<Tables> {
    match c
    case AddTransitionCall(from, to, text, outOfAlphabet) => AddTransition(t, from, to, text, outOfAlphabet)
    case AddAcceptableStateCall(s) => AddAcceptableState(t, s)
    case AddStateInfoCall(info) => AddStateInfo(t, info)
  }

  /** Makes the calls in order; the first refused call stops the script
      with its message. */
  function Run(t: Tables, calls: seq<Call>): Result<Tables>
    decreases |calls|
  {
    if |calls| == 0 then Success(t)
    else
      var t' :- Apply(t, calls[0]);
      Run(t', calls[1..])
  }

  const SKIP_WHITE_SPACE_ON_START := [
    AddTransitionCall(0, 0, " \n\t", None),
    AddStateInfoCall(StateInfo(0, "ERROR", "Erro token fora do padrão", "NULO", false))
  ]

  const INVALID_CHARACTER_BRANCH := [
    AddTransitionCall(-3, -3, "", Some(-3)),
    AddStateInfoCall(StateInfo(-3, "ERROR", "Erro caractere inválido", "NULO", false))
  ]

  const NUMBER_BRANCH := [
    AddTransitionCall(0, 1, DIGITS, None),
    AddTransitionCall(1, 1, DIGITS, None),
    AddTransitionCall(1, 2, ".", None),
    AddTransitionCall(2, 3, DIGITS, None),
    AddTransitionCall(3, 3, DIGITS, None),
    AddTransitionCall(1, 4, "Ee", None),
    AddTransitionCall(3, 4, "Ee", None),
    AddTransitionCall(4, 5, "+-", None),
    AddTransitionCall(4, 6, DIGITS, None),
    AddTransitionCall(5, 6, DIGITS, None),
    AddTransitionCall(6, 6, DIGITS, None),
    AddAcceptableStateCall(1),
    AddAcceptableStateCall(3),
    AddAcceptableStateCall(6),
    AddStateInfoCall(StateInfo(1, "NUM", "Número inteiro", "INTEIRO", false)),
    AddStateInfoCall(StateInfo(2, "ERROR", "Erro número real incompleto", "NULO", false)),
    AddStateInfoCall(StateInfo(3, "NUM", "Número real", "REAL", false)),
    AddStateInfoCall(StateInfo(4, "ERROR", "Erro exponencial incompleto", "NULO", false)),
    AddStateInfoCall(StateInfo(5, "ERROR", "Erro exponencial incompleto", "NULO", false)),
    AddStateInfoCall(StateInfo(6, "NUM", "Número exponencial", "REAL", false))
  ]

  const LITERAL_BRANCH := [
    AddTransitionCall(0, 7, "\"", None),
    AddTransitionCall(7, 7, ALPHABET_WITHOUT_QUOTES, None),
    AddTransitionCall(7, 8, "\"", None),
    AddAcceptableStateCall(8),
    AddStateInfoCall(StateInfo(7, "ERROR", "Erro literal incompleto", "NULO", true)),
    AddStateInfoCall(StateInfo(8, "LIT", "Literal", "LITERAL", false))
  ]

  const ID_BRANCH := [
    AddTransitionCall(0, 9, LETTERS, None),
    AddTransitionCall(9, 9, LETTERS + DIGITS + "_", None),
    AddAcceptableStateCall(9),
    AddStateInfoCall(StateInfo(9, "ID", "Identifier", "NULO", false))
  ]

  const COMMENT_BRANCH := [
    AddTransitionCall(0, 10, "{", None),
    AddTransitionCall(10, 10, ALPHABET_WITHOUT_BRACES, Some(10)),
    AddTransitionCall(10, 11, "}", None),
    AddAcceptableStateCall(11),
    AddStateInfoCall(StateInfo(10, "ERROR", "Erro comentário incompleto", "NULO", true)),
    AddStateInfoCall(StateInfo(11, "COMMENT", "Commentary", "NULO", false))
  ]

  const OPR_BRANCH := [
    AddTransitionCall(0, 13, ">", None),
    AddTransitionCall(13, 14, "=", None),
    AddTransitionCall(0, 15, "<", None),
    AddTransitionCall(15, 16, "=", None),
    AddTransitionCall(15, 18, ">", None),
    AddAcceptableStateCall(13),
    AddAcceptableStateCall(14),
    AddAcceptableStateCall(15),
    AddAcceptableStateCall(16),
    AddAcceptableStateCall(18),
    AddStateInfoCall(StateInfo(13, "OPR", ">", "NULO", false)),
    AddStateInfoCall(StateInfo(14, "OPR", ">=", "NULO", false)),
    AddStateInfoCall(StateInfo(15, "OPR", "<", "NULO", false)),
    AddStateInfoCall(StateInfo(16, "OPR", "<=", "NULO", false)),
    AddStateInfoCall(StateInfo(18, "OPR", "<>", "NULO", false))
  ]

  const ATR_BRANCH := [
    AddTransitionCall(15, 17, "-", None),
    AddAcceptableStateCall(17),
    AddStateInfoCall(StateInfo(17, "ATR", "<-", "NULO", false))
  ]

  const OPA_BRANCH := [
    AddTransitionCall(0, 19, "+-*/", None),
    AddAcceptableStateCall(19),
    AddStateInfoCall(StateInfo(19, "OPA", "Arithmetic Operator", "NULO", false))
  ]

  const AB_P_BRANCH := [
    AddTransitionCall(0, 20, "(", None),
    AddAcceptableStateCall(20),
    AddStateInfoCall(StateInfo(20, "AB_P", "(", "NULO", false))
  ]

  const FC_P_BRANCH := [
    AddTransitionCall(0, 21, ")", None),
    AddAcceptableStateCall(21),
    AddStateInfoCall(StateInfo(21, "FC_P", ")", "NULO", false))
  ]

  const PT_V_BRANCH := [
    AddTransitionCall(0, 22, ";", None),
    AddAcceptableStateCall(22),
    AddStateInfoCall(StateInfo(22, "PT_V", ";", "NULO", false))
  ]

  const VIR_BRANCH := [
    AddTransitionCall(0, 23, ",", None),
    AddAcceptableStateCall(23),
    AddStateInfoCall(StateInfo(23, "VIR", ",", "NULO", false))
  ]

  const EOF_BRANCH := [
    AddTransitionCall(0, 12, "EOF", None),
    AddAcceptableStateCall(12),
    AddStateInfoCall(StateInfo(12, "EOF", "End of file", "NULO", false))
  ]

  /** The branches in the order `createTransitionTable` runs them. */
  const BRANCHES := [
    SKIP_WHITE_SPACE_ON_START, INVALID_CHARACTER_BRANCH, NUMBER_BRANCH, LITERAL_BRANCH,
    ID_BRANCH, COMMENT_BRANCH, OPR_BRANCH, ATR_BRANCH, OPA_BRANCH, AB_P_BRANCH,
    FC_P_BRANCH, PT_V_BRANCH, VIR_BRANCH, EOF_BRANCH
  ]

  /** `createTransitionTable`: runs the branches in order, filling the given
      tables (empty ones at load time). */
  function CreateTransitionTable(t: Tables, branches: seq<seq<Call>>): Result<Tables>
    decreases |branches|
  {
    if |branches| == 0 then Success(t)
    else
      var t' :- Run(t, branches[0]);
      CreateTransitionTable(t', branches[1..])
  }

  /** `Automata.nextState` over built tables: no row gives `DEAD`; a
      character outside the alphabet (the `EOF` key is inside it) takes the
      row's out-of-alphabet target; otherwise the explicit entry, or `DEAD`. */
  function TableNextState(t: Tables, sym: Sym, s: State): State {
    if s !in t.transitions then DEAD
    else if sym.Ch? && sym.c !in ALPHABET then t.transitions[s].outOfAlphabet
    else if sym in t.transitions[s].entries then t.transitions[s].entries[sym]
    else DEAD
  }

  /** `Automata.acceptState` over built tables. */
  function TableAcceptState(t: Tables, s: State): Acceptance {
    Acceptance(s in t.accepting, if s in t.info then Some(t.info[s]) else None)
  }

  // ---------------------------------------------------------------------
  // The automaton the script is meant to build, by character classes.
  // ---------------------------------------------------------------------

  predicate IsLetter(c: char) {
    'a' <= c <= 'z' || 'A' <= c <= 'Z'
  }

  predicate IsWhiteSpace(c: char) {
    c == ' ' || c == '\n' || c == '\t'
  }

  /** The characters of `SYMBOLS`. */
  predicate IsSymbol(c: char) {
    || IsWhiteSpace(c)
    || c == '?' || c == '!' || c == ';' || c == ':' || c == ',' || c == '.'
    || c == '<' || c == '>' || c == '=' || c == '/' || c == '*' || c == '+'
    || c == '-' || c == '\\' || c == '(' || c == ')' || c == '{' || c == '}'
    || c == '_' || c == '|' || c == '\'' || c == '[' || c == ']' || c == '"'
  }

  predicate InAlphabet(c: char) {
    IsDigitChar(c) || IsLetter(c) || IsSymbol(c)
  }

  /** The states that own a row of the transition table. */
  predicate HasRow(s: State) {
    s == INVALID_CHARACTER || (0 <= s <= 15 && s != 8 && s != 11 && s != 12 && s != 14)
  }

  /** Transition on an alphabet character from a state that has a row. */
  function CharStep(c: char, s: State): State {
    if s == 0 then
      if IsWhiteSpace(c) then 0
      else if IsDigitChar(c) then 1
      else if c == '"' then 7
      else if IsLetter(c) then 9
      else if c == '{' then 10
      else if c == '>' then 13
      else if c == '<' then 15
      else if c == '+' || c == '-' || c == '*' || c == '/' then 19
      else if c == '(' then 20
      else if c == ')' then 21
      else if c == ';' then 22
      else if c == ',' then 23
      else DEAD
    else if s == 1 then
      if IsDigitChar(c) then 1 else if c == '.' then 2 else if c == 'E' || c == 'e' then 4 else DEAD
    else if s == 2 then
      if IsDigitChar(c) then 3 else DEAD
    else if s == 3 then
      if IsDigitChar(c) then 3 else if c == 'E' || c == 'e' then 4 else DEAD
    else if s == 4 then
      if c == '+' || c == '-' then 5 else if IsDigitChar(c) then 6 else DEAD
    else if s == 5 || s == 6 then
      if IsDigitChar(c) then 6 else DEAD
    else if s == 7 then
      if c == '"' then 8 else 7
    else if s == 9 then
      if IsLetter(c) || IsDigitChar(c) || c == '_' then 9 else DEAD
    else if s == 10 then
      if c == '}' then 11 else if c == '{' then DEAD else 10
    else if s == 13 then
      if c == '=' then 14 else DEAD
    else if s == 15 then
      if c == '=' then 16 else if c == '>' then 18 else if c == '-' then 17 else DEAD
    else DEAD
  }

  /** `Automata.nextState`, stated by character classes. */
  function NextState(sym: Sym, s: State): (r: State)
    ensures sym == Eof ==> (r == 12 <==> s == 0) && (s != 0 ==> r == DEAD)
    ensures sym.Ch? && !InAlphabet(sym.c) ==>
      r == (if !HasRow(s) then DEAD else if s == COMMENT_ERROR then COMMENT_ERROR else INVALID_CHARACTER)
    ensures !HasRow(s) ==> r == DEAD
    ensures r == DEAD || r == INVALID_CHARACTER || 0 <= r <= 23
    ensures sym.Ch? ==> r != 12
  {
    if !HasRow(s) then DEAD
    else match sym
      case Eof => if s == 0 then 12 else DEAD
      case Ch(c) =>
        if !InAlphabet(c) then (if s == COMMENT_ERROR then COMMENT_ERROR else INVALID_CHARACTER)
        else CharStep(c, s)
  }

  const ACCEPTING: set<State> := {1, 3, 6, 8, 9, 11, 12, 13, 14, 15, 16, 17, 18, 19, 20, 21, 22, 23}

  /** The state info registered for each state, if any. */
  function InfoOf(s: State): Option<StateInfo> {
    if s == INVALID_PATTERN then Some(StateInfo(s, "ERROR", INVALID_PATTERN_DESCRIPTION, "NULO", false))
    else if s == INVALID_CHARACTER then Some(StateInfo(s, "ERROR", INVALID_CHARACTER_DESCRIPTION, "NULO", false))
    else if s == 1 then Some(StateInfo(s, "NUM", "Número inteiro", "INTEIRO", false))
    else if s == REAL_NUMBER_ERROR then Some(StateInfo(s, "ERROR", REAL_NUMBER_DESCRIPTION, "NULO", false))
    else if s == 3 then Some(StateInfo(s, "NUM", "Número real", "REAL", false))
    else if s == EXPONENTIAL_ERROR || s == EXPONENTIAL_WITH_SIGN_ERROR then
      Some(StateInfo(s, "ERROR", EXPONENTIAL_DESCRIPTION, "NULO", false))
    else if s == 6 then Some(StateInfo(s, "NUM", "Número exponencial", "REAL", false))
    else if s == LITERAL_ERROR then Some(StateInfo(s, "ERROR", LITERAL_DESCRIPTION, "NULO", true))
    else if s == 8 then Some(StateInfo(s, "LIT", "Literal", "LITERAL", false))
    else if s == 9 then Some(StateInfo(s, "ID", "Identifier", "NULO", false))
    else if s == COMMENT_ERROR then Some(StateInfo(s, "ERROR", COMMENT_DESCRIPTION, "NULO", true))
    else if s == 11 then Some(StateInfo(s, "COMMENT", "Commentary", "NULO", false))
    else if s == 12 then Some(StateInfo(s, "EOF", "End of file", "NULO", false))
    else if s == 13 then Some(StateInfo(s, "OPR", ">", "NULO", false))
    else if s == 14 then Some(StateInfo(s, "OPR", ">=", "NULO", false))
    else if s == 15 then Some(StateInfo(s, "OPR", "<", "NULO", false))
    else if s == 16 then Some(StateInfo(s, "OPR", "<=", "NULO", false))
    else if s == 17 then Some(StateInfo(s, "ATR", "<-", "NULO", false))
    else if s == 18 then Some(StateInfo(s, "OPR", "<>", "NULO", false))
    else if s == 19 then Some(StateInfo(s, "OPA", "Arithmetic Operator", "NULO", false))
    else if s == 20 then Some(StateInfo(s, "AB_P", "(", "NULO", false))
    else if s == 21 then Some(StateInfo(s, "FC_P", ")", "NULO", false))
    else if s == 22 then Some(StateInfo(s, "PT_V", ";", "NULO", false))
    else if s == 23 then Some(StateInfo(s, "VIR", ",", "NULO", false))
    else None
  }

  /** `Automata.acceptState`: every registered state is either accepting
      with a proper token class or non-accepting with class `ERROR`, and
      only the literal and comment error states may read white space. */
  function AcceptState(s: State): (r: Acceptance)
    ensures r.info.Some? <==> s == INVALID_CHARACTER || 0 <= s <= 23
    ensures r.info.Some? ==> r.info.value.state == s
    ensures r.accepted ==> r.info.Some?
    ensures r.info.Some? ==> (r.accepted <==> r.info.value.classe != "ERROR")
    ensures r.info.Some? ==> (r.info.value.canReadWhiteSpace <==> s == LITERAL_ERROR || s == COMMENT_ERROR)
  {
    Acceptance(s in ACCEPTING, InfoOf(s))
  }

  // ---------------------------------------------------------------------
  // The string constants by character class.
  // ---------------------------------------------------------------------

  lemma DigitsMembership(c: char)
    ensures c in DIGITS <==> IsDigitChar(c)
  {
  }

  lemma LettersMembership(c: char)
    ensures c in LETTERS <==> IsLetter(c)
  {
    assert c in LETTERS <==> c in LOWER_LETTERS || c in UPPER_LETTERS;
  }

  lemma SymbolsMembership(c: char)
    ensures c in SYMBOLS <==> IsSymbol(c)
  {
  }

  lemma AlphabetMembership(c: char)
    ensures c in ALPHABET <==> InAlphabet(c)
  {
    DigitsMembership(c);
    LettersMembership(c);
    SymbolsMembership(c);
    assert c in ALPHABET <==> c in DIGITS || c in LETTERS || c in SYMBOLS;
  }

  lemma AlphabetWithoutQuotesMembership(c: char)
    ensures c in ALPHABET_WITHOUT_QUOTES <==> InAlphabet(c) && c != '"'
  {
    DigitsMembership(c);
    LettersMembership(c);
    var rest := " \n\t?!;:,.<>=/*+-\\(){}_||'[]";
    assert c in ALPHABET_WITHOUT_QUOTES <==> c in DIGITS || c in LETTERS || c in rest;
  }

  lemma AlphabetWithoutBracesMembership(c: char)
    ensures c in ALPHABET_WITHOUT_BRACES <==> InAlphabet(c) && c != '{' && c != '}'
  {
    DigitsMembership(c);
    LettersMembership(c);
    var rest := " \n\t?!;:,.<>=/*+-\\()_||'[]\"";
    assert c in ALPHABET_WITHOUT_BRACES <==> c in DIGITS || c in LETTERS || c in rest;
  }

  lemma IdentifierCharsMembership(c: char)
    ensures c in LETTERS + DIGITS + "_" <==> IsLetter(c) || IsDigitChar(c) || c == '_'
  {
    DigitsMembership(c);
    LettersMembership(c);
    assert c in LETTERS + DIGITS + "_" <==> c in LETTERS || c in DIGITS || c in "_";
  }

  /** The literal row's label is `ALPHABET.replace('"', '')`. */
  lemma AlphabetWithoutQuotesIsReplace()
    ensures ReplaceFirst(ALPHABET, "\"", "") == ALPHABET_WITHOUT_QUOTES
  {
    AlphabetWithoutQuotesMembership('"');
    assert ALPHABET == ALPHABET_WITHOUT_QUOTES + "\"" + "";
    ReplaceFirstSplit(ALPHABET_WITHOUT_QUOTES, "\"", "", "");
  }

  /** The comment row's label is `ALPHABET.replace('{}', '')`: the two
      braces are adjacent in the alphabet, so both disappear. */
  lemma AlphabetWithoutBracesIsReplace()
    ensures ReplaceFirst(ALPHABET, "{}", "") == ALPHABET_WITHOUT_BRACES
  {
    var before := " \n\t?!;:,.<>=/*+-\\()";
    var after := "_||'[]\"";
    var a := DIGITS + LETTERS + before;
    assert '{' !in a by {
      DigitsMembership('{');
      LettersMembership('{');
      assert '{' !in before;
    }
    assert ALPHABET == a + "{}" + after by {
      assert SYMBOLS == before + "{}" + after;
    }
    ReplaceFirstSplit(a, "{}", after, "");
    assert a + "" + after == ALPHABET_WITHOUT_BRACES;
  }

  // ---------------------------------------------------------------------
  // What a script leaves in the tables, read off the calls alone.
  // ---------------------------------------------------------------------

  /** The calls made so far, the most recent outermost. */
  datatype History = Start | Then(before: History, call: Call)

  function Record(h: History, calls: seq<Call>): History
    decreases |calls|
  {
    if |calls| == 0 then h else Record(Then(h, calls[0]), calls[1..])
  }

  /** `k` is one of the keys a transition call with this text writes. */
  predicate KeyIn(k: Sym, text: string) {
    if text == EOF_TEXT then k == Eof else k.Ch? && k.c in text
  }

  /** The entry of row `s` for `k` written by the history, if any: the most
      recent transition call that writes the key wins. */
  function EntryAfter(h: History, s: State, k: Sym): Option<State> {
    match h
    case Start => None
    case Then(before, c) =>
      if c.AddTransitionCall? && c.from == s && KeyIn(k, c.text) then Some(c.to)
      else EntryAfter(before, s, k)
  }

  /** The out-of-alphabet target the history gives row `s`: the one of the
      first transition call on the row. */
  function OoaAfter(h: History, s: State): Option<State> {
    match h
    case Start => None
    case Then(before, c) =>
      var prior := OoaAfter(before, s);
      if prior.None? && c.AddTransitionCall? && c.from == s then Some(c.outOfAlphabet.GetOr(INVALID_CHARACTER))
      else prior
  }

  predicate AcceptingAfter(h: History, s: State) {
    match h
    case Start => false
    case Then(before, c) => (c.AddAcceptableStateCall? && c.accepting == s) || AcceptingAfter(before, s)
  }

  function InfoAfter(h: History, s: State): Option<StateInfo> {
    match h
    case Start => None
    case Then(before, c) =>
      if c.AddStateInfoCall? && c.info.state == s then Some(c.info) else InfoAfter(before, s)
  }

  /** A transition call earlier in the history already wrote the key that
      `addTransition` looks up for `text` in row `from`: its single
      character, or `EOF`. */
  predicate Clashes(h: History, from: State, text: string) {
    match h
    case Start => false
    case Then(before, c) =>
      || (c.AddTransitionCall? && c.from == from && |text| == 1 && KeyIn(Ch(text[0]), c.text))
      || (c.AddTransitionCall? && c.from == from && text == EOF_TEXT && KeyIn(Eof, c.text))
      || Clashes(before, from, text)
  }

  lemma {:induction false} ClashesEntry(h: History, from: State, text: string)
    ensures Clashes(h, from, text) <==>
      || (|text| == 1 && EntryAfter(h, from, Ch(text[0])).Some?)
      || (text == EOF_TEXT && EntryAfter(h, from, Eof).Some?)
  {
    match h
    case Start =>
    case Then(before, c) =>
      ClashesEntry(before, from, text);
  }

  /** The call is not refused on `t0` after the history. */
  predicate Allowed(t0: Tables, h: History, c: Call) {
    match c
    case AddTransitionCall(from, _, text, _) =>
      && !Clashes(h, from, text)
      && !(|text| == 1 && Entry(t0, from, Ch(text[0])).Some?)
      && !(text == EOF_TEXT && Entry(t0, from, Eof).Some?)
    case AddAcceptableStateCall(s) => !AcceptingAfter(h, s) && s !in t0.accepting
    case AddStateInfoCall(info) => InfoAfter(h, info.state).None? && info.state !in t0.info
  }

  /** No call of the list is refused, each one coming after the previous. */
  predicate AllAllowed(t0: Tables, h: History, calls: seq<Call>)
    decreases |calls|
  {
    |calls| == 0 || (Allowed(t0, h, calls[0]) && AllAllowed(t0, Then(h, calls[0]), calls[1..]))
  }

  /** `t` holds what the history writes over `t0`: a newer entry, the row
      target of `t0` if it had the row, an added accepting state, new info. */
  ghost predicate Summarizes(t0: Tables, h: History, t: Tables) {
    && (forall s, k :: Entry(t, s, k) == EntryAfter(h, s, k).Or(Entry(t0, s, k)))
    && (forall s :: RowOoa(t, s) == RowOoa(t0, s).Or(OoaAfter(h, s)))
    && (forall s :: s in t.accepting <==> s in t0.accepting || AcceptingAfter(h, s))
    && (forall s :: InfoAt(t, s) == InfoAfter(h, s).Or(InfoAt(t0, s)))
  }

  lemma LabelKeysMembership(text: string, k: Sym)
    ensures k in LabelKeys(text) <==> KeyIn(k, text)
  {
    if text != EOF_TEXT && k.Ch? && k.c in text {
      assert k == Ch(k.c);
    }
  }

  /** One builder call is refused exactly when the history says so, and
      otherwise extends the summary by itself. */
  /** The entries a successful transition call leaves are summarised. */
  lemma TransitionEntries(t0: Tables, h: History, t: Tables, c: Call, t1: Tables)
    requires forall s, k :: Entry(t, s, k) == EntryAfter(h, s, k).Or(Entry(t0, s, k))
    requires c.AddTransitionCall? && AddTransition(t, c.from, c.to, c.text, c.outOfAlphabet) == Success(t1)
    ensures forall s, k :: Entry(t1, s, k) == EntryAfter(Then(h, c), s, k).Or(Entry(t0, s, k))
  {
    forall s, k
      ensures Entry(t1, s, k) == EntryAfter(Then(h, c), s, k).Or(Entry(t0, s, k))
    {
      LabelKeysMembership(c.text, k);
    }
  }

  lemma TransitionSummary(t0: Tables, h: History, t: Tables, c: Call)
    requires Summarizes(t0, h, t) && c.AddTransitionCall?
    ensures Apply(t, c).Success? <==> Allowed(t0, h, c)
    ensures Apply(t, c).Success? ==> Summarizes(t0, Then(h, c), Apply(t, c).value)
  {
    ClashesEntry(h, c.from, c.text);
    var r := AddTransition(t, c.from, c.to, c.text, c.outOfAlphabet);
    if r.Success? {
      TransitionEntries(t0, h, t, c, r.value);
    }
  }

  lemma ApplySummary(t0: Tables, h: History, t: Tables, c: Call)
    requires Summarizes(t0, h, t)
    ensures Apply(t, c).Success? <==> Allowed(t0, h, c)
    ensures Apply(t, c).Success? ==> Summarizes(t0, Then(h, c), Apply(t, c).value)
  {
    match c
    case AddTransitionCall(_, _, _, _) =>
      TransitionSummary(t0, h, t, c);
    case AddAcceptableStateCall(_) =>
    case AddStateInfoCall(info) =>
      assert InfoAt(t, info.state) == InfoAfter(h, info.state).Or(InfoAt(t0, info.state));
  }

  /** A whole script is refused exactly when one of its calls is, and
      otherwise its tables are summarised by its calls. */
  lemma {:induction false} RunSummary(t0: Tables, h: History, t: Tables, calls: seq<Call>)
    requires Summarizes(t0, h, t)
    ensures Run(t, calls).Success? <==> AllAllowed(t0, h, calls)
    ensures Run(t, calls).Success? ==> Summarizes(t0, Record(h, calls), Run(t, calls).value)
    decreases |calls|
  {
    if |calls| > 0 {
      ApplySummary(t0, h, t, calls[0]);
      if Apply(t, calls[0]).Success? {
        RunSummary(t0, Then(h, calls[0]), Apply(t, calls[0]).value, calls[1..]);
      }
    }
  }

  lemma SummarizesStart(t: Tables)
    ensures Summarizes(t, Start, t)
  {
  }

  /** What `nextState` answers after one accepted `addTransition` call:
      every label character of the alphabet (or `EOF`) leads to `to`, a
      character outside the alphabet takes the row's out-of-alphabet target,
      which only the call that created the row could set, and the other rows
      answer as before. */
  lemma LookupAfterAddTransition(t: Tables, from: State, to: State, text: string, outOfAlphabet: Option<State>, sym: Sym, s: State)
    requires AddTransition(t, from, to, text, outOfAlphabet).Success?
    ensures var r := AddTransition(t, from, to, text, outOfAlphabet).value;
      && (s != from ==> TableNextState(r, sym, s) == TableNextState(t, sym, s))
      && (text == EOF_TEXT && sym == Eof ==> TableNextState(r, sym, from) == to)
      && (text != EOF_TEXT && sym.Ch? && sym.c in text && sym.c in ALPHABET ==> TableNextState(r, sym, from) == to)
      && (sym.Ch? && sym.c !in ALPHABET ==>
            TableNextState(r, sym, from) == RowOoa(t, from).GetOr(outOfAlphabet.GetOr(INVALID_CHARACTER)))
  {
    var r := AddTransition(t, from, to, text, outOfAlphabet).value;
    assert Entry(r, s, sym) == if s == from && sym in LabelKeys(text) then Some(to) else Entry(t, s, sym);
    assert RowOoa(r, s) == if s == from && from !in t.transitions then Some(outOfAlphabet.GetOr(INVALID_CHARACTER)) else RowOoa(t, s);
    assert RowOoa(r, from) == if from !in t.transitions then Some(outOfAlphabet.GetOr(INVALID_CHARACTER)) else RowOoa(t, from);
    LabelKeysMembership(text, sym);
  }

  /** Only a one-character or `EOF` label is checked for duplicates: a
      longer label silently redirects characters written before. */
  lemma LongLabelOverwrites()
    ensures AddTransition(EMPTY_TABLES, 0, 1, "ab", None).Success?
    ensures var t := AddTransition(EMPTY_TABLES, 0, 1, "ab", None).value;
      && AddTransition(t, 0, 2, "bc", None).Success?
      && TableNextState(AddTransition(t, 0, 2, "bc", None).value, Ch('b'), 0) == 2
    ensures var t := AddTransition(EMPTY_TABLES, 0, 1, "ab", None).value;
      AddTransition(t, 0, 2, "b", None).Failure?
  {
    var t := AddTransition(EMPTY_TABLES, 0, 1, "ab", None).value;
    assert Entry(t, 0, Ch('b')) == Some(1) && Entry(t, 0, Ch('c')) == None by {
      LabelKeysMembership("ab", Ch('b'));
      LabelKeysMembership("ab", Ch('c'));
    }
    LookupAfterAddTransition(t, 0, 2, "bc", None, Ch('b'), 0);
  }

  /** A script split in two runs as its first part followed by its second. */
  lemma {:induction false} RunAppend(t: Tables, a: seq<Call>, b: seq<Call>)
    ensures Run(t, a + b) == if Run(t, a).Failure? then Run(t, a) else Run(Run(t, a).value, b)
    decreases |a|
  {
    if |a| == 0 {
      assert a + b == b;
    } else {
      assert (a + b)[1..] == a[1..] + b;
      var r := Apply(t, a[0]);
      if r.Success? {
        RunAppend(r.value, a[1..], b);
      }
    }
  }

  /** The calls of all branches, in order. */
  function Flatten(branches: seq<seq<Call>>): seq<Call>
    decreases |branches|
  {
    if |branches| == 0 then [] else branches[0] + Flatten(branches[1..])
  }

  /** Running the branches one after another is running all their calls as
      one script. */
  lemma {:induction false} CreateTransitionTableIsRun(t: Tables, branches: seq<seq<Call>>)
    ensures CreateTransitionTable(t, branches) == Run(t, Flatten(branches))
    decreases |branches|
  {
    if |branches| > 0 {
      RunAppend(t, branches[0], Flatten(branches[1..]));
      if Run(t, branches[0]).Success? {
        CreateTransitionTableIsRun(Run(t, branches[0]).value, branches[1..]);
      }
    }
  }

  /** Call `i` is the one that stops the script: the calls before it were
      accepted and it is refused with message `msg`. */
  predicate RefusedAt(t: Tables, calls: seq<Call>, i: nat, msg: string)
    requires i < |calls|
  {
    && Run(t, calls[..i]).Success?
    && Apply(Run(t, calls[..i]).value, calls[i]) == Failure(msg)
  }

  /** A script that fails reports the message of its first refused call. */
  lemma {:induction false} RunFirstRefusal(t: Tables, calls: seq<Call>)
    ensures Run(t, calls).Failure? ==>
      exists i :: 0 <= i < |calls| && RefusedAt(t, calls, i, Run(t, calls).error)
    decreases |calls|
  {
    if |calls| > 0 && Run(t, calls).Failure? {
      var r := Apply(t, calls[0]);
      assert calls[..0] == [];
      if r.Failure? {
        assert RefusedAt(t, calls, 0, Run(t, calls).error);
      } else {
        var rest := calls[1..];
        RunFirstRefusal(r.value, rest);
        var j :| 0 <= j < |rest| && RefusedAt(r.value, rest, j, Run(r.value, rest).error);
        assert calls[..j + 1][1..] == rest[..j];
        assert calls[..j + 1][0] == calls[0];
        assert Run(t, calls[..j + 1]) == Run(r.value, rest[..j]);
        assert RefusedAt(t, calls, j + 1, Run(t, calls).error);
      }
    }
  }

  // ---------------------------------------------------------------------
  // Runs of the automaton over character strings.
  // ---------------------------------------------------------------------

  /** The state reached from `s` by reading the characters of `w` in order. */
  function Walk(s: State, w: string): State
    decreases |w|
  {
    if |w| == 0 then s else NextState(Ch(w[|w| - 1]), Walk(s, w[..|w| - 1]))
  }

  lemma {:induction false} WalkAppend(s: State, a: string, b: string)
    ensures Walk(s, a + b) == Walk(Walk(s, a), b)
    decreases |b|
  {
    if |b| == 0 {
      assert a + b == a;
    } else {
      assert (a + b)[..|a + b| - 1] == a + b[..|b| - 1];
      WalkAppend(s, a, b[..|b| - 1]);
    }
  }

  /** Without a row there is no way out: `DEAD` absorbs every string. */
  lemma {:induction false} WalkDead(w: string)
    ensures Walk(DEAD, w) == DEAD
    decreases |w|
  {
    if |w| > 0 {
      WalkDead(w[..|w| - 1]);
    }
  }

  /** Where the states the scanner classifies can be entered from. */
  lemma Predecessors(c: char, s: State)
    ensures NextState(Ch(c), s) == 0 <==> s == 0 && IsWhiteSpace(c)
    ensures NextState(Ch(c), s) == 1 <==> (s == 0 || s == 1) && IsDigitChar(c)
    ensures NextState(Ch(c), s) == LITERAL_ERROR <==>
      (s == 0 && c == '"') || (s == LITERAL_ERROR && InAlphabet(c) && c != '"')
    ensures NextState(Ch(c), s) == 8 <==> s == LITERAL_ERROR && c == '"'
    ensures NextState(Ch(c), s) == 9 <==>
      (s == 0 && IsLetter(c)) || (s == 9 && (IsLetter(c) || IsDigitChar(c) || c == '_'))
    ensures NextState(Ch(c), s) == COMMENT_ERROR <==>
      (s == 0 && c == '{') || (s == COMMENT_ERROR && c != '{' && c != '}')
    ensures NextState(Ch(c), s) == 11 <==> s == COMMENT_ERROR && c == '}'
  {
  }

  predicate AllWhiteSpace(w: string) {
    forall i :: 0 <= i < |w| ==> IsWhiteSpace(w[i])
  }

  /** State 0 is left on the first character that is not white space and
      never re-entered. */
  lemma {:induction false} StartStateIffWhiteSpace(w: string)
    ensures Walk(0, w) == 0 <==> AllWhiteSpace(w)
    decreases |w|
  {
    if |w| > 0 {
      var p := w[..|w| - 1];
      StartStateIffWhiteSpace(p);
      Predecessors(w[|w| - 1], Walk(0, p));
      assert AllWhiteSpace(w) <==> AllWhiteSpace(p) && IsWhiteSpace(w[|w| - 1]);
    }
  }

  /** A string that does not begin with white space, as the lexemes of the
      scanner do. */
  predicate Unpadded(w: string) {
    |w| == 0 || !IsWhiteSpace(w[0])
  }

  lemma UnpaddedPrefix(w: string)
    requires Unpadded(w) && |w| > 1
    ensures Unpadded(w[..|w| - 1])
  {
  }

  lemma UnpaddedStart(w: string)
    requires Unpadded(w) && Walk(0, w) == 0
    ensures |w| == 0
  {
    StartStateIffWhiteSpace(w);
  }

  predicate AllDigits(w: string) {
    forall i :: 0 <= i < |w| ==> IsDigitChar(w[i])
  }

  /** Integers: a lexeme reaches state 1 (`NUM`, `INTEIRO`) exactly when it
      is a non-empty string of digits. */
  lemma {:induction false} IntegerIff(w: string)
    requires Unpadded(w)
    ensures Walk(0, w) == 1 <==> |w| > 0 && AllDigits(w)
    decreases |w|
  {
    if |w| > 0 {
      var p := w[..|w| - 1];
      Predecessors(w[|w| - 1], Walk(0, p));
      if |p| == 0 {
      } else {
        UnpaddedPrefix(w);
        IntegerIff(p);
        if Walk(0, p) == 0 {
          UnpaddedStart(p);
        }
        assert AllDigits(w) <==> AllDigits(p) && IsDigitChar(w[|w| - 1]);
      }
    }
  }

  /** Digits keep the number states 1, 3 and 6. */
  lemma {:induction false} DigitsLoop(s: State, w: string)
    requires s == 1 || s == 3 || s == 6
    requires AllDigits(w)
    ensures Walk(s, w) == s
    decreases |w|
  {
    if |w| > 0 {
      DigitsLoop(s, w[..|w| - 1]);
    }
  }

  /** Reals: digits, a dot and digits reach state 3 (`NUM`, `REAL`); the
      dot without fractional digits stops in the error state 2. */
  lemma RealNumber(a: string, b: string)
    requires |a| > 0 && AllDigits(a) && |b| > 0 && AllDigits(b)
    ensures Walk(0, a + ".") == REAL_NUMBER_ERROR
    ensures Walk(0, a + "." + b) == 3
  {
    IntegerIff(a);
    WalkAppend(0, a, ".");
    WalkAppend(0, a + ".", b);
    WalkAppend(REAL_NUMBER_ERROR, b[..1], b[1..]);
    assert b[..1] + b[1..] == b;
    DigitsLoop(3, b[1..]);
  }

  /** Exponentials: an integer or real mantissa, `e` or `E`, an optional
      sign and digits reach state 6 (`NUM`, `REAL`); stopping after the
      letter leaves the error state 4, after the sign the error state 5. */
  lemma Exponential(m: string, e: char, sign: string, d: string)
    requires Walk(0, m) == 1 || Walk(0, m) == 3
    requires e == 'e' || e == 'E'
    requires sign == "" || sign == "+" || sign == "-"
    requires |d| > 0 && AllDigits(d)
    ensures Walk(0, m + [e]) == EXPONENTIAL_ERROR
    ensures sign != "" ==> Walk(0, m + [e] + sign) == EXPONENTIAL_WITH_SIGN_ERROR
    ensures Walk(0, m + [e] + sign + d) == 6
  {
    WalkAppend(0, m, [e]);
    WalkAppend(0, m + [e], sign);
    WalkAppend(0, m + [e] + sign, d);
    var s := Walk(0, m + [e] + sign);
    assert s == EXPONENTIAL_ERROR || s == EXPONENTIAL_WITH_SIGN_ERROR;
    WalkAppend(s, d[..1], d[1..]);
    assert d[..1] + d[1..] == d;
    DigitsLoop(6, d[1..]);
  }

  /** The characters a literal may hold: alphabet characters other than the
      double quote, line breaks and braces included. */
  predicate LiteralBody(w: string) {
    forall i :: 0 <= i < |w| ==> InAlphabet(w[i]) && w[i] != '"'
  }

  /** Literals: an opening quote followed by literal characters keeps the
      unterminated literal state 7, and exactly such a string closed by a
      second quote reaches state 8 (`LIT`, `LITERAL`). */
  lemma {:induction false} LiteralIff(w: string)
    requires Unpadded(w)
    ensures Walk(0, w) == LITERAL_ERROR <==> |w| > 0 && w[0] == '"' && LiteralBody(w[1..])
    ensures Walk(0, w) == 8 <==> |w| >= 2 && w[0] == '"' && w[|w| - 1] == '"' && LiteralBody(w[1..|w| - 1])
    decreases |w|
  {
    if |w| > 0 {
      var p := w[..|w| - 1];
      var c := w[|w| - 1];
      Predecessors(c, Walk(0, p));
      if |p| == 0 {
      } else {
        UnpaddedPrefix(w);
        LiteralIff(p);
        if Walk(0, p) == 0 {
          UnpaddedStart(p);
        }
        assert w[1..] == p[1..] + [c];
        assert LiteralBody(w[1..]) <==> LiteralBody(p[1..]) && InAlphabet(c) && c != '"';
        assert w[1..|w| - 1] == p[1..];
      }
    }
  }

  predicate IdentifierChar(c: char) {
    IsLetter(c) || IsDigitChar(c) || c == '_'
  }

  /** Identifiers: a lexeme reaches state 9 (`ID`) exactly when it is a
      letter followed by letters, digits and underscores. */
  lemma {:induction false} IdentifierIff(w: string)
    requires Unpadded(w)
    ensures Walk(0, w) == 9 <==> |w| > 0 && IsLetter(w[0]) && forall i :: 1 <= i < |w| ==> IdentifierChar(w[i])
    decreases |w|
  {
    if |w| > 0 {
      var p := w[..|w| - 1];
      Predecessors(w[|w| - 1], Walk(0, p));
      if |p| > 0 {
        UnpaddedPrefix(w);
        IdentifierIff(p);
        if Walk(0, p) == 0 {
          UnpaddedStart(p);
        }
      }
    }
  }

  /** A leading underscore has no transition from state 0, so the scanner
      reports the start state's pattern error. */
  lemma LeadingUnderscore()
    ensures NextState(Ch('_'), 0) == DEAD
    ensures !AcceptState(0).accepted
    ensures AcceptState(0).info == Some(StateInfo(0, "ERROR", "Erro token fora do padrão", "NULO", false))
  {
  }

  /** The characters a comment may hold: anything but a brace, characters
      outside the alphabet included. */
  predicate CommentBody(w: string) {
    forall i :: 0 <= i < |w| ==> w[i] != '{' && w[i] != '}'
  }

  /** Comments: an opening brace followed by comment characters keeps the
      unterminated comment state 10, and exactly such a string closed by a
      closing brace reaches state 11 (`COMMENT`). */
  lemma {:induction false} CommentIff(w: string)
    requires Unpadded(w)
    ensures Walk(0, w) == COMMENT_ERROR <==> |w| > 0 && w[0] == '{' && CommentBody(w[1..])
    ensures Walk(0, w) == 11 <==> |w| >= 2 && w[0] == '{' && w[|w| - 1] == '}' && CommentBody(w[1..|w| - 1])
    decreases |w|
  {
    if |w| > 0 {
      var p := w[..|w| - 1];
      var c := w[|w| - 1];
      Predecessors(c, Walk(0, p));
      if |p| > 0 {
        UnpaddedPrefix(w);
        CommentIff(p);
        if Walk(0, p) == 0 {
          UnpaddedStart(p);
        }
        assert w[1..] == p[1..] + [c];
        assert CommentBody(w[1..]) <==> CommentBody(p[1..]) && c != '{' && c != '}';
        assert w[1..|w| - 1] == p[1..];
      }
    }
  }

  /** The relational operators and the assignment arrow, from the start
      state. */
  lemma Relations()
    ensures Walk(0, ">") == 13 && Walk(0, ">=") == 14
    ensures Walk(0, "<") == 15 && Walk(0, "<=") == 16 && Walk(0, "<>") == 18 && Walk(0, "<-") == 17
  {
  }

  /** Arithmetic operators and the end of input, from the start state. */
  lemma Operators()
    ensures Walk(0, "+") == 19 && Walk(0, "-") == 19 && Walk(0, "*") == 19 && Walk(0, "/") == 19
    ensures NextState(Eof, 0) == 12
  {
  }

  /** Punctuation, from the start state. */
  lemma Punctuation()
    ensures Walk(0, "(") == 20 && Walk(0, ")") == 21 && Walk(0, ";") == 22 && Walk(0, ",") == 23
  {
  }

  predicate OutsideAlphabet(w: string) {
    forall i :: 0 <= i < |w| ==> !InAlphabet(w[i])
  }

  /** The invalid-character state keeps absorbing characters outside the
      alphabet, and any alphabet character ends it. */
  lemma {:induction false} InvalidCharacterAbsorbs(w: string, c: char)
    requires OutsideAlphabet(w)
    ensures Walk(INVALID_CHARACTER, w) == INVALID_CHARACTER
    ensures InAlphabet(c) ==> NextState(Ch(c), INVALID_CHARACTER) == DEAD
    decreases |w|
  {
    if |w| > 0 {
      InvalidCharacterAbsorbs(w[..|w| - 1], c);
    }
  }

  /** `$` lies outside the alphabet: from the start state and from inside a
      literal it leads to the invalid-character state, which keeps it and
      whose tokens are errors. So an `ERROR` lexeme can hold `$`. */
  lemma DollarIsInvalid()
    ensures !InAlphabet('$')
    ensures NextState(Ch('$'), 0) == INVALID_CHARACTER
    ensures NextState(Ch('$'), LITERAL_ERROR) == INVALID_CHARACTER
    ensures Walk(0, "$$") == INVALID_CHARACTER
    ensures InfoOf(INVALID_CHARACTER).Some? && InfoOf(INVALID_CHARACTER).value.classe == "ERROR"
  {
  }
}
