/** Shared vocabulary of the compiler front end: failure-aware wrappers,
    source positions, the token record that flows from the scanner through
    the parser into the semantic stack, and the few JavaScript string
    operations (number formatting, ASCII case mapping, `String.replace`
    with a string pattern) whose exact behaviour the other modules rely on. */
module Common {

  datatype Option<+T> = None | Some(value: T) {
    function GetOr(default: T): T {
      match this
      case Some(v) => v
      case None => default
    }

    /** This value if present, otherwise `other`. */
    function Or(other: Option<T>): Option<T> {
      if Some? then this else other
    }
  }

  /** A computation that either yields a value or stops with the message the
      source throws. */
  datatype Result<+T> = Success(value: T) | Failure(error: string) {
    predicate IsFailure() {
      Failure?
    }

    function PropagateFailure<U>(): Result<U>
      requires Failure?
    {
      Failure(error)
    }

    function Extract(): T
      requires Success?
    {
      value
    }
  }

  /** One symbol delivered by the character reader: a source character, or
      the end-of-input pseudo-character that the source spells as the
      three-letter string `EOF`. */
  datatype Sym = Ch(c: char) | Eof

  /** The text the source uses for a symbol: the character itself, or `EOF`. */
  function SymText(s: Sym): string {
    match s
    case Ch(c) => [c]
    case Eof => "EOF"
  }

  /** A line/column pair. Reserved words carry (-1, -1) and the scanner's
      initial context (0, 0), so both fields are plain integers. */
  datatype Pos = Pos(line: int, column: int)

  /** The token record of the scanner, also used for the nodes of the
      semantic stack: `classe` is a token class, a reserved word or a
      nonterminal name, `tipo` a type tag, and `description` is present on
      lexical error tokens only. */
  datatype Token = Token(
    classe: string,
    tipo: string,
    lexema: string,
    start: Pos,
    end: Pos,
    description: Option<string>
  )

  // ---------------------------------------------------------------------
  // Decimal rendering of numbers, as produced by a template literal.
  // ---------------------------------------------------------------------

  predicate IsDigitChar(c: char) {
    '0' <= c <= '9'
  }

  function DigitChar(d: nat): (c: char)
    requires d < 10
    ensures IsDigitChar(c)
  {
    ['0', '1', '2', '3', '4', '5', '6', '7', '8', '9'][d]
  }

  function DigitValue(c: char): nat
    requires IsDigitChar(c)
  {
    (c as int) - ('0' as int)
  }

  /** `${n}` for a non-negative integer: its decimal digits, without
      leading zeros. */
  function NatToString(n: nat): (s: string)
    ensures |s| > 0
    ensures s[0] == '0' ==> n == 0
    decreases n
  {
    if n < 10 then [DigitChar(n)] else NatToString(n / 10) + [DigitChar(n % 10)]
  }

  predicate AllDigitChars(s: string) {
    forall i :: 0 <= i < |s| ==> IsDigitChar(s[i])
  }

  /** Reads a non-empty string of decimal digits back as a number. */
  function ParseDigits(s: string): nat
    requires AllDigitChars(s)
  {
    if |s| == 0 then 0 else ParseDigits(s[..|s| - 1]) * 10 + DigitValue(s[|s| - 1])
  }

  lemma DigitRoundTrip(d: nat)
    requires d < 10
    ensures DigitValue(DigitChar(d)) == d
  {
  }

  /** Rendering a number and reading it back gives the number again, so
      distinct numbers render as distinct strings. */
  lemma {:induction false} NatToStringRoundTrip(n: nat)
    ensures AllDigitChars(NatToString(n)) && ParseDigits(NatToString(n)) == n
    decreases n
  {
    if n < 10 {
      DigitRoundTrip(n);
    } else {
      var s := NatToString(n);
      NatToStringRoundTrip(n / 10);
      DigitRoundTrip(n % 10);
      assert s[..|s| - 1] == NatToString(n / 10);
      assert AllDigitChars(s) by {
        forall i | 0 <= i < |s|
          ensures IsDigitChar(s[i])
        {
          if i < |s| - 1 {
            assert s[i] == NatToString(n / 10)[i];
          }
        }
      }
    }
  }

  lemma NatToStringInjective(m: nat, n: nat)
    ensures NatToString(m) == NatToString(n) ==> m == n
  {
    NatToStringRoundTrip(m);
    NatToStringRoundTrip(n);
  }

  /** `${n}` for any integer: a minus sign before the magnitude when negative. */
  function IntToString(n: int): (s: string)
    ensures n >= 0 ==> s == NatToString(n)
    ensures n < 0 ==> s == "-" + NatToString(-n)
  {
    if n >= 0 then NatToString(n) else "-" + NatToString(-n)
  }

  /** The text of an integer holds digits and a minus sign only, never a space. */
  lemma IntToStringNoSpace(n: int, i: int)
    requires 0 <= i < |IntToString(n)|
    ensures IntToString(n)[i] != ' '
  {
    var m := if n >= 0 then n else -n;
    NatToStringRoundTrip(m);
    if n < 0 && i > 0 {
      assert IntToString(n)[i] == NatToString(m)[i - 1];
    }
  }

  /** Distinct integers render as distinct texts. */
  lemma IntToStringInjective(m: int, n: int)
    ensures IntToString(m) == IntToString(n) ==> m == n
  {
    if IntToString(m) == IntToString(n) {
      var a := if m >= 0 then m else -m;
      var b := if n >= 0 then n else -n;
      NatToStringRoundTrip(a);
      NatToStringRoundTrip(b);
      assert IsDigitChar(NatToString(a)[0]) && IsDigitChar(NatToString(b)[0]);
      if m < 0 && n < 0 {
        assert NatToString(a) == IntToString(m)[1..];
        NatToStringInjective(a, b);
      } else if m >= 0 && n >= 0 {
        NatToStringInjective(a, b);
      }
    }
  }

  // ---------------------------------------------------------------------
  // Case mapping. Every string the core compares case-insensitively is a
  // class or type tag built from ASCII letters, so only ASCII is mapped.
  // ---------------------------------------------------------------------

  function LowerChar(c: char): char {
    if 'A' <= c <= 'Z' then ((c as int) + 32) as char else c
  }

  function UpperChar(c: char): char {
    if 'a' <= c <= 'z' then ((c as int) - 32) as char else c
  }

  /** `s.toLowerCase()` on ASCII text. */
  function ToLower(s: string): (r: string)
    ensures |r| == |s|
    ensures forall i :: 0 <= i < |s| ==> r[i] == LowerChar(s[i])
  {
    seq(|s|, i requires 0 <= i < |s| => LowerChar(s[i]))
  }

  /** `s.toUpperCase()` on ASCII text. */
  function ToUpper(s: string): (r: string)
    ensures |r| == |s|
    ensures forall i :: 0 <= i < |s| ==> r[i] == UpperChar(s[i])
  {
    seq(|s|, i requires 0 <= i < |s| => UpperChar(s[i]))
  }

  // ---------------------------------------------------------------------
  // `s.replace(pattern, replacement)` with a string pattern: only the first
  // occurrence is replaced. The `$` substitution patterns of JavaScript are
  // not modelled: `$` is outside the scanner's alphabet, so no lexeme or
  // type tag contains it.
  // ---------------------------------------------------------------------

  /** `pat` occurs in `s` starting at index `i`. */
  predicate OccursAt(s: string, pat: string, i: nat) {
    i + |pat| <= |s| && s[i..i + |pat|] == pat
  }

  /** The first index at or after `from` where `pat` occurs. */
  function IndexOfFrom(s: string, pat: string, from: nat): Option<nat>
    requires from <= |s|
    decreases |s| - from
  {
    if OccursAt(s, pat, from) then Some(from)
    else if from == |s| then None
    else IndexOfFrom(s, pat, from + 1)
  }

  /** The search finds an occurrence with none before it, or reports that
      there is none. */
  lemma {:induction false} IndexOfFromFirst(s: string, pat: string, from: nat)
    requires from <= |s|
    ensures var r := IndexOfFrom(s, pat, from);
      && (r.Some? ==> from <= r.value && OccursAt(s, pat, r.value))
      && (r.Some? ==> forall i :: from <= i < r.value ==> !OccursAt(s, pat, i))
      && (r.None? ==> forall i :: from <= i <= |s| ==> !OccursAt(s, pat, i))
    decreases |s| - from
  {
    if !OccursAt(s, pat, from) && from < |s| {
      IndexOfFromFirst(s, pat, from + 1);
    }
  }

  function IndexOf(s: string, pat: string): Option<nat> {
    IndexOfFrom(s, pat, 0)
  }

  function ReplaceFirst(s: string, pat: string, rep: string): (r: string)
  {
    IndexOfFromFirst(s, pat, 0);
    match IndexOf(s, pat)
    case None => s
    case Some(i) => s[..i] + rep + s[i + |pat|..]
  }

  /** When the pattern does not occur, `replace` leaves the text alone. */
  lemma ReplaceFirstAbsent(s: string, pat: string, rep: string)
    requires forall i :: 0 <= i <= |s| ==> !OccursAt(s, pat, i)
    ensures ReplaceFirst(s, pat, rep) == s
  {
    IndexOfFromFirst(s, pat, 0);
  }

  /** When the first character of the pattern does not occur before a given
      occurrence, that occurrence is the first one. */
  lemma IndexOfSplit(a: string, pat: string, b: string)
    requires |pat| > 0 && pat[0] !in a
    ensures IndexOf(a + pat + b, pat) == Some(|a|)
  {
    var s := a + pat + b;
    assert OccursAt(s, pat, |a|) by {
      assert s[|a|..|a| + |pat|] == pat;
    }
    forall i | 0 <= i < |a|
      ensures !OccursAt(s, pat, i)
    {
      assert s[i] == a[i] && a[i] != pat[0];
      if i + |pat| <= |s| {
        assert s[i..i + |pat|][0] == s[i];
      }
    }
    IndexOfFromFirst(s, pat, 0);
  }

  /** Under the same condition, `replace` rewrites exactly that occurrence. */
  lemma ReplaceFirstSplit(a: string, pat: string, b: string, rep: string)
    requires |pat| > 0 && pat[0] !in a
    ensures ReplaceFirst(a + pat + b, pat, rep) == a + rep + b
  {
    var s := a + pat + b;
    IndexOfSplit(a, pat, b);
    assert s[..|a|] == a;
    assert s[|a| + |pat|..] == b;
  }

  /** The number of occurrences of `c` in `s`. */
  function CountChar(s: string, c: char): nat {
    if |s| == 0 then 0 else CountChar(s[..|s| - 1], c) + (if s[|s| - 1] == c then 1 else 0)
  }

  lemma {:induction false} CountCharAppend(s: string, t: string, c: char)
    ensures CountChar(s + t, c) == CountChar(s, c) + CountChar(t, c)
    decreases |t|
  {
    if |t| == 0 {
      assert s + t == s;
    } else {
      assert (s + t)[..|s + t| - 1] == s + t[..|t| - 1];
      CountCharAppend(s, t[..|t| - 1], c);
    }
  }
}
