/** The character reader of `src/lexer/file.ts`: it checks the file
    extension, then hands out the file's characters one at a time with their
    ordinal, line and column, and repeats an `EOF` pseudo-character forever
    once the file is exhausted. The file contents are a parameter; reading
    the file from disk is not modelled. */
module Reader {
  import opened Common

  const EXTENSION := ".alg"
  const EXTENSION_ERROR := "Arquivo de extensão não reconhecido: "

  /** The reader's closure state: the file, the index of the last character
      handed out (-1 before the first read), and the line and column of that
      character. */
  datatype Cursor = Cursor(file: seq<char>, index: int, line: int, column: int)

  /** One answer of `nextChar`. */
  datatype Read = Read(sym: Sym, charNumber: int, line: int, column: int)

  // ---------------------------------------------------------------------
  // Extension check (Node's POSIX `path.extname`).
  // ---------------------------------------------------------------------

  /** Index just past the last character that is not `/`, or 0 if none. */
  function TrimmedEnd(p: string): (e: nat)
    ensures e <= |p|
    ensures e > 0 ==> p[e - 1] != '/'
    ensures forall i :: e <= i < |p| ==> p[i] == '/'
  {
    if |p| == 0 then 0
    else if p[|p| - 1] == '/' then TrimmedEnd(p[..|p| - 1])
    else |p|
  }

  /** Index of the last occurrence of `c` in `s`, if any. */
  function LastIndexOf(s: string, c: char): (r: Option<nat>)
    ensures r.Some? ==> r.value < |s| && s[r.value] == c
    ensures r.Some? ==> forall i :: r.value < i < |s| ==> s[i] != c
    ensures r.None? ==> c !in s
  {
    if |s| == 0 then None
    else if s[|s| - 1] == c then Some(|s| - 1)
    else LastIndexOf(s[..|s| - 1], c)
  }

  /** The last path segment, trailing separators ignored. */
  function BaseName(p: string): string {
    var trimmed := p[..TrimmedEnd(p)];
    match LastIndexOf(trimmed, '/')
    case None => trimmed
    case Some(i) => trimmed[i + 1..]
  }

  /** `path.extname`: from the last dot of the last segment to its end; empty
      when the segment has no dot, starts with its only dot, or is `..`. */
  function Extname(p: string): (ext: string)
    ensures ext != "" ==> ext[0] == '.' && '/' !in ext
  {
    var base := BaseName(p);
    match LastIndexOf(base, '.')
    case None => ""
    case Some(d) => if d == 0 || base == ".." then "" else base[d..]
  }

  lemma {:induction false} TrimmedEndNoSlash(p: string)
    requires |p| > 0 && p[|p| - 1] != '/'
    ensures TrimmedEnd(p) == |p|
  {
  }

  /** The last segment of `dir + tail` ends with `tail` when `tail` holds
      no separator and does not end with one. */
  lemma BaseNameSuffix(dir: string, tail: string)
    requires |tail| > 0 && '/' !in tail
    ensures |BaseName(dir + tail)| >= |tail|
    ensures BaseName(dir + tail)[|BaseName(dir + tail)| - |tail|..] == tail
  {
    var p := dir + tail;
    assert p[|p| - 1] == tail[|tail| - 1];
    TrimmedEndNoSlash(p);
    assert p[..TrimmedEnd(p)] == p;
    var slash := LastIndexOf(p, '/');
    if slash.Some? {
      var i := slash.value;
      forall j | |dir| <= j < |p|
        ensures p[j] != '/'
      {
        assert p[j] == tail[j - |dir|];
      }
      assert BaseName(p) == dir[i + 1..] + tail;
    } else {
      assert BaseName(p) == p;
    }
  }

  /** The index of a character that does not occur later in the string is
      the last index of that character. */
  lemma LastIndexOfAt(s: string, c: char, k: nat)
    requires k < |s| && s[k] == c
    requires forall j :: k < j < |s| ==> s[j] != c
    ensures LastIndexOf(s, c) == Some(k)
  {
  }

  lemma NoSlashInAlgName(stem: string)
    requires '/' !in stem
    ensures '/' !in stem + EXTENSION
  {
    var tail := stem + EXTENSION;
    forall i | 0 <= i < |tail|
      ensures tail[i] != '/'
    {
      if i < |stem| {
        assert tail[i] == stem[i];
      } else {
        assert tail[i] == EXTENSION[i - |stem|];
      }
    }
  }

  /** A file name with a non-empty stem and the `.alg` suffix has extension
      `.alg`. */
  lemma ExtnameOfAlgFile(dir: string, stem: string)
    requires |stem| > 0 && '/' !in stem
    ensures Extname(dir + stem + EXTENSION) == EXTENSION
  {
    var tail := stem + EXTENSION;
    assert dir + stem + EXTENSION == dir + tail;
    NoSlashInAlgName(stem);
    BaseNameSuffix(dir, tail);
    AlgSuffix(BaseName(dir + tail), stem, tail);
  }

  /** A last segment ending with a non-empty stem and `.alg` has extension
      `.alg`. */
  lemma AlgSuffix(base: string, stem: string, tail: string)
    requires |stem| > 0 && tail == stem + EXTENSION
    requires |base| >= |tail| && base[|base| - |tail|..] == tail
    ensures var d := |base| - 4;
      && LastIndexOf(base, '.') == Some(d)
      && d > 0 && base != ".."
      && base[d..] == EXTENSION
  {
    var d := |base| - 4;
    assert base[d..] == EXTENSION by {
      assert base[|base| - |tail|..][|stem|..] == EXTENSION;
    }
    assert base[d] == '.' && base[d + 1] == 'a' && base[d + 2] == 'l' && base[d + 3] == 'g';
    LastIndexOfAt(base, '.', d);
  }

  /** The check made when the reader is created: a path whose extension is
      not `.alg` is refused, naming the extension found. */
  function Open(path: string, contents: seq<char>): (r: Result<Cursor>)
    ensures r.Failure? <==> Extname(path) != EXTENSION
    ensures r.Failure? ==> r.error == EXTENSION_ERROR + Extname(path)
    ensures r.Success? ==> Valid(r.value) && r.value.file == contents && r.value.index == -1
  {
    if Extname(path) != EXTENSION then Failure(EXTENSION_ERROR + Extname(path))
    else Success(Cursor(contents, -1, 1, 0))
  }

  // ---------------------------------------------------------------------
  // Positions.
  // ---------------------------------------------------------------------

  /** Reference position of the character at index `i`: its line is one
      more than the number of line breaks before it, and its column counts
      from 1 on the first line but from 0 after a line break. */
  function PosAt(file: seq<char>, i: nat): Pos
    requires i < |file|
  {
    Pos(1 + CountChar(file[..i], '\n'), ColumnAt(file, i))
  }

  function ColumnAt(file: seq<char>, i: nat): int
    requires i < |file|
  {
    if i == 0 then 1
    else if file[i - 1] == '\n' then 0
    else ColumnAt(file, i - 1) + 1
  }

  /** The cursor's line and column always describe the last character
      handed out. */
  predicate Valid(c: Cursor) {
    && -1 <= c.index < |c.file|
    && (c.index == -1 ==> c.line == 1 && c.column == 0)
    && (c.index >= 0 ==> Pos(c.line, c.column) == PosAt(c.file, c.index))
  }

  /** Characters not yet handed out. */
  function Remaining(c: Cursor): nat
    requires Valid(c)
  {
    |c.file| - (c.index + 1)
  }

  predicate AtEnd(c: Cursor)
    requires Valid(c)
  {
    c.index + 1 == |c.file|
  }

  /** `nextChar`: hands out the next character at its reference position,
      or, at the end, `EOF` with the last ordinal, line and column and an
      unchanged cursor. */
  function NextChar(c: Cursor): (res: (Read, Cursor))
    requires Valid(c)
    ensures Valid(res.1) && res.1.file == c.file
    ensures AtEnd(c) ==> res == (Read(Eof, c.index, c.line, c.column), c)
    ensures !AtEnd(c) ==>
      && res.1.index == c.index + 1
      && res.0 == Read(Ch(c.file[c.index + 1]), c.index + 1, res.1.line, res.1.column)
      && Pos(res.1.line, res.1.column) == PosAt(c.file, c.index + 1)
    ensures !AtEnd(c) ==> Remaining(res.1) == Remaining(c) - 1
  {
    if c.index + 1 == |c.file| then
      (Read(Eof, c.index, c.line, c.column), c)
    else
      var i := c.index + 1;
      var afterBreak := i >= 1 && c.file[i - 1] == '\n';
      var line := if afterBreak then c.line + 1 else c.line;
      var column := if afterBreak then 0 else c.column + 1;
      assert Pos(line, column) == PosAt(c.file, i) by {
        if i >= 1 {
          assert c.file[..i] == c.file[..i - 1] + [c.file[i - 1]];
          CountCharAppend(c.file[..i - 1], [c.file[i - 1]], '\n');
        }
      }
      (Read(Ch(c.file[i]), i, line, column), Cursor(c.file, i, line, column))
  }

  /** The first read returns the first character at line 1, column 1,
      ordinal 0. */
  lemma FirstRead(path: string, contents: seq<char>)
    requires Open(path, contents).Success? && |contents| > 0
    ensures NextChar(Open(path, contents).value).0 == Read(Ch(contents[0]), 0, 1, 1)
  {
  }

  /** Within a line, each read advances the ordinal and the column by one. */
  lemma SameLineAdvance(c: Cursor)
    requires Valid(c) && !AtEnd(c) && c.index >= 0 && c.file[c.index] != '\n'
    ensures NextChar(c).0.charNumber == c.index + 1
    ensures NextChar(c).0.line == c.line && NextChar(c).0.column == c.column + 1
  {
  }

  /** The character after a line break is on the next line at column 0,
      while the break itself keeps the line of the text before it. */
  lemma {:induction false} AfterLineBreak(file: seq<char>, i: nat)
    requires 0 < i < |file| && file[i - 1] == '\n'
    ensures PosAt(file, i) == Pos(PosAt(file, i - 1).line + 1, 0)
  {
    assert file[..i] == file[..i - 1] + ['\n'];
    CountCharAppend(file[..i - 1], ['\n'], '\n');
  }

  /** Once the file is exhausted the reader keeps answering `EOF` with the
      same position, whatever the number of further calls. */
  lemma {:induction false} EofForever(c: Cursor, n: nat)
    requires Valid(c) && AtEnd(c)
    ensures ReadN(c, n) == c
    ensures NextChar(ReadN(c, n)).0 == Read(Eof, c.index, c.line, c.column)
  {
    if n > 0 {
      EofForever(c, n - 1);
    }
  }

  /** The cursor after `n` calls of `nextChar`. */
  function ReadN(c: Cursor, n: nat): (r: Cursor)
    requires Valid(c)
    ensures Valid(r)
    decreases n
  {
    if n == 0 then c else ReadN(NextChar(c).1, n - 1)
  }
}
