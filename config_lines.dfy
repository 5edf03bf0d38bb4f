/** How `read_config_file` turns the lines of a configuration file into
    statements: the text from the first `#` on is a comment, surrounding
    whitespace is dropped, blank lines are skipped, a line ending in a
    backslash continues on the next one, and a statement is the whitespace
    separated tokens of the joined text. Also the value formats of the
    boolean, numeric and `interface:` settings. */
module ConfigLines {
  import opened Text
  import opened Seqs

  /** The part of a line before its first `#`. */
  function CutComment(raw: string): (r: string)
    ensures '#' !in r && StartsWith(raw, r)
    ensures r == raw || raw[|r|] == '#'
  {
    var n := Find(raw, '#');
    if n >= 0 then raw[..n] else raw
  }

  /** What one physical line contributes: nothing, a part of a statement
      that continues on the next line, or the last part of a statement. */
  datatype Piece = Blank | Continued(text: string) | Final(text: string)

  function LinePiece(raw: string): Piece {
    var t := Strip(CutComment(raw));
    if t == [] then Blank
    else if t[|t| - 1] == '\\' then Continued(Strip(t[..|t| - 1]))
    else Final(t)
  }

  /** A line is blank when nothing but whitespace precedes its first `#`;
      otherwise it continues exactly when that text ends with a backslash,
      and what it contributes is that text without the backslash. */
  lemma LinePieceCases(raw: string)
    ensures var t := Strip(CutComment(raw));
            var p := LinePiece(raw);
            (p.Blank? <==> t == [])
            && (p.Final? ==> p.text == t && t[|t| - 1] != '\\')
            && (p.Continued? ==> t == t[..|t| - 1] + "\\" && p.text == Strip(t[..|t| - 1]))
  {
  }

  function PieceText(p: Piece): string {
    match p
    case Blank => ""
    case Continued(t) => t
    case Final(t) => t
  }

  /** A statement: the number of the line it ends on and its tokens. */
  datatype Stmt = Stmt(lineno: nat, tokens: seq<string>)

  /** The state of the reading loop: the statements completed so far, the
      text accumulated from continued lines, the number of lines read, and
      whether end of file was seen (`readline` returned the empty string). */
  datatype Reading = Reading(stmts: seq<Stmt>, pending: string, lineno: nat, eof: bool)

  const Start := Reading([], "", 0, false)

  /** One turn of the reading loop. */
  function ReadStep(a: Reading, raw: string): (r: Reading)
    ensures !a.eof && raw != [] ==> r.lineno == a.lineno + 1
    ensures a.eof || raw == [] ==> r.stmts == a.stmts
  {
    if a.eof then a
    else if raw == [] then a.(eof := true)
    else
      var lineno := a.lineno + 1;
      match LinePiece(raw)
      case Blank => a.(lineno := lineno)
      case Continued(t) => a.(pending := a.pending + " " + t, lineno := lineno)
      case Final(t) => Reading(a.stmts + [Stmt(lineno, Split(a.pending + " " + t))], "", lineno, false)
  }

  /** One nonempty line, by its piece. */
  lemma ReadStepPiece(a: Reading, raw: string, p: Piece)
    requires !a.eof && raw != [] && p == LinePiece(raw)
    ensures ReadStep(a, raw) == match p
      case Blank => a.(lineno := a.lineno + 1)
      case Continued(t) => a.(pending := a.pending + " " + t, lineno := a.lineno + 1)
      case Final(t) => Reading(a.stmts + [Stmt(a.lineno + 1, Split(a.pending + " " + t))], "", a.lineno + 1, false)
  {
  }

  function ReadFrom(a: Reading, lines: seq<string>): Reading {
    if lines == [] then a else ReadStep(ReadFrom(a, lines[..|lines| - 1]), lines[|lines| - 1])
  }

  /** The statements of a file, and the continued text left at its end
      (which is never executed). */
  function Statements(lines: seq<string>): seq<Stmt> {
    ReadFrom(Start, lines).stmts
  }

  /** The tokens of a run of pieces, concatenated. */
  function PiecesTokens(lines: seq<string>): seq<string> {
    if lines == [] then [] else PiecesTokens(lines[..|lines| - 1]) + Split(PieceText(LinePiece(lines[|lines| - 1])))
  }

  /** Lines that are blank or continued do not end a statement: their tokens
      accumulate in the pending text. */
  lemma {:induction false} ContinuedLines(a: Reading, lines: seq<string>)
    requires !a.eof
    requires forall k :: 0 <= k < |lines| ==> lines[k] != [] && !LinePiece(lines[k]).Final?
    ensures var r := ReadFrom(a, lines);
            !r.eof && r.stmts == a.stmts && r.lineno == a.lineno + |lines|
            && Split(r.pending) == Split(a.pending) + PiecesTokens(lines)
  {
    if lines != [] {
      var init, raw := lines[..|lines| - 1], lines[|lines| - 1];
      assert forall k :: 0 <= k < |init| ==> init[k] == lines[k];
      ContinuedLines(a, init);
      var b := ReadFrom(a, init);
      assert ReadFrom(a, lines) == ReadStep(b, raw);
      assert PiecesTokens(lines) == PiecesTokens(init) + Split(PieceText(LinePiece(raw)));
      match LinePiece(raw)
      case Blank =>
        assert Split("") == [] by { assert Scan("") == ([], false); }
        assert PiecesTokens(lines) == PiecesTokens(init);
      case Continued(t) =>
        SplitJoin(b.pending, ' ', t);
        assert b.pending + " " + t == b.pending + [' '] + t;
        Assoc(Split(a.pending), PiecesTokens(init), Split(t));
    }
  }

  /** A statement spread over several lines: every line but the last blank
      or ending in a backslash, the last one not. Its tokens are those of all
      its lines in order (the lines are joined with a single space), and it
      is numbered by its last line. */
  lemma ContinuedStatement(a: Reading, lines: seq<string>)
    requires !a.eof && a.pending == []
    requires |lines| > 0 && forall k :: 0 <= k < |lines| ==> lines[k] != []
    requires forall k :: 0 <= k < |lines| - 1 ==> !LinePiece(lines[k]).Final?
    requires LinePiece(lines[|lines| - 1]).Final?
    ensures var r := ReadFrom(a, lines);
            r.stmts == a.stmts + [Stmt(a.lineno + |lines|, PiecesTokens(lines))]
            && r.pending == [] && r.lineno == a.lineno + |lines| && !r.eof
  {
    var init, raw := lines[..|lines| - 1], lines[|lines| - 1];
    assert forall k :: 0 <= k < |init| ==> init[k] == lines[k];
    ContinuedLines(a, init);
    var b := ReadFrom(a, init);
    var t := LinePiece(raw).text;
    ReadStepFinal(b, raw, t);
    assert ReadFrom(a, lines) == ReadStep(b, raw);
    StatementTokens(a.pending, b.pending, t, lines);
    CloseStatement(a, b, t, lines, ReadFrom(a, lines));
  }

  /** The last line of a continued statement completes it with the tokens
      of all its lines. */
  lemma CloseStatement(a: Reading, b: Reading, t: string, lines: seq<string>, r: Reading)
    requires lines != [] && b.stmts == a.stmts && b.lineno == a.lineno + |lines| - 1
    requires Split(b.pending + " " + t) == PiecesTokens(lines)
    requires r == Reading(b.stmts + [Stmt(b.lineno + 1, Split(b.pending + " " + t))], "", b.lineno + 1, false)
    ensures r.stmts == a.stmts + [Stmt(a.lineno + |lines|, PiecesTokens(lines))]
    ensures r.pending == [] && r.lineno == a.lineno + |lines| && !r.eof
  {
    FinalReading(a, b, r, |lines|, Split(b.pending + " " + t), PiecesTokens(lines));
  }

  lemma FinalReading(a: Reading, b: Reading, r: Reading, n: nat, toks: seq<string>, all: seq<string>)
    requires n > 0 && b.stmts == a.stmts && b.lineno == a.lineno + n - 1 && toks == all
    requires r == Reading(b.stmts + [Stmt(b.lineno + 1, toks)], "", b.lineno + 1, false)
    ensures r.stmts == a.stmts + [Stmt(a.lineno + n, all)] && r.pending == [] && r.lineno == a.lineno + n && !r.eof
  {
  }

  /** The tokens of the completed statement are those of all its lines. */
  lemma StatementTokens(p0: string, p: string, t: string, lines: seq<string>)
    requires lines != [] && LinePiece(lines[|lines| - 1]) == Final(t)
    requires p0 == [] && Split(p) == Split(p0) + PiecesTokens(lines[..|lines| - 1])
    ensures Split(p + " " + t) == PiecesTokens(lines)
  {
    var init := lines[..|lines| - 1];
    JoinedTokens(p, t);
    assert Split(p0) == [] by { assert Scan(p0) == ([], false); }
    assert [] + PiecesTokens(init) == PiecesTokens(init);
    assert Split(p) == PiecesTokens(init);
    assert PiecesTokens(lines) == PiecesTokens(init) + Split(t);
  }

  /** Text joined with a single space splits into the tokens of both parts. */
  lemma JoinedTokens(pending: string, t: string)
    ensures Split(pending + " " + t) == Split(pending) + Split(t)
  {
    SplitJoin(pending, ' ', t);
    assert pending + " " + t == pending + [' '] + t;
  }

  lemma ReadStepFinal(b: Reading, raw: string, t: string)
    requires !b.eof && raw != [] && LinePiece(raw) == Final(t)
    ensures ReadStep(b, raw) == Reading(b.stmts + [Stmt(b.lineno + 1, Split(b.pending + " " + t))], "", b.lineno + 1, false)
  {
  }

  /** An empty string from `readline` ends the file: nothing after it is read. */
  lemma {:induction false} ReadAfterEof(a: Reading, lines: seq<string>)
    requires a.eof
    ensures ReadFrom(a, lines) == a
  {
    if lines != [] {
      ReadAfterEof(a, lines[..|lines| - 1]);
    }
  }

  /** The keyword of a statement, compared without regard to case. */
  function Keyword(tokens: seq<string>): string
    requires tokens != []
  {
    Lower(tokens[0])
  }

  /** The boolean settings accept exactly `1`, `on`, `yes` and `0`, `off`, `no`. */
  function ParseBool(v: string): (r: Option<bool>)
    ensures r == Some(true) <==> v == "1" || v == "on" || v == "yes"
    ensures r == Some(false) <==> v == "0" || v == "off" || v == "no"
  {
    if v == "1" || v == "on" || v == "yes" then Some(true)
    else if v == "0" || v == "off" || v == "no" then Some(false)
    else None
  }

  /** `num_proc`: an integer of at least 1. */
  function ParseNumProc(v: string): (r: Option<int>)
    ensures r.Some? ==> r.value >= 1 && ParseInt(v, 10) == Some(r.value)
    ensures r.None? ==> ParseInt(v, 10).None? || ParseInt(v, 10).value < 1
  {
    match ParseInt(v, 10)
    case None => None
    case Some(n) => if n < 1 then None else Some(n)
  }

  const InterfacePrefix := "interface:"

  /** A last group token `interface:X` of a node line: `X` and the groups
      without it. */
  function SplitInterface(groups: seq<string>): (r: (Option<string>, seq<string>))
    ensures r.0.Some? ==> groups == r.1 + [InterfacePrefix + r.0.value]
    ensures r.0.None? ==> r.1 == groups && (groups == [] || !StartsWith(groups[|groups| - 1], InterfacePrefix))
  {
    if |groups| >= 1 && StartsWith(groups[|groups| - 1], InterfacePrefix) then
      var last := groups[|groups| - 1];
      assert last == InterfacePrefix + last[10..];
      (Some(last[10..]), groups[..|groups| - 1])
    else (None, groups)
  }
}
