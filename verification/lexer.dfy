/**
 * The Kaleidoscope lexer: the token type, the one-token scanner `Lexer::lexer`
 * and the token stream the parser collects through `Iterator::next`.
 *
 * Positions are explicit character indices. The model is stated for ASCII
 * input only, where character positions and byte offsets agree.
 */
module Lexer {

  /** Opaque stand-in for the f64 a number literal denotes: the literal's text. */
  datatype Num = Num(text: string)

  datatype Token =
    | Binary
    | Comma
    | Comment
    | Def
    | Else
    | EOF
    | Extern
    | For
    | Ident(name: string)
    | If
    | In
    | LParen
    | Number(value: Num)
    | Op(ch: char)
    | RParen
    | Then
    | Unary
    | Var

  /** What one call of the scanner does. */
  datatype Step =
    | Scanned(tok: Token, next: nat)  // a token (possibly EOF) and where scanning resumes
    | ScanLoops                        // a comment whose newline never comes: the loop spins forever
    | ScanPanics                       // `unwrap` of a number run that is not a decimal literal

  /** What collecting the whole token stream does. */
  datatype Stream =
    | Tokens(toks: seq<Token>)
    | Loops
    | Panics

  // ---------------------------------------------------------------- characters

  predicate IsAscii(s: seq<char>) {
    forall i :: 0 <= i < |s| ==> s[i] as int < 128
  }

  /** `char::is_whitespace` on ASCII: space, tab, line feed, vertical tab, form feed, carriage return. */
  predicate IsWhitespace(c: char) {
    c == ' ' || '\t' <= c <= '\r'
  }

  predicate IsDecDigit(c: char) {
    '0' <= c <= '9'
  }

  /** `char::is_digit(16)`. */
  predicate IsHexDigit(c: char) {
    IsDecDigit(c) || 'a' <= c <= 'f' || 'A' <= c <= 'F'
  }

  predicate IsLetter(c: char) {
    'a' <= c <= 'z' || 'A' <= c <= 'Z'
  }

  /** A character that opens an identifier (lexer.rs:141). */
  predicate IsIdentStart(c: char) {
    IsLetter(c) || c == '_'
  }

  /** A character that continues an identifier: `_` or `char::is_alphanumeric` on ASCII. */
  predicate IsIdentChar(c: char) {
    c == '_' || IsLetter(c) || IsDecDigit(c)
  }

  /** A character that opens a number (lexer.rs:123). */
  predicate IsNumberStart(c: char) {
    c == '.' || IsDecDigit(c)
  }

  /** A character that continues a number run: `.` or a hexadecimal digit. */
  predicate IsNumberChar(c: char) {
    c == '.' || IsHexDigit(c)
  }

  predicate NotNewline(c: char) {
    c != '\n'
  }

  // ------------------------------------------------------------ decimal literals

  predicate AllDigits(s: string) {
    forall i :: 0 <= i < |s| ==> IsDecDigit(s[i])
  }

  function CountDots(s: string): nat {
    if s == [] then 0 else (if s[0] == '.' then 1 else 0) + CountDots(s[1..])
  }

  /** Digits with at most one `.` and at least one digit: `Digit+ | Digit+ '.' Digit* | Digit* '.' Digit+`. */
  predicate IsMantissa(s: string) {
    && (forall i :: 0 <= i < |s| ==> IsDecDigit(s[i]) || s[i] == '.')
    && CountDots(s) <= 1
    && exists i :: 0 <= i < |s| && IsDecDigit(s[i])
  }

  /** Index of the first `e` or `E`, or `|s|` when there is none. */
  function ExponentStart(s: string): (k: nat)
    ensures k <= |s|
    ensures forall i :: 0 <= i < k ==> s[i] != 'e' && s[i] != 'E'
    ensures k < |s| ==> s[k] == 'e' || s[k] == 'E'
  {
    if s == [] then 0
    else if s[0] == 'e' || s[0] == 'E' then 0
    else 1 + ExponentStart(s[1..])
  }

  /**
   * Whether Rust's `str::parse::<f64>` accepts a number run. Such a run holds only
   * `.` and hexadecimal digits, so the accepted forms are a mantissa followed by an
   * optional `e`/`E` and at least one digit (a sign cannot occur in the run).
   */
  function IsDecimalLiteral(s: string): (b: bool)
    ensures b ==> s != [] && IsNumberStart(s[0]) && (IsDecDigit(s[|s| - 1]) || s[|s| - 1] == '.')
  {
    var k := ExponentStart(s);
    IsMantissa(s[..k]) && (k == |s| || (k + 1 < |s| && AllDigits(s[k + 1..])))
  }

  // --------------------------------------------------------------- the scanner

  /** End of the maximal run of `inRun` characters starting at `pos`. */
  function RunEnd(s: seq<char>, pos: nat, inRun: char -> bool): (e: nat)
    requires pos <= |s|
    ensures pos <= e <= |s|
    ensures forall i :: pos <= i < e ==> inRun(s[i])
    ensures e == |s| || !inRun(s[e])
    decreases |s| - pos
  {
    if pos == |s| || !inRun(s[pos]) then pos else RunEnd(s, pos + 1, inRun)
  }

  /** The text of `s` from `i` up to, not including, `j`. */
  function Text(s: seq<char>, i: nat, j: nat): string
    requires i <= j <= |s|
  {
    s[i..j]
  }

  /** The word a run of identifier characters spells: a keyword token or an identifier. */
  function Word(w: string): Token {
    if w == "def" then Def
    else if w == "extern" then Extern
    else if w == "if" then If
    else if w == "else" then Else
    else if w == "for" then For
    else if w == "in" then In
    else if w == "unary" then Unary
    else if w == "binary" then Binary
    else if w == "var" then Var
    else Ident(w)
  }

  const Keywords: set<string> := {"def", "extern", "if", "else", "for", "in", "unary", "binary", "var"}

  /** `Lexer::lexer`: skip whitespace, then scan one token. */
  function NextToken(s: seq<char>, pos: nat): (r: Step)
    requires pos <= |s|
    requires IsAscii(s)
    ensures r.Scanned? ==> pos <= r.next <= |s|
    ensures r.Scanned? && r.tok != EOF ==> pos < r.next
    ensures r.Scanned? ==> r.tok != Then
  {
    var start := RunEnd(s, pos, IsWhitespace);
    if start == |s| then Scanned(EOF, start) else ScanAt(s, start)
  }

  /** The token that starts with the non-whitespace character at `start`. */
  function ScanAt(s: seq<char>, start: nat): (r: Step)
    requires start < |s|
    ensures r.Scanned? ==> start < r.next <= |s|
    ensures r.Scanned? ==> r.tok != Then
  {
    var c := s[start];
    if c == '(' then Scanned(LParen, start + 1)
    else if c == ')' then Scanned(RParen, start + 1)
    else if c == ',' then Scanned(Comma, start + 1)
    else if c == '#' then ScanComment(s, start)
    else if IsNumberStart(c) then ScanNumber(s, start)
    else if IsIdentStart(c) then ScanWord(s, start)
    else Scanned(Op(c), start + 1)
  }

  /** A comment: everything through the next newline. Without one, the loop at lexer.rs:114 spins forever. */
  function ScanComment(s: seq<char>, start: nat): (r: Step)
    requires start < |s|
    ensures r.Scanned? ==> start < r.next <= |s|
    ensures r.Scanned? ==> r.tok == Comment
  {
    var nl := RunEnd(s, start + 1, NotNewline);
    if nl == |s| then ScanLoops else Scanned(Comment, nl + 1)
  }

  /** A number: the maximal run of `.` and hexadecimal digits, parsed as a decimal literal. */
  function ScanNumber(s: seq<char>, start: nat): (r: Step)
    requires start < |s|
    ensures r.Scanned? ==> start < r.next <= |s|
    ensures r.Scanned? ==> r.tok == EOF || r.tok.Number?
    ensures r.Scanned? && r.tok.Number? ==>
      start < r.next < |s| && r.tok.value.text == Text(s, start, r.next) && IsDecimalLiteral(r.tok.value.text)
    ensures r.Scanned? && r.tok == EOF ==> r.next == |s|
    ensures !r.ScanLoops?
  {
    var end := RunEnd(s, start + 1, IsNumberChar);
    if end == |s| then Scanned(EOF, end)
    else if IsDecimalLiteral(s[start..end]) then Scanned(Number(Num(s[start..end])), end)
    else ScanPanics
  }

  /** An identifier or keyword: the maximal run of `_` and alphanumerics. */
  function ScanWord(s: seq<char>, start: nat): (r: Step)
    requires start < |s|
    ensures r.Scanned? && start < r.next <= |s|
    ensures r.Scanned? && r.tok != Then
    ensures r.Scanned? && (r.tok == EOF <==> r.next == |s|)
    ensures r.Scanned? && r.tok != EOF ==>
      start < r.next < |s| && r.tok == Word(Text(s, start, r.next)) && !IsIdentChar(s[r.next])
  {
    var end := RunEnd(s, start + 1, IsIdentChar);
    if end == |s| then Scanned(EOF, end) else Scanned(Word(s[start..end]), end)
  }

  /**
   * The stream `Parser::new` collects: `Iterator::next` maps `EOF` to the end of
   * the stream and passes every other token on, comments included.
   */
  function TokenizeFrom(s: seq<char>, pos: nat): (r: Stream)
    requires pos <= |s|
    requires IsAscii(s)
    ensures r.Tokens? ==> forall i :: 0 <= i < |r.toks| ==> r.toks[i] != EOF && r.toks[i] != Then
    decreases |s| - pos
  {
    match NextToken(s, pos)
    case ScanLoops => Loops
    case ScanPanics => Panics
    case Scanned(tok, next) =>
      if tok == EOF then Tokens([])
      else
        match TokenizeFrom(s, next)
        case Tokens(rest) => Tokens([tok] + rest)
        case Loops => Loops
        case Panics => Panics
  }

  function Tokenize(s: seq<char>): Stream
    requires IsAscii(s)
  {
    TokenizeFrom(s, 0)
  }

}
