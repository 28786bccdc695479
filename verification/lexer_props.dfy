/**
 * Properties of the lexer: what each kind of leading character scans to, and a
 * printer for token sequences whose output the lexer reads back exactly.
 */
module LexerProps {
  import opened Lexer

  predicate AllWhitespace(s: seq<char>) {
    forall i :: 0 <= i < |s| ==> IsWhitespace(s[i])
  }

  /** The maximal run is unique: any end that stops the run where it must is the one `RunEnd` finds. */
  lemma RunEndIs(s: seq<char>, pos: nat, inRun: char -> bool, e: nat)
    requires pos <= e <= |s|
    requires forall i :: pos <= i < e ==> inRun(s[i])
    requires e == |s| || !inRun(s[e])
    ensures RunEnd(s, pos, inRun) == e
  {
  }

  /** Leading whitespace is skipped; blank remaining input scans to EOF, which ends the stream. */
  lemma BlankIsEof(s: seq<char>, pos: nat)
    requires pos <= |s| && IsAscii(s)
    requires AllWhitespace(s[pos..])
    ensures NextToken(s, pos) == Scanned(EOF, |s|)
    ensures TokenizeFrom(s, pos) == Tokens([])
  {
    assert forall i :: pos <= i < |s| ==> IsWhitespace(s[i]) by {
      forall i | pos <= i < |s| ensures IsWhitespace(s[i]) {
        assert s[pos..][i - pos] == s[i];
      }
    }
    RunEndIs(s, pos, IsWhitespace, |s|);
  }

  /** After the whitespace, `(`, `)` and `,` are punctuation and any character that opens nothing else is an operator. */
  lemma SingleCharTokens(s: seq<char>, pos: nat, k: nat)
    requires pos <= k < |s| && IsAscii(s)
    requires AllWhitespace(s[pos..k]) && !IsWhitespace(s[k])
    ensures s[k] == '(' ==> NextToken(s, pos) == Scanned(LParen, k + 1)
    ensures s[k] == ')' ==> NextToken(s, pos) == Scanned(RParen, k + 1)
    ensures s[k] == ',' ==> NextToken(s, pos) == Scanned(Comma, k + 1)
    ensures s[k] !in "(),#" && !IsNumberStart(s[k]) && !IsIdentStart(s[k]) ==>
              NextToken(s, pos) == Scanned(Op(s[k]), k + 1)
  {
    assert forall i :: pos <= i < k ==> IsWhitespace(s[i]) by {
      forall i | pos <= i < k ensures IsWhitespace(s[i]) {
        assert s[pos..k][i - pos] == s[i];
      }
    }
    RunEndIs(s, pos, IsWhitespace, k);
  }

  /** A comment runs through the next newline and is a token of its own; without a newline the scan never ends. */
  lemma CommentScan(s: seq<char>, pos: nat, k: nat)
    requires IsAscii(s) && pos <= k < |s|
    requires AllWhitespace(s[pos..k]) && s[k] == '#'
    ensures forall j :: k < j < |s| && s[j] == '\n' && (forall i :: k < i < j ==> s[i] != '\n') ==>
              NextToken(s, pos) == Scanned(Comment, j + 1)
    ensures (forall i :: k < i < |s| ==> s[i] != '\n') ==> NextToken(s, pos) == ScanLoops
  {
    SkipsTo(s, pos, k);
  }

  /**
   * A number is the maximal run of `.` and hexadecimal digits after the
   * whitespace. A run that stops before the end of the input is a `Number` when
   * it is a decimal literal and makes `unwrap` panic otherwise; a run that
   * reaches the end of the input gives EOF.
   */
  lemma NumberScan(s: seq<char>, pos: nat, k: nat, e: nat)
    requires IsAscii(s) && pos <= k < e <= |s|
    requires AllWhitespace(s[pos..k]) && IsNumberStart(s[k])
    requires forall i :: k < i < e ==> IsNumberChar(s[i])
    requires e == |s| || !IsNumberChar(s[e])
    ensures e == |s| ==> NextToken(s, pos) == Scanned(EOF, |s|)
    ensures e < |s| && IsDecimalLiteral(s[k..e]) ==> NextToken(s, pos) == Scanned(Number(Num(s[k..e])), e)
    ensures e < |s| && !IsDecimalLiteral(s[k..e]) ==> NextToken(s, pos) == ScanPanics
  {
    NumberAt(s, pos, k);
    NumberRun(s, k, e);
  }

  /** After the whitespace, a number start is scanned as a number. */
  lemma NumberAt(s: seq<char>, pos: nat, k: nat)
    requires IsAscii(s) && pos <= k < |s|
    requires AllWhitespace(s[pos..k]) && IsNumberStart(s[k])
    ensures NextToken(s, pos) == ScanNumber(s, k)
  {
    SkipsTo(s, pos, k);
  }

  /** The scan of a number run ending at `e`. */
  lemma NumberRun(s: seq<char>, k: nat, e: nat)
    requires k < e <= |s|
    requires forall i :: k < i < e ==> IsNumberChar(s[i])
    requires e == |s| || !IsNumberChar(s[e])
    ensures e == |s| ==> ScanNumber(s, k) == Scanned(EOF, |s|)
    ensures e < |s| && IsDecimalLiteral(s[k..e]) ==> ScanNumber(s, k) == Scanned(Number(Num(s[k..e])), e)
    ensures e < |s| && !IsDecimalLiteral(s[k..e]) ==> ScanNumber(s, k) == ScanPanics
  {
    RunEndIs(s, k + 1, IsNumberChar, e);
  }

  /**
   * A word is the maximal run of `_` and alphanumerics after the whitespace,
   * whatever character ends it. A run that reaches the end of the input gives
   * EOF; otherwise it is the keyword or identifier that text spells.
   */
  lemma WordScan(s: seq<char>, pos: nat, k: nat, e: nat)
    requires IsAscii(s) && pos <= k < e <= |s|
    requires AllWhitespace(s[pos..k]) && IsIdentStart(s[k])
    requires forall i :: k < i < e ==> IsIdentChar(s[i])
    requires e == |s| || !IsIdentChar(s[e])
    ensures e == |s| ==> NextToken(s, pos) == Scanned(EOF, |s|)
    ensures e < |s| ==> NextToken(s, pos) == Scanned(Word(s[k..e]), e)
  {
    WordAt(s, pos, k);
    WordRun(s, k, e);
  }

  /** After the whitespace, an identifier start is scanned as a word. */
  lemma WordAt(s: seq<char>, pos: nat, k: nat)
    requires IsAscii(s) && pos <= k < |s|
    requires AllWhitespace(s[pos..k]) && IsIdentStart(s[k])
    ensures NextToken(s, pos) == ScanWord(s, k)
  {
    SkipsTo(s, pos, k);
  }

  /** The scan of a word run ending at `e`. */
  lemma WordRun(s: seq<char>, k: nat, e: nat)
    requires k < e <= |s|
    requires forall i :: k < i < e ==> IsIdentChar(s[i])
    requires e == |s| || !IsIdentChar(s[e])
    ensures e == |s| ==> ScanWord(s, k) == Scanned(EOF, |s|)
    ensures e < |s| ==> ScanWord(s, k) == Scanned(Word(s[k..e]), e)
  {
    RunEndIs(s, k + 1, IsIdentChar, e);
  }

  /** An identifier ended by a non-blank character: `f(x)` starts with `f`, stopping on the `(`. */
  lemma WordBeforeParen()
    ensures NextToken("f(x)", 0) == Scanned(Ident("f"), 1)
  {
    var s := "f(x)";
    assert s[0..0] == [] && s[0..1] == "f";
    WordScan(s, 0, 0, 1);
  }

  /** `x+y` starts with the identifier `x`, stopping on the operator. */
  lemma WordBeforeOperator()
    ensures NextToken("x+y", 0) == Scanned(Ident("x"), 1)
  {
    var s := "x+y";
    assert s[0..0] == [] && s[0..1] == "x";
    WordScan(s, 0, 0, 1);
  }

  /** The exponent marker is the first `e` or `E`. */
  lemma ExponentStartIs(s: string, k: nat)
    requires k <= |s| && (k == |s| || s[k] == 'e' || s[k] == 'E')
    requires forall i :: 0 <= i < k ==> s[i] != 'e' && s[i] != 'E'
    ensures ExponentStart(s) == k
  {
  }

  /** A decimal literal uses only decimal digits, `.`, `e` and `E`, all of them number-run characters. */
  lemma DecimalLiteralAlphabet(s: string)
    requires IsDecimalLiteral(s)
    ensures forall i :: 0 <= i < |s| ==> IsNumberChar(s[i]) && (IsDecDigit(s[i]) || s[i] in ".eE")
  {
    var k := ExponentStart(s);
    forall i | 0 <= i < |s| ensures IsNumberChar(s[i]) && (IsDecDigit(s[i]) || s[i] in ".eE") {
      if i < k {
        assert s[..k][i] == s[i];
      } else if i > k {
        assert s[k + 1..][i - k - 1] == s[i];
      }
    }
  }

  /** Number runs that `str::parse::<f64>` accepts: a mantissa may end or start with its `.`, and may carry an exponent. */
  lemma DecimalLiteralAccepts()
    ensures IsDecimalLiteral("1e5") && IsDecimalLiteral("1.") && IsDecimalLiteral(".5") && IsDecimalLiteral("1.E5")
  {
    ExponentAccepted();
    DotsAccepted();
  }

  lemma ExponentAccepted()
    ensures IsDecimalLiteral("1e5")
  {
    var a := "1e5";
    ExponentStartIs(a, 1);
    assert a[..1] == "1" && CountDots("1") == 0 && IsDecDigit("1"[0]);
    assert a[2..] == "5";
  }

  lemma DotsAccepted()
    ensures IsDecimalLiteral("1.") && IsDecimalLiteral(".5") && IsDecimalLiteral("1.E5")
  {
    var b := "1.";
    ExponentStartIs(b, 2);
    assert b[..2] == b && b[1..] == "." && CountDots(b) == 1 && IsDecDigit(b[0]);
    var c := ".5";
    ExponentStartIs(c, 2);
    assert c[..2] == c && c[1..] == "5" && CountDots(c) == 1 && IsDecDigit(c[1]);
    var d := "1.E5";
    ExponentStartIs(d, 2);
    assert d[..2] == b && d[3..] == "5";
  }

  /** Number runs it rejects: a hex letter, a second `.`, no digit, or an exponent without digits. */
  lemma DecimalLiteralRejects()
    ensures !IsDecimalLiteral("1a2") && !IsDecimalLiteral("1.2.3") && !IsDecimalLiteral(".")
    ensures !IsDecimalLiteral("1e") && !IsDecimalLiteral("1e5e")
  {
    HexLetterRejected();
    SecondDotRejected();
    var c := ".";
    ExponentStartIs(c, 1);
    assert c[..1] == c && !IsDecDigit(c[0]);
    var d := "1e";
    ExponentStartIs(d, 1);
    var f := "1e5e";
    ExponentStartIs(f, 1);
    assert f[2..] == "5e" && !IsDecDigit("5e"[1]);
  }

  lemma HexLetterRejected()
    ensures !IsDecimalLiteral("1a2")
  {
    var a := "1a2";
    ExponentStartIs(a, 3);
    assert a[..3] == a && !IsDecDigit(a[1]) && a[1] != '.';
  }

  lemma SecondDotRejected()
    ensures !IsDecimalLiteral("1.2.3")
  {
    var b := "1.2.3";
    ExponentStartIs(b, 5);
    assert b[..5] == b;
    assert b[1..] == ".2.3" && ".2.3"[1..] == "2.3" && "2.3"[1..] == ".3" && ".3"[1..] == "3";
    assert CountDots("3") == 0;
    assert CountDots(b) == 2;
  }

  /** `1a2` is a number run (hexadecimal letters are run characters) but not a decimal literal: scanning it panics. */
  lemma HexRunPanics()
    ensures NextToken("1a2 ", 0) == ScanPanics
  {
    var a := "1a2 ";
    HexLetterRejected();
    assert a[0..0] == [] && a[0..3] == "1a2";
    assert IsNumberChar(a[1]) && IsNumberChar(a[2]) && !IsNumberChar(a[3]);
    NumberScan(a, 0, 0, 3);
  }

  /** `1.2.3` is one number run with two dots: scanning it panics. */
  lemma TwoDotsPanic()
    ensures NextToken("1.2.3 ", 0) == ScanPanics
  {
    var b := "1.2.3 ";
    SecondDotRejected();
    assert b[0..0] == [] && b[0..5] == "1.2.3";
    assert IsNumberChar(b[1]) && IsNumberChar(b[2]) && IsNumberChar(b[3]) && IsNumberChar(b[4]) && !IsNumberChar(b[5]);
    NumberScan(b, 0, 0, 5);
  }

  /** `1e5` is one number run (`e` is a hexadecimal digit) and a decimal literal with an exponent. */
  lemma ExponentNumber()
    ensures NextToken("1e5 ", 0) == Scanned(Number(Num("1e5")), 3)
  {
    var c := "1e5 ";
    ExponentAccepted();
    assert c[0..0] == [] && c[0..3] == "1e5";
    assert IsNumberChar(c[1]) && IsNumberChar(c[2]) && !IsNumberChar(c[3]);
    NumberScan(c, 0, 0, 3);
  }

  /** The keyword table: exactly nine words are keywords, and `then` is not one of them. */
  lemma {:induction false} WordIsKeyword(w: string)
    ensures Word(w) == Ident(w) <==> w !in Keywords
    ensures Word(w) != Then
    ensures Word("then") == Ident("then")
  {
  }

  // -------------------------------------------------------------- the printer

  /** The characters a token is written with. */
  function Spelling(t: Token): string {
    match t
    case Binary => "binary"
    case Comma => ","
    case Comment => "#\n"
    case Def => "def"
    case Else => "else"
    case EOF => ""
    case Extern => "extern"
    case For => "for"
    case Ident(n) => n
    case If => "if"
    case In => "in"
    case LParen => "("
    case Number(n) => n.text
    case Op(c) => [c]
    case RParen => ")"
    case Then => "then"
    case Unary => "unary"
    case Var => "var"
  }

  predicate IsIdentifierText(n: string) {
    |n| > 0 && IsIdentStart(n[0]) && forall i :: 0 <= i < |n| ==> IsIdentChar(n[i])
  }

  predicate IsNumberRun(n: string) {
    |n| > 0 && IsNumberStart(n[0]) && forall i :: 0 <= i < |n| ==> IsNumberChar(n[i])
  }

  /** Tokens the lexer can produce, written the way the lexer reads them back. */
  predicate Renderable(t: Token) {
    && !t.EOF? && !t.Then?
    && (t.Ident? ==> IsIdentifierText(t.name) && t.name !in Keywords)
    && (t.Number? ==> IsNumberRun(t.value.text) && IsDecimalLiteral(t.value.text))
    && (t.Op? ==> t.ch as int < 128 && !IsWhitespace(t.ch) && t.ch !in "(),#" && !IsNumberStart(t.ch) && !IsIdentStart(t.ch))
  }

  predicate AllRenderable(ts: seq<Token>) {
    forall i :: 0 <= i < |ts| ==> Renderable(ts[i])
  }

  /** Each token followed by one space. */
  function Render(ts: seq<Token>): string {
    if ts == [] then [] else Spelling(ts[0]) + " " + Render(ts[1..])
  }

  /** A word left at the very end of the input, with nothing after it. */
  predicate IsDanglingWord(w: string) {
    IsAscii(w) && (IsIdentifierText(w) || IsNumberRun(w))
  }

  lemma SpellingShape(t: Token)
    requires Renderable(t)
    ensures |Spelling(t)| > 0 && IsAscii(Spelling(t)) && !IsWhitespace(Spelling(t)[0])
  {
    match t
    case Number(n) =>
      assert forall i :: 0 <= i < |n.text| ==> IsNumberChar(n.text[i]);
    case Ident(n) =>
      assert forall i :: 0 <= i < |n| ==> IsIdentChar(n[i]);
    case _ =>
  }

  lemma {:induction false} RenderAscii(ts: seq<Token>)
    requires AllRenderable(ts)
    ensures IsAscii(Render(ts))
  {
    if ts != [] {
      SpellingShape(ts[0]);
      RenderAscii(ts[1..]);
    }
  }

  /** Whitespace up to `k`, then a non-whitespace character: the scanner starts its token at `k`. */
  lemma SkipsTo(s: seq<char>, pos: nat, k: nat)
    requires IsAscii(s) && pos <= k < |s|
    requires AllWhitespace(s[pos..k]) && !IsWhitespace(s[k])
    ensures NextToken(s, pos) == ScanAt(s, k)
  {
    assert forall i :: pos <= i < k ==> IsWhitespace(s[i]) by {
      forall i | pos <= i < k ensures IsWhitespace(s[i]) {
        assert s[pos..k][i - pos] == s[i];
      }
    }
    RunEndIs(s, pos, IsWhitespace, k);
  }

  /** A word spelled at `k` and followed by a space scans to the token that word denotes. */
  lemma ScanWordAt(s: seq<char>, k: nat, w: string)
    requires IsIdentifierText(w) && k + |w| < |s|
    requires s[k..k + |w|] == w && s[k + |w|] == ' '
    ensures ScanAt(s, k) == Scanned(Word(w), k + |w|)
  {
    assert forall i :: k <= i < k + |w| ==> s[i] == w[i - k] by {
      forall i | k <= i < k + |w| ensures s[i] == w[i - k] {
        assert s[k..k + |w|][i - k] == s[i];
      }
    }
    assert IsIdentStart(s[k]) && !IsNumberStart(s[k]);
    RunEndIs(s, k + 1, IsIdentChar, k + |w|);
    assert ScanWord(s, k) == Scanned(Word(s[k..k + |w|]), k + |w|);
  }

  /** A number run spelled at `k` and followed by a space scans to a number token. */
  lemma ScanNumberAt(s: seq<char>, k: nat, n: string)
    requires IsNumberRun(n) && IsDecimalLiteral(n) && k + |n| < |s|
    requires s[k..k + |n|] == n && s[k + |n|] == ' '
    ensures ScanAt(s, k) == Scanned(Number(Num(n)), k + |n|)
  {
    assert forall i :: k <= i < k + |n| ==> s[i] == n[i - k] by {
      forall i | k <= i < k + |n| ensures s[i] == n[i - k] {
        assert s[k..k + |n|][i - k] == s[i];
      }
    }
    RunEndIs(s, k + 1, IsNumberChar, k + |n|);
  }

  predicate IsKeywordToken(t: Token) {
    t.Def? || t.Else? || t.Extern? || t.For? || t.If? || t.In? || t.Unary? || t.Binary? || t.Var?
  }

  lemma KeywordSpelling(t: Token)
    requires IsKeywordToken(t)
    ensures IsIdentifierText(Spelling(t)) && Word(Spelling(t)) == t
  {
  }

  lemma ScanPunctuationAt(s: seq<char>, k: nat, t: Token)
    requires t.LParen? || t.RParen? || t.Comma? || (t.Op? && Renderable(t))
    requires k + 1 < |s| && s[k..k + 1] == Spelling(t)
    ensures ScanAt(s, k) == Scanned(t, k + 1)
  {
    assert s[k] == s[k..k + 1][0];
  }

  lemma ScanCommentAt(s: seq<char>, k: nat)
    requires k + 1 < |s| && s[k] == '#' && s[k + 1] == '\n'
    ensures ScanAt(s, k) == Scanned(Comment, k + 2)
  {
    RunEndIs(s, k + 1, NotNewline, k + 1);
  }

  lemma ScanKeywordAt(s: seq<char>, k: nat, t: Token)
    requires IsKeywordToken(t) && k + |Spelling(t)| < |s|
    requires s[k..k + |Spelling(t)|] == Spelling(t) && s[k + |Spelling(t)|] == ' '
    ensures ScanAt(s, k) == Scanned(t, k + |Spelling(t)|)
  {
    KeywordSpelling(t);
    ScanWordAt(s, k, Spelling(t));
  }

  /** One token: a renderable token spelled at `k` and followed by a space scans back to itself. */
  lemma ScanOne(s: seq<char>, k: nat, t: Token)
    requires Renderable(t)
    requires k + |Spelling(t)| < |s|
    requires s[k..k + |Spelling(t)|] == Spelling(t) && s[k + |Spelling(t)|] == ' '
    ensures ScanAt(s, k) == Scanned(t, k + |Spelling(t)|)
  {
    if IsKeywordToken(t) {
      ScanKeywordAt(s, k, t);
    } else {
      ScanOther(s, k, t);
    }
  }

  /** The tokens that are not keywords. */
  lemma ScanOther(s: seq<char>, k: nat, t: Token)
    requires Renderable(t) && !IsKeywordToken(t)
    requires k + |Spelling(t)| < |s|
    requires s[k..k + |Spelling(t)|] == Spelling(t) && s[k + |Spelling(t)|] == ' '
    ensures ScanAt(s, k) == Scanned(t, k + |Spelling(t)|)
  {
    if t.Ident? {
      ScanWordAt(s, k, t.name);
    } else if t.Number? {
      ScanNumberAt(s, k, t.value.text);
    } else if t.Comment? {
      assert s[k..k + 2][0] == s[k] && s[k..k + 2][1] == s[k + 1];
      ScanCommentAt(s, k);
    } else {
      ScanPunctuationAt(s, k, t);
    }
  }

  /** Split a suffix of `s` that is known to be `a + b`. */
  lemma SplitAt(s: seq<char>, pos: nat, a: seq<char>, b: seq<char>)
    requires pos <= |s| && s[pos..] == a + b
    ensures pos + |a| <= |s| && s[pos..pos + |a|] == a && s[pos + |a|..] == b
  {
    assert s[pos..][..|a|] == a;
    assert s[pos..][|a|..] == b;
  }

  /** Only whitespace and possibly one dangling word remain: the stream ends here. */
  lemma ScanTail(s: seq<char>, pos: nat, ws: string, tail: string)
    requires IsAscii(s) && pos <= |s|
    requires AllWhitespace(ws)
    requires tail == [] || IsDanglingWord(tail)
    requires s[pos..] == ws + tail
    ensures TokenizeFrom(s, pos) == Tokens([])
  {
    var k := pos + |ws|;
    SplitAt(s, pos, ws, tail);
    if tail == [] {
      BlankIsEof(s, pos);
    } else {
      assert s[k] == tail[0] by { assert s[k..][0] == s[k]; }
      SkipsTo(s, pos, k);
      ScanDangling(s, k, tail);
    }
  }

  /** A word that runs to the end of the input scans to EOF. */
  lemma ScanDangling(s: seq<char>, k: nat, tail: string)
    requires k < |s| && s[k..] == tail && IsDanglingWord(tail)
    ensures ScanAt(s, k) == Scanned(EOF, |s|)
  {
    assert forall i :: k <= i < |s| ==> s[i] == tail[i - k] by {
      forall i | k <= i < |s| ensures s[i] == tail[i - k] {
        assert s[k..][i - k] == s[i];
      }
    }
    if IsIdentifierText(tail) {
      RunEndIs(s, k + 1, IsIdentChar, |s|);
    } else {
      RunEndIs(s, k + 1, IsNumberChar, |s|);
    }
  }

  lemma TokenizeCons(s: seq<char>, pos: nat, ts: seq<Token>, next: nat)
    requires IsAscii(s) && pos <= |s| && ts != []
    requires NextToken(s, pos) == Scanned(ts[0], next) && ts[0] != EOF
    requires TokenizeFrom(s, next) == Tokens(ts[1..])
    ensures TokenizeFrom(s, pos) == Tokens(ts)
  {
    ConsBack(ts);
  }

  lemma ConsBack<T>(ts: seq<T>)
    requires ts != []
    ensures [ts[0]] + ts[1..] == ts
  {
  }

  lemma RenderCons(ts: seq<Token>)
    requires ts != []
    ensures Render(ts) == Spelling(ts[0]) + " " + Render(ts[1..])
  {
  }

  /** Where the pieces of `ws + (sp + " " + r) + tail` lie in `s`. */
  lemma Layout(s: seq<char>, pos: nat, ws: string, sp: string, r: string, tail: string)
    requires pos <= |s| && |sp| > 0
    requires s[pos..] == ws + (sp + " " + r) + tail
    ensures pos + |ws| + |sp| < |s|
    ensures s[pos..pos + |ws|] == ws
    ensures s[pos + |ws|..pos + |ws| + |sp|] == sp
    ensures s[pos + |ws|] == sp[0]
    ensures s[pos + |ws| + |sp|] == ' '
    ensures s[pos + |ws| + |sp|..] == " " + r + tail
  {
    assert ws + (sp + " " + r) + tail == ws + sp + " " + (r + tail);
    assert s[pos..][..|ws|] == ws;
    assert s[pos..][|ws|..|ws| + |sp|] == sp;
    assert s[pos..][|ws| + |sp|..] == " " + (r + tail);
  }

  /** A renderable token spelled `sp`, after whitespace `ws` and before a space, scans back to itself. */
  lemma TokenAfter(s: seq<char>, pos: nat, ws: string, t: Token, sp: string, r: string, tail: string)
    requires IsAscii(s) && pos <= |s|
    requires AllWhitespace(ws) && Renderable(t) && sp == Spelling(t) && |sp| > 0
    requires s[pos..] == ws + (sp + " " + r) + tail
    ensures pos + |ws| + |sp| < |s|
    ensures NextToken(s, pos) == Scanned(t, pos + |ws| + |sp|)
    ensures s[pos + |ws| + |sp|..] == " " + r + tail
  {
    Layout(s, pos, ws, sp, r, tail);
    SpellingShape(t);
    TokenAt(s, pos, pos + |ws|, t);
  }

  /** Whitespace up to `k`, then a renderable token's spelling and a space: the token is scanned from `k`. */
  lemma TokenAt(s: seq<char>, pos: nat, k: nat, t: Token)
    requires IsAscii(s) && pos <= k && Renderable(t) && k + |Spelling(t)| < |s|
    requires AllWhitespace(s[pos..k]) && !IsWhitespace(Spelling(t)[0])
    requires s[k..k + |Spelling(t)|] == Spelling(t) && s[k + |Spelling(t)|] == ' '
    ensures NextToken(s, pos) == Scanned(t, k + |Spelling(t)|)
  {
    assert s[k] == s[k..k + |Spelling(t)|][0];
    SkipsTo(s, pos, k);
    ScanOne(s, k, t);
  }

  /** The first rendered token scans back to itself, and the rest of the input follows it. */
  lemma FirstToken(s: seq<char>, pos: nat, ws: string, ts: seq<Token>, tail: string) returns (n: nat)
    requires IsAscii(s) && pos <= |s|
    requires AllWhitespace(ws)
    requires ts != [] && AllRenderable(ts)
    requires s[pos..] == ws + Render(ts) + tail
    ensures pos < n < |s|
    ensures NextToken(s, pos) == Scanned(ts[0], n)
    ensures s[n..] == " " + Render(ts[1..]) + tail
  {
    var sp := Spelling(ts[0]);
    assert Renderable(ts[0]);
    SpellingShape(ts[0]);
    RenderCons(ts);
    TokenAfter(s, pos, ws, ts[0], sp, Render(ts[1..]), tail);
    n := pos + |ws| + |sp|;
  }

  lemma RenderableTail(ts: seq<Token>)
    requires ts != [] && AllRenderable(ts)
    ensures ts[0] != EOF && AllRenderable(ts[1..]) && AllWhitespace(" ")
  {
    assert Renderable(ts[0]);
    assert forall i :: 0 <= i < |ts[1..]| ==> ts[1..][i] == ts[i + 1];
  }

  /**
   * Rendered tokens, after any whitespace and before an optional word that ends
   * the input, scan back to exactly those tokens: the dangling word is dropped.
   */
  lemma {:induction false} ScanRendered(s: seq<char>, pos: nat, ws: string, ts: seq<Token>, tail: string)
    requires IsAscii(s) && pos <= |s|
    requires AllWhitespace(ws)
    requires AllRenderable(ts)
    requires tail == [] || IsDanglingWord(tail)
    requires s[pos..] == ws + Render(ts) + tail
    ensures TokenizeFrom(s, pos) == Tokens(ts)
    decreases |ts|
  {
    if ts == [] {
      assert ws + Render(ts) == ws;
      ScanTail(s, pos, ws, tail);
    } else {
      var n := FirstToken(s, pos, ws, ts, tail);
      RenderableTail(ts);
      ScanRendered(s, n, " ", ts[1..], tail);
      TokenizeCons(s, pos, ts, n);
    }
  }

  lemma AsciiAppend(a: string, b: string)
    requires IsAscii(a) && IsAscii(b)
    ensures IsAscii(a + b)
  {
    forall i | 0 <= i < |a + b| ensures (a + b)[i] as int < 128 {
      if i < |a| {
        assert (a + b)[i] == a[i];
      } else {
        assert (a + b)[i] == b[i - |a|];
      }
    }
  }

  /** The whole of `r + w`, seen as a suffix after no whitespace. */
  lemma WholeInput(r: string, w: string)
    ensures (r + w)[0..] == [] + r + w
  {
  }

  /** Printing and lexing are inverse: the lexer reads a rendered token sequence back exactly. */
  lemma RenderRoundTrip(ts: seq<Token>)
    requires AllRenderable(ts)
    ensures IsAscii(Render(ts))
    ensures Tokenize(Render(ts)) == Tokens(ts)
  {
    RenderAscii(ts);
    var s := Render(ts);
    WholeInput(s, []);
    assert s + [] == s;
    ScanRendered(s, 0, [], ts, []);
  }

  /** An identifier or number run that reaches the end of the input is dropped: the scanner returns EOF instead. */
  lemma DropsTrailingWord(ts: seq<Token>, w: string)
    requires AllRenderable(ts)
    requires IsDanglingWord(w)
    ensures IsAscii(Render(ts) + w)
    ensures Tokenize(Render(ts) + w) == Tokens(ts)
  {
    RenderAscii(ts);
    var r := Render(ts);
    var s := r + w;
    AsciiAppend(r, w);
    WholeInput(r, w);
    ScanRendered(s, 0, [], ts, w);
  }

}
