/**
 * The Kaleidoscope parser: recursive descent over the collected token
 * sequence, with precedence climbing for binary operators.
 *
 * The parser's mutable state (the position and the shared precedence table)
 * is threaded explicitly: every parse function takes the position it starts
 * at and reports where it stopped. Only prototype parsing writes the table,
 * so the expression parsers take it read-only and the declaration parsers
 * return the updated table next to their result.
 *
 * `curr()` indexes the token vector without a bounds check; reading past the
 * end is the distinct outcome `Panicked`.
 */
module Parser {
  import opened Options
  import opened Lexer
  import Ast

  /** The operator precedence table: an `i32` per operator character. */
  type Table = map<char, int>

  /** What one parse function does: a value and the position after it, an error message, or a panic. */
  datatype Parsed<+T> =
    | Parsed(value: T, pos: nat)
    | Failed(msg: string)
    | Panicked
  {
    predicate IsFailure() {
      !Parsed?
    }

    function PropagateFailure<U>(): Parsed<U>
      requires IsFailure()
    {
      if Failed? then Failed(msg) else Panicked
    }

    function Extract(): Parsed<T>
      requires !IsFailure()
    {
      this
    }
  }

  /** What the whole `parse` call does. */
  datatype Outcome<+T> = Ok(value: T) | Err(msg: string) | Panic

  /** The error `current()` reports past the end. */
  const EndOfFile := "Unexpected end of file."
  /** The error `advance()` reports when it steps onto or past the end (no final period). */
  const EndOfFileOnAdvance := "Unexpected end of file"
  const ExpectedOperator := "Expected operator in custom operator declaration."

  /** `at_end`. */
  predicate AtEnd(ts: seq<Token>, pos: nat) {
    pos >= |ts|
  }

  /** `get_token_precedence`: the table entry of an operator (100 when absent), -1 for anything else. */
  function TokenPrecedence(ts: seq<Token>, table: Table, pos: nat): (p: int)
    ensures p != -1 ==> pos < |ts| && ts[pos].Op?
    ensures pos < |ts| && ts[pos].Op? && ts[pos].ch !in table ==> p == 100
    ensures pos < |ts| && ts[pos].Op? && ts[pos].ch in table ==> p == table[ts[pos].ch]
  {
    if pos < |ts| && ts[pos].Op? then
      if ts[pos].ch in table then table[ts[pos].ch] else 100
    else
      -1
  }

  /** `usize as i32`: keep the low 32 bits and read them as two's complement. */
  function AsI32(u: nat): (v: int)
    ensures -0x8000_0000 <= v < 0x8000_0000
    ensures (v - u) % 0x1_0000_0000 == 0
    ensures u < 0x8000_0000 ==> v == u
  {
    var low := u % 0x1_0000_0000;
    if low < 0x8000_0000 then low else low - 0x1_0000_0000
  }

  // ---------------------------------------------------------------- expressions
  //
  // Termination: the number of tokens left, then a rank that orders the
  // functions which call each other without consuming a token:
  // ParseArgs (6) > ParseExpr (5) > ParseBinary (4) > ParseUnary (3) > ParsePrimary (2) > the rest (1).

  /** `parse_expr`: a unary expression, then any binary operators that follow it. */
  function ParseExpr(ts: seq<Token>, table: Table, pos: nat): (r: Parsed<Ast.Expr>)
    requires pos <= |ts|
    ensures r.Parsed? ==> pos < r.pos <= |ts|
    decreases |ts| - pos, 5
  {
    var left :- ParseUnary(ts, table, pos);
    ParseBinary(ts, table, left.pos, 0, left.value)
  }

  /** `parse_unary_expr`: any operator token in prefix position is a call of its unary function. */
  function ParseUnary(ts: seq<Token>, table: Table, pos: nat): (r: Parsed<Ast.Expr>)
    requires pos <= |ts|
    ensures r.Parsed? ==> pos < r.pos <= |ts|
    decreases |ts| - pos, 3
  {
    if pos >= |ts| then Failed(EndOfFile)
    else if ts[pos].Op? then
      if pos + 1 >= |ts| then Failed(EndOfFileOnAdvance)
      else
        var operand :- ParseUnary(ts, table, pos + 1);
        Parsed(Ast.Call(Ast.UnaryName(ts[pos].ch), [operand.value]), operand.pos)
    else
      ParsePrimary(ts, table, pos)
  }

  /**
   * `parse_binary_expr`: precedence climbing. The loop of the source is the
   * tail call; `floor` is the minimum precedence an operator needs to be
   * taken here.
   */
  function ParseBinary(ts: seq<Token>, table: Table, pos: nat, floor: int, left: Ast.Expr): (r: Parsed<Ast.Expr>)
    requires pos <= |ts|
    ensures r.Parsed? ==> pos <= r.pos <= |ts|
    decreases |ts| - pos, 4
  {
    var currPrec := TokenPrecedence(ts, table, pos);
    if currPrec < floor || AtEnd(ts, pos) then Parsed(left, pos)
    else if !ts[pos].Op? then Failed("Invalid operator.")
    else if pos + 1 >= |ts| then Failed(EndOfFileOnAdvance)
    else
      var right :- ParseUnary(ts, table, pos + 1);
      var nextPrec := TokenPrecedence(ts, table, right.pos);
      var right' :-
        if currPrec < nextPrec then ParseBinary(ts, table, right.pos, currPrec + 1, right.value)
        else right;
      ParseBinary(ts, table, right'.pos, floor, Ast.Binary(ts[pos].ch, left, right'.value))
  }

  /** `parse_primary`: dispatch on the current token. */
  function ParsePrimary(ts: seq<Token>, table: Table, pos: nat): (r: Parsed<Ast.Expr>)
    requires pos <= |ts|
    ensures r.Parsed? ==> pos < r.pos <= |ts|
    decreases |ts| - pos, 2
  {
    if pos >= |ts| then Panicked
    else match ts[pos]
      case Ident(_) => ParseIdentifier(ts, table, pos)
      case Number(_) => ParseNumber(ts, pos)
      case LParen => ParseParen(ts, table, pos)
      case If => ParseConditional(ts, table, pos)
      case For => ParseFor(ts, table, pos)
      case Var => ParseVar(ts, table, pos)
      case _ => Failed("Unknown expression.")
  }

  /** `parse_nb_expr`. */
  function ParseNumber(ts: seq<Token>, pos: nat): (r: Parsed<Ast.Expr>)
    requires pos <= |ts|
    ensures r.Parsed? ==> pos < r.pos <= |ts| && r.value.Number?
  {
    if pos >= |ts| then Panicked
    else match ts[pos]
      case Number(nb) => Parsed(Ast.Number(nb), pos + 1)
      case _ => Failed("Expected number literal.")
  }

  /** `parse_paren_expr`: the parentheses leave no trace in the tree. */
  function ParseParen(ts: seq<Token>, table: Table, pos: nat): (r: Parsed<Ast.Expr>)
    requires pos <= |ts|
    ensures r.Parsed? ==> pos < r.pos <= |ts|
    decreases |ts| - pos, 1
  {
    if pos >= |ts| then Failed(EndOfFile)
    else if !ts[pos].LParen? then Failed("Expected '(' character at start of parenthesized expression.")
    else if pos + 1 >= |ts| then Failed(EndOfFileOnAdvance)
    else
      var inner :- ParseExpr(ts, table, pos + 1);
      if inner.pos >= |ts| then Failed(EndOfFile)
      else if !ts[inner.pos].RParen? then Failed("Expected ')' character at end of parenthesized expression.")
      else Parsed(inner.value, inner.pos + 1)
  }

  /**
   * `parse_id_expr`: a variable, or a call when `(` follows. An identifier
   * that is the last token is a variable; `name()` stops at the `)` without
   * consuming it; a call with arguments consumes its `)`.
   */
  function ParseIdentifier(ts: seq<Token>, table: Table, pos: nat): (r: Parsed<Ast.Expr>)
    requires pos <= |ts|
    ensures r.Parsed? ==> pos < r.pos <= |ts|
    decreases |ts| - pos, 1
  {
    if pos >= |ts| then Panicked
    else if !ts[pos].Ident? then Failed("Expected identifier.")
    else
      var id := ts[pos].name;
      if pos + 1 >= |ts| || !ts[pos + 1].LParen? then Parsed(Ast.Variable(id), pos + 1)
      else if pos + 2 >= |ts| then Failed(EndOfFileOnAdvance)
      else if ts[pos + 2].RParen? then Parsed(Ast.Call(id, []), pos + 2)
      else
        var args :- ParseArgs(ts, table, pos + 2);
        Parsed(Ast.Call(id, args.value), args.pos + 1)
  }

  /** The argument loop of `parse_id_expr`: comma-separated expressions up to, not past, the `)`. */
  function ParseArgs(ts: seq<Token>, table: Table, pos: nat): (r: Parsed<seq<Ast.Expr>>)
    requires pos <= |ts|
    ensures r.Parsed? ==> pos < r.pos < |ts| && ts[r.pos].RParen? && |r.value| > 0
    decreases |ts| - pos, 6
  {
    var arg :- ParseExpr(ts, table, pos);
    if arg.pos >= |ts| then Failed(EndOfFile)
    else match ts[arg.pos]
      case Comma =>
        if arg.pos + 1 >= |ts| then Failed(EndOfFileOnAdvance)
        else
          var rest :- ParseArgs(ts, table, arg.pos + 1);
          Parsed([arg.value] + rest.value, rest.pos)
      case RParen => Parsed([arg.value], arg.pos)
      case _ => Failed("Expected ',' character in function call.")
  }

  /** `parse_conditional_expr`: `if c then a else b`, where `then` must be the `Then` token. */
  function ParseConditional(ts: seq<Token>, table: Table, pos: nat): (r: Parsed<Ast.Expr>)
    requires pos <= |ts|
    ensures r.Parsed? ==> pos < r.pos <= |ts|
    decreases |ts| - pos, 1
  {
    if pos + 1 >= |ts| then Failed(EndOfFileOnAdvance)
    else
      var cond :- ParseExpr(ts, table, pos + 1);
      if cond.pos >= |ts| || !ts[cond.pos].Then? then Failed("Expected 'then' keyword.")
      else if cond.pos + 1 >= |ts| then Failed(EndOfFileOnAdvance)
      else
        var consequence :- ParseExpr(ts, table, cond.pos + 1);
        if consequence.pos >= |ts| || !ts[consequence.pos].Else? then Failed("Expected 'else' keyword.")
        else if consequence.pos + 1 >= |ts| then Failed(EndOfFileOnAdvance)
        else
          var alternative :- ParseExpr(ts, table, consequence.pos + 1);
          Parsed(Ast.Conditional(cond.value, consequence.value, alternative.value), alternative.pos)
  }

  /** `parse_for_expr`: `for v = start, end [, step] in body`. */
  function ParseFor(ts: seq<Token>, table: Table, pos: nat): (r: Parsed<Ast.Expr>)
    requires pos <= |ts|
    ensures r.Parsed? ==> pos < r.pos <= |ts|
    decreases |ts| - pos, 1
  {
    if pos + 1 >= |ts| then Failed(EndOfFileOnAdvance)
    else if !ts[pos + 1].Ident? then Failed("Expected identifier in for loop.")
    else if pos + 2 >= |ts| then Failed(EndOfFileOnAdvance)
    else if ts[pos + 2] != Op('=') then Failed("Expected '=' character in for loop.")
    else if pos + 3 >= |ts| then Failed(EndOfFileOnAdvance)
    else
      var start :- ParseExpr(ts, table, pos + 3);
      if start.pos >= |ts| then Failed(EndOfFile)
      else if !ts[start.pos].Comma? then Failed("Expected ',' character in for loop.")
      else if start.pos + 1 >= |ts| then Failed(EndOfFileOnAdvance)
      else
        var end :- ParseExpr(ts, table, start.pos + 1);
        var step :- ParseStep(ts, table, end.pos);
        if step.pos >= |ts| then Failed(EndOfFile)
        else if !ts[step.pos].In? then Failed("Expected 'in' keyword in for loop.")
        else if step.pos + 1 >= |ts| then Failed(EndOfFileOnAdvance)
        else
          var body :- ParseExpr(ts, table, step.pos + 1);
          Parsed(Ast.For(ts[pos + 1].name, start.value, end.value, step.value, body.value), body.pos)
  }

  /** The optional `, step` of a `for` loop. */
  function ParseStep(ts: seq<Token>, table: Table, pos: nat): (r: Parsed<Option<Ast.Expr>>)
    requires pos <= |ts|
    ensures r.Parsed? ==> pos <= r.pos <= |ts| && (r.value.None? <==> r.pos == pos)
    decreases |ts| - pos, 1
  {
    if pos >= |ts| then Failed(EndOfFile)
    else if !ts[pos].Comma? then Parsed(None, pos)
    else if pos + 1 >= |ts| then Failed(EndOfFileOnAdvance)
    else
      var step :- ParseExpr(ts, table, pos + 1);
      Parsed(Some(step.value), step.pos)
  }

  /** `parse_var_expr`: `var x [= e], ... in body`. */
  function ParseVar(ts: seq<Token>, table: Table, pos: nat): (r: Parsed<Ast.Expr>)
    requires pos <= |ts|
    ensures r.Parsed? ==> pos < r.pos <= |ts|
    decreases |ts| - pos, 1
  {
    if pos + 1 >= |ts| then Failed(EndOfFileOnAdvance)
    else
      var bindings :- ParseBindings(ts, table, pos + 1);
      var body :- ParseExpr(ts, table, bindings.pos);
      Parsed(Ast.VarIn(bindings.value, body.value), body.pos)
  }

  /**
   * The declaration loop of `parse_var_expr`, through the `in`. The token after
   * an initializer is read with `curr()`, so an initializer that ends the
   * input panics.
   */
  function ParseBindings(ts: seq<Token>, table: Table, pos: nat): (r: Parsed<seq<Ast.Binding>>)
    requires pos <= |ts|
    ensures r.Parsed? ==> pos < r.pos <= |ts| && |r.value| > 0
    decreases |ts| - pos, 1
  {
    if pos >= |ts| then Panicked
    else if !ts[pos].Ident? then Failed("Expected identifier in 'var..in' declaration.")
    else if pos + 1 >= |ts| then Failed(EndOfFileOnAdvance)
    else
      var init :- ParseInitializer(ts, table, pos + 1);
      var b := Ast.Binding(ts[pos].name, init.value);
      if init.pos >= |ts| then Panicked
      else match ts[init.pos]
        case Comma =>
          if init.pos + 1 >= |ts| then Failed(EndOfFileOnAdvance)
          else
            var rest :- ParseBindings(ts, table, init.pos + 1);
            Parsed([b] + rest.value, rest.pos)
        case In =>
          if init.pos + 1 >= |ts| then Failed(EndOfFileOnAdvance)
          else Parsed([b], init.pos + 1)
        case _ => Failed("Expected comma or 'in' keyword in variable declaration.")
  }

  /** The optional `= e` after a name in `var..in`. */
  function ParseInitializer(ts: seq<Token>, table: Table, pos: nat): (r: Parsed<Option<Ast.Expr>>)
    requires pos <= |ts|
    ensures r.Parsed? ==> pos <= r.pos <= |ts| && (r.value.None? <==> r.pos == pos)
    decreases |ts| - pos, 1
  {
    if pos >= |ts| then Panicked
    else if ts[pos] != Op('=') then Parsed(None, pos)
    else if pos + 1 >= |ts| then Failed(EndOfFileOnAdvance)
    else
      var init :- ParseExpr(ts, table, pos + 1);
      Parsed(Some(init.value), init.pos)
  }

  // ---------------------------------------------------------------- declarations

  /** The part of a prototype before its parameter list. */
  datatype Head = Head(name: string, isOp: bool, prec: nat)

  /**
   * The head of `parse_prototype`: a plain name, `binary op [prec]` or
   * `unary op`. A binary head writes `op -> prec as i32` into the table as
   * soon as it is read, before anything after it is checked. `asUsize` is the
   * saturating `f64 as usize` conversion of the precedence literal.
   */
  function ParseHead(ts: seq<Token>, table: Table, pos: nat, asUsize: Num -> nat): (r: (Parsed<Head>, Table))
    requires pos <= |ts|
    ensures r.0.Parsed? ==> pos < r.0.pos < |ts| && (ts[pos].Ident? || ts[pos].Binary? || ts[pos].Unary?)
    ensures !(pos < |ts| && ts[pos].Binary?) ==> r.1 == table
    ensures !r.0.Parsed? ==> r.1 == table
    ensures pos < |ts| && !(ts[pos].Ident? || ts[pos].Binary? || ts[pos].Unary?) ==>
              r.0 == Failed("Expected identifier in prototype declaration.")
  {
    if pos >= |ts| then (Panicked, table)
    else match ts[pos]
      case Ident(id) =>
        if pos + 1 >= |ts| then (Failed(EndOfFileOnAdvance), table)
        else (Parsed(Head(id, false, 0), pos + 1), table)
      case Binary =>
        if pos + 1 >= |ts| then (Failed(EndOfFileOnAdvance), table)
        else if !ts[pos + 1].Op? then (Failed(ExpectedOperator), table)
        else if pos + 2 >= |ts| then (Failed(EndOfFileOnAdvance), table)
        else
          var op := ts[pos + 1].ch;
          if ts[pos + 2].Number? then
            if pos + 3 >= |ts| then (Failed(EndOfFileOnAdvance), table)
            else
              var prec := asUsize(ts[pos + 2].value);
              (Parsed(Head(Ast.BinaryName(op), true, prec), pos + 3), table[op := AsI32(prec)])
          else
            (Parsed(Head(Ast.BinaryName(op), true, 0), pos + 2), table[op := 0])
      case Unary =>
        if pos + 1 >= |ts| then (Failed(EndOfFileOnAdvance), table)
        else if !ts[pos + 1].Op? then (Failed(ExpectedOperator), table)
        else if pos + 2 >= |ts| then (Failed(EndOfFileOnAdvance), table)
        else (Parsed(Head(Ast.UnaryName(ts[pos + 1].ch), true, 0), pos + 2), table)
      case _ => (Failed("Expected identifier in prototype declaration."), table)
  }

  /** The tokens of a non-empty parameter list through its closing `)`: `a , b , c )`. */
  function ParamList(names: seq<string>): (ts: seq<Token>)
    requires names != []
    ensures |ts| == 2 * |names| && ts[0] == Ident(names[0]) && ts[|ts| - 1] == RParen
  {
    if |names| == 1 then [Ident(names[0]), RParen]
    else [Ident(names[0]), Comma] + ParamList(names[1..])
  }

  /** The tokens of a prototype's signature: `(` then `)` or a parameter list. */
  function SignatureTokens(args: seq<string>): (ts: seq<Token>)
    ensures |ts| == (if args == [] then 2 else 1 + 2 * |args|) && ts[0] == LParen && ts[|ts| - 1] == RParen
  {
    if args == [] then [LParen, RParen] else [LParen] + ParamList(args)
  }

  /** The rest of `parse_prototype`: `(` then `)` or a parameter list. */
  function ParseSignature(ts: seq<Token>, pos: nat, head: Head): (r: Parsed<Ast.Prototype>)
    requires pos <= |ts|
    ensures r.Parsed? ==> pos < r.pos <= |ts| && ts[pos].LParen? && ts[r.pos - 1] == RParen
    ensures r.Parsed? && r.value.args == [] ==> r.pos == pos + 2 && ts[pos + 1].RParen?
    ensures r.Parsed? && r.value.args != [] ==> ParseParams(ts, pos + 1) == Parsed(r.value.args, r.pos)
    ensures r.Parsed? ==> r.value.name == head.name && r.value.isOp == head.isOp && r.value.prec == head.prec
  {
    if pos >= |ts| then Panicked
    else if !ts[pos].LParen? then Failed("Expected '(' character in prototype declaration.")
    else if pos + 1 >= |ts| then Failed(EndOfFileOnAdvance)
    else if ts[pos + 1].RParen? then Parsed(Ast.Prototype(head.name, [], head.isOp, head.prec), pos + 2)
    else
      var params :- ParseParams(ts, pos + 1);
      Parsed(Ast.Prototype(head.name, params.value, head.isOp, head.prec), params.pos)
  }

  /**
   * The parameter loop of `parse_prototype`: identifiers separated by commas,
   * through the `)`. The `advance()` after a comma is unchecked, so a comma
   * that ends the input makes the next `curr()` panic.
   */
  function ParseParams(ts: seq<Token>, pos: nat): (r: Parsed<seq<string>>)
    requires pos <= |ts|
    ensures r.Parsed? ==> r.value != [] && pos + 2 <= r.pos <= |ts| && ts[pos..r.pos] == ParamList(r.value)
    ensures r.Parsed? ==> ts[r.pos - 1] == RParen
    decreases |ts| - pos
  {
    if pos >= |ts| then Panicked
    else if !ts[pos].Ident? then Failed("Expected identifier in parameter declaration.")
    else if pos + 1 >= |ts| then Failed(EndOfFileOnAdvance)
    else match ts[pos + 1]
      case RParen => Parsed([ts[pos].name], pos + 2)
      case Comma =>
        var rest :- ParseParams(ts, pos + 2);
        Parsed([ts[pos].name] + rest.value, rest.pos)
      case _ => Failed("Expected ',' or ')' character in prototype declaration.")
  }

  /** `parse_prototype`: the head, then the signature; the table comes back even when the signature fails. */
  function ParsePrototype(ts: seq<Token>, table: Table, pos: nat, asUsize: Num -> nat): (r: (Parsed<Ast.Prototype>, Table))
    requires pos <= |ts|
    ensures r.0.Parsed? ==> pos < r.0.pos <= |ts|
    ensures r.1 == ParseHead(ts, table, pos, asUsize).1
    ensures r.0.Parsed? ==> ts[r.0.pos - 1] == RParen
  {
    var (head, table') := ParseHead(ts, table, pos, asUsize);
    match head
      case Parsed(h, next) => (ParseSignature(ts, next, h), table')
      case Failed(msg) => (Failed(msg), table')
      case Panicked => (Panicked, table')
  }

  /**
   * `parse_def`: the `def` token is stepped over without a bounds check, and
   * the body is parsed with the table the prototype left behind.
   */
  function ParseDef(ts: seq<Token>, table: Table, pos: nat, asUsize: Num -> nat): (r: (Parsed<Ast.Function>, Table))
    requires pos < |ts|
    ensures r.0.Parsed? ==> pos < r.0.pos <= |ts| && r.0.value.body.Some? && !r.0.value.isAnon
    ensures r.1 == ParsePrototype(ts, table, pos + 1, asUsize).1
    ensures r.0.Parsed? ==>
              var p := ParsePrototype(ts, table, pos + 1, asUsize).0;
              p.Parsed? && r.0.value.proto == p.value && ParseExpr(ts, r.1, p.pos) == Parsed(r.0.value.body.value, r.0.pos)
  {
    var (proto, table') := ParsePrototype(ts, table, pos + 1, asUsize);
    match proto
      case Parsed(p, next) =>
        var body := ParseExpr(ts, table', next);
        (match body
          case Parsed(e, end) => Parsed(Ast.Function(p, Some(e), false), end)
          case Failed(msg) => Failed(msg)
          case Panicked => Panicked,
         table')
      case Failed(msg) => (Failed(msg), table')
      case Panicked => (Panicked, table')
  }

  /** `parse_extern`: a prototype with no body. */
  function ParseExtern(ts: seq<Token>, table: Table, pos: nat, asUsize: Num -> nat): (r: (Parsed<Ast.Function>, Table))
    requires pos < |ts|
    ensures r.0.Parsed? ==> pos < r.0.pos <= |ts| && r.0.value.body.None? && !r.0.value.isAnon
    ensures r.1 == ParsePrototype(ts, table, pos + 1, asUsize).1
    ensures var p := ParsePrototype(ts, table, pos + 1, asUsize).0;
            r.0.Parsed? <==> p.Parsed?
    ensures r.0.Parsed? ==>
              var p := ParsePrototype(ts, table, pos + 1, asUsize).0;
              r.0.value.proto == p.value && r.0.pos == p.pos
  {
    var (proto, table') := ParsePrototype(ts, table, pos + 1, asUsize);
    match proto
      case Parsed(p, next) => (Parsed(Ast.Function(p, None, false), next), table')
      case Failed(msg) => (Failed(msg), table')
      case Panicked => (Panicked, table')
  }

  /** `parse_toplevel_expr`: an expression wrapped in an anonymous, parameterless function. */
  function ParseTopLevel(ts: seq<Token>, table: Table, pos: nat, anonName: string): (r: Parsed<Ast.Function>)
    requires pos <= |ts|
    ensures r.Parsed? ==> pos < r.pos <= |ts|
    ensures r.Parsed? ==> r.value.isAnon && r.value.body.Some? && r.value.proto == Ast.Prototype(anonName, [], false, 0)
  {
    var e :- ParseExpr(ts, table, pos);
    Parsed(Ast.Function(Ast.Prototype(anonName, [], false, 0), Some(e.value), true), e.pos)
  }

  /**
   * `parse`: dispatch on the first token, then insist that every token was
   * consumed. The table is returned in every case, since a prototype may have
   * written it before failing.
   */
  function Parse(ts: seq<Token>, table: Table, anonName: string, asUsize: Num -> nat): (r: (Outcome<Ast.Function>, Table))
    ensures ts == [] ==> r == (Err(EndOfFile), table)
    ensures r.0.Ok? ==> ts != [] && (r.0.value.isAnon <==> !(ts[0].Def? || ts[0].Extern?))
    ensures r.0.Ok? ==> (r.0.value.body.None? <==> ts[0].Extern?)
    ensures r.0.Ok? && r.0.value.isAnon ==> r.0.value.proto == Ast.Prototype(anonName, [], false, 0)
  {
    if ts == [] then (Err(EndOfFile), table)
    else
      var (res, table') :=
        if ts[0].Def? then ParseDef(ts, table, 0, asUsize)
        else if ts[0].Extern? then ParseExtern(ts, table, 0, asUsize)
        else (ParseTopLevel(ts, table, 0, anonName), table);
      (Finish(ts, res), table')
  }

  /** The tail of `parse`: a successful parse must have reached the end of the tokens. */
  function Finish(ts: seq<Token>, res: Parsed<Ast.Function>): (r: Outcome<Ast.Function>)
    ensures r.Ok? <==> res.Parsed? && AtEnd(ts, res.pos)
    ensures r.Ok? ==> r.value == res.value
    ensures r.Panic? <==> res.Panicked?
  {
    match res
      case Parsed(f, p) => if AtEnd(ts, p) then Ok(f) else Err("Unexpected token after parsed expression.")
      case Failed(msg) => Err(msg)
      case Panicked => Panic
  }
}
