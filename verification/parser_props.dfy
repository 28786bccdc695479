/**
 * Properties of the parser: the observable quirks of identifiers and calls,
 * how prototypes write the precedence table, precedence climbing on three
 * operands, and why `if` never parses from lexed text.
 */
module ParserProps {
  import opened Options
  import opened Lexer
  import opened Parser
  import Ast

  /** The table entry an operator character is climbed with. */
  function OpPrecedence(table: Table, op: char): int {
    if op in table then table[op] else 100
  }

  predicate IsI32Table(table: Table) {
    forall c :: c in table ==> -0x8000_0000 <= table[c] < 0x8000_0000
  }

  // ------------------------------------------------------------ identifiers

  /** `name()` builds an empty call at the `)` and leaves the `)` for whatever comes next. */
  lemma EmptyCallLeavesParen(ts: seq<Token>, table: Table, pos: nat, f: string)
    requires pos + 2 < |ts|
    requires ts[pos] == Ident(f) && ts[pos + 1] == LParen && ts[pos + 2] == RParen
    ensures ParseExpr(ts, table, pos) == Parsed(Ast.Call(f, []), pos + 2)
  {
    assert ParseIdentifier(ts, table, pos) == Parsed(Ast.Call(f, []), pos + 2);
    assert ParseUnary(ts, table, pos) == Parsed(Ast.Call(f, []), pos + 2);
    assert ParseBinary(ts, table, pos + 2, 0, Ast.Call(f, [])) == Parsed(Ast.Call(f, []), pos + 2);
  }

  /** Hence `name()` on its own is rejected as trailing garbage. */
  lemma EmptyCallRejected(f: string, table: Table, anonName: string, asUsize: Num -> nat)
    ensures Parse([Ident(f), LParen, RParen], table, anonName, asUsize) ==
            (Err("Unexpected token after parsed expression."), table)
  {
    EmptyCallLeavesParen([Ident(f), LParen, RParen], table, 0, f);
  }

  /** A call with arguments consumes its closing `)`. */
  lemma CallConsumesParen(f: string, n: Num, table: Table, anonName: string, asUsize: Num -> nat)
    ensures Parse([Ident(f), LParen, Number(n), RParen], table, anonName, asUsize) ==
            (Ok(Ast.Function(Ast.Prototype(anonName, [], false, 0), Some(Ast.Call(f, [Ast.Number(n)])), true)), table)
  {
    var ts := [Ident(f), LParen, Number(n), RParen];
    assert ParseUnary(ts, table, 2) == Parsed(Ast.Number(n), 3);
    assert ParseBinary(ts, table, 3, 0, Ast.Number(n)) == Parsed(Ast.Number(n), 3);
    assert ParseExpr(ts, table, 2) == Parsed(Ast.Number(n), 3);
    assert ParseArgs(ts, table, 2) == Parsed([Ast.Number(n)], 3);
    assert ParseIdentifier(ts, table, 0) == Parsed(Ast.Call(f, [Ast.Number(n)]), 4);
    assert ParsePrimary(ts, table, 0) == Parsed(Ast.Call(f, [Ast.Number(n)]), 4);
    assert ParseExpr(ts, table, 0) == Parsed(Ast.Call(f, [Ast.Number(n)]), 4);
  }

  /** An identifier that is the last token is a variable, whatever precedes it. */
  lemma LastIdentifierIsVariable(ts: seq<Token>, table: Table, name: string)
    requires |ts| > 0 && ts[|ts| - 1] == Ident(name)
    ensures ParseExpr(ts, table, |ts| - 1) == Parsed(Ast.Variable(name), |ts|)
  {
    assert ParseIdentifier(ts, table, |ts| - 1) == Parsed(Ast.Variable(name), |ts|);
    assert ParsePrimary(ts, table, |ts| - 1) == Parsed(Ast.Variable(name), |ts|);
    assert ParseUnary(ts, table, |ts| - 1) == Parsed(Ast.Variable(name), |ts|);
  }

  // ------------------------------------------------------------ prototypes

  /** `def f(a b)`: two parameters without a comma between them. */
  lemma MissingCommaRejected(f: string, a: string, b: string, table: Table, anonName: string, asUsize: Num -> nat)
    ensures Parse([Def, Ident(f), LParen, Ident(a), Ident(b), RParen], table, anonName, asUsize) ==
            (Err("Expected ',' or ')' character in prototype declaration."), table)
  {
    var ts := [Def, Ident(f), LParen, Ident(a), Ident(b), RParen];
    var msg := "Expected ',' or ')' character in prototype declaration.";
    assert ParseParams(ts, 3) == Failed(msg);
    assert ParseHead(ts, table, 1, asUsize) == (Parsed(Head(f, false, 0), 2), table);
    assert ParseSignature(ts, 2, Head(f, false, 0)) == Failed(msg);
    assert ParsePrototype(ts, table, 1, asUsize) == (Failed(msg), table);
    assert ParseDef(ts, table, 0, asUsize) == (Failed(msg), table);
  }

  /** `def f(a,`: the unchecked step over a comma that ends the input makes the next read panic. */
  lemma TrailingCommaPanics(f: string, a: string, table: Table, anonName: string, asUsize: Num -> nat)
    ensures Parse([Def, Ident(f), LParen, Ident(a), Comma], table, anonName, asUsize) == (Panic, table)
  {
    var ts := [Def, Ident(f), LParen, Ident(a), Comma];
    assert ParseParams(ts, 5) == Panicked;
    assert ParseParams(ts, 3) == Panicked;
    assert ParseHead(ts, table, 1, asUsize) == (Parsed(Head(f, false, 0), 2), table);
    assert ParseSignature(ts, 2, Head(f, false, 0)) == Panicked;
    assert ParsePrototype(ts, table, 1, asUsize) == (Panicked, table);
    assert ParseDef(ts, table, 0, asUsize) == (Panicked, table);
  }

  /** `def` alone: the unchecked step over `def` makes the prototype's first read panic. */
  lemma LoneDefPanics(table: Table, anonName: string, asUsize: Num -> nat)
    ensures Parse([Def], table, anonName, asUsize) == (Panic, table)
  {
  }

  /**
   * `def binary op n t` with `t` not `(`: the declaration fails, but the
   * operator's precedence has already been written into the table.
   */
  lemma BinaryDeclWritesTableFirst(op: char, n: Num, t: Token, table: Table, anonName: string, asUsize: Num -> nat)
    requires !t.LParen?
    ensures Parse([Def, Binary, Op(op), Number(n), t], table, anonName, asUsize) ==
            (Err("Expected '(' character in prototype declaration."), table[op := AsI32(asUsize(n))])
  {
  }

  /**
   * Only a binary operator declaration writes the table, and it writes only
   * that operator's entry: everything else parses against an unchanged table.
   */
  lemma TableWrites(ts: seq<Token>, table: Table, anonName: string, asUsize: Num -> nat)
    ensures var t' := Parse(ts, table, anonName, asUsize).1;
      || t' == table
      || (&& |ts| > 2 && (ts[0].Def? || ts[0].Extern?) && ts[1].Binary? && ts[2].Op?
          && t' == table[ts[2].ch := t'[ts[2].ch]])
  {
    if ts != [] && (ts[0].Def? || ts[0].Extern?) {
      var h := ParseHead(ts, table, 1, asUsize);
      assert Parse(ts, table, anonName, asUsize).1 == h.1;
    }
  }

  /** The table keeps every entry within `i32`: a declared precedence is wrapped on the way in. */
  lemma ParseKeepsI32(ts: seq<Token>, table: Table, anonName: string, asUsize: Num -> nat)
    requires IsI32Table(table)
    ensures IsI32Table(Parse(ts, table, anonName, asUsize).1)
  {
    TableWrites(ts, table, anonName, asUsize);
    if ts != [] && (ts[0].Def? || ts[0].Extern?) {
      var h := ParseHead(ts, table, 1, asUsize);
      assert Parse(ts, table, anonName, asUsize).1 == h.1;
    }
  }

  // ------------------------------------------------------------ precedence climbing

  /** `a o1 b o2 c` with `o1` binding at least as tightly: the operators associate to the left. */
  lemma ClimbLeft(a: Num, b: Num, c: Num, o1: char, o2: char, table: Table)
    requires OpPrecedence(table, o1) >= OpPrecedence(table, o2) >= 0
    ensures ParseExpr([Number(a), Op(o1), Number(b), Op(o2), Number(c)], table, 0) ==
            Parsed(Ast.Binary(o2, Ast.Binary(o1, Ast.Number(a), Ast.Number(b)), Ast.Number(c)), 5)
  {
    var ts := [Number(a), Op(o1), Number(b), Op(o2), Number(c)];
    var left := Ast.Binary(o1, Ast.Number(a), Ast.Number(b));
    assert ParseUnary(ts, table, 0) == Parsed(Ast.Number(a), 1);
    assert ParseUnary(ts, table, 2) == Parsed(Ast.Number(b), 3);
    assert ParseUnary(ts, table, 4) == Parsed(Ast.Number(c), 5);
    assert ParseBinary(ts, table, 5, 0, Ast.Binary(o2, left, Ast.Number(c))) == Parsed(Ast.Binary(o2, left, Ast.Number(c)), 5);
    assert ParseBinary(ts, table, 3, 0, left) == Parsed(Ast.Binary(o2, left, Ast.Number(c)), 5);
    assert ParseBinary(ts, table, 1, 0, Ast.Number(a)) == Parsed(Ast.Binary(o2, left, Ast.Number(c)), 5);
  }

  /** `a o1 b o2 c` with `o2` binding strictly tighter: `b o2 c` becomes the right operand of `o1`. */
  lemma ClimbRight(a: Num, b: Num, c: Num, o1: char, o2: char, table: Table)
    requires OpPrecedence(table, o2) > OpPrecedence(table, o1) >= 0
    ensures ParseExpr([Number(a), Op(o1), Number(b), Op(o2), Number(c)], table, 0) ==
            Parsed(Ast.Binary(o1, Ast.Number(a), Ast.Binary(o2, Ast.Number(b), Ast.Number(c))), 5)
  {
    var ts := [Number(a), Op(o1), Number(b), Op(o2), Number(c)];
    var p1 := OpPrecedence(table, o1);
    var right := Ast.Binary(o2, Ast.Number(b), Ast.Number(c));
    var whole := Ast.Binary(o1, Ast.Number(a), right);
    assert ParseUnary(ts, table, 0) == Parsed(Ast.Number(a), 1);
    assert ParseUnary(ts, table, 2) == Parsed(Ast.Number(b), 3);
    assert ParseUnary(ts, table, 4) == Parsed(Ast.Number(c), 5);
    assert ParseBinary(ts, table, 5, p1 + 1, right) == Parsed(right, 5);
    assert ParseBinary(ts, table, 3, p1 + 1, Ast.Number(b)) == Parsed(right, 5);
    assert ParseBinary(ts, table, 5, 0, whole) == Parsed(whole, 5);
    assert ParseBinary(ts, table, 1, 0, Ast.Number(a)) == Parsed(whole, 5);
  }

  /** An operator whose table entry is negative is never taken: `a o b` stops after `a` and is rejected. */
  lemma NegativePrecedenceRejected(a: Num, b: Num, o: char, table: Table, anonName: string, asUsize: Num -> nat)
    requires OpPrecedence(table, o) < 0
    ensures ParseExpr([Number(a), Op(o), Number(b)], table, 0) == Parsed(Ast.Number(a), 1)
    ensures Parse([Number(a), Op(o), Number(b)], table, anonName, asUsize) ==
            (Err("Unexpected token after parsed expression."), table)
  {
    var ts := [Number(a), Op(o), Number(b)];
    assert ParseUnary(ts, table, 0) == Parsed(Ast.Number(a), 1);
    assert ParseBinary(ts, table, 1, 0, Ast.Number(a)) == Parsed(Ast.Number(a), 1);
  }

  // ------------------------------------------------------------ conditionals

  /** A conditional parses only if a `Then` token follows its `if`. */
  lemma ConditionalNeedsThen(ts: seq<Token>, table: Table, pos: nat)
    requires pos <= |ts|
    ensures ParseConditional(ts, table, pos).Parsed? ==> exists k :: pos < k < |ts| && ts[k] == Then
  {
    if ParseConditional(ts, table, pos).Parsed? {
      var cond := ParseExpr(ts, table, pos + 1);
      assert ts[cond.pos] == Then;
    }
  }

  /** The lexer never produces `Then`, so an `if` expression from source text never parses. */
  lemma IfNeverParses(s: string, ts: seq<Token>, table: Table, pos: nat)
    requires IsAscii(s) && Tokenize(s) == Tokens(ts)
    requires pos < |ts| && ts[pos] == If
    ensures !ParseExpr(ts, table, pos).Parsed?
  {
    ConditionalNeedsThen(ts, table, pos);
    assert ParseUnary(ts, table, pos) == ParseConditional(ts, table, pos);
  }
}
