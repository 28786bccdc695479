/**
 * Precedence climbing (`parse_binary_expr`) on all inputs: when the operator
 * loop stops, how a chain of operators whose precedences never rise folds to
 * the left, and how an operator that binds tighter than the one before it
 * takes the rest of the chain as that operator's right operand.
 *
 * Operands are number literals, so each step of a chain is one operator
 * token and one number token.
 */
module ParserClimb {
  import opened Lexer
  import opened Parser
  import Ast
  import ParserProps
  import ParserRoundTrip
  import ParserDecls

  /** One step of a chain: an operator and the number after it. */
  datatype Link = Link(op: char, operand: Num)

  function ChainTokens(links: seq<Link>): (ts: seq<Token>)
    ensures |ts| == 2 * |links|
  {
    if links == [] then [] else [Op(links[0].op), Number(links[0].operand)] + ChainTokens(links[1..])
  }

  /** `left o1 n1 o2 n2 ...` grouped to the left: `((left o1 n1) o2 n2) ...`. */
  function FoldLeft(left: Ast.Expr, links: seq<Link>): (e: Ast.Expr)
    decreases |links|
  {
    if links == [] then left else FoldLeft(Ast.Binary(links[0].op, left, Ast.Number(links[0].operand)), links[1..])
  }

  /** The operator loop's exit test: no token left, or one that binds looser than `floor` (a non-operator counts as -1). */
  predicate StopsAt(ts: seq<Token>, table: Table, pos: nat, floor: int) {
    AtEnd(ts, pos) || TokenPrecedence(ts, table, pos) < floor
  }

  /** Each operator of the chain binds at least as tightly as `floor` and no looser than the operators after it. */
  predicate NonIncreasing(links: seq<Link>, table: Table, floor: int) {
    && (forall i :: 0 <= i < |links| ==> floor <= ParserProps.OpPrecedence(table, links[i].op))
    && (forall i, j :: 0 <= i < j < |links| ==>
          ParserProps.OpPrecedence(table, links[j].op) <= ParserProps.OpPrecedence(table, links[i].op))
  }

  /**
   * The loop returns its left operand untouched exactly when it stops at
   * once; otherwise it consumes at least an operator and an operand or fails.
   */
  lemma ClimbStops(ts: seq<Token>, table: Table, pos: nat, floor: int, left: Ast.Expr)
    requires pos <= |ts|
    ensures StopsAt(ts, table, pos, floor) ==> ParseBinary(ts, table, pos, floor, left) == Parsed(left, pos)
    ensures !StopsAt(ts, table, pos, floor) ==>
              var r := ParseBinary(ts, table, pos, floor, left);
              r.Parsed? ==> r.pos > pos + 1
  {
  }

  /** Where the first link of a printed chain sits. */
  lemma ChainSlices(ts: seq<Token>, pos: nat, links: seq<Link>, rest: seq<Token>)
    requires links != [] && pos <= |ts| && ts[pos..] == ChainTokens(links) + rest
    ensures pos + 2 <= |ts| && ts[pos] == Op(links[0].op) && ts[pos + 1] == Number(links[0].operand)
    ensures ts[pos + 2..] == ChainTokens(links[1..]) + rest
  {
    ParserDecls.DropPrefix(ts, pos, [Op(links[0].op), Number(links[0].operand)], ChainTokens(links[1..]), rest);
    assert ts[pos] == ts[pos..][0];
    assert ts[pos + 1] == ts[pos..][1];
  }

  /**
   * One turn of the loop on `o b`: the operator is taken, `b` is its right
   * operand unless the next operator binds tighter, in which case the
   * tighter run (climbed from `prec(o) + 1`) is, and the loop goes on from
   * there with the new left operand.
   */
  lemma OperandStep(ts: seq<Token>, table: Table, pos: nat, floor: int, left: Ast.Expr, o: char, b: Num, rhs: Ast.Expr, mid: nat)
    requires pos + 2 <= |ts| && ts[pos] == Op(o) && ts[pos + 1] == Number(b)
    requires floor <= ParserProps.OpPrecedence(table, o) && mid <= |ts|
    requires ParserProps.OpPrecedence(table, o) < TokenPrecedence(ts, table, pos + 2) ==>
               ParseBinary(ts, table, pos + 2, ParserProps.OpPrecedence(table, o) + 1, Ast.Number(b)) == Parsed(rhs, mid)
    requires TokenPrecedence(ts, table, pos + 2) <= ParserProps.OpPrecedence(table, o) ==>
               rhs == Ast.Number(b) && mid == pos + 2
    ensures ParseBinary(ts, table, pos, floor, left) == ParseBinary(ts, table, mid, floor, Ast.Binary(o, left, rhs))
  {
    ParserRoundTrip.NumberStep(ts, table, pos + 1, b);
  }

  /**
   * A chain whose operators' precedences never rise, all at or above
   * `floor`, followed by a stop for `floor`, parses to its left fold.
   */
  lemma {:induction false} ClimbChain(ts: seq<Token>, table: Table, pos: nat, floor: int, left: Ast.Expr, links: seq<Link>, rest: seq<Token>)
    requires pos <= |ts| && ts[pos..] == ChainTokens(links) + rest
    requires NonIncreasing(links, table, floor)
    requires StopsAt(ts, table, pos + 2 * |links|, floor)
    ensures ParseBinary(ts, table, pos, floor, left) == Parsed(FoldLeft(left, links), pos + 2 * |links|)
    decreases |links|
  {
    if links == [] {
      ClimbStops(ts, table, pos, floor, left);
    } else {
      var o := links[0].op;
      var b := links[0].operand;
      ChainSlices(ts, pos, links, rest);
      var step := Ast.Binary(o, left, Ast.Number(b));
      TailNonIncreasing(links, table, floor);
      NextDoesNotRise(ts, table, pos + 2, floor, links, rest);
      ClimbStops(ts, table, pos + 2, ParserProps.OpPrecedence(table, o) + 1, Ast.Number(b));
      OperandStep(ts, table, pos, floor, left, o, b, Ast.Number(b), pos + 2);
      ClimbChain(ts, table, pos + 2, floor, step, links[1..], rest);
    }
  }

  /** Dropping a chain's first link keeps its precedences non-increasing. */
  lemma TailNonIncreasing(links: seq<Link>, table: Table, floor: int)
    requires links != [] && NonIncreasing(links, table, floor)
    ensures NonIncreasing(links[1..], table, floor)
  {
    forall i | 0 <= i < |links[1..]| ensures floor <= ParserProps.OpPrecedence(table, links[1..][i].op) {
      assert links[1..][i] == links[i + 1];
    }
    forall i, j | 0 <= i < j < |links[1..]|
      ensures ParserProps.OpPrecedence(table, links[1..][j].op) <= ParserProps.OpPrecedence(table, links[1..][i].op)
    {
      assert links[1..][i] == links[i + 1] && links[1..][j] == links[j + 1];
    }
  }

  /** After a chain's first link, the next token ends the input or binds no tighter than that link's operator. */
  lemma NextDoesNotRise(ts: seq<Token>, table: Table, pos: nat, floor: int, links: seq<Link>, rest: seq<Token>)
    requires links != [] && pos <= |ts| && ts[pos..] == ChainTokens(links[1..]) + rest
    requires NonIncreasing(links, table, floor)
    requires StopsAt(ts, table, pos + 2 * (|links| - 1), floor)
    ensures AtEnd(ts, pos) || TokenPrecedence(ts, table, pos) <= ParserProps.OpPrecedence(table, links[0].op)
  {
    if |links| > 1 {
      ChainSlices(ts, pos, links[1..], rest);
      assert links[1..][0] == links[1];
      assert ParserProps.OpPrecedence(table, links[1].op) <= ParserProps.OpPrecedence(table, links[0].op);
    }
  }

  /** Where `o b` and the chain after it sit. */
  lemma LinkSlices(ts: seq<Token>, pos: nat, o: char, b: Num, links: seq<Link>, rest: seq<Token>)
    requires pos <= |ts| && ts[pos..] == [Op(o), Number(b)] + ChainTokens(links) + rest
    ensures pos + 2 <= |ts| && ts[pos] == Op(o) && ts[pos + 1] == Number(b)
    ensures ts[pos + 2..] == ChainTokens(links) + rest
  {
    ParserDecls.DropPrefix(ts, pos, [Op(o), Number(b)], ChainTokens(links), rest);
    assert ts[pos] == ts[pos..][0];
    assert ts[pos + 1] == ts[pos..][1];
  }

  /** A chain binding tighter than `p`, climbed from `p + 1` as the right operand `b o1 n1 ...`. */
  lemma ClimbRight(ts: seq<Token>, table: Table, pos: nat, p: int, b: Num, links: seq<Link>, rest: seq<Token>)
    requires pos <= |ts| && ts[pos..] == ChainTokens(links) + rest && links != []
    requires NonIncreasing(links, table, p + 1)
    requires StopsAt(ts, table, pos + 2 * |links|, p + 1)
    ensures p < TokenPrecedence(ts, table, pos)
    ensures ParseBinary(ts, table, pos, p + 1, Ast.Number(b)) == Parsed(FoldLeft(Ast.Number(b), links), pos + 2 * |links|)
  {
    ChainSlices(ts, pos, links, rest);
    ClimbChain(ts, table, pos, p + 1, Ast.Number(b), links, rest);
  }

  /**
   * An operator `o` followed by `b` and a chain that binds strictly tighter
   * than `o`: the chain is climbed from `prec(o) + 1` and becomes `o`'s
   * right operand, `left o (b o1 n1 o2 n2 ...)`.
   */
  lemma {:induction false} ClimbAbsorbs(ts: seq<Token>, table: Table, pos: nat, floor: int, left: Ast.Expr, o: char, b: Num, links: seq<Link>, rest: seq<Token>)
    requires pos <= |ts| && ts[pos..] == [Op(o), Number(b)] + ChainTokens(links) + rest
    requires links != [] && floor <= ParserProps.OpPrecedence(table, o)
    requires NonIncreasing(links, table, ParserProps.OpPrecedence(table, o) + 1)
    requires StopsAt(ts, table, pos + 2 + 2 * |links|, floor)
    ensures ParseBinary(ts, table, pos, floor, left) ==
              Parsed(Ast.Binary(o, left, FoldLeft(Ast.Number(b), links)), pos + 2 + 2 * |links|)
  {
    var end := pos + 2 + 2 * |links|;
    var rhs := FoldLeft(Ast.Number(b), links);
    LinkSlices(ts, pos, o, b, links, rest);
    ClimbRight(ts, table, pos + 2, ParserProps.OpPrecedence(table, o), b, links, rest);
    OperandStep(ts, table, pos, floor, left, o, b, rhs, end);
    ClimbStops(ts, table, end, floor, Ast.Binary(o, left, rhs));
  }

  /** Where the first operand of an expression sits. */
  lemma OperandSlices(ts: seq<Token>, pos: nat, a: Num, tail: seq<Token>, rest: seq<Token>)
    requires pos < |ts| && ts[pos..] == [Number(a)] + tail + rest
    ensures pos + 1 + |tail| <= |ts| && ts[pos] == Number(a) && ts[pos + 1..] == tail + rest
  {
    ParserDecls.DropPrefix(ts, pos, [Number(a)], tail, rest);
    assert ts[pos] == ts[pos..][0];
  }

  /**
   * Hence a whole expression `a o1 n1 o2 n2 ...` whose operators' precedences
   * are non-negative and never rise (in particular, all equal) groups to the left.
   */
  lemma ExprFoldsLeft(ts: seq<Token>, table: Table, pos: nat, a: Num, links: seq<Link>, rest: seq<Token>)
    requires pos < |ts| && ts[pos..] == [Number(a)] + ChainTokens(links) + rest
    requires NonIncreasing(links, table, 0)
    requires StopsAt(ts, table, pos + 1 + 2 * |links|, 0)
    ensures ParseExpr(ts, table, pos) == Parsed(FoldLeft(Ast.Number(a), links), pos + 1 + 2 * |links|)
  {
    OperandSlices(ts, pos, a, ChainTokens(links), rest);
    ParserRoundTrip.NumberStep(ts, table, pos, a);
    ClimbChain(ts, table, pos + 1, 0, Ast.Number(a), links, rest);
    ParserRoundTrip.ExprStep(ts, table, pos, Ast.Number(a), pos + 1, FoldLeft(Ast.Number(a), links), pos + 1 + 2 * |links|);
  }

  /** `a o b o1 n1 ...` with the chain binding tighter than `o` parses to `a o (b o1 n1 ...)`. */
  lemma {:induction false} ExprAbsorbs(ts: seq<Token>, table: Table, pos: nat, a: Num, o: char, b: Num, links: seq<Link>, rest: seq<Token>)
    requires pos < |ts| && ts[pos..] == [Number(a)] + ([Op(o), Number(b)] + ChainTokens(links)) + rest
    requires links != [] && 0 <= ParserProps.OpPrecedence(table, o)
    requires NonIncreasing(links, table, ParserProps.OpPrecedence(table, o) + 1)
    requires StopsAt(ts, table, pos + 3 + 2 * |links|, 0)
    ensures ParseExpr(ts, table, pos) ==
              Parsed(Ast.Binary(o, Ast.Number(a), FoldLeft(Ast.Number(b), links)), pos + 3 + 2 * |links|)
  {
    var e := Ast.Binary(o, Ast.Number(a), FoldLeft(Ast.Number(b), links));
    OperandSlices(ts, pos, a, [Op(o), Number(b)] + ChainTokens(links), rest);
    assert ts[pos + 1..] == [Op(o), Number(b)] + ChainTokens(links) + rest;
    ParserRoundTrip.NumberStep(ts, table, pos, a);
    ClimbAbsorbs(ts, table, pos + 1, 0, Ast.Number(a), o, b, links, rest);
    ParserRoundTrip.ExprStep(ts, table, pos, Ast.Number(a), pos + 1, e, pos + 3 + 2 * |links|);
  }
}
