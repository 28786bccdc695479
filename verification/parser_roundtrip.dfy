/**
 * A printer from expressions back to tokens, and the theorem that the
 * expression parser reads every printed expression back exactly.
 *
 * The printer wraps every compound operand of a binary or prefix operator in
 * parentheses, so the parse does not depend on how tightly operators bind;
 * what the theorem exercises is every expression form of the parser, the
 * prefix-operator encoding of unary calls, argument and binding lists, and
 * the end-of-expression rules (what may follow an expression).
 *
 * Three expression shapes have no printed form that parses back to them,
 * because of the parser itself: a call with no arguments (`name()` leaves
 * its `)` behind), a `var..in` with no bindings, and a binary operator whose
 * table entry is negative (it is never taken). `WellFormed` excludes them.
 */
module ParserRoundTrip {
  import opened Options
  import opened Lexer
  import opened Parser
  import Ast
  import ParserProps

  // ---------------------------------------------------------------- printing

  /** Tokens an expression can start with. */
  predicate StartsExpr(t: Token) {
    t.Number? || t.Ident? || t.Op? || t.LParen? || t.If? || t.For? || t.Var?
  }

  /** Tokens that may follow a complete expression: they stop both the operand and the operator loop. */
  predicate EndsExpr(rest: seq<Token>) {
    rest == [] || (!rest[0].Op? && !rest[0].LParen?)
  }

  /** What may follow an operand of a binary or prefix operator. */
  predicate EndsOperand(rest: seq<Token>) {
    rest == [] || !rest[0].LParen?
  }

  /** The call shape a prefix operator parses to: `unary` + the operator, one argument. */
  predicate IsUnaryCall(e: Ast.Expr) {
    e.Call? && |e.args| == 1 && |e.callee| == 6 && e.callee[..5] == "unary"
  }

  /** Expressions printed without surrounding parentheses when they are operands. */
  predicate IsAtom(e: Ast.Expr) {
    e.Number? || e.Variable? || e.Call?
  }

  /** An operand as printed: in parentheses unless it is an atom. */
  function Wrap(e: Ast.Expr, p: seq<Token>): (w: seq<Token>)
    requires |p| > 0 && StartsExpr(p[0])
    ensures |w| > 0 && StartsExpr(w[0])
  {
    if IsAtom(e) then p else [LParen] + p + [RParen]
  }

  function Print(e: Ast.Expr): (p: seq<Token>)
    ensures |p| > 0 && StartsExpr(p[0])
    decreases e
  {
    match e
    case Number(n) => [Number(n)]
    case Variable(x) => [Ident(x)]
    case Call(f, args) =>
      if IsUnaryCall(e) then [Op(f[5])] + Wrap(args[0], Print(args[0]))
      else [Ident(f), LParen] + PrintArgs(args) + [RParen]
    case Binary(op, l, r) => Wrap(l, Print(l)) + [Op(op)] + Wrap(r, Print(r))
    case Conditional(c, a, b) => [If] + Print(c) + [Then] + Print(a) + [Else] + Print(b)
    case For(v, s, en, step, body) =>
      [For, Ident(v), Op('=')] + Print(s) + [Comma] + Print(en) + PrintStep(step) + [In] + Print(body)
    case VarIn(bs, body) => [Var] + PrintBindings(bs) + [In] + Print(body)
  }

  function PrintArgs(args: seq<Ast.Expr>): seq<Token>
    decreases args
  {
    if args == [] then []
    else if |args| == 1 then Print(args[0])
    else Print(args[0]) + [Comma] + PrintArgs(args[1..])
  }

  function PrintStep(step: Option<Ast.Expr>): seq<Token>
    decreases step
  {
    match step
    case None => []
    case Some(x) => [Comma] + Print(x)
  }

  function PrintInit(init: Option<Ast.Expr>): seq<Token>
    decreases init
  {
    match init
    case None => []
    case Some(x) => [Op('=')] + Print(x)
  }

  function PrintBindings(bs: seq<Ast.Binding>): seq<Token>
    decreases bs
  {
    if bs == [] then []
    else
      var first := [Ident(bs[0].name)] + PrintInit(bs[0].init);
      if |bs| == 1 then first else first + [Comma] + PrintBindings(bs[1..])
  }

  /** The shapes the printer can round-trip: see the module comment. */
  predicate WellFormed(e: Ast.Expr, table: Table)
    decreases e
  {
    match e
    case Number(_) => true
    case Variable(_) => true
    case Call(_, args) => (IsUnaryCall(e) || |args| > 0) && ArgsWellFormed(args, table)
    case Binary(op, l, r) =>
      ParserProps.OpPrecedence(table, op) >= 0 && WellFormed(l, table) && WellFormed(r, table)
    case Conditional(c, a, b) => WellFormed(c, table) && WellFormed(a, table) && WellFormed(b, table)
    case For(_, s, en, step, body) =>
      && WellFormed(s, table) && WellFormed(en, table) && WellFormed(body, table)
      && (step.Some? ==> WellFormed(step.value, table))
    case VarIn(bs, body) => |bs| > 0 && BindingsWellFormed(bs, table) && WellFormed(body, table)
  }

  predicate ArgsWellFormed(args: seq<Ast.Expr>, table: Table)
    decreases args
  {
    args == [] || (WellFormed(args[0], table) && ArgsWellFormed(args[1..], table))
  }

  predicate BindingsWellFormed(bs: seq<Ast.Binding>, table: Table)
    decreases bs
  {
    || bs == []
    || (&& (bs[0].init.Some? ==> WellFormed(bs[0].init.value, table))
        && BindingsWellFormed(bs[1..], table))
  }

  // ---------------------------------------------------------------- token layout
  //
  // Where the pieces of one printed form lie in the token sequence. These
  // lemmas know nothing about printing or parsing.

  lemma Assoc3<T>(a: seq<T>, b: seq<T>, c: seq<T>)
    ensures a + b + c == a + (b + c)
  {
  }

  lemma Assoc4<T>(a: seq<T>, b: seq<T>, c: seq<T>, d: seq<T>)
    ensures a + b + c + d == a + (b + (c + d))
  {
  }

  lemma Assoc5<T>(a: seq<T>, b: seq<T>, c: seq<T>, d: seq<T>, e: seq<T>)
    ensures a + b + c + d + e == a + (b + (c + (d + e)))
  {
  }

  lemma Assoc7<T>(a: seq<T>, b: seq<T>, c: seq<T>, d: seq<T>, e: seq<T>, f: seq<T>, g: seq<T>)
    ensures a + b + c + d + e + f + g == a + (b + (c + (d + (e + (f + g)))))
  {
  }

  lemma Assoc8<T>(a: seq<T>, b: seq<T>, c: seq<T>, d: seq<T>, e: seq<T>, f: seq<T>, g: seq<T>, h: seq<T>)
    ensures a + b + c + d + e + f + g + h == a + (b + (c + (d + (e + (f + (g + h))))))
  {
  }

  lemma Slice(ts: seq<Token>, pos: nat, a: seq<Token>, b: seq<Token>, end: nat)
    requires pos <= |ts| && ts[pos..] == a + b && end == pos + |a|
    ensures end <= |ts| && ts[end..] == b
  {
    assert ts[pos..][|a|..] == b;
  }

  lemma Head(ts: seq<Token>, pos: nat, t: Token, b: seq<Token>, next: nat)
    requires pos <= |ts| && ts[pos..] == [t] + b && next == pos + 1
    ensures pos < |ts| && ts[pos] == t && ts[next..] == b
  {
    assert ts[pos..][0] == t;
    Slice(ts, pos, [t], b, next);
  }

  /** `x t y`, as in a binary operation or an argument followed by a comma. */
  lemma LayoutInfix(ts: seq<Token>, pos: nat, x: seq<Token>, t: Token, y: seq<Token>, rest: seq<Token>, mid: nat, next: nat)
    requires pos <= |ts| && ts[pos..] == x + [t] + y + rest
    requires mid == pos + |x| && next == mid + 1
    ensures ts[pos..] == x + ([t] + (y + rest))
    ensures mid < |ts| && ts[mid] == t && ts[next..] == y + rest
  {
    Assoc4(x, [t], y, rest);
    Slice(ts, pos, x, [t] + (y + rest), mid);
    Head(ts, mid, t, y + rest, next);
  }

  /** `t x u`, as in a parenthesized operand. */
  lemma LayoutAround(ts: seq<Token>, pos: nat, t: Token, x: seq<Token>, u: Token, rest: seq<Token>, start: nat, mid: nat, next: nat)
    requires pos <= |ts| && ts[pos..] == [t] + x + [u] + rest
    requires start == pos + 1 && mid == start + |x| && next == mid + 1
    ensures pos < |ts| && ts[pos] == t && ts[start..] == x + ([u] + rest)
    ensures mid < |ts| && ts[mid] == u && ts[next..] == rest
  {
    Assoc4([t], x, [u], rest);
    Head(ts, pos, t, x + ([u] + rest), start);
    Slice(ts, start, x, [u] + rest, mid);
    Head(ts, mid, u, rest, next);
  }

  /** `t x`, as in a prefix operator. */
  lemma LayoutPrefix(ts: seq<Token>, pos: nat, t: Token, x: seq<Token>, rest: seq<Token>, start: nat)
    requires pos <= |ts| && ts[pos..] == [t] + x + rest && start == pos + 1
    ensures pos < |ts| && ts[pos] == t && ts[start..] == x + rest
  {
    Assoc3([t], x, rest);
    Head(ts, pos, t, x + rest, start);
  }

  /** `name ( args )`. */
  lemma LayoutCall(ts: seq<Token>, pos: nat, f: string, x: seq<Token>, rest: seq<Token>, start: nat)
    requires pos <= |ts| && ts[pos..] == [Ident(f), LParen] + x + [RParen] + rest && start == pos + 2
    ensures start <= |ts| && ts[pos] == Ident(f) && ts[pos + 1] == LParen
    ensures ts[start..] == x + ([RParen] + rest)
  {
    var r := x + ([RParen] + rest);
    Assoc4([Ident(f), LParen], x, [RParen], rest);
    assert [Ident(f), LParen] + r == [Ident(f)] + ([LParen] + r);
    Head(ts, pos, Ident(f), [LParen] + r, pos + 1);
    Head(ts, pos + 1, LParen, r, start);
  }

  /** `if c then a else b`. */
  lemma LayoutConditional(ts: seq<Token>, pos: nat, c: seq<Token>, a: seq<Token>, b: seq<Token>, rest: seq<Token>,
                          start: nat, p1: nat, q1: nat, p2: nat, q2: nat)
    requires pos <= |ts| && ts[pos..] == [If] + c + [Then] + a + [Else] + b + rest
    requires start == pos + 1 && p1 == start + |c| && q1 == p1 + 1 && p2 == q1 + |a| && q2 == p2 + 1
    ensures pos < |ts| && ts[pos] == If && ts[start..] == c + ([Then] + (a + ([Else] + (b + rest))))
    ensures p1 < |ts| && ts[p1] == Then && ts[q1..] == a + ([Else] + (b + rest))
    ensures p2 < |ts| && ts[p2] == Else && ts[q2..] == b + rest
  {
    Assoc7([If], c, [Then], a, [Else], b, rest);
    Head(ts, pos, If, c + ([Then] + (a + ([Else] + (b + rest)))), start);
    Slice(ts, start, c, [Then] + (a + ([Else] + (b + rest))), p1);
    Head(ts, p1, Then, a + ([Else] + (b + rest)), q1);
    Slice(ts, q1, a, [Else] + (b + rest), p2);
    Head(ts, p2, Else, b + rest, q2);
  }

  /** The fixed start of a `for` loop: `for v =`. */
  lemma LayoutForHead(ts: seq<Token>, pos: nat, v: string, x: seq<Token>, start: nat)
    requires pos <= |ts| && ts[pos..] == [For, Ident(v), Op('=')] + x && start == pos + 3
    ensures pos + 2 < |ts| && ts[pos] == For && ts[pos + 1] == Ident(v) && ts[pos + 2] == Op('=')
    ensures ts[start..] == x
  {
    assert [For, Ident(v), Op('=')] + x == [For] + ([Ident(v)] + ([Op('=')] + x));
    Head(ts, pos, For, [Ident(v)] + ([Op('=')] + x), pos + 1);
    Head(ts, pos + 1, Ident(v), [Op('=')] + x, pos + 2);
    Head(ts, pos + 2, Op('='), x, start);
  }

  /** `for v = s, e <step> in b`. */
  lemma LayoutFor(ts: seq<Token>, pos: nat, v: string, s: seq<Token>, e: seq<Token>, st: seq<Token>, b: seq<Token>, rest: seq<Token>,
                  start: nat, p1: nat, q1: nat, p2: nat, p3: nat, q3: nat)
    requires pos <= |ts| && ts[pos..] == [For, Ident(v), Op('=')] + s + [Comma] + e + st + [In] + b + rest
    requires start == pos + 3 && p1 == start + |s| && q1 == p1 + 1 && p2 == q1 + |e| && p3 == p2 + |st| && q3 == p3 + 1
    ensures pos + 2 < |ts| && ts[pos] == For && ts[pos + 1] == Ident(v) && ts[pos + 2] == Op('=')
    ensures ts[start..] == s + ([Comma] + (e + (st + ([In] + (b + rest)))))
    ensures p1 < |ts| && ts[p1] == Comma && ts[q1..] == e + (st + ([In] + (b + rest)))
    ensures ts[p2..] == st + ([In] + (b + rest))
    ensures p3 < |ts| && ts[p3] == In && ts[q3..] == b + rest
  {
    var r3 := [In] + (b + rest);
    var r2 := st + r3;
    var r1 := [Comma] + (e + r2);
    Assoc8([For, Ident(v), Op('=')], s, [Comma], e, st, [In], b, rest);
    LayoutForHead(ts, pos, v, s + r1, start);
    Slice(ts, start, s, r1, p1);
    Head(ts, p1, Comma, e + r2, q1);
    Slice(ts, q1, e, r2, p2);
    Slice(ts, p2, st, r3, p3);
    Head(ts, p3, In, b + rest, q3);
  }

  /** The layout of a printed `for` loop, in terms of its parts. */
  lemma LayoutLoop(ts: seq<Token>, pos: nat, e: Ast.Expr, rest: seq<Token>, start: nat, p1: nat, q1: nat, p2: nat, p3: nat, q3: nat)
    requires e.For? && pos <= |ts| && ts[pos..] == Print(e) + rest
    requires start == pos + 3 && p1 == start + |Print(e.start)| && q1 == p1 + 1
    requires p2 == q1 + |Print(e.end)| && p3 == p2 + |PrintStep(e.step)| && q3 == p3 + 1
    ensures pos + 2 < |ts| && ts[pos] == For && ts[pos + 1] == Ident(e.varName) && ts[pos + 2] == Op('=')
    ensures ts[start..] == Print(e.start) + ([Comma] + (Print(e.end) + (PrintStep(e.step) + ([In] + (Print(e.body) + rest)))))
    ensures p1 < |ts| && ts[p1] == Comma
    ensures ts[q1..] == Print(e.end) + (PrintStep(e.step) + ([In] + (Print(e.body) + rest)))
  {
    var ps, pe, pst, pb := Print(e.start), Print(e.end), PrintStep(e.step), Print(e.body);
    assert Print(e) == [For, Ident(e.varName), Op('=')] + ps + [Comma] + pe + pst + [In] + pb;
    LayoutFor(ts, pos, e.varName, ps, pe, pst, pb, rest, start, p1, q1, p2, p3, q3);
  }

  /** `var bindings in b`. */
  lemma LayoutVarIn(ts: seq<Token>, pos: nat, bs: seq<Token>, b: seq<Token>, rest: seq<Token>, start: nat, mid: nat, next: nat)
    requires pos <= |ts| && ts[pos..] == [Var] + bs + [In] + b + rest
    requires start == pos + 1 && mid == start + |bs| && next == mid + 1
    ensures pos < |ts| && ts[pos] == Var && ts[start..] == bs + ([In] + (b + rest))
    ensures mid < |ts| && ts[mid] == In && ts[next..] == b + rest
  {
    Assoc5([Var], bs, [In], b, rest);
    Head(ts, pos, Var, bs + ([In] + (b + rest)), start);
    Slice(ts, start, bs, [In] + (b + rest), mid);
    Head(ts, mid, In, b + rest, next);
  }

  /** A binding, a comma, and the remaining bindings. */
  lemma LayoutBindings(ts: seq<Token>, pos: nat, n: string, x: seq<Token>, y: seq<Token>, rest: seq<Token>, start: nat, mid: nat, next: nat)
    requires pos <= |ts| && ts[pos..] == [Ident(n)] + x + [Comma] + y + rest
    requires start == pos + 1 && mid == start + |x| && next == mid + 1
    ensures pos < |ts| && ts[pos] == Ident(n) && ts[start..] == x + ([Comma] + (y + rest))
    ensures mid < |ts| && ts[mid] == Comma && ts[next..] == y + rest
  {
    Assoc5([Ident(n)], x, [Comma], y, rest);
    Head(ts, pos, Ident(n), x + ([Comma] + (y + rest)), start);
    Slice(ts, start, x, [Comma] + (y + rest), mid);
    Head(ts, mid, Comma, y + rest, next);
  }

  // ---------------------------------------------------------------- one parser step each
  //
  // Each lemma unfolds one parse function, given what its sub-parses return.
  // Positions are separate parameters, so that callers pass the very terms
  // their sub-lemmas produced.

  /** At a token that ends an expression the operator loop returns its left operand. */
  lemma BinaryStops(ts: seq<Token>, table: Table, pos: nat, floor: int, left: Ast.Expr)
    requires pos <= |ts| && EndsExpr(ts[pos..]) && floor >= 0
    ensures ParseBinary(ts, table, pos, floor, left) == Parsed(left, pos)
  {
    if pos < |ts| {
      assert ts[pos..][0] == ts[pos];
    }
  }

  /** One operator with a non-negative table entry, its operand, then the end of the expression. */
  lemma BinaryStep(ts: seq<Token>, table: Table, pos: nat, next: nat, op: char, left: Ast.Expr, right: Ast.Expr, end: nat)
    requires next == pos + 1 && next < |ts| && ts[pos] == Op(op) && ParserProps.OpPrecedence(table, op) >= 0
    requires ParseUnary(ts, table, next) == Parsed(right, end)
    requires EndsExpr(ts[end..])
    ensures ParseBinary(ts, table, pos, 0, left) == Parsed(Ast.Binary(op, left, right), end)
  {
    BinaryStops(ts, table, end, 0, Ast.Binary(op, left, right));
    if end < |ts| {
      assert ts[end..][0] == ts[end];
    }
  }

  /** An operand followed by the operator loop. */
  lemma ExprStep(ts: seq<Token>, table: Table, pos: nat, left: Ast.Expr, mid: nat, e: Ast.Expr, end: nat)
    requires pos <= |ts| && mid <= |ts|
    requires ParseUnary(ts, table, pos) == Parsed(left, mid)
    requires ParseBinary(ts, table, mid, 0, left) == Parsed(e, end)
    ensures ParseExpr(ts, table, pos) == Parsed(e, end)
  {
  }

  lemma ParenStep(ts: seq<Token>, table: Table, pos: nat, e: Ast.Expr, mid: nat, next: nat)
    requires pos + 1 < |ts| && ts[pos] == LParen
    requires ParseExpr(ts, table, pos + 1) == Parsed(e, mid)
    requires mid < |ts| && ts[mid] == RParen && next == mid + 1
    ensures ParseUnary(ts, table, pos) == Parsed(e, next)
  {
    assert ParseParen(ts, table, pos) == Parsed(e, next);
  }

  lemma PrefixStep(ts: seq<Token>, table: Table, pos: nat, c: char, x: Ast.Expr, end: nat)
    requires pos + 1 < |ts| && ts[pos] == Op(c)
    requires ParseUnary(ts, table, pos + 1) == Parsed(x, end)
    ensures ParseUnary(ts, table, pos) == Parsed(Ast.Call(Ast.UnaryName(c), [x]), end)
  {
  }

  lemma CallStep(ts: seq<Token>, table: Table, pos: nat, f: string, args: seq<Ast.Expr>, end: nat, next: nat)
    requires pos + 2 < |ts| && ts[pos] == Ident(f) && ts[pos + 1] == LParen && !ts[pos + 2].RParen?
    requires ParseArgs(ts, table, pos + 2) == Parsed(args, end) && next == end + 1
    ensures ParseUnary(ts, table, pos) == Parsed(Ast.Call(f, args), next)
  {
    assert ParseIdentifier(ts, table, pos) == Parsed(Ast.Call(f, args), next);
  }

  lemma VariableStep(ts: seq<Token>, table: Table, pos: nat, x: string)
    requires pos < |ts| && ts[pos] == Ident(x) && EndsOperand(ts[pos + 1..])
    ensures ParseUnary(ts, table, pos) == Parsed(Ast.Variable(x), pos + 1)
  {
    if pos + 1 < |ts| {
      assert ts[pos + 1..][0] == ts[pos + 1];
    }
    assert ParseIdentifier(ts, table, pos) == Parsed(Ast.Variable(x), pos + 1);
  }

  lemma NumberStep(ts: seq<Token>, table: Table, pos: nat, n: Num)
    requires pos < |ts| && ts[pos] == Number(n)
    ensures ParseUnary(ts, table, pos) == Parsed(Ast.Number(n), pos + 1)
  {
    assert ParsePrimary(ts, table, pos) == Parsed(Ast.Number(n), pos + 1);
  }

  lemma LastArgStep(ts: seq<Token>, table: Table, pos: nat, a: Ast.Expr, end: nat)
    requires pos <= |ts| && ParseExpr(ts, table, pos) == Parsed(a, end) && end < |ts| && ts[end] == RParen
    ensures ParseArgs(ts, table, pos) == Parsed([a], end)
  {
  }

  lemma NextArgStep(ts: seq<Token>, table: Table, pos: nat, a: Ast.Expr, mid: nat, next: nat, more: seq<Ast.Expr>, end: nat)
    requires pos <= |ts|
    requires ParseExpr(ts, table, pos) == Parsed(a, mid) && mid + 1 < |ts| && ts[mid] == Comma && next == mid + 1
    requires ParseArgs(ts, table, next) == Parsed(more, end)
    ensures ParseArgs(ts, table, pos) == Parsed([a] + more, end)
  {
  }

  lemma ConditionalStep(ts: seq<Token>, table: Table, pos: nat, c: Ast.Expr, a: Ast.Expr, b: Ast.Expr,
                        p1: nat, q1: nat, p2: nat, q2: nat, end: nat)
    requires pos + 1 < |ts| && ts[pos] == If
    requires ParseExpr(ts, table, pos + 1) == Parsed(c, p1) && q1 == p1 + 1 && q1 < |ts| && ts[p1] == Then
    requires ParseExpr(ts, table, q1) == Parsed(a, p2) && q2 == p2 + 1 && q2 < |ts| && ts[p2] == Else
    requires ParseExpr(ts, table, q2) == Parsed(b, end)
    ensures ParseUnary(ts, table, pos) == Parsed(Ast.Conditional(c, a, b), end)
  {
    assert ParseConditional(ts, table, pos) == Parsed(Ast.Conditional(c, a, b), end);
  }

  lemma ForStep(ts: seq<Token>, table: Table, pos: nat, v: string, s: Ast.Expr, e: Ast.Expr, st: Option<Ast.Expr>, b: Ast.Expr,
                p1: nat, q1: nat, p2: nat, p3: nat, q3: nat, end: nat)
    requires pos + 3 < |ts| && ts[pos] == For && ts[pos + 1] == Ident(v) && ts[pos + 2] == Op('=')
    requires ParseExpr(ts, table, pos + 3) == Parsed(s, p1) && q1 == p1 + 1 && q1 < |ts| && ts[p1] == Comma
    requires ParseExpr(ts, table, q1) == Parsed(e, p2)
    requires ParseStep(ts, table, p2) == Parsed(st, p3) && q3 == p3 + 1 && q3 < |ts| && ts[p3] == In
    requires ParseExpr(ts, table, q3) == Parsed(b, end)
    ensures ParseUnary(ts, table, pos) == Parsed(Ast.For(v, s, e, st, b), end)
  {
    assert ParseFor(ts, table, pos) == Parsed(Ast.For(v, s, e, st, b), end);
  }

  lemma VarStep(ts: seq<Token>, table: Table, pos: nat, bs: seq<Ast.Binding>, b: Ast.Expr, mid: nat, end: nat)
    requires pos + 1 < |ts| && ts[pos] == Var
    requires ParseBindings(ts, table, pos + 1) == Parsed(bs, mid)
    requires ParseExpr(ts, table, mid) == Parsed(b, end)
    ensures ParseUnary(ts, table, pos) == Parsed(Ast.VarIn(bs, b), end)
  {
    assert ParseVar(ts, table, pos) == Parsed(Ast.VarIn(bs, b), end);
  }

  lemma LastBindingStep(ts: seq<Token>, table: Table, pos: nat, name: string, init: Option<Ast.Expr>, mid: nat, next: nat)
    requires pos + 1 < |ts| && ts[pos] == Ident(name)
    requires ParseInitializer(ts, table, pos + 1) == Parsed(init, mid)
    requires mid + 1 < |ts| && ts[mid] == In && next == mid + 1
    ensures ParseBindings(ts, table, pos) == Parsed([Ast.Binding(name, init)], next)
  {
  }

  lemma NextBindingStep(ts: seq<Token>, table: Table, pos: nat, name: string, init: Option<Ast.Expr>, mid: nat, next: nat,
                        more: seq<Ast.Binding>, end: nat)
    requires pos + 1 < |ts| && ts[pos] == Ident(name)
    requires ParseInitializer(ts, table, pos + 1) == Parsed(init, mid)
    requires mid + 1 < |ts| && ts[mid] == Comma && next == mid + 1
    requires ParseBindings(ts, table, next) == Parsed(more, end)
    ensures ParseBindings(ts, table, pos) == Parsed([Ast.Binding(name, init)] + more, end)
  {
  }

  // ---------------------------------------------------------------- the round trip
  //
  // Every position is a named local built from the previous one, and every
  // lemma is called with those names. Each lemma does at most two sub-parses,
  // handing what is left to a lemma of its own.

  /** A printed well-formed expression, followed by a token that ends it, parses back to itself. */
  lemma ParsesExpr(ts: seq<Token>, table: Table, pos: nat, e: Ast.Expr, rest: seq<Token>)
    requires WellFormed(e, table)
    requires pos <= |ts| && ts[pos..] == Print(e) + rest && EndsExpr(rest)
    ensures ParseExpr(ts, table, pos) == Parsed(e, pos + |Print(e)|)
    decreases e, 8
  {
    if e.Binary? {
      ParsesBinary(ts, table, pos, e, rest);
    } else {
      var end := pos + |Print(e)|;
      ParsesUnary(ts, table, pos, e, rest);
      Slice(ts, pos, Print(e), rest, end);
      BinaryStops(ts, table, end, 0, e);
      ExprStep(ts, table, pos, e, end, e, end);
    }
  }

  lemma ParsesBinary(ts: seq<Token>, table: Table, pos: nat, e: Ast.Expr, rest: seq<Token>)
    requires WellFormed(e, table) && e.Binary?
    requires pos <= |ts| && ts[pos..] == Print(e) + rest && EndsExpr(rest)
    ensures ParseExpr(ts, table, pos) == Parsed(e, pos + |Print(e)|)
    decreases e, 7
  {
    assert WellFormed(e.left, table);
    var wl, wr := Wrap(e.left, Print(e.left)), Wrap(e.right, Print(e.right));
    var mid := pos + |wl|;
    var next := mid + 1;
    var end := next + |wr|;
    assert Print(e) == wl + [Op(e.op)] + wr;
    LayoutInfix(ts, pos, wl, Op(e.op), wr, rest, mid, next);
    ParsesOperand(ts, table, pos, e.left, [Op(e.op)] + (wr + rest));
    ParsesRightOperand(ts, table, pos, e, rest, mid, next, end);
    assert end == pos + |Print(e)|;
  }

  /** Once the left operand is parsed: the operator, the right operand, and the end of the expression. */
  lemma ParsesRightOperand(ts: seq<Token>, table: Table, pos: nat, e: Ast.Expr, rest: seq<Token>, mid: nat, next: nat, end: nat)
    requires e.Binary? && ParserProps.OpPrecedence(table, e.op) >= 0 && WellFormed(e.right, table) && EndsExpr(rest)
    requires pos <= |ts| && mid <= |ts| && ParseUnary(ts, table, pos) == Parsed(e.left, mid)
    requires next == mid + 1 && next < |ts| && ts[mid] == Op(e.op)
    requires ts[next..] == Wrap(e.right, Print(e.right)) + rest && end == next + |Wrap(e.right, Print(e.right))|
    ensures ParseExpr(ts, table, pos) == Parsed(e, end)
    decreases e, 6
  {
    var wr := Wrap(e.right, Print(e.right));
    ParsesOperand(ts, table, next, e.right, rest);
    Slice(ts, next, wr, rest, end);
    BinaryStep(ts, table, mid, next, e.op, e.left, e.right, end);
    ExprStep(ts, table, pos, e.left, mid, e, end);
  }

  /** An operand as printed, followed by anything but `(`, parses back to itself as a unary expression. */
  lemma ParsesOperand(ts: seq<Token>, table: Table, pos: nat, e: Ast.Expr, rest: seq<Token>)
    requires WellFormed(e, table)
    requires pos <= |ts| && ts[pos..] == Wrap(e, Print(e)) + rest && EndsOperand(rest)
    ensures ParseUnary(ts, table, pos) == Parsed(e, pos + |Wrap(e, Print(e))|)
    decreases e, 9
  {
    if IsAtom(e) {
      ParsesUnary(ts, table, pos, e, rest);
    } else {
      var p := Print(e);
      var start := pos + 1;
      var mid := start + |p|;
      var next := mid + 1;
      LayoutAround(ts, pos, LParen, p, RParen, rest, start, mid, next);
      ParsesExpr(ts, table, start, e, [RParen] + rest);
      ParenStep(ts, table, pos, e, mid, next);
      assert next == pos + |Wrap(e, Print(e))|;
    }
  }

  /** Any expression but a binary one, as printed, parses back to itself as a unary expression. */
  lemma ParsesUnary(ts: seq<Token>, table: Table, pos: nat, e: Ast.Expr, rest: seq<Token>)
    requires WellFormed(e, table) && !e.Binary?
    requires pos <= |ts| && ts[pos..] == Print(e) + rest
    requires if IsAtom(e) then EndsOperand(rest) else EndsExpr(rest)
    ensures ParseUnary(ts, table, pos) == Parsed(e, pos + |Print(e)|)
    decreases e, 7
  {
    match e
    case Number(n) =>
      Head(ts, pos, Number(n), rest, pos + 1);
      NumberStep(ts, table, pos, n);
    case Variable(x) =>
      Head(ts, pos, Ident(x), rest, pos + 1);
      VariableStep(ts, table, pos, x);
    case Call(_, _) =>
      if IsUnaryCall(e) {
        ParsesPrefix(ts, table, pos, e, rest);
      } else {
        ParsesCall(ts, table, pos, e, rest);
      }
    case Conditional(_, _, _) =>
      ParsesConditional(ts, table, pos, e, rest);
    case For(_, _, _, _, _) =>
      ParsesFor(ts, table, pos, e, rest);
    case VarIn(_, _) =>
      ParsesVarIn(ts, table, pos, e, rest);
  }

  /** A unary call prints as its operator character in prefix position. */
  lemma ParsesPrefix(ts: seq<Token>, table: Table, pos: nat, e: Ast.Expr, rest: seq<Token>)
    requires WellFormed(e, table) && IsUnaryCall(e)
    requires pos <= |ts| && ts[pos..] == Print(e) + rest && EndsOperand(rest)
    ensures ParseUnary(ts, table, pos) == Parsed(e, pos + |Print(e)|)
    decreases e, 6
  {
    var x, c := e.args[0], e.callee[5];
    var w := Wrap(x, Print(x));
    var start := pos + 1;
    var end := start + |w|;
    assert Print(e) == [Op(c)] + w;
    LayoutPrefix(ts, pos, Op(c), w, rest, start);
    assert ArgsWellFormed(e.args, table);
    ParsesOperand(ts, table, start, x, rest);
    PrefixStep(ts, table, pos, c, x, end);
    assert e.callee == e.callee[..5] + [c];
    assert e == Ast.Call(Ast.UnaryName(c), [x]);
    assert end == pos + |Print(e)|;
  }

  /** A call with arguments, printed as `name ( args )`. */
  lemma ParsesCall(ts: seq<Token>, table: Table, pos: nat, e: Ast.Expr, rest: seq<Token>)
    requires WellFormed(e, table) && e.Call? && !IsUnaryCall(e)
    requires pos <= |ts| && ts[pos..] == Print(e) + rest
    ensures ParseUnary(ts, table, pos) == Parsed(e, pos + |Print(e)|)
    decreases e, 6
  {
    var pa := PrintArgs(e.args);
    var start := pos + 2;
    var end := start + |pa|;
    var next := end + 1;
    assert Print(e) == [Ident(e.callee), LParen] + pa + [RParen];
    LayoutCall(ts, pos, e.callee, pa, rest, start);
    ParsesArgs(ts, table, start, e.args, rest);
    assert ts[start] == pa[0] by {
      assert ts[start..][0] == ts[start];
    }
    CallStep(ts, table, pos, e.callee, e.args, end, next);
    assert next == pos + |Print(e)|;
  }

  /** Arguments separated by commas, up to the `)`. */
  lemma ParsesArgs(ts: seq<Token>, table: Table, pos: nat, args: seq<Ast.Expr>, rest: seq<Token>)
    requires |args| > 0 && ArgsWellFormed(args, table)
    requires pos <= |ts| && ts[pos..] == PrintArgs(args) + ([RParen] + rest)
    ensures |PrintArgs(args)| > 0 && StartsExpr(PrintArgs(args)[0])
    ensures ParseArgs(ts, table, pos) == Parsed(args, pos + |PrintArgs(args)|)
    decreases args, 2
  {
    if |args| == 1 {
      ParsesLastArg(ts, table, pos, args[0], rest);
      assert [args[0]] == args;
    } else {
      ParsesMoreArgs(ts, table, pos, args, rest);
    }
  }

  /** Two or more arguments: the first, a comma, and the others. */
  lemma ParsesMoreArgs(ts: seq<Token>, table: Table, pos: nat, args: seq<Ast.Expr>, rest: seq<Token>)
    requires |args| > 1 && ArgsWellFormed(args, table)
    requires pos <= |ts| && ts[pos..] == PrintArgs(args) + ([RParen] + rest)
    ensures |PrintArgs(args)| > 0 && StartsExpr(PrintArgs(args)[0])
    ensures ParseArgs(ts, table, pos) == Parsed(args, pos + |PrintArgs(args)|)
    decreases args, 1
  {
    assert WellFormed(args[0], table) && ArgsWellFormed(args[1..], table);
    var p, pr := Print(args[0]), PrintArgs(args[1..]);
    var mid := pos + |p|;
    var next := mid + 1;
    var end := next + |pr|;
    assert PrintArgs(args) == p + [Comma] + pr;
    LayoutInfix(ts, pos, p, Comma, pr, [RParen] + rest, mid, next);
    ParsesExpr(ts, table, pos, args[0], [Comma] + (pr + ([RParen] + rest)));
    ParsesOtherArgs(ts, table, pos, args, rest, mid, next, end);
    assert end == pos + |PrintArgs(args)|;
  }

  /** Once the first of several arguments is parsed: the comma and the others. */
  lemma ParsesOtherArgs(ts: seq<Token>, table: Table, pos: nat, args: seq<Ast.Expr>, rest: seq<Token>, mid: nat, next: nat, end: nat)
    requires |args| > 1 && ArgsWellFormed(args[1..], table)
    requires pos <= |ts| && ParseExpr(ts, table, pos) == Parsed(args[0], mid)
    requires next == mid + 1 && next < |ts| && ts[mid] == Comma
    requires ts[next..] == PrintArgs(args[1..]) + ([RParen] + rest) && end == next + |PrintArgs(args[1..])|
    ensures ParseArgs(ts, table, pos) == Parsed(args, end)
    decreases args, 0
  {
    ParsesArgs(ts, table, next, args[1..], rest);
    NextArgStep(ts, table, pos, args[0], mid, next, args[1..], end);
    assert [args[0]] + args[1..] == args;
  }

  lemma ParsesLastArg(ts: seq<Token>, table: Table, pos: nat, a: Ast.Expr, rest: seq<Token>)
    requires WellFormed(a, table)
    requires pos <= |ts| && ts[pos..] == Print(a) + ([RParen] + rest)
    ensures ParseArgs(ts, table, pos) == Parsed([a], pos + |Print(a)|)
    decreases a, 9
  {
    var mid := pos + |Print(a)|;
    Slice(ts, pos, Print(a), [RParen] + rest, mid);
    Head(ts, mid, RParen, rest, mid + 1);
    ParsesExpr(ts, table, pos, a, [RParen] + rest);
    LastArgStep(ts, table, pos, a, mid);
  }

  /** `if c then a else b`: at token level `then` is the `Then` token. */
  lemma ParsesConditional(ts: seq<Token>, table: Table, pos: nat, e: Ast.Expr, rest: seq<Token>)
    requires WellFormed(e, table) && e.Conditional?
    requires pos <= |ts| && ts[pos..] == Print(e) + rest && EndsExpr(rest)
    ensures ParseUnary(ts, table, pos) == Parsed(e, pos + |Print(e)|)
    decreases e, 6
  {
    assert WellFormed(e.cond, table);
    var pc, pa, pb := Print(e.cond), Print(e.consequence), Print(e.alternative);
    var start := pos + 1;
    var p1 := start + |pc|;
    var q1 := p1 + 1;
    var p2 := q1 + |pa|;
    var q2 := p2 + 1;
    var end := q2 + |pb|;
    assert Print(e) == [If] + pc + [Then] + pa + [Else] + pb;
    LayoutConditional(ts, pos, pc, pa, pb, rest, start, p1, q1, p2, q2);
    ParsesExpr(ts, table, start, e.cond, [Then] + (pa + ([Else] + (pb + rest))));
    ParsesThenElse(ts, table, pos, e, rest, p1, q1, p2, q2, end);
    assert end == pos + |Print(e)|;
  }

  /** Once the condition is parsed, the rest of a conditional. */
  lemma ParsesThenElse(ts: seq<Token>, table: Table, pos: nat, e: Ast.Expr, rest: seq<Token>,
                       p1: nat, q1: nat, p2: nat, q2: nat, end: nat)
    requires WellFormed(e, table) && e.Conditional? && EndsExpr(rest)
    requires pos + 1 < |ts| && ts[pos] == If
    requires ParseExpr(ts, table, pos + 1) == Parsed(e.cond, p1) && q1 == p1 + 1 && q1 < |ts| && ts[p1] == Then
    requires ts[q1..] == Print(e.consequence) + ([Else] + (Print(e.alternative) + rest))
    requires p2 == q1 + |Print(e.consequence)| && q2 == p2 + 1 && end == q2 + |Print(e.alternative)|
    ensures ParseUnary(ts, table, pos) == Parsed(e, end)
    decreases e, 5
  {
    ParsesBranches(ts, table, e, rest, q1, p2, q2, end);
    ConditionalStep(ts, table, pos, e.cond, e.consequence, e.alternative, p1, q1, p2, q2, end);
  }

  /** The two branches of a conditional, from just after `then` to the end. */
  lemma ParsesBranches(ts: seq<Token>, table: Table, e: Ast.Expr, rest: seq<Token>, q1: nat, p2: nat, q2: nat, end: nat)
    requires e.Conditional? && WellFormed(e.consequence, table) && WellFormed(e.alternative, table) && EndsExpr(rest)
    requires q1 <= |ts| && ts[q1..] == Print(e.consequence) + ([Else] + (Print(e.alternative) + rest))
    requires p2 == q1 + |Print(e.consequence)| && q2 == p2 + 1 && end == q2 + |Print(e.alternative)|
    ensures ParseExpr(ts, table, q1) == Parsed(e.consequence, p2)
    ensures q2 < |ts| && ts[p2] == Else
    ensures ParseExpr(ts, table, q2) == Parsed(e.alternative, end)
    decreases e, 4
  {
    var pa, pb := Print(e.consequence), Print(e.alternative);
    assert pa + ([Else] + (pb + rest)) == pa + [Else] + pb + rest;
    LayoutInfix(ts, q1, pa, Else, pb, rest, p2, q2);
    ParsesExpr(ts, table, q1, e.consequence, [Else] + (pb + rest));
    ParsesExpr(ts, table, q2, e.alternative, rest);
  }

  /** `for v = start, end [, step] in body`. */
  lemma ParsesFor(ts: seq<Token>, table: Table, pos: nat, e: Ast.Expr, rest: seq<Token>)
    requires WellFormed(e, table) && e.For?
    requires pos <= |ts| && ts[pos..] == Print(e) + rest && EndsExpr(rest)
    ensures ParseUnary(ts, table, pos) == Parsed(e, pos + |Print(e)|)
    decreases e, 6
  {
    var ps, pe, pst, pb := Print(e.start), Print(e.end), PrintStep(e.step), Print(e.body);
    var start := pos + 3;
    var p1 := start + |ps|;
    var q1 := p1 + 1;
    var p2 := q1 + |pe|;
    var p3 := p2 + |pst|;
    var q3 := p3 + 1;
    var end := q3 + |pb|;
    LayoutLoop(ts, pos, e, rest, start, p1, q1, p2, p3, q3);
    ParsesExpr(ts, table, start, e.start, [Comma] + (pe + (pst + ([In] + (pb + rest)))));
    ParsesLoopRest(ts, table, pos, e, rest, p1, q1, p2, p3, q3, end);
    assert end == pos + |Print(e)|;
  }

  /** Once the start expression is parsed, the rest of a `for` loop. */
  lemma ParsesLoopRest(ts: seq<Token>, table: Table, pos: nat, e: Ast.Expr, rest: seq<Token>,
                       p1: nat, q1: nat, p2: nat, p3: nat, q3: nat, end: nat)
    requires e.For? && WellFormed(e.end, table) && WellFormed(e.body, table) && EndsExpr(rest)
    requires e.step.Some? ==> WellFormed(e.step.value, table)
    requires pos + 3 < |ts| && ts[pos] == For && ts[pos + 1] == Ident(e.varName) && ts[pos + 2] == Op('=')
    requires ParseExpr(ts, table, pos + 3) == Parsed(e.start, p1) && q1 == p1 + 1 && q1 < |ts| && ts[p1] == Comma
    requires ts[q1..] == Print(e.end) + (PrintStep(e.step) + ([In] + (Print(e.body) + rest)))
    requires p2 == q1 + |Print(e.end)| && p3 == p2 + |PrintStep(e.step)| && q3 == p3 + 1 && end == q3 + |Print(e.body)|
    ensures ParseUnary(ts, table, pos) == Parsed(e, end)
    decreases e, 5
  {
    ParsesLoopTail(ts, table, e, rest, q1, p2, p3, q3, end);
    ForStep(ts, table, pos, e.varName, e.start, e.end, e.step, e.body, p1, q1, p2, p3, q3, end);
  }

  /** The rest of a `for` loop, from just after the comma that ends its start expression. */
  lemma ParsesLoopTail(ts: seq<Token>, table: Table, e: Ast.Expr, rest: seq<Token>, q1: nat, p2: nat, p3: nat, q3: nat, end: nat)
    requires e.For? && WellFormed(e.end, table) && WellFormed(e.body, table) && EndsExpr(rest)
    requires e.step.Some? ==> WellFormed(e.step.value, table)
    requires q1 <= |ts| && ts[q1..] == Print(e.end) + (PrintStep(e.step) + ([In] + (Print(e.body) + rest)))
    requires p2 == q1 + |Print(e.end)| && p3 == p2 + |PrintStep(e.step)| && q3 == p3 + 1 && end == q3 + |Print(e.body)|
    ensures ParseExpr(ts, table, q1) == Parsed(e.end, p2)
    ensures ParseStep(ts, table, p2) == Parsed(e.step, p3)
    ensures q3 < |ts| && ts[p3] == In
    ensures ParseExpr(ts, table, q3) == Parsed(e.body, end)
    decreases e, 4
  {
    var pe, pst := Print(e.end), PrintStep(e.step);
    var r3 := [In] + (Print(e.body) + rest);
    Slice(ts, q1, pe, pst + r3, p2);
    StepEndsExpr(e.step, r3);
    ParsesExpr(ts, table, q1, e.end, pst + r3);
    ParsesStepAndBody(ts, table, e, rest, p2, p3, q3, end);
  }

  /** The optional step of a `for` loop, the `in`, and the body. */
  lemma ParsesStepAndBody(ts: seq<Token>, table: Table, e: Ast.Expr, rest: seq<Token>, p2: nat, p3: nat, q3: nat, end: nat)
    requires e.For? && WellFormed(e.body, table) && EndsExpr(rest)
    requires e.step.Some? ==> WellFormed(e.step.value, table)
    requires p2 <= |ts| && ts[p2..] == PrintStep(e.step) + ([In] + (Print(e.body) + rest))
    requires p3 == p2 + |PrintStep(e.step)| && q3 == p3 + 1 && end == q3 + |Print(e.body)|
    ensures ParseStep(ts, table, p2) == Parsed(e.step, p3)
    ensures q3 < |ts| && ts[p3] == In
    ensures ParseExpr(ts, table, q3) == Parsed(e.body, end)
    decreases e, 3
  {
    var pst, pb := PrintStep(e.step), Print(e.body);
    var r3 := [In] + (pb + rest);
    Slice(ts, p2, pst, r3, p3);
    Head(ts, p3, In, pb + rest, q3);
    ParsesStep(ts, table, p2, e.step, r3);
    ParsesExpr(ts, table, q3, e.body, rest);
  }

  /** What follows the `end` expression of a `for` loop ends it. */
  lemma StepEndsExpr(step: Option<Ast.Expr>, rest: seq<Token>)
    requires |rest| > 0 && rest[0] == In
    ensures EndsExpr(PrintStep(step) + rest)
  {
  }

  /** The optional `, step`, followed by `in`. */
  lemma ParsesStep(ts: seq<Token>, table: Table, pos: nat, step: Option<Ast.Expr>, rest: seq<Token>)
    requires step.Some? ==> WellFormed(step.value, table)
    requires pos <= |ts| && ts[pos..] == PrintStep(step) + rest && |rest| > 0 && rest[0] == In
    ensures ParseStep(ts, table, pos) == Parsed(step, pos + |PrintStep(step)|)
    decreases step
  {
    match step
    case None =>
      assert ts[pos..] == [In] + rest[1..];
      Head(ts, pos, In, rest[1..], pos + 1);
    case Some(x) =>
      var start := pos + 1;
      LayoutPrefix(ts, pos, Comma, Print(x), rest, start);
      ParsesExpr(ts, table, start, x, rest);
      assert start + |Print(x)| == pos + |PrintStep(step)|;
  }

  /** `var bindings in body`. */
  lemma ParsesVarIn(ts: seq<Token>, table: Table, pos: nat, e: Ast.Expr, rest: seq<Token>)
    requires WellFormed(e, table) && e.VarIn?
    requires pos <= |ts| && ts[pos..] == Print(e) + rest && EndsExpr(rest)
    ensures ParseUnary(ts, table, pos) == Parsed(e, pos + |Print(e)|)
    decreases e, 6
  {
    var pbs, pb := PrintBindings(e.bindings), Print(e.body);
    var start := pos + 1;
    var mid := start + |pbs|;
    var next := mid + 1;
    var end := next + |pb|;
    assert Print(e) == [Var] + pbs + [In] + pb;
    LayoutVarIn(ts, pos, pbs, pb, rest, start, mid, next);
    ParsesBindings(ts, table, start, e.bindings, pb + rest);
    ParsesVarBody(ts, table, pos, e, rest, next, end);
    assert end == pos + |Print(e)|;
  }

  /** Once the bindings are parsed through the `in`, the body of a `var..in`. */
  lemma ParsesVarBody(ts: seq<Token>, table: Table, pos: nat, e: Ast.Expr, rest: seq<Token>, next: nat, end: nat)
    requires e.VarIn? && WellFormed(e.body, table) && EndsExpr(rest)
    requires pos + 1 < |ts| && ts[pos] == Var && ParseBindings(ts, table, pos + 1) == Parsed(e.bindings, next)
    requires next <= |ts| && ts[next..] == Print(e.body) + rest && end == next + |Print(e.body)|
    ensures ParseUnary(ts, table, pos) == Parsed(e, end)
    decreases e, 5
  {
    ParsesExpr(ts, table, next, e.body, rest);
    VarStep(ts, table, pos, e.bindings, e.body, next, end);
  }

  /** Bindings separated by commas, through the `in`, with something after the `in`. */
  lemma ParsesBindings(ts: seq<Token>, table: Table, pos: nat, bs: seq<Ast.Binding>, rest: seq<Token>)
    requires |bs| > 0 && BindingsWellFormed(bs, table) && |rest| > 0
    requires pos <= |ts| && ts[pos..] == PrintBindings(bs) + ([In] + rest)
    ensures ParseBindings(ts, table, pos) == Parsed(bs, pos + |PrintBindings(bs)| + 1)
    decreases bs, 2
  {
    if |bs| == 1 {
      var b := bs[0];
      assert PrintBindings(bs) == [Ident(b.name)] + PrintInit(b.init);
      ParsesLastBinding(ts, table, pos, b, rest);
      assert [b] == bs;
    } else {
      ParsesMoreBindings(ts, table, pos, bs, rest);
    }
  }

  /** Two or more bindings: the first, a comma, and the others. */
  lemma ParsesMoreBindings(ts: seq<Token>, table: Table, pos: nat, bs: seq<Ast.Binding>, rest: seq<Token>)
    requires |bs| > 1 && BindingsWellFormed(bs, table) && |rest| > 0
    requires pos <= |ts| && ts[pos..] == PrintBindings(bs) + ([In] + rest)
    ensures ParseBindings(ts, table, pos) == Parsed(bs, pos + |PrintBindings(bs)| + 1)
    decreases bs, 1
  {
    var b := bs[0];
    assert (b.init.Some? ==> WellFormed(b.init.value, table)) && BindingsWellFormed(bs[1..], table);
    var mid := pos + 1 + |PrintInit(b.init)|;
    var next := mid + 1;
    var end := next + |PrintBindings(bs[1..])| + 1;
    ParsesFirstBinding(ts, table, pos, bs, rest, mid, next);
    ParsesOtherBindings(ts, table, pos, bs, rest, mid, next, end);
  }

  /** The first of several bindings, through the comma after it. */
  lemma ParsesFirstBinding(ts: seq<Token>, table: Table, pos: nat, bs: seq<Ast.Binding>, rest: seq<Token>, mid: nat, next: nat)
    requires |bs| > 1 && (bs[0].init.Some? ==> WellFormed(bs[0].init.value, table))
    requires pos <= |ts| && ts[pos..] == PrintBindings(bs) + ([In] + rest)
    requires mid == pos + 1 + |PrintInit(bs[0].init)| && next == mid + 1
    ensures pos + 1 < |ts| && ts[pos] == Ident(bs[0].name)
    ensures ParseInitializer(ts, table, pos + 1) == Parsed(bs[0].init, mid)
    ensures next < |ts| && ts[mid] == Comma
    ensures ts[next..] == PrintBindings(bs[1..]) + ([In] + rest)
    ensures pos + |PrintBindings(bs)| == next + |PrintBindings(bs[1..])|
    decreases bs, 0
  {
    var b := bs[0];
    var pi, pr := PrintInit(b.init), PrintBindings(bs[1..]);
    var start := pos + 1;
    assert PrintBindings(bs) == [Ident(b.name)] + pi + [Comma] + pr;
    LayoutBindings(ts, pos, b.name, pi, pr, [In] + rest, start, mid, next);
    ParsesInit(ts, table, start, b.init, [Comma] + (pr + ([In] + rest)));
  }

  /** Once the first of several bindings is parsed through its comma: the others. */
  lemma ParsesOtherBindings(ts: seq<Token>, table: Table, pos: nat, bs: seq<Ast.Binding>, rest: seq<Token>,
                            mid: nat, next: nat, end: nat)
    requires |bs| > 1 && BindingsWellFormed(bs[1..], table) && |rest| > 0
    requires pos + 1 < |ts| && ts[pos] == Ident(bs[0].name)
    requires ParseInitializer(ts, table, pos + 1) == Parsed(bs[0].init, mid)
    requires next == mid + 1 && next < |ts| && ts[mid] == Comma
    requires ts[next..] == PrintBindings(bs[1..]) + ([In] + rest) && end == next + |PrintBindings(bs[1..])| + 1
    ensures ParseBindings(ts, table, pos) == Parsed(bs, end)
    decreases bs, 0
  {
    ParsesBindings(ts, table, next, bs[1..], rest);
    NextBindingStep(ts, table, pos, bs[0].name, bs[0].init, mid, next, bs[1..], end);
    assert [Ast.Binding(bs[0].name, bs[0].init)] + bs[1..] == bs;
  }

  lemma ParsesLastBinding(ts: seq<Token>, table: Table, pos: nat, b: Ast.Binding, rest: seq<Token>)
    requires b.init.Some? ==> WellFormed(b.init.value, table)
    requires |rest| > 0
    requires pos <= |ts| && ts[pos..] == [Ident(b.name)] + PrintInit(b.init) + ([In] + rest)
    ensures ParseBindings(ts, table, pos) == Parsed([b], pos + 1 + |PrintInit(b.init)| + 1)
    decreases b
  {
    var pi := PrintInit(b.init);
    var start := pos + 1;
    var mid := start + |pi|;
    var next := mid + 1;
    LayoutPrefix(ts, pos, Ident(b.name), pi, [In] + rest, start);
    ParsesInit(ts, table, start, b.init, [In] + rest);
    Slice(ts, start, pi, [In] + rest, mid);
    Head(ts, mid, In, rest, next);
    LastBindingStep(ts, table, pos, b.name, b.init, mid, next);
  }

  /** The optional `= init`, followed by `,` or `in`. */
  lemma ParsesInit(ts: seq<Token>, table: Table, pos: nat, init: Option<Ast.Expr>, rest: seq<Token>)
    requires init.Some? ==> WellFormed(init.value, table)
    requires pos <= |ts| && ts[pos..] == PrintInit(init) + rest && |rest| > 0 && (rest[0] == Comma || rest[0] == In)
    ensures ParseInitializer(ts, table, pos) == Parsed(init, pos + |PrintInit(init)|)
    decreases init
  {
    match init
    case None =>
      assert ts[pos..] == [rest[0]] + rest[1..];
      Head(ts, pos, rest[0], rest[1..], pos + 1);
    case Some(x) =>
      var start := pos + 1;
      LayoutPrefix(ts, pos, Op('='), Print(x), rest, start);
      ParsesExpr(ts, table, start, x, rest);
      assert start + |Print(x)| == pos + |PrintInit(init)|;
  }

  /**
   * The round trip at the top level: a printed well-formed expression is
   * accepted by `parse` as the anonymous function around exactly that
   * expression, and the table is left alone.
   */
  lemma PrintParseRoundTrip(e: Ast.Expr, table: Table, anonName: string, asUsize: Num -> nat)
    requires WellFormed(e, table)
    ensures Parse(Print(e), table, anonName, asUsize) ==
            (Ok(Ast.Function(Ast.Prototype(anonName, [], false, 0), Some(e), true)), table)
  {
    var ts := Print(e);
    assert ts[0..] == ts + [];
    ParsesExpr(ts, table, 0, e, []);
  }
}
