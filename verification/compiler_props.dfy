/**
 * What the code generator promises about names, errors and functions:
 * the order in which errors are reported, how `var..in`, `for` and
 * parameters bind and unbind names, and what `compile_fn` leaves in the
 * module.
 */
module CompilerProps {
  import opened Options
  import opened Ast
  import opened Backend
  import opened Compiler
  import Lexer

  /** The instructions of the block at the insertion point. */
  function Current(ir: Ir): seq<Inst>
    requires ir.cursor < |ir.blocks|
  {
    ir.blocks[ir.cursor].insts
  }

  // ---------------------------------------------------------------------
  // Reads, assignments, operators and calls: what is compiled, and which
  // error wins

  /** A read loads from the name's slot, or fails when the name is unbound. */
  lemma VariableRead(x: string, cs: CState)
    requires Ready(cs)
    ensures var r := CompileExpr(Variable(x), cs);
      && (r.result.Ok? <==> x in cs.vars)
      && (x !in cs.vars ==> r == Compiled(Err(UnknownVariable), cs))
      && (x in cs.vars ==>
            && r.result == Ok(Reg(cs.ir.nextId)) && r.cs.vars == cs.vars
            && Current(r.cs.ir) == Current(cs.ir) + [Load(cs.ir.nextId, cs.vars[x])])
  {
    var r := CompileExpr(Variable(x), cs);
    if x in cs.vars {
      var d := Define(cs.ir, (d: nat) => Load(d, cs.vars[x]));
      assert d.0 == Emit(cs.ir, Load(cs.ir.nextId, cs.vars[x])).(nextId := cs.ir.nextId + 1);
      assert r == Then(cs, d);
      assert r.cs.ir.cursor == cs.ir.cursor;
    }
  }

  /**
   * An assignment checks its target's form first, then compiles the value,
   * and only then looks the target up, in the bindings the value left.
   */
  lemma AssignmentOrder(target: Expr, value: Expr, cs: CState)
    requires Ready(cs)
    ensures var r := CompileExpr(Binary('=', target, value), cs);
      && (!target.Variable? ==> r == Compiled(Err(AssignTarget), cs))
      && (target.Variable? ==>
            var v := CompileExpr(value, cs);
            && (v.result.Err? ==> r == v)
            && (v.result.Ok? && target.name !in v.cs.vars ==> r == Compiled(Err(UndefinedVariable), v.cs))
            && (v.result.Ok? && target.name in v.cs.vars ==>
                  && r.result == v.result && r.cs.vars == v.cs.vars
                  && Current(r.cs.ir) == Current(v.cs.ir) + [Store(v.cs.vars[target.name], v.result.value)]))
  {
    var e := Binary('=', target, value);
    assert CompileExpr(e, cs) == CompileBinary(e, cs) == CompileAssign(e, cs);
  }

  /**
   * Because the target is looked up after the value is compiled, assigning
   * to an unbound name succeeds when the value is a `var..in` that binds it.
   */
  lemma AssignToNameBoundByValue(x: string, n: Lexer.Num, cs: CState)
    requires Ready(cs) && x !in cs.vars
    ensures var r := CompileExpr(Binary('=', Variable(x), VarIn([Binding(x, None)], Number(n))), cs);
      r.result == Ok(Literal(n)) && x in r.cs.vars
  {
    var bs := [Binding(x, None)];
    var value := VarIn(bs, Number(n));
    var next := BindSlot(x, Zero, cs);
    assert CompileInit(bs[0], cs) == Compiled(Ok(Zero), cs);
    assert CompileBindings(bs[1..], next, []) == Scoped(Ok([]), next);
    assert CompileBindings(bs, cs, []) == Scoped(Ok([]), next);
    assert CompileExpr(Number(n), next) == Compiled(Ok(Literal(n)), next);
    assert CompileExpr(value, cs) == CompileVarIn(value, cs) == Compiled(Ok(Literal(n)), next);
    AssignmentOrder(Variable(x), value, cs);
  }

  /**
   * The six built-in operators are always defined, any other needs its
   * `binary` function; `<` and `>` compare with "unordered or less than",
   * `>` with its operands swapped, and convert the flag to 0.0 or 1.0.
   */
  lemma Operators(op: char, a: Val, b: Val, cs: CState)
    requires Ready(cs)
    ensures var r := Operate(op, a, b, cs);
      var n := cs.ir.nextId;
      && (r.result.Ok? <==> op in "+-*/<>" || BinaryName(op) in cs.ir.symbols)
      && (r.result.Err? ==> r == Compiled(Err(UndefinedOperator), cs))
      && (op == '<' ==> r.result == Ok(Reg(n + 1)) && Current(r.cs.ir) == Current(cs.ir) + [Compare(n, ULT, a, b), ToFloat(n + 1, Reg(n))])
      && (op == '>' ==> r.result == Ok(Reg(n + 1)) && Current(r.cs.ir) == Current(cs.ir) + [Compare(n, ULT, b, a), ToFloat(n + 1, Reg(n))])
      && (op !in "+-*/<>" && BinaryName(op) in cs.ir.symbols ==>
            r.result == Ok(Reg(n)) && Current(r.cs.ir) == Current(cs.ir) + [CallFn(n, cs.ir.symbols[BinaryName(op)], [a, b])])
  {
    var n := cs.ir.nextId;
    if op == '<' || op == '>' {
      var x, y := if op == '<' then a else b, if op == '<' then b else a;
      var cmp := Define(cs.ir, (d: nat) => Compare(d, ULT, x, y));
      assert cmp.0 == Emit(cs.ir, Compare(n, ULT, x, y)).(nextId := n + 1);
      var conv := Define(cmp.0, (d: nat) => ToFloat(d, cmp.1));
      assert conv.0 == Emit(cmp.0, ToFloat(n + 1, Reg(n))).(nextId := n + 2);
      assert Operate(op, a, b, cs) == Then(cs, conv);
    } else if op !in "+-*/" && BinaryName(op) in cs.ir.symbols {
      var call := CallFn(n, cs.ir.symbols[BinaryName(op)], [a, b]);
      var d := Define(cs.ir, (d: nat) => CallFn(d, cs.ir.symbols[BinaryName(op)], [a, b]));
      assert d.0 == Emit(cs.ir, call).(nextId := n + 1);
      assert Operate(op, a, b, cs) == Then(cs, d);
    }
  }

  /**
   * A non-assignment operator compiles the left operand, then the right,
   * stops at the first error, and applies the operator to both values.
   */
  lemma BinaryOperands(op: char, left: Expr, right: Expr, cs: CState)
    requires Ready(cs) && op != '='
    ensures var r := CompileExpr(Binary(op, left, right), cs);
      var a := CompileExpr(left, cs);
      && (a.result.Err? ==> r == a)
      && (a.result.Ok? ==>
            var b := CompileExpr(right, a.cs);
            && (b.result.Err? ==> r == b)
            && (b.result.Ok? ==> r == Operate(op, a.result.value, b.result.value, b.cs) && b.cs.ir.symbols == cs.ir.symbols))
  {
    var e := Binary(op, left, right);
    assert CompileExpr(e, cs) == CompileBinary(e, cs);
  }

  /**
   * A call fails on an unknown callee before any argument is compiled, and
   * otherwise calls the callee with one value per argument.
   */
  lemma CallResolvesCalleeFirst(callee: string, args: seq<Expr>, cs: CState)
    requires Ready(cs)
    ensures var r := CompileExpr(Call(callee, args), cs);
      && (callee !in cs.ir.symbols ==> r == Compiled(Err(UnknownFunction), cs))
      && (callee in cs.ir.symbols ==>
            var xs := CompileArgs(args, cs);
            && (xs.result.Err? ==> r == Compiled(Err(xs.result.msg), xs.cs))
            && (xs.result.Ok? ==>
                  && r.result == Ok(Reg(xs.cs.ir.nextId))
                  && |xs.result.value| == |args|
                  && Current(r.cs.ir) == Current(xs.cs.ir) + [CallFn(xs.cs.ir.nextId, cs.ir.symbols[callee], xs.result.value)]))
  {
  }

  // ---------------------------------------------------------------------
  // Restoring displaced bindings

  /** The last entry of `saved` named `x`: the one a restore leaves in place. */
  function LastNamed(saved: seq<Ptr>, x: string): Option<Ptr>
    decreases |saved|
  {
    if saved == [] then None
    else
      var later := LastNamed(saved[1..], x);
      if later.Some? then later else if saved[0].name == x then Some(saved[0]) else None
  }

  /** Restoring leaves every name bound to the last displaced slot of that name, and else as it was. */
  lemma {:induction false} RestoreLastWins(vars: map<string, Ptr>, saved: seq<Ptr>, x: string)
    ensures var r := Restore(vars, saved);
      && (x in r <==> x in vars || LastNamed(saved, x).Some?)
      && (LastNamed(saved, x).Some? ==> r[x] == LastNamed(saved, x).value)
      && (LastNamed(saved, x).None? && x in vars ==> r[x] == vars[x])
    decreases |saved|
  {
    if saved != [] {
      RestoreLastWins(vars[saved[0].name := saved[0]], saved[1..], x);
    }
  }

  lemma {:induction false} LastNamedAfter(p: seq<Ptr>, y: Ptr, q: seq<Ptr>)
    requires forall j :: 0 <= j < |q| ==> q[j].name != y.name
    ensures LastNamed(p + [y] + q, y.name) == Some(y)
    decreases |p|
  {
    if p == [] {
      LastNamedMissing(q, y.name);
      assert ([y] + q)[1..] == q;
    } else {
      assert (p + [y] + q)[1..] == p[1..] + [y] + q;
      LastNamedAfter(p[1..], y, q);
    }
  }

  lemma {:induction false} LastNamedMissing(q: seq<Ptr>, x: string)
    requires forall j :: 0 <= j < |q| ==> q[j].name != x
    ensures LastNamed(q, x) == None
    decreases |q|
  {
    if q != [] {
      LastNamedMissing(q[1..], x);
    }
  }

  /** Every name is bound to a slot of that name, as `var..in`, `for` and parameters arrange. */
  predicate NamesAgree(vars: map<string, Ptr>) {
    forall x :: x in vars ==> vars[x].name == x
  }

  lemma {:induction false} RestoreAgrees(vars: map<string, Ptr>, saved: seq<Ptr>)
    requires NamesAgree(vars)
    ensures NamesAgree(Restore(vars, saved))
    decreases |saved|
  {
    if saved != [] {
      RestoreAgrees(vars[saved[0].name := saved[0]], saved[1..]);
    }
  }

  // ---------------------------------------------------------------------
  // Scoping: with distinct names in every `var..in`, compiling an expression
  // gives every earlier binding back

  function Names(bs: seq<Binding>): set<string> {
    set i | 0 <= i < |bs| :: bs[i].name
  }

  predicate DistinctNames(bs: seq<Binding>) {
    forall i, j :: 0 <= i < j < |bs| ==> bs[i].name != bs[j].name
  }

  /** Every `var..in` inside `e` binds pairwise distinct names. */
  predicate DistinctScopes(e: Expr)
    decreases e
  {
    match e
    case Number(_) => true
    case Variable(_) => true
    case Binary(_, l, r) => DistinctScopes(l) && DistinctScopes(r)
    case Call(_, args) => forall i :: 0 <= i < |args| ==> DistinctScopes(args[i])
    case Conditional(c, a, b) => DistinctScopes(c) && DistinctScopes(a) && DistinctScopes(b)
    case For(_, s, t, st, body) =>
      DistinctScopes(s) && DistinctScopes(t) && (st.Some? ==> DistinctScopes(st.value)) && DistinctScopes(body)
    case VarIn(bs, body) => DistinctNames(bs) && InitsDistinct(bs) && DistinctScopes(body)
  }

  predicate InitsDistinct(bs: seq<Binding>)
    decreases bs
  {
    forall i :: 0 <= i < |bs| ==> bs[i].init.Some? ==> DistinctScopes(bs[i].init.value)
  }

  /** Every binding in `vars` is still there, unchanged, in `vars'`. */
  predicate Preserved(vars: map<string, Ptr>, vars': map<string, Ptr>) {
    forall x :: x in vars ==> x in vars' && vars'[x] == vars[x]
  }

  /** What a successful compilation of `e` from `cs` keeps of the bindings. */
  predicate KeepsScope(cs: CState, r: Compiled) {
    r.result.Ok? ==> NamesAgree(r.cs.vars) && Preserved(cs.vars, r.cs.vars)
  }

  lemma {:induction false} Scoping(e: Expr, cs: CState)
    requires Ready(cs) && NamesAgree(cs.vars) && DistinctScopes(e)
    ensures KeepsScope(cs, CompileExpr(e, cs))
    decreases e, 3
  {
    match e
    case Number(_) =>
    case Variable(_) =>
    case VarIn(_, _) => ScopingVarIn(e, cs);
    case Binary(_, _, _) => ScopingBinary(e, cs);
    case Call(_, _) => ScopingCall(e, cs);
    case Conditional(_, _, _) => ScopingIf(e, cs);
    case For(_, _, _, _, _) => ScopingFor(e, cs);
  }

  lemma {:induction false} ScopingBinary(e: Expr, cs: CState)
    requires e.Binary? && Ready(cs) && NamesAgree(cs.vars) && DistinctScopes(e)
    ensures KeepsScope(cs, CompileExpr(e, cs))
    decreases e, 2
  {
    assert CompileExpr(e, cs) == CompileBinary(e, cs);
    if e.op == '=' {
      assert CompileBinary(e, cs) == CompileAssign(e, cs);
      if e.left.Variable? {
        Scoping(e.right, cs);
      }
    } else {
      Scoping(e.left, cs);
      var a := CompileExpr(e.left, cs);
      if a.result.Ok? {
        Scoping(e.right, a.cs);
        var b := CompileExpr(e.right, a.cs);
        if b.result.Ok? {
          assert CompileBinary(e, cs) == Operate(e.op, a.result.value, b.result.value, b.cs);
        }
      }
    }
  }

  lemma {:induction false} ScopingCall(e: Expr, cs: CState)
    requires e.Call? && Ready(cs) && NamesAgree(cs.vars) && DistinctScopes(e)
    ensures KeepsScope(cs, CompileExpr(e, cs))
    decreases e, 2
  {
    assert CompileExpr(e, cs) == CompileCall(e, cs);
    ScopingArgs(e.args, cs);
  }

  lemma {:induction false} ScopingArgs(args: seq<Expr>, cs: CState)
    requires Ready(cs) && NamesAgree(cs.vars) && forall i :: 0 <= i < |args| ==> DistinctScopes(args[i])
    ensures var r := CompileArgs(args, cs);
      r.result.Ok? ==> NamesAgree(r.cs.vars) && Preserved(cs.vars, r.cs.vars)
    decreases args, 2
  {
    if args != [] {
      Scoping(args[0], cs);
      var first := CompileExpr(args[0], cs);
      if first.result.Ok? {
        ScopingArgs(args[1..], first.cs);
      }
    }
  }

  lemma {:induction false} ScopingIf(e: Expr, cs: CState)
    requires e.Conditional? && Ready(cs) && NamesAgree(cs.vars) && DistinctScopes(e)
    ensures KeepsScope(cs, CompileExpr(e, cs))
    decreases e, 2
  {
    assert CompileExpr(e, cs) == CompileIf(e, cs);
    Scoping(e.cond, cs);
    var c := CompileExpr(e.cond, cs);
    if c.result.Err? {
      assert CompileIf(e, cs) == c;
    } else {
      var fork := BranchOn(c.result.value, c.cs);
      Scoping(e.consequence, fork.cs);
      var a := CompileExpr(e.consequence, fork.cs);
      if a.result.Err? {
        assert CompileIf(e, cs) == a;
      } else {
        var toElse := Jump(a.cs, fork.cont, fork.cont - 1);
        KeepsTrans(cs, c.cs, fork.cs);
        KeepsTrans(cs, fork.cs, a.cs);
        KeepsJump(cs, a.cs, toElse);
        ScopingElse(e, fork.cont, Incoming(a.result.value, a.cs.ir.cursor), toElse, cs);
        assert CompileIf(e, cs) == CompileElse(e, fork.cont, Incoming(a.result.value, a.cs.ir.cursor), toElse, cs);
      }
    }
  }

  lemma {:induction false} ScopingElse(e: Expr, cont: BlockId, fromThen: Incoming, cs: CState, base: CState)
    requires e.Conditional? && Ready(cs) && cont < |cs.ir.blocks|
    requires Keeps(base, cs) && |base.ir.blocks| <= cont && base.vars.Keys <= cs.vars.Keys
    requires NamesAgree(cs.vars) && DistinctScopes(e)
    ensures KeepsScope(cs, CompileElse(e, cont, fromThen, cs, base))
    decreases e, 1
  {
    Scoping(e.alternative, cs);
  }

  lemma {:induction false} ScopingFor(e: Expr, cs: CState)
    requires e.For? && Ready(cs) && NamesAgree(cs.vars) && DistinctScopes(e)
    ensures KeepsScope(cs, CompileExpr(e, cs))
    decreases e, 2
  {
    var slot := Alloca(cs.ir, cs.fn, e.varName);
    Scoping(e.start, cs.(ir := slot.0));
    var start := CompileExpr(e.start, cs.(ir := slot.0));
    if start.result.Ok? {
      var loop := EnterLoop(start.cs, slot.1, start.result.value);
      var inner := loop.(vars := start.cs.vars[e.varName := slot.1]);
      Scoping(e.body, inner);
      var body := CompileExpr(e.body, inner);
      if body.result.Ok? {
        ScopingLoopEnd(e, slot.1, loop.ir.cursor, start.cs.vars, body.cs);
      }
    }
  }

  lemma {:induction false} ScopingLoopEnd(e: Expr, slot: Ptr, loop: BlockId, outer: map<string, Ptr>, cs: CState)
    requires e.For? && Ready(cs) && outer.Keys <= cs.vars.Keys && DistinctScopes(e)
    requires NamesAgree(outer) && NamesAgree(cs.vars)
    requires forall x :: x in outer && x != e.varName ==> cs.vars[x] == outer[x]
    ensures var r := LoopEnd(e, slot, loop, outer, cs);
      r.result.Ok? ==> NamesAgree(r.cs.vars) && Preserved(outer, r.cs.vars)
    decreases e, 1
  {
    var step := CompileStep(e, cs);
    if e.step.Some? {
      Scoping(e.step.value, cs);
    }
    if step.result.Err? {
      assert LoopEnd(e, slot, loop, outer, cs) == step;
    } else {
      Scoping(e.end, step.cs);
      var end := CompileExpr(e.end, step.cs);
      if end.result.Err? {
        assert LoopEnd(e, slot, loop, outer, cs) == end;
      } else {
        assert LoopEnd(e, slot, loop, outer, cs) == Latch(e.varName, slot, loop, step.result.value, end.result.value, outer, end.cs);
        LatchUnbinds(e.varName, outer, end.cs.vars);
      }
    }
  }

  /** The latch's unbinding gives the loop variable back its outer binding and leaves the others. */
  lemma LatchUnbinds(name: string, outer: map<string, Ptr>, vars: map<string, Ptr>)
    requires NamesAgree(outer) && NamesAgree(vars)
    requires forall x :: x in outer && x != name ==> x in vars && vars[x] == outer[x]
    ensures var vars' := if name in outer then vars[name := outer[name]] else vars - {name};
      NamesAgree(vars') && Preserved(outer, vars')
  {
  }

  lemma {:induction false} ScopingVarIn(e: Expr, cs: CState)
    requires e.VarIn? && Ready(cs) && NamesAgree(cs.vars) && DistinctScopes(e)
    ensures KeepsScope(cs, CompileExpr(e, cs))
    decreases e, 2
  {
    ScopingBindings(e.bindings, cs, []);
    var bound := CompileBindings(e.bindings, cs, []);
    if bound.result.Ok? {
      Scoping(e.body, bound.cs);
      var body := CompileExpr(e.body, bound.cs);
      if body.result.Ok? {
        var saved := bound.result.value;
        RestoreAgrees(body.cs.vars, saved);
        forall x | x in cs.vars
          ensures x in Restore(body.cs.vars, saved) && Restore(body.cs.vars, saved)[x] == cs.vars[x]
        {
          RestoreLastWins(body.cs.vars, saved, x);
          if x !in Names(e.bindings) {
            LastNamedOutside(saved, x, Names(e.bindings));
          }
        }
      }
    }
  }

  lemma {:induction false} LastNamedOutside(saved: seq<Ptr>, x: string, names: set<string>)
    requires forall j :: 0 <= j < |saved| ==> saved[j].name in names
    requires x !in names
    ensures LastNamed(saved, x) == None
  {
    LastNamedMissing(saved, x);
  }

  /**
   * The binding loop, for distinct names: names it does not bind keep their
   * bindings, and the displaced bindings it returns hold, for each name it
   * binds that was bound before, that earlier binding as the last of its name.
   */
  lemma {:induction false} ScopingBindings(bs: seq<Binding>, cs: CState, saved: seq<Ptr>)
    requires Ready(cs) && NamesAgree(cs.vars) && DistinctNames(bs) && InitsDistinct(bs)
    requires forall j :: 0 <= j < |saved| ==> saved[j].name !in Names(bs)
    ensures var r := CompileBindings(bs, cs, saved);
      r.result.Ok? ==> NamesAgree(r.cs.vars) && Displaced(cs.vars, Names(bs), saved, r.result.value, r.cs.vars)
    decreases bs, 2
  {
    if bs != [] {
      var n := bs[0].name;
      if bs[0].init.Some? {
        Scoping(bs[0].init.value, cs);
      }
      var init := CompileInit(bs[0], cs);
      if init.result.Ok? {
        var c := init.cs;
        var saved' := if n in c.vars then saved + [c.vars[n]] else saved;
        var next := BindSlot(n, init.result.value, c);
        NamesSplit(bs);
        ScopingBindings(bs[1..], next, saved');
        var r := CompileBindings(bs[1..], next, saved');
        if r.result.Ok? {
          BindingStep(Names(bs), n, Names(bs[1..]), cs.vars, c.vars, saved, next.vars, r.result.value, r.cs.vars);
        }
      }
    }
  }

  /**
   * What the binding loop leaves, starting from `vars` with `saved` already
   * displaced and `names` still to bind: the displaced list `out` extends
   * `saved` by slots of those names only, names outside `names` keep their
   * bindings in `vars'`, and each bound name of `names` has its binding from
   * `vars` as the last displaced entry of its name.
   */
  predicate Displaced(vars: map<string, Ptr>, names: set<string>, saved: seq<Ptr>, out: seq<Ptr>, vars': map<string, Ptr>) {
    && |saved| <= |out| && out[..|saved|] == saved
    && (forall j :: |saved| <= j < |out| ==> out[j].name in names)
    && (forall x :: x in vars && x !in names ==> x in vars' && vars'[x] == vars[x])
    && (forall x :: x in vars && x in names ==> LastNamed(out, x) == Some(vars[x]))
  }

  lemma NamesSplit(bs: seq<Binding>)
    requires bs != [] && DistinctNames(bs)
    ensures Names(bs) == {bs[0].name} + Names(bs[1..]) && bs[0].name !in Names(bs[1..])
    ensures DistinctNames(bs[1..])
  {
    forall y | y in Names(bs) ensures y in {bs[0].name} + Names(bs[1..]) {
      var i :| 0 <= i < |bs| && bs[i].name == y;
      if i > 0 { assert bs[1..][i - 1].name == y; }
    }
    forall y | y in Names(bs[1..]) ensures y in Names(bs) && y != bs[0].name {
      var i :| 0 <= i < |bs[1..]| && bs[1..][i].name == y;
      assert bs[i + 1].name == y;
    }
  }

  /** One turn of the binding loop: binding `n` in `c`, on top of what binding the rest does. */
  lemma BindingStep(names: set<string>, n: string, rest: set<string>, vars: map<string, Ptr>, c: map<string, Ptr>,
                    saved: seq<Ptr>, next: map<string, Ptr>, out: seq<Ptr>, vars': map<string, Ptr>)
    requires names == {n} + rest && n !in rest
    requires Preserved(vars, c) && NamesAgree(c)
    requires n in next && forall x :: x in c && x != n ==> x in next && next[x] == c[x]
    requires Displaced(next, rest, if n in c then saved + [c[n]] else saved, out, vars')
    ensures Displaced(vars, names, saved, out, vars')
  {
    var saved' := if n in c then saved + [c[n]] else saved;
    assert out[..|saved|] == out[..|saved'|][..|saved|];
    forall x | x in vars && x in names ensures LastNamed(out, x) == Some(vars[x]) {
      if x == n {
        assert out == out[..|saved|] + [vars[n]] + out[|saved'|..];
        LastNamedAfter(saved, vars[n], out[|saved'|..]);
      }
    }
  }

  /**
   * Without distinct names the outer binding is lost: after
   * `var x, x in ...` the name is bound to the first inner slot, because the
   * displaced bindings are put back in the order they were displaced.
   */
  lemma DuplicateNamesLoseOuterBinding(n: Lexer.Num)
    ensures var outer := Ptr(0, "x");
      var cs := CState(map["x" := outer], Ir(map[], [], [Block(0, "entry", [])], [Slot(0, "x")], 0, 0), 0);
      var r := CompileExpr(VarIn([Binding("x", None), Binding("x", None)], Number(n)), cs);
      r.result.Ok? && r.cs.vars["x"] == Ptr(1, "x") != outer
  {
    var outer := Ptr(0, "x");
    var cs := CState(map["x" := outer], Ir(map[], [], [Block(0, "entry", [])], [Slot(0, "x")], 0, 0), 0);
    var bs := [Binding("x", None), Binding("x", None)];
    var one := BindSlot("x", Zero, cs);
    var two := BindSlot("x", Zero, one);
    var saved := [outer, Ptr(1, "x")];
    assert CompileInit(bs[0], cs) == Compiled(Ok(Zero), cs);
    assert CompileInit(bs[1..][0], one) == Compiled(Ok(Zero), one);
    assert CompileBindings(bs[1..][1..], two, saved) == Scoped(Ok(saved), two);
    assert "x" in one.vars && one.vars["x"] == Ptr(1, "x");
    assert [outer] + [one.vars["x"]] == saved;
    assert bs[1..][0].name == "x";
    assert CompileBindings(bs[1..], one, [outer]) == Scoped(Ok(saved), two);
    assert "x" in cs.vars && [] + [cs.vars["x"]] == [outer];
    assert CompileBindings(bs, cs, []) == Scoped(Ok(saved), two);
    var e := VarIn(bs, Number(n));
    assert CompileExpr(Number(n), two) == Compiled(Ok(Literal(n)), two);
    assert CompileExpr(e, cs) == CompileVarIn(e, cs);
    RestoreLastWins(two.vars, saved, "x");
    assert LastNamed(saved, "x") == Some(Ptr(1, "x")) by {
      assert saved[1..] == [Ptr(1, "x")];
      assert LastNamed([Ptr(1, "x")], "x") == Some(Ptr(1, "x")) by {
        assert [Ptr(1, "x")][1..] == [];
      }
    }
  }

  /** Every name a successful `var..in` binds is still bound afterwards, also those that were unbound before. */
  lemma VarInKeepsItsNames(e: Expr, cs: CState)
    requires e.VarIn? && Ready(cs)
    ensures var r := CompileExpr(e, cs);
      r.result.Ok? ==> forall i :: 0 <= i < |e.bindings| ==> e.bindings[i].name in r.cs.vars
  {
    BindingsBind(e.bindings, cs, []);
  }

  lemma {:induction false} BindingsBind(bs: seq<Binding>, cs: CState, saved: seq<Ptr>)
    requires Ready(cs)
    ensures var r := CompileBindings(bs, cs, saved);
      r.result.Ok? ==> forall i :: 0 <= i < |bs| ==> bs[i].name in r.cs.vars
    decreases |bs|
  {
    if bs != [] {
      var init := CompileInit(bs[0], cs);
      if init.result.Ok? {
        var c := init.cs;
        var saved' := if bs[0].name in c.vars then saved + [c.vars[bs[0].name]] else saved;
        var next := BindSlot(bs[0].name, init.result.value, c);
        BindingsBind(bs[1..], next, saved');
        var r := CompileBindings(bs[1..], next, saved');
        if r.result.Ok? {
          forall i | 0 <= i < |bs| ensures bs[i].name in r.cs.vars {
            if i > 0 { assert bs[i] == bs[1..][i - 1]; }
          }
        }
      }
    }
  }

  // ---------------------------------------------------------------------
  // `for`

  /**
   * A successful `for` yields 0.0, and afterwards its variable is bound as it
   * was once `start` had been compiled (which, with `start` compiled before
   * the variable is bound, is the binding from before the loop unless
   * `start` itself binds the name), or unbound.
   */
  lemma ForRestoresVariable(e: Expr, cs: CState)
    requires e.For? && Ready(cs)
    ensures var r := CompileExpr(e, cs);
      var s := CompileExpr(e.start, cs.(ir := Alloca(cs.ir, cs.fn, e.varName).0));
      r.result.Ok? ==>
        && r.result == Ok(Zero)
        && (e.varName in r.cs.vars <==> e.varName in s.cs.vars)
        && (e.varName in s.cs.vars ==> r.cs.vars[e.varName] == s.cs.vars[e.varName])
  {
    var slot := Alloca(cs.ir, cs.fn, e.varName);
    var start := CompileExpr(e.start, cs.(ir := slot.0));
    assert CompileExpr(e, cs) == CompileFor(e, cs);
    if start.result.Ok? {
      var loop := EnterLoop(start.cs, slot.1, start.result.value);
      var body := CompileExpr(e.body, loop.(vars := start.cs.vars[e.varName := slot.1]));
      if body.result.Ok? {
        LoopEndRestores(e, slot.1, loop.ir.cursor, start.cs.vars, body.cs);
      }
    }
  }

  lemma LoopEndRestores(e: Expr, slot: Ptr, loop: BlockId, outer: map<string, Ptr>, cs: CState)
    requires e.For? && Ready(cs) && outer.Keys <= cs.vars.Keys
    ensures var r := LoopEnd(e, slot, loop, outer, cs);
      r.result.Ok? ==>
        && r.result == Ok(Zero)
        && (e.varName in r.cs.vars <==> e.varName in outer)
        && (e.varName in outer ==> r.cs.vars[e.varName] == outer[e.varName])
  {
    var step := CompileStep(e, cs);
    if step.result.Ok? {
      var end := CompileExpr(e.end, step.cs);
      if end.result.Ok? {
        var r := Latch(e.varName, slot, loop, step.result.value, end.result.value, outer, end.cs);
        assert LoopEnd(e, slot, loop, outer, cs) == r;
      }
    }
  }

  // ---------------------------------------------------------------------
  // Parameters

  /** The index of the last occurrence of `x` in `args`, or -1. */
  function LastIndex(args: seq<string>, x: string): (k: int)
    ensures -1 <= k < |args|
    ensures k >= 0 ==> args[k] == x && forall j :: k < j < |args| ==> args[j] != x
    ensures k < 0 ==> x !in args
  {
    if args == [] then -1
    else if Last(args) == x then |args| - 1
    else LastIndex(args[..|args| - 1], x)
  }

  /**
   * Parameters `i..` get consecutive new slots from `base` on; a name given
   * twice ends up bound to the slot of its later occurrence, and other names
   * keep what they had in `vars`.
   */
  ghost predicate ParamSlots(args: seq<string>, i: nat, base: nat, vars: map<string, Ptr>, vars': map<string, Ptr>)
    requires i <= |args|
  {
    && (forall j :: i <= j < |args| ==> args[j] in vars' && vars'[args[j]] == Ptr(base + LastIndex(args, args[j]) - i, args[j]))
    && (forall x :: x !in args[i..] ==> (x in vars' <==> x in vars) && (x in vars ==> vars'[x] == vars[x]))
  }

  lemma {:induction false} ParamsLaterWins(args: seq<string>, i: nat, cs: CState)
    requires i <= |args| && Ready(cs)
    ensures ParamSlots(args, i, |cs.ir.slots|, cs.vars, BindParams(args, i, cs).vars)
    decreases |args| - i
  {
    if i < |args| {
      var slot := Alloca(cs.ir, cs.fn, args[i]);
      var next := cs.(ir := Emit(slot.0, Store(slot.1, Param(cs.fn, i))), vars := cs.vars[args[i] := slot.1]);
      ParamsLaterWins(args, i + 1, next);
      ParamStep(args, i, |cs.ir.slots|, cs.vars, BindParams(args, i + 1, next).vars);
    }
  }

  lemma ParamStep(args: seq<string>, i: nat, base: nat, vars: map<string, Ptr>, vars': map<string, Ptr>)
    requires i < |args|
    requires ParamSlots(args, i + 1, base + 1, vars[args[i] := Ptr(base, args[i])], vars')
    ensures ParamSlots(args, i, base, vars, vars')
  {
    forall k | i < k < |args| ensures args[k] in args[i + 1..] {
      assert args[k] == args[i + 1..][k - i - 1];
    }
    forall j | i <= j < |args|
      ensures args[j] in vars' && vars'[args[j]] == Ptr(base + LastIndex(args, args[j]) - i, args[j])
    {
      if args[j] in args[i + 1..] {
        var t :| 0 <= t < |args[i + 1..]| && args[i + 1..][t] == args[j];
        assert args[i + 1 + t] == args[j];
      }
    }
    assert args[i..] == [args[i]] + args[i + 1..];
  }

  // ---------------------------------------------------------------------
  // `compile_fn`

  /** An extern only declares its prototype: no block is added, and the name resolves. */
  lemma ExternOnlyDeclares(f: Function, ir: Ir, verify: (Ir, FnId) -> bool)
    requires f.body.None?
    ensures var r := CompileFn(f, ir, verify);
      && r.result == Ok(|ir.funcs|)
      && r.ir.blocks == ir.blocks
      && r.ir.funcs == ir.funcs + [Func(f.proto.name, f.proto.args, false, false)]
      && f.proto.name in r.ir.symbols
  {
  }

  /**
   * With a body: an error in the body leaves the function declared and not
   * deleted; only a rejected function is deleted, with its own message; an
   * accepted one is optimized and returned. The verifier decides between the
   * last two: one that accepts everything never rejects, one that rejects
   * everything never lets a function through.
   */
  lemma FnOutcomes(f: Function, ir: Ir, verify: (Ir, FnId) -> bool)
    requires f.body.Some?
    ensures var r := CompileFn(f, ir, verify);
      var fn := |ir.funcs|;
      && fn < |r.ir.funcs|
      && (r.result.Err? && r.result.msg != InvalidFunction ==>
            !r.ir.funcs[fn].deleted && f.proto.name in r.ir.symbols
            && (f.proto.name !in ir.symbols ==> r.ir.symbols[f.proto.name] == fn))
      && (r.result == Err(InvalidFunction) ==>
            r.ir.funcs[fn].deleted && forall n :: n in r.ir.symbols ==> r.ir.symbols[n] != fn)
      && (r.result.Ok? ==> r.result.value == fn && r.ir.funcs[fn].optimized && !r.ir.funcs[fn].deleted)
      && ((forall g, n :: verify(g, n)) ==> r.result != Err(InvalidFunction))
      && ((forall g, n :: !verify(g, n)) ==> !r.result.Ok?)
  {
    var decl := CompilePrototype(f.proto, ir);
    var entry := AppendBlock(decl.0, decl.1, "entry");
    var params := BindParams(f.proto.args, 0, CState(map[], PositionAtEnd(entry.0, entry.1), decl.1));
    var body := CompileExpr(f.body.value, params);
    assert body.result.Err? ==> body.result.msg != InvalidFunction;
  }

  /**
   * The verifier is consulted only once the body has compiled: with one that
   * accepts everything a function succeeds exactly when, with one that
   * rejects everything, it is rejected as invalid; any other error is the
   * same under both.
   */
  lemma VerifierDecides(f: Function, ir: Ir, accept: (Ir, FnId) -> bool, reject: (Ir, FnId) -> bool)
    requires f.body.Some?
    requires forall g, n :: accept(g, n)
    requires forall g, n :: !reject(g, n)
    ensures var a := CompileFn(f, ir, accept); var b := CompileFn(f, ir, reject);
      && (a.result.Ok? <==> b.result == Err(InvalidFunction))
      && (a.result.Err? ==> b.result == a.result && b.ir == a.ir)
  {
  }

  /**
   * Generating a function only adds blocks, all of them its own, starting
   * with `entry`; blocks of earlier functions are left alone, and a
   * successful body ends with a return of its value where generation ended.
   */
  lemma FnBlocks(f: Function, ir: Ir, verify: (Ir, FnId) -> bool)
    requires f.body.Some?
    ensures var r := CompileFn(f, ir, verify);
      var fn := |ir.funcs|;
      && |ir.blocks| < |r.ir.blocks|
      && r.ir.blocks[|ir.blocks|].fn == fn && r.ir.blocks[|ir.blocks|].name == "entry"
      && (forall k :: 0 <= k < |ir.blocks| ==> r.ir.blocks[k] == ir.blocks[k])
      && (forall k :: |ir.blocks| <= k < |r.ir.blocks| ==> r.ir.blocks[k].fn == fn)
      && (r.result.Ok? ==>
            var insts := r.ir.blocks[r.ir.cursor].insts;
            |ir.blocks| <= r.ir.cursor < |r.ir.blocks| && insts != [] && Last(insts).Ret?)
  {
    var decl := CompilePrototype(f.proto, ir);
    var entry := AppendBlock(decl.0, decl.1, "entry");
    var start := CState(map[], PositionAtEnd(entry.0, entry.1), decl.1);
    var params := BindParams(f.proto.args, 0, start);
    var body := CompileExpr(f.body.value, params);
    KeepsTrans(start, params, body.cs);
    var r := CompileFn(f, ir, verify);
    if body.result.Err? {
      assert r.ir == body.cs.ir;
    } else {
      var built := Emit(body.cs.ir, Ret(body.result.value));
      assert r.ir.blocks == built.blocks && r.ir.cursor == built.cursor;
    }
  }
}
