/**
 * The code generator: `compile_expr`, `compile_prototype` and `compile_fn`,
 * driving the abstract backend of module `Backend`.
 *
 * The compiler's mutable fields become an explicit state: the name-to-slot
 * map `vars`, the backend `ir`, and the function being generated, `fn`.
 * Every operation returns its result together with the state it leaves,
 * also on error, because an error does not undo what was already emitted.
 */
module Compiler {
  import opened Options
  import opened Ast
  import opened Backend

  /** A `Result<_, &'static str>`. */
  datatype Result<+T> = Ok(value: T) | Err(msg: string)

  const UnknownVariable := "Could not find a matching variable."
  const AssignTarget := "Expected variable as left-hand operator of assignement."
  const UndefinedVariable := "Undefined variable."
  const UndefinedOperator := "Undefined binary operator."
  const UnknownFunction := "Unknown function."
  const InvalidFunction := "Invalid generated function."

  /** The compiler's state while it generates the body of `fn`. */
  datatype CState = CState(vars: map<string, Ptr>, ir: Ir, fn: FnId)

  datatype Compiled = Compiled(result: Result<Val>, cs: CState)

  /** The values of a call's arguments. */
  datatype CompiledArgs = CompiledArgs(result: Result<seq<Val>>, cs: CState)

  /** The bindings a `var..in` displaced, in the order it displaced them. */
  datatype Scoped = Scoped(result: Result<seq<Ptr>>, cs: CState)

  datatype FnResult = FnResult(result: Result<FnId>, ir: Ir)

  /** The builder has an insertion point. */
  predicate Ready(cs: CState) {
    cs.ir.cursor < |cs.ir.blocks|
  }

  /**
   * What generating code for an expression never changes: the function being
   * built, and the declared functions. Blocks and slots are only ever added.
   */
  predicate Keeps(cs: CState, cs': CState) {
    Follows(cs, cs') && (cs'.ir.cursor == cs.ir.cursor || |cs.ir.blocks| <= cs'.ir.cursor)
  }

  /** `Keeps` without the constraint on where the insertion point ends up. */
  predicate Follows(cs: CState, cs': CState) {
    && cs'.fn == cs.fn
    && cs'.ir.symbols == cs.ir.symbols
    && cs'.ir.funcs == cs.ir.funcs
    && |cs.ir.slots| <= |cs'.ir.slots|
    && Grows(cs.ir, cs'.ir, cs.fn)
  }

  /** The messages `compile_expr` can fail with. */
  predicate ExprError(msg: string) {
    msg in {UnknownVariable, AssignTarget, UndefinedVariable, UndefinedOperator, UnknownFunction}
  }

  lemma KeepsTrans(a: CState, b: CState, c: CState)
    requires Keeps(a, b) && Keeps(b, c)
    ensures Keeps(a, c)
  {
    assert Extends(a.ir, b.ir, a.fn) && Extends(b.ir, c.ir, a.fn);
    ExtendsTrans(a.ir, b.ir, c.ir, a.fn);
  }

  lemma KeepsEmit(cs: CState, inst: Inst)
    requires Ready(cs)
    ensures Keeps(cs, cs.(ir := Emit(cs.ir, inst)))
  {
  }

  /** A jump out of the code generated since `a` into a block that is new since `a`. */
  lemma KeepsJump(a: CState, b: CState, c: CState)
    requires Keeps(a, b) && Follows(b, c) && |a.ir.blocks| <= c.ir.cursor
    ensures Keeps(a, c)
  {
    assert Extends(a.ir, b.ir, a.fn);
    ExtendsThenGrows(a.ir, b.ir, c.ir, a.fn);
  }

  /** Replaces the backend of `cs` with the first component of `m` and returns the second. */
  function Then(cs: CState, m: (Ir, Val)): Compiled {
    Compiled(Ok(m.1), cs.(ir := m.0))
  }

  function CompileExpr(e: Expr, cs: CState): (r: Compiled)
    requires Ready(cs)
    ensures Ready(r.cs) && Keeps(cs, r.cs)
    ensures r.result.Err? ==> ExprError(r.result.msg)
    ensures cs.vars.Keys <= r.cs.vars.Keys
    decreases e, 3
  {
    match e
    case Number(n) => Compiled(Ok(Literal(n)), cs)
    case Variable(name) =>
      if name in cs.vars then Then(cs, Define(cs.ir, (d: nat) => Load(d, cs.vars[name])))
      else Compiled(Err(UnknownVariable), cs)
    case VarIn(_, _) => CompileVarIn(e, cs)
    case Binary(_, _, _) => CompileBinary(e, cs)
    case Call(_, _) => CompileCall(e, cs)
    case Conditional(_, _, _) => CompileIf(e, cs)
    case For(_, _, _, _, _) => CompileFor(e, cs)
  }

  /** `var..in`: bind each name to a new slot, compile the body, then put the displaced bindings back. */
  function CompileVarIn(e: Expr, cs: CState): (r: Compiled)
    requires e.VarIn? && Ready(cs)
    ensures Ready(r.cs) && Keeps(cs, r.cs)
    ensures r.result.Err? ==> ExprError(r.result.msg)
    ensures cs.vars.Keys <= r.cs.vars.Keys
    decreases e, 2
  {
    var bound := CompileBindings(e.bindings, cs, []);
    if bound.result.Err? then Compiled(Err(bound.result.msg), bound.cs)
    else
      var body := CompileExpr(e.body, bound.cs);
      KeepsTrans(cs, bound.cs, body.cs);
      if body.result.Err? then body
      else Compiled(body.result, body.cs.(vars := Restore(body.cs.vars, bound.result.value)))
  }

  /**
   * The binding loop of `var..in`: each initializer is compiled with the
   * bindings of the earlier entries in place; a missing one stores 0.0.
   * `saved` collects the bindings displaced so far.
   */
  function CompileBindings(bs: seq<Binding>, cs: CState, saved: seq<Ptr>): (r: Scoped)
    requires Ready(cs)
    ensures Ready(r.cs) && Keeps(cs, r.cs)
    ensures r.result.Err? ==> ExprError(r.result.msg)
    ensures cs.vars.Keys <= r.cs.vars.Keys
    decreases bs, 2
  {
    if bs == [] then Scoped(Ok(saved), cs)
    else
      var init := CompileInit(bs[0], cs);
      if init.result.Err? then Scoped(Err(init.result.msg), init.cs)
      else
        var c := init.cs;
        var saved' := if bs[0].name in c.vars then saved + [c.vars[bs[0].name]] else saved;
        var next := BindSlot(bs[0].name, init.result.value, c);
        var r := CompileBindings(bs[1..], next, saved');
        KeepsTrans(cs, c, next);
        KeepsTrans(cs, next, r.cs);
        r
  }

  /** The initial value of one `var..in` entry: its initializer, or 0.0 when it has none. */
  function CompileInit(b: Binding, cs: CState): (r: Compiled)
    requires Ready(cs)
    ensures Ready(r.cs) && Keeps(cs, r.cs)
    ensures r.result.Err? ==> ExprError(r.result.msg)
    ensures cs.vars.Keys <= r.cs.vars.Keys
    decreases b, 0
  {
    if b.init.Some? then CompileExpr(b.init.value, cs) else Compiled(Ok(Zero), cs)
  }

  /** Stores `v` into a new slot named `name` and binds `name` to it, displacing any earlier binding. */
  function BindSlot(name: string, v: Val, cs: CState): (r: CState)
    requires Ready(cs)
    ensures Ready(r) && Keeps(cs, r)
    ensures r.vars == cs.vars[name := Ptr(|cs.ir.slots|, name)]
  {
    var slot := Alloca(cs.ir, cs.fn, name);
    cs.(ir := Emit(slot.0, Store(slot.1, v)), vars := cs.vars[name := slot.1])
  }

  /** Reinserts displaced bindings in order, each under its slot's own name. */
  function Restore(vars: map<string, Ptr>, saved: seq<Ptr>): (r: map<string, Ptr>)
    ensures vars.Keys <= r.Keys
    decreases |saved|
  {
    if saved == [] then vars else Restore(vars[saved[0].name := saved[0]], saved[1..])
  }

  /** A binary expression: an assignment, or an operator applied to both operands compiled left to right. */
  function CompileBinary(e: Expr, cs: CState): (r: Compiled)
    requires e.Binary? && Ready(cs)
    ensures Ready(r.cs) && Keeps(cs, r.cs)
    ensures r.result.Err? ==> ExprError(r.result.msg)
    ensures cs.vars.Keys <= r.cs.vars.Keys
    decreases e, 2
  {
    if e.op == '=' then CompileAssign(e, cs)
    else
      var lhs := CompileExpr(e.left, cs);
      if lhs.result.Err? then lhs
      else
        var rhs := CompileExpr(e.right, lhs.cs);
        KeepsTrans(cs, lhs.cs, rhs.cs);
        if rhs.result.Err? then rhs
        else
          var r := Operate(e.op, lhs.result.value, rhs.result.value, rhs.cs);
          KeepsTrans(cs, rhs.cs, r.cs);
          r
  }

  /** `x = value`: the value is compiled before `x` is looked up, and stored into `x`'s slot. */
  function CompileAssign(e: Expr, cs: CState): (r: Compiled)
    requires e.Binary? && Ready(cs)
    ensures Ready(r.cs) && Keeps(cs, r.cs)
    ensures r.result.Err? ==> ExprError(r.result.msg)
    ensures cs.vars.Keys <= r.cs.vars.Keys
    decreases e, 1
  {
    if !e.left.Variable? then Compiled(Err(AssignTarget), cs)
    else
      var rhs := CompileExpr(e.right, cs);
      if rhs.result.Err? then rhs
      else if e.left.name !in rhs.cs.vars then Compiled(Err(UndefinedVariable), rhs.cs)
      else
        var c := rhs.cs;
        var stored := c.(ir := Emit(c.ir, Store(c.vars[e.left.name], rhs.result.value)));
        KeepsEmit(c, Store(c.vars[e.left.name], rhs.result.value));
        KeepsTrans(cs, c, stored);
        Compiled(rhs.result, stored)
  }

  /** The operator of a non-assignment binary expression, applied to compiled operands. */
  function Operate(op: char, a: Val, b: Val, cs: CState): (r: Compiled)
    requires Ready(cs)
    ensures Ready(r.cs) && Keeps(cs, r.cs)
    ensures r.result.Err? ==> ExprError(r.result.msg)
    ensures r.cs.vars == cs.vars
  {
    if op == '+' then Then(cs, Define(cs.ir, (d: nat) => Arith(d, FAdd, a, b)))
    else if op == '-' then Then(cs, Define(cs.ir, (d: nat) => Arith(d, FSub, a, b)))
    else if op == '*' then Then(cs, Define(cs.ir, (d: nat) => Arith(d, FMul, a, b)))
    else if op == '/' then Then(cs, Define(cs.ir, (d: nat) => Arith(d, FDiv, a, b)))
    else if op == '<' then
      var cmp := Define(cs.ir, (d: nat) => Compare(d, ULT, a, b));
      Then(cs, Define(cmp.0, (d: nat) => ToFloat(d, cmp.1)))
    else if op == '>' then
      var cmp := Define(cs.ir, (d: nat) => Compare(d, ULT, b, a));
      Then(cs, Define(cmp.0, (d: nat) => ToFloat(d, cmp.1)))
    else
      var name := BinaryName(op);
      if name in cs.ir.symbols then Then(cs, Define(cs.ir, (d: nat) => CallFn(d, cs.ir.symbols[name], [a, b])))
      else Compiled(Err(UndefinedOperator), cs)
  }

  /** A call: the callee is looked up before any argument is compiled. */
  function CompileCall(e: Expr, cs: CState): (r: Compiled)
    requires e.Call? && Ready(cs)
    ensures Ready(r.cs) && Keeps(cs, r.cs)
    ensures r.result.Err? ==> ExprError(r.result.msg)
    ensures cs.vars.Keys <= r.cs.vars.Keys
    decreases e, 2
  {
    match GetFunction(cs.ir, e.callee)
    case None => Compiled(Err(UnknownFunction), cs)
    case Some(callee) =>
      var args := CompileArgs(e.args, cs);
      if args.result.Err? then Compiled(Err(args.result.msg), args.cs)
      else Then(args.cs, Define(args.cs.ir, (d: nat) => CallFn(d, callee, args.result.value)))
  }

  /** Compiles the arguments left to right, stopping at the first error. */
  function CompileArgs(args: seq<Expr>, cs: CState): (r: CompiledArgs)
    requires Ready(cs)
    ensures Ready(r.cs) && Keeps(cs, r.cs)
    ensures r.result.Err? ==> ExprError(r.result.msg)
    ensures cs.vars.Keys <= r.cs.vars.Keys
    ensures r.result.Ok? ==> |r.result.value| == |args|
    decreases args, 2
  {
    if args == [] then CompiledArgs(Ok([]), cs)
    else
      var first := CompileExpr(args[0], cs);
      if first.result.Err? then CompiledArgs(Err(first.result.msg), first.cs)
      else
        var rest := CompileArgs(args[1..], first.cs);
        if rest.result.Err? then rest
        else CompiledArgs(Ok([first.result.value] + rest.result.value), rest.cs)
  }

  /** `if`: branch on the condition being not equal to 0.0, and merge both arms' values with a phi. */
  function CompileIf(e: Expr, cs: CState): (r: Compiled)
    requires e.Conditional? && Ready(cs)
    ensures Ready(r.cs) && Keeps(cs, r.cs)
    ensures r.result.Err? ==> ExprError(r.result.msg)
    ensures cs.vars.Keys <= r.cs.vars.Keys
    decreases e, 2
  {
    var c := CompileExpr(e.cond, cs);
    if c.result.Err? then c
    else
      var fork := BranchOn(c.result.value, c.cs);
      var a := CompileExpr(e.consequence, fork.cs);
      KeepsTrans(cs, c.cs, fork.cs);
      KeepsTrans(cs, fork.cs, a.cs);
      if a.result.Err? then a
      else
        var toElse := Jump(a.cs, fork.cont, fork.cont - 1);
        KeepsJump(cs, a.cs, toElse);
        CompileElse(e, fork.cont, Incoming(a.result.value, a.cs.ir.cursor), toElse, cs)
  }

  /**
   * The `else` arm of an `if` and the merge: both arms end in a branch to
   * `ifcont`, where a phi takes each arm's value from the block that arm
   * ended in (`fromThen` for the `then` arm). `base` is the state the `if`
   * started from; `ifcont` is new since then.
   */
  function CompileElse(e: Expr, cont: BlockId, fromThen: Incoming, cs: CState, ghost base: CState): (r: Compiled)
    requires e.Conditional? && Ready(cs) && cont < |cs.ir.blocks|
    requires Keeps(base, cs) && |base.ir.blocks| <= cont && base.vars.Keys <= cs.vars.Keys
    ensures Ready(r.cs) && Keeps(base, r.cs)
    ensures r.result.Err? ==> ExprError(r.result.msg)
    ensures base.vars.Keys <= r.cs.vars.Keys
    decreases e, 1
  {
    var b := CompileExpr(e.alternative, cs);
    KeepsTrans(base, cs, b.cs);
    if b.result.Err? then b
    else
      var merge := Jump(b.cs, cont, cont);
      KeepsJump(base, b.cs, merge);
      var r := Then(merge, Define(merge.ir, (d: nat) => Phi(d, [fromThen, Incoming(b.result.value, b.cs.ir.cursor)])));
      KeepsTrans(base, merge, r.cs);
      r
  }

  /** Where an `if` goes on after its condition: the `then` arm, with `else` and `ifcont` waiting. */
  datatype Fork = Fork(cs: CState, cont: BlockId)

  /**
   * Compares the condition with 0.0, appends the `then`, `else` and `ifcont`
   * blocks, branches on the comparison and moves to `then`.
   */
  function BranchOn(cond: Val, cs: CState): (r: Fork)
    requires Ready(cs)
    ensures Ready(r.cs) && Keeps(cs, r.cs) && r.cs.vars == cs.vars
    ensures r.cont == |cs.ir.blocks| + 2 < |r.cs.ir.blocks| && r.cs.ir.cursor == |cs.ir.blocks|
  {
    var test := Define(cs.ir, (d: nat) => Compare(d, ONE, cond, Zero));
    var thenB := AppendBlock(test.0, cs.fn, "then");
    var elseB := AppendBlock(thenB.0, cs.fn, "else");
    var contB := AppendBlock(elseB.0, cs.fn, "ifcont");
    Fork(cs.(ir := PositionAtEnd(Emit(contB.0, CondBr(test.1, thenB.1, elseB.1)), thenB.1)), contB.1)
  }

  /** Ends the current block with a branch to `target` and continues in block `next`. */
  function Jump(cs: CState, target: BlockId, next: BlockId): (r: CState)
    requires Ready(cs) && next < |cs.ir.blocks|
    ensures Ready(r) && r.vars == cs.vars && r.ir.cursor == next
    ensures Follows(cs, r)
  {
    cs.(ir := PositionAtEnd(Emit(cs.ir, Br(target)), next))
  }

  /**
   * `for`: the slot is allocated and the start value compiled before the
   * variable is bound; body, step and end are compiled with it bound.
   */
  function CompileFor(e: Expr, cs: CState): (r: Compiled)
    requires e.For? && Ready(cs)
    ensures Ready(r.cs) && Keeps(cs, r.cs)
    ensures r.result.Err? ==> ExprError(r.result.msg)
    ensures cs.vars.Keys <= r.cs.vars.Keys
    decreases e, 2
  {
    var slot := Alloca(cs.ir, cs.fn, e.varName);
    var start := CompileExpr(e.start, cs.(ir := slot.0));
    if start.result.Err? then start
    else
      var loop := EnterLoop(start.cs, slot.1, start.result.value);
      var outer := start.cs.vars;
      var body := CompileExpr(e.body, loop.(vars := outer[e.varName := slot.1]));
      KeepsTrans(cs, start.cs, loop);
      KeepsTrans(cs, loop, body.cs);
      if body.result.Err? then body
      else
        var r := LoopEnd(e, slot.1, loop.ir.cursor, outer, body.cs);
        KeepsTrans(cs, body.cs, r.cs);
        r
  }

  /** The rest of a `for` once the body is compiled: step (1.0 when absent), end, then the latch. */
  function LoopEnd(e: Expr, slot: Ptr, loop: BlockId, outer: map<string, Ptr>, cs: CState): (r: Compiled)
    requires e.For? && Ready(cs) && outer.Keys <= cs.vars.Keys
    ensures Ready(r.cs) && Keeps(cs, r.cs)
    ensures r.result.Err? ==> ExprError(r.result.msg)
    ensures outer.Keys <= r.cs.vars.Keys
    decreases e, 1
  {
    var step := CompileStep(e, cs);
    if step.result.Err? then step
    else
      var end := CompileExpr(e.end, step.cs);
      KeepsTrans(cs, step.cs, end.cs);
      if end.result.Err? then end
      else
        var r := Latch(e.varName, slot, loop, step.result.value, end.result.value, outer, end.cs);
        KeepsTrans(cs, end.cs, r.cs);
        r
  }

  /** The step of a `for`, 1.0 when absent. */
  function CompileStep(e: Expr, cs: CState): (r: Compiled)
    requires e.For? && Ready(cs)
    ensures Ready(r.cs) && Keeps(cs, r.cs)
    ensures r.result.Err? ==> ExprError(r.result.msg)
    ensures cs.vars.Keys <= r.cs.vars.Keys
    decreases e, 0
  {
    if e.step.Some? then CompileExpr(e.step.value, cs) else Compiled(Ok(One), cs)
  }

  /** Stores the start value, branches into a new `loop` block and continues there. */
  function EnterLoop(cs: CState, slot: Ptr, start: Val): (r: CState)
    requires Ready(cs)
    ensures Ready(r) && Keeps(cs, r) && r.vars == cs.vars
    ensures r.ir.cursor == |cs.ir.blocks| && |r.ir.blocks| == |cs.ir.blocks| + 1
  {
    var loop := AppendBlock(Emit(cs.ir, Store(slot, start)), cs.fn, "loop");
    cs.(ir := PositionAtEnd(Emit(loop.0, Br(loop.1)), loop.1))
  }

  /**
   * The end of a `for` loop: increment the variable, branch back to `loop`
   * while the end value is not 0.0, continue in `afterloop`, and give the
   * name back the binding it had in `outer`, or none.
   */
  function Latch(name: string, slot: Ptr, loop: BlockId, step: Val, end: Val, outer: map<string, Ptr>, cs: CState): (r: Compiled)
    requires Ready(cs)
    ensures Ready(r.cs) && Keeps(cs, r.cs)
    ensures r.result == Ok(Zero)
    ensures outer.Keys <= cs.vars.Keys ==> outer.Keys <= r.cs.vars.Keys
  {
    var cur := Define(cs.ir, (d: nat) => Load(d, slot));
    var next := Define(cur.0, (d: nat) => Arith(d, FAdd, cur.1, step));
    var test := Define(Emit(next.0, Store(slot, next.1)), (d: nat) => Compare(d, ONE, end, Zero));
    var after := AppendBlock(test.0, cs.fn, "afterloop");
    var ir := PositionAtEnd(Emit(after.0, CondBr(test.1, loop, after.1)), after.1);
    var vars := if name in outer then cs.vars[name := outer[name]] else cs.vars - {name};
    Compiled(Ok(Zero), cs.(ir := ir, vars := vars))
  }

  /** `compile_prototype`: declares a function taking `|args|` doubles; it cannot fail. */
  function CompilePrototype(proto: Prototype, ir: Ir): (r: (Ir, FnId))
    ensures r.1 == |ir.funcs| && |r.0.funcs| == |ir.funcs| + 1
    ensures r.0.funcs[r.1] == Func(proto.name, proto.args, false, false)
    ensures proto.name in r.0.symbols && (proto.name !in ir.symbols ==> r.0.symbols[proto.name] == r.1)
    ensures r.0.blocks == ir.blocks
  {
    AddFunction(ir, proto.name, proto.args)
  }

  /** Binds parameters `i..` of `fn`, each to a new slot holding the parameter's value. */
  function BindParams(args: seq<string>, i: nat, cs: CState): (r: CState)
    requires i <= |args| && Ready(cs)
    ensures Ready(r) && Keeps(cs, r)
    ensures cs.vars.Keys <= r.vars.Keys
    decreases |args| - i
  {
    if i == |args| then cs
    else
      var slot := Alloca(cs.ir, cs.fn, args[i]);
      var ir := Emit(slot.0, Store(slot.1, Param(cs.fn, i)));
      BindParams(args, i + 1, cs.(ir := ir, vars := cs.vars[args[i] := slot.1]))
  }

  /**
   * `compile`/`compile_fn`: declare the prototype; for a body, start an
   * `entry` block, bind the parameters, compile the body and return its
   * value. `verify` stands for LLVM's function verifier.
   */
  function CompileFn(f: Function, ir: Ir, verify: (Ir, FnId) -> bool): (r: FnResult)
    ensures |r.ir.funcs| == |ir.funcs| + 1 && r.ir.funcs[..|ir.funcs|] == ir.funcs
    ensures r.ir.funcs[|ir.funcs|].name == f.proto.name && r.ir.funcs[|ir.funcs|].params == f.proto.args
    ensures r.result.Ok? ==> r.result.value == |ir.funcs|
    ensures f.body.None? ==> r.result.Ok? && !r.ir.funcs[|ir.funcs|].optimized
    ensures r.result.Err? ==> f.body.Some? && (r.result.msg == InvalidFunction || ExprError(r.result.msg))
    ensures r.ir.funcs[|ir.funcs|].deleted <==> r.result == Err(InvalidFunction)
  {
    var decl := CompilePrototype(f.proto, ir);
    var fn := decl.1;
    if f.body.None? then FnResult(Ok(fn), decl.0)
    else
      var entry := AppendBlock(decl.0, fn, "entry");
      var params := BindParams(f.proto.args, 0, CState(map[], PositionAtEnd(entry.0, entry.1), fn));
      var body := CompileExpr(f.body.value, params);
      if body.result.Err? then FnResult(Err(body.result.msg), body.cs.ir)
      else
        var built := Emit(body.cs.ir, Ret(body.result.value));
        if verify(built, fn) then FnResult(Ok(fn), Optimize(built, fn))
        else FnResult(Err(InvalidFunction), Delete(built, fn))
  }
}
