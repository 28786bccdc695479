/**
 * The control flow `if` and `for` generate: which blocks they add, how the
 * blocks end, and where the builder is left.
 */
module CompilerCfg {
  import opened Options
  import opened Ast
  import opened Backend
  import opened Compiler

  /** `b` ends with an unconditional branch to `k`. */
  predicate BranchesTo(b: Block, k: BlockId) {
    b.insts != [] && Last(b.insts) == Br(k)
  }

  /** `b` ends by testing a value for being not equal to 0.0 and branching on it to `t` or `f`. */
  predicate Tests(b: Block, t: BlockId, f: BlockId) {
    && |b.insts| >= 2
    && var test := b.insts[|b.insts| - 2];
    && test.Compare? && test.pred == ONE && test.b == Zero
    && Last(b.insts) == CondBr(Reg(test.dst), t, f)
  }

  /** The `if` merge: the insertion point holds nothing but a phi of two values that flow in from two distinct blocks, each ending with a branch here. */
  predicate Merges(ir: Ir, v: Val) {
    var k := ir.cursor;
    && k < |ir.blocks|
    && |ir.blocks[k].insts| == 1 && ir.blocks[k].insts[0].Phi?
    && var phi := ir.blocks[k].insts[0];
    && v == Reg(phi.dst)
    && |phi.incoming| == 2 && phi.incoming[0].from != phi.incoming[1].from
    && (forall i :: 0 <= i < 2 ==> phi.incoming[i].from < |ir.blocks| && BranchesTo(ir.blocks[phi.incoming[i].from], k))
  }

  // ---------------------------------------------------------------------
  // `if`

  /**
   * A successful `if` leaves the builder in its `ifcont` block, right after
   * the `then` and `else` blocks it appended; an earlier block branches to
   * `then` or `else` on the condition being not 0.0, and `ifcont` holds only
   * the phi that is the result.
   */
  predicate IfShaped(r: Compiled) {
    var ir := r.cs.ir;
    var k := ir.cursor;
    r.result.Ok? ==>
      && 2 <= k < |ir.blocks|
      && ir.blocks[k - 2].name == "then" && ir.blocks[k - 1].name == "else" && ir.blocks[k].name == "ifcont"
      && (exists j :: 0 <= j < k - 2 && Tests(ir.blocks[j], k - 2, k - 1))
      && Merges(ir, r.result.value)
  }

  lemma IfShape(e: Expr, cs: CState)
    requires e.Conditional? && Ready(cs)
    ensures IfShaped(CompileExpr(e, cs))
  {
    assert CompileExpr(e, cs) == CompileIf(e, cs);
    IfBranches(e, cs);
  }

  lemma IfBranches(e: Expr, cs: CState)
    requires e.Conditional? && Ready(cs)
    ensures IfShaped(CompileIf(e, cs))
  {
    var c := CompileExpr(e.cond, cs);
    if c.result.Err? {
      assert CompileIf(e, cs) == c;
    } else {
      var fork := BranchOn(c.result.value, c.cs);
      ForkShape(c.result.value, c.cs);
      IfArms(e, fork.cs, c.cs.ir.cursor, cs);
      var a := CompileExpr(e.consequence, fork.cs);
      if a.result.Err? {
        assert CompileIf(e, cs) == a;
      } else {
        var toElse := Jump(a.cs, fork.cont, fork.cont - 1);
        KeepsTrans(cs, c.cs, fork.cs);
        KeepsTrans(cs, fork.cs, a.cs);
        KeepsJump(cs, a.cs, toElse);
        var r := CompileElse(e, fork.cont, Incoming(a.result.value, a.cs.ir.cursor), toElse, cs);
        assert CompileIf(e, cs) == r;
      }
    }
  }

  /** Both arms and the merge, from the fork's `then` block on. */
  lemma IfArms(e: Expr, cs: CState, j: BlockId, base: CState)
    requires e.Conditional? && Ready(cs) && |cs.ir.blocks| == cs.ir.cursor + 3 && j < cs.ir.cursor
    requires var t0 := cs.ir.cursor;
      && Tests(cs.ir.blocks[j], t0, t0 + 1) && cs.ir.blocks[t0].name == "then"
      && cs.ir.blocks[t0 + 1] == Block(cs.fn, "else", []) && cs.ir.blocks[t0 + 2] == Block(cs.fn, "ifcont", [])
    requires Keeps(base, cs) && |base.ir.blocks| <= cs.ir.cursor && base.vars.Keys <= cs.vars.Keys
    ensures var a := CompileExpr(e.consequence, cs);
      a.result.Ok? ==>
        var t0 := cs.ir.cursor;
        var toElse := Jump(a.cs, t0 + 2, t0 + 1);
        IfShaped(CompileElse(e, t0 + 2, Incoming(a.result.value, a.cs.ir.cursor), toElse, base))
  {
    var t0 := cs.ir.cursor;
    ThenShape(e.consequence, cs, j);
    var a := CompileExpr(e.consequence, cs);
    if a.result.Ok? {
      var toElse := Jump(a.cs, t0 + 2, t0 + 1);
      KeepsTrans(base, cs, a.cs);
      KeepsJump(base, a.cs, toElse);
      ElseJoined(e, toElse, Incoming(a.result.value, a.cs.ir.cursor), base, j);
    }
  }

  /** The `else` arm and the merge complete the `if`, once the `then` arm ended with its branch to `ifcont`. */
  lemma ElseJoined(e: Expr, cs: CState, fromThen: Incoming, base: CState, j: BlockId)
    requires e.Conditional? && Ready(cs) && 1 <= cs.ir.cursor && cs.ir.cursor + 1 < |cs.ir.blocks|
    requires Keeps(base, cs) && |base.ir.blocks| <= cs.ir.cursor - 1 && base.vars.Keys <= cs.vars.Keys
    requires var t0 := cs.ir.cursor - 1;
      && j < t0 && Tests(cs.ir.blocks[j], t0, t0 + 1)
      && cs.ir.blocks[t0].name == "then" && cs.ir.blocks[t0 + 1].name == "else"
      && cs.ir.blocks[t0 + 2] == Block(cs.fn, "ifcont", [])
    requires var cont := cs.ir.cursor + 1;
      && fromThen.from < |cs.ir.blocks| && fromThen.from != cs.ir.cursor && fromThen.from != cont
      && BranchesTo(cs.ir.blocks[fromThen.from], cont)
    ensures IfShaped(CompileElse(e, cs.ir.cursor + 1, fromThen, cs, base))
  {
    var cont := cs.ir.cursor + 1;
    var b := CompileExpr(e.alternative, cs);
    if b.result.Ok? {
      var merge := Jump(b.cs, cont, cont);
      var phi := (d: nat) => Phi(d, [fromThen, Incoming(b.result.value, b.cs.ir.cursor)]);
      MergeShape(cs, b, fromThen, j);
      assert CompileElse(e, cont, fromThen, cs, base) == Then(merge, Define(merge.ir, phi));
    }
  }

  /** The merge after an `else` arm that compiled to `b`. */
  lemma MergeShape(cs: CState, b: Compiled, fromThen: Incoming, j: BlockId)
    requires Ready(cs) && 1 <= cs.ir.cursor && cs.ir.cursor + 1 < |cs.ir.blocks|
    requires b.result.Ok? && Ready(b.cs) && Keeps(cs, b.cs)
    requires var t0 := cs.ir.cursor - 1;
      && j < t0 && Tests(cs.ir.blocks[j], t0, t0 + 1)
      && cs.ir.blocks[t0].name == "then" && cs.ir.blocks[t0 + 1].name == "else"
      && cs.ir.blocks[t0 + 2] == Block(cs.fn, "ifcont", [])
    requires var cont := cs.ir.cursor + 1;
      && fromThen.from < |cs.ir.blocks| && fromThen.from != cs.ir.cursor && fromThen.from != cont
      && BranchesTo(cs.ir.blocks[fromThen.from], cont)
    ensures var cont := cs.ir.cursor + 1;
      var merge := Jump(b.cs, cont, cont);
      IfShaped(Then(merge, Define(merge.ir, (d: nat) => Phi(d, [fromThen, Incoming(b.result.value, b.cs.ir.cursor)]))))
  {
    var cont := cs.ir.cursor + 1;
    var f := b.cs.ir.cursor;
    var merge := Jump(b.cs, cont, cont);
    assert BranchesTo(merge.ir.blocks[f], cont);
    assert merge.ir.blocks[cont].insts == [];
    var n := merge.ir.nextId;
    var phi := Phi(n, [fromThen, Incoming(b.result.value, f)]);
    var d := Define(merge.ir, (d: nat) => Phi(d, [fromThen, Incoming(b.result.value, f)]));
    assert d.0 == Emit(merge.ir, phi).(nextId := n + 1);
    assert d.0.blocks[cont].insts == [phi];
    assert f != fromThen.from;
    Joined(cs.ir, Then(merge, d), j);
  }

  /** The `if` is complete once the `else` arm and the merge were added to a fork whose `then` arm is done. */
  lemma Joined(ir: Ir, r: Compiled, j: BlockId)
    requires 2 <= ir.cursor + 1 < |ir.blocks| && j < ir.cursor - 1
    requires var t0 := ir.cursor - 1;
      && ir.blocks[t0 + 2].name == "ifcont" && ir.blocks[t0].name == "then" && ir.blocks[t0 + 1].name == "else"
      && Tests(ir.blocks[j], t0, t0 + 1)
    requires r.result.Ok? && r.cs.ir.cursor == ir.cursor + 1 && |ir.blocks| <= |r.cs.ir.blocks|
    requires r.cs.ir.blocks[ir.cursor + 1].name == ir.blocks[ir.cursor + 1].name
    requires r.cs.ir.blocks[ir.cursor].name == ir.blocks[ir.cursor].name
    requires forall k :: 0 <= k < |ir.blocks| && k != ir.cursor && k != ir.cursor + 1 ==> r.cs.ir.blocks[k] == ir.blocks[k]
    requires Merges(r.cs.ir, r.result.value)
    ensures IfShaped(r)
  {
    assert r.cs.ir.blocks[j] == ir.blocks[j];
    assert r.cs.ir.blocks[ir.cursor - 1] == ir.blocks[ir.cursor - 1];
  }

  /**
   * The `then` arm, compiled in the `then` block of a fresh fork: it ends
   * with a branch to `ifcont`, in a block other than `else` and `ifcont`,
   * which are left as they were, and so is the block holding the test.
   */
  lemma ThenShape(x: Expr, cs: CState, j: BlockId)
    requires Ready(cs) && |cs.ir.blocks| == cs.ir.cursor + 3 && j < cs.ir.cursor
    requires var t0 := cs.ir.cursor;
      && Tests(cs.ir.blocks[j], t0, t0 + 1) && cs.ir.blocks[t0].name == "then"
      && cs.ir.blocks[t0 + 1] == Block(cs.fn, "else", []) && cs.ir.blocks[t0 + 2] == Block(cs.fn, "ifcont", [])
    ensures var t0 := cs.ir.cursor;
      var a := CompileExpr(x, cs);
      a.result.Ok? ==>
        var toElse := Jump(a.cs, t0 + 2, t0 + 1);
        var t := a.cs.ir.cursor;
        && toElse.ir.blocks[t0 + 2] == Block(cs.fn, "ifcont", [])
        && toElse.ir.blocks[t0].name == "then" && toElse.ir.blocks[t0 + 1].name == "else"
        && Tests(toElse.ir.blocks[j], t0, t0 + 1)
        && BranchesTo(toElse.ir.blocks[t], t0 + 2)
        && t < |toElse.ir.blocks| && t != t0 + 1 && t != t0 + 2
  {
  }

  /** What `BranchOn` leaves: the test at the end of the old block and three new blocks. */
  lemma ForkShape(cond: Val, cs: CState)
    requires Ready(cs)
    ensures var fork := BranchOn(cond, cs);
      var ir := fork.cs.ir;
      var t := |cs.ir.blocks|;
      && |ir.blocks| == t + 3
      && Tests(ir.blocks[cs.ir.cursor], t, t + 1)
      && ir.blocks[t] == Block(cs.fn, "then", [])
      && ir.blocks[t + 1] == Block(cs.fn, "else", [])
      && ir.blocks[t + 2] == Block(cs.fn, "ifcont", [])
  {
  }

  // ---------------------------------------------------------------------
  // `for`

  /**
   * `b` ends with the loop latch: load the variable from `slot`, add the
   * step, store the sum back, test a value for being not 0.0, and branch
   * back to `loop` or on to `after`.
   */
  predicate Latched(b: Block, slot: Ptr, loop: BlockId, after: BlockId) {
    var n := |b.insts|;
    && n >= 5
    && var load, add, store, test := b.insts[n - 5], b.insts[n - 4], b.insts[n - 3], b.insts[n - 2];
    && load.Load? && load.ptr == slot
    && add.Arith? && add.op == FAdd && add.a == Reg(load.dst)
    && store == Store(slot, Reg(add.dst))
    && test.Compare? && test.pred == ONE && test.b == Zero
    && b.insts[n - 1] == CondBr(Reg(test.dst), loop, after)
  }

  /**
   * A successful `for` leaves the builder in a new, empty, last block
   * `afterloop`. The block the start value was computed in ends with a jump
   * to the later `loop` block, and the block the end value was computed in,
   * `loop` or later, ends with the latch on the variable's slot, which
   * branches back to `loop` or on to `afterloop`.
   */
  lemma ForShape(e: Expr, cs: CState)
    requires e.For? && Ready(cs)
    ensures var r := CompileExpr(e, cs);
      var ir := r.cs.ir;
      var after := ir.cursor;
      var slot := Ptr(|cs.ir.slots|, e.varName);
      r.result.Ok? ==>
        && after == |ir.blocks| - 1
        && ir.blocks[after] == Block(cs.fn, "afterloop", [])
        && exists entry, loop, latch ::
             && 0 <= entry < loop <= latch < after
             && ir.blocks[loop].name == "loop"
             && BranchesTo(ir.blocks[entry], loop)
             && Latched(ir.blocks[latch], slot, loop, after)
  {
    assert CompileExpr(e, cs) == CompileFor(e, cs);
    var slot := Alloca(cs.ir, cs.fn, e.varName);
    var start := CompileExpr(e.start, cs.(ir := slot.0));
    if start.result.Ok? {
      var entry := start.cs.ir.cursor;
      var loop := EnterLoop(start.cs, slot.1, start.result.value);
      var l := loop.ir.cursor;
      assert BranchesTo(loop.ir.blocks[entry], l) && loop.ir.blocks[l].name == "loop";
      var body := CompileExpr(e.body, loop.(vars := start.cs.vars[e.varName := slot.1]));
      if body.result.Ok? {
        LoopEndShape(e, slot.1, l, start.cs.vars, body.cs);
        var r := LoopEnd(e, slot.1, l, start.cs.vars, body.cs);
        if r.result.Ok? {
          assert r.cs.ir.blocks[entry] == loop.ir.blocks[entry];
          assert r.cs.ir.blocks[l].name == "loop";
        }
      }
    }
  }

  /**
   * The step, the end value and the latch, compiled from `cs`: the latch
   * lands in the block the end value was computed in, at or after `cs`'s
   * block, and `afterloop` is appended last.
   */
  lemma LoopEndShape(e: Expr, slot: Ptr, loop: BlockId, outer: map<string, Ptr>, cs: CState)
    requires e.For? && Ready(cs) && outer.Keys <= cs.vars.Keys
    ensures var r := LoopEnd(e, slot, loop, outer, cs);
      var ir := r.cs.ir;
      var after := ir.cursor;
      r.result.Ok? ==>
        && after == |ir.blocks| - 1 && |cs.ir.blocks| <= after
        && ir.blocks[after] == Block(cs.fn, "afterloop", [])
        && (forall k :: 0 <= k < |cs.ir.blocks| && k != cs.ir.cursor ==> ir.blocks[k] == cs.ir.blocks[k])
        && ir.blocks[cs.ir.cursor].name == cs.ir.blocks[cs.ir.cursor].name
        && exists latch ::
             && (latch == cs.ir.cursor || |cs.ir.blocks| <= latch) && latch < after
             && Latched(ir.blocks[latch], slot, loop, after)
  {
    var step := CompileStep(e, cs);
    if step.result.Ok? {
      var end := CompileExpr(e.end, step.cs);
      if end.result.Ok? {
        LatchShape(e.varName, slot, loop, step.result.value, end.result.value, outer, end.cs);
        assert LoopEnd(e, slot, loop, outer, cs) == Latch(e.varName, slot, loop, step.result.value, end.result.value, outer, end.cs);
      }
    }
  }

  /** The latch is appended to the current block, and `afterloop` becomes the new, last, current block. */
  lemma LatchShape(name: string, slot: Ptr, loop: BlockId, step: Val, end: Val, outer: map<string, Ptr>, cs: CState)
    requires Ready(cs)
    ensures var r := Latch(name, slot, loop, step, end, outer, cs);
      var ir := r.cs.ir;
      var after := |cs.ir.blocks|;
      && ir.cursor == after == |ir.blocks| - 1
      && ir.blocks[after] == Block(cs.fn, "afterloop", [])
      && Latched(ir.blocks[cs.ir.cursor], slot, loop, after)
  {
    var n := cs.ir.nextId;
    var cur := Define(cs.ir, (d: nat) => Load(d, slot));
    assert cur.0 == Emit(cs.ir, Load(n, slot)).(nextId := n + 1);
    var next := Define(cur.0, (d: nat) => Arith(d, FAdd, cur.1, step));
    assert next.0 == Emit(cur.0, Arith(n + 1, FAdd, Reg(n), step)).(nextId := n + 2);
    var stored := Emit(next.0, Store(slot, next.1));
    var test := Define(stored, (d: nat) => Compare(d, ONE, end, Zero));
    assert test.0 == Emit(stored, Compare(n + 2, ONE, end, Zero)).(nextId := n + 3);
  }
}
