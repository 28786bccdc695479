/**
 * An abstract stand-in for the LLVM module and builder the compiler drives.
 *
 * Nothing here is real IR: a function is a name and its parameter names, a
 * basic block is a name and the list of instructions appended to it, a stack
 * slot is the name it was allocated under, and values are either constants,
 * function parameters or the numbered result of an earlier instruction. The
 * builder's insertion point is `cursor`; every instruction goes to the end of
 * that block, as with `position_at_end`.
 */
module Backend {
  import opened Options
  import Lexer

  type FnId = nat
  type BlockId = nat
  type SlotId = nat

  /** A floating-point value; constants stay symbolic. */
  datatype Val =
    | Literal(n: Lexer.Num)      // `const_float` of a number literal
    | Zero                       // `const_float(0.0)`
    | One                        // `const_float(1.0)`
    | Reg(id: nat)               // the result of the instruction that defined `id`
    | Param(fn: FnId, index: nat)

  datatype ArithOp = FAdd | FSub | FMul | FDiv

  /** The two float predicates the compiler uses: unordered-or-less-than and ordered-not-equal. */
  datatype Pred = ULT | ONE

  datatype Incoming = Incoming(v: Val, from: BlockId)

  datatype Inst =
    | Load(dst: nat, ptr: Ptr)
    | Store(ptr: Ptr, v: Val)
    | Arith(dst: nat, op: ArithOp, a: Val, b: Val)
    | Compare(dst: nat, pred: Pred, a: Val, b: Val)
    | ToFloat(dst: nat, a: Val)              // `uitofp` of a comparison result
    | CallFn(dst: nat, callee: FnId, args: seq<Val>)
    | Phi(dst: nat, incoming: seq<Incoming>)
    | Br(target: BlockId)
    | CondBr(c: Val, ifTrue: BlockId, ifFalse: BlockId)
    | Ret(v: Val)

  datatype Block = Block(fn: FnId, name: string, insts: seq<Inst>)

  /** A stack slot (`alloca` in the entry block of `fn`), named after the variable it holds. */
  datatype Slot = Slot(fn: FnId, name: string)

  /** A pointer to a slot, carrying the slot's name as a `PointerValue` carries its LLVM name. */
  datatype Ptr = Ptr(slot: SlotId, name: string)

  datatype Func = Func(name: string, params: seq<string>, deleted: bool, optimized: bool)

  /**
   * `module` is what `get_function` sees. Functions, blocks and slots are
   * numbered in creation order; `nextId` numbers instruction results.
   */
  datatype Ir = Ir(
    symbols: map<string, FnId>,
    funcs: seq<Func>,
    blocks: seq<Block>,
    slots: seq<Slot>,
    cursor: BlockId,
    nextId: nat)

  /** The last element of a non-empty sequence, such as the last instruction of a block. */
  function Last<T>(s: seq<T>): T
    requires s != []
  {
    s[|s| - 1]
  }

  /** An empty module with no insertion point yet. */
  const Empty: Ir := Ir(map[], [], [], [], 0, 0)

  /** `Module::get_function`. */
  function GetFunction(ir: Ir, name: string): Option<FnId> {
    if name in ir.symbols then Some(ir.symbols[name]) else None
  }

  /**
   * `Module::add_function`. LLVM gives a second function with a taken name a
   * fresh name of its own, so the name keeps resolving to the older function.
   */
  function AddFunction(ir: Ir, name: string, params: seq<string>): (r: (Ir, FnId))
    ensures r.1 == |ir.funcs| && |r.0.funcs| == |ir.funcs| + 1 && r.0.funcs[r.1] == Func(name, params, false, false)
    ensures name in r.0.symbols && (name !in ir.symbols ==> r.0.symbols[name] == r.1)
    ensures forall n :: n in ir.symbols ==> n in r.0.symbols && r.0.symbols[n] == ir.symbols[n]
  {
    var id := |ir.funcs|;
    var symbols := if name in ir.symbols then ir.symbols else ir.symbols[name := id];
    (ir.(symbols := symbols, funcs := ir.funcs + [Func(name, params, false, false)]), id)
  }

  /** `Context::append_basic_block`: a new empty block at the end of `fn`; the insertion point stays. */
  function AppendBlock(ir: Ir, fn: FnId, name: string): (r: (Ir, BlockId))
    ensures r.1 == |ir.blocks| && r.0.blocks == ir.blocks + [Block(fn, name, [])]
  {
    (ir.(blocks := ir.blocks + [Block(fn, name, [])]), |ir.blocks|)
  }

  /** `Builder::position_at_end`. */
  function PositionAtEnd(ir: Ir, b: BlockId): Ir {
    ir.(cursor := b)
  }

  /** Appends `inst` to the block at the insertion point. */
  function Emit(ir: Ir, inst: Inst): (r: Ir)
    requires ir.cursor < |ir.blocks|
    ensures |r.blocks| == |ir.blocks| && r.cursor == ir.cursor
    ensures r.blocks[ir.cursor].insts == ir.blocks[ir.cursor].insts + [inst]
    ensures forall k :: 0 <= k < |ir.blocks| && k != ir.cursor ==> r.blocks[k] == ir.blocks[k]
  {
    var b := ir.blocks[ir.cursor];
    ir.(blocks := ir.blocks[ir.cursor := b.(insts := b.insts + [inst])])
  }

  /** Emits an instruction that defines a new value, numbered `ir.nextId`, and returns that value. */
  function Define(ir: Ir, inst: nat -> Inst): (r: (Ir, Val))
    requires ir.cursor < |ir.blocks|
    ensures r.1 == Reg(ir.nextId) && r.0.nextId == ir.nextId + 1
  {
    (Emit(ir, inst(ir.nextId)).(nextId := ir.nextId + 1), Reg(ir.nextId))
  }

  /** `create_entry_block_alloca`: a new slot in `fn`; where it sits in the entry block is not modelled. */
  function Alloca(ir: Ir, fn: FnId, name: string): (r: (Ir, Ptr))
    ensures r.1 == Ptr(|ir.slots|, name) && r.0.slots == ir.slots + [Slot(fn, name)]
  {
    (ir.(slots := ir.slots + [Slot(fn, name)]), Ptr(|ir.slots|, name))
  }

  /** `FunctionValue::delete`: the function is gone from the module. */
  function Delete(ir: Ir, fn: FnId): (r: Ir)
    requires fn < |ir.funcs|
    ensures forall n :: n in r.symbols <==> n in ir.symbols && ir.symbols[n] != fn
  {
    ir.(symbols := map n | n in ir.symbols && ir.symbols[n] != fn :: ir.symbols[n],
        funcs := ir.funcs[fn := ir.funcs[fn].(deleted := true)])
  }

  /** `PassManager::run_on`: which passes run, and what they do, is not modelled. */
  function Optimize(ir: Ir, fn: FnId): Ir
    requires fn < |ir.funcs|
  {
    ir.(funcs := ir.funcs[fn := ir.funcs[fn].(optimized := true)])
  }

  /**
   * `ir'` is `ir` after more code was generated into `fn`: blocks other than
   * the current one are untouched, the current one only gained instructions,
   * and every new block belongs to `fn`.
   */
  predicate Grows(ir: Ir, ir': Ir, fn: FnId) {
    && |ir.blocks| <= |ir'.blocks|
    && (forall k :: 0 <= k < |ir.blocks| && k != ir.cursor ==> ir'.blocks[k] == ir.blocks[k])
    && (ir.cursor < |ir.blocks| ==>
          var b, b' := ir.blocks[ir.cursor], ir'.blocks[ir.cursor];
          b'.fn == b.fn && b'.name == b.name && b.insts <= b'.insts)
    && (forall k :: |ir.blocks| <= k < |ir'.blocks| ==> ir'.blocks[k].fn == fn)
  }

  /** `Grows`, and the insertion point is either where it was or in a new block. */
  predicate Extends(ir: Ir, ir': Ir, fn: FnId) {
    Grows(ir, ir', fn) && (ir'.cursor == ir.cursor || |ir.blocks| <= ir'.cursor)
  }

  lemma ExtendsTrans(a: Ir, b: Ir, c: Ir, fn: FnId)
    requires Extends(a, b, fn) && Extends(b, c, fn)
    ensures Extends(a, c, fn)
  {
  }

  /** After `a` was extended to `b`, growing `b` and moving to a block that is new since `a` extends `a`. */
  lemma ExtendsThenGrows(a: Ir, b: Ir, c: Ir, fn: FnId)
    requires Extends(a, b, fn) && Grows(b, c, fn) && |a.blocks| <= c.cursor
    ensures Extends(a, c, fn)
  {
  }
}
