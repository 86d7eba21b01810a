/**
 * The slice of LLVM IR the passes see: a module is a sequence of functions, a
 * function a sequence of basic blocks, a block a sequence of instructions whose
 * last one, when it is a terminator, may carry metadata.  Only the `bb.id` kind of
 * metadata matters here; its node holds one operand, a string or something else.
 */
module Ir {
  import opened Wrappers
  import opened Decimal

  /** `kBbIdKey`: the metadata kind the labeler writes and the instrumentors read. */
  const BbIdKey: string := "bb.id"

  /** The function `instrumentRoiBegin` instruments and the callee it inserts. */
  const RoiBeginName: string := "nugget_roi_begin_"
  const InitName: string := "nugget_init"

  /** The first operand of a metadata node. */
  datatype MDOperand = MDString(text: string) | MDOther

  datatype Inst =
    | Other(opcode: string)
    | Term(opcode: string, md: map<string, MDOperand>)
    | HookCall(callee: string, args: seq<int>)
    | Asm(text: string, constraints: string, sideEffects: bool)

  datatype Block = Block(name: string, insts: seq<Inst>) {
    /** `getTerminator()` is non-null: the last instruction is a terminator. */
    predicate HasTerminator() {
      |insts| > 0 && insts[|insts| - 1].Term?
    }

    /** `BB.size()`. */
    function Size(): nat {
      |insts|
    }
  }

  datatype Function = Function(name: string, blocks: seq<Block>) {
    /** `isDeclaration()`: a function without a body. */
    predicate IsDeclaration() {
      blocks == []
    }
  }

  /** A function every traversal visits: a definition whose name is not one of the runtime's helpers. */
  predicate Eligible(f: Function, deny: seq<string>) {
    !f.IsDeclaration() && f.name !in deny
  }

  /** What reading `bb.id` off a block gives, in the order the instrumentors check. */
  datatype Annotation = NoTerminator | NoBbId | NotString | IdText(text: string)

  function ReadAnnotation(b: Block): Annotation {
    if !b.HasTerminator() then NoTerminator
    else
      var md := b.insts[|b.insts| - 1].md;
      if BbIdKey !in md then NoBbId
      else match md[BbIdKey]
        case MDOther => NotString
        case MDString(s) => IdText(s)
  }

  /** The id a block carries, read with `stoll`; `None` when it carries none that parses. */
  function BlockId(b: Block): Option<int> {
    match ReadAnnotation(b)
    case IdText(s) => Stoll(s)
    case _ => None
  }

  /** `stoll` does not throw on this block's annotation. */
  predicate Parses(b: Block) {
    ReadAnnotation(b).IdText? ==> Stoll(ReadAnnotation(b).text).Some?
  }

  predicate BlocksParse(bs: seq<Block>) {
    forall j :: 0 <= j < |bs| ==> Parses(bs[j])
  }

  /** Every annotation an instrumentor reads is one `stoll` accepts. */
  predicate IdsParse(fs: seq<Function>, deny: seq<string>) {
    forall i :: 0 <= i < |fs| && Eligible(fs[i], deny) ==> BlocksParse(fs[i].blocks)
  }

  /** What `IdsParse` demands of one function. */
  predicate FunctionParses(f: Function, deny: seq<string>) {
    Eligible(f, deny) ==> BlocksParse(f.blocks)
  }

  lemma IdsParseAt(fs: seq<Function>, deny: seq<string>, i: nat)
    requires IdsParse(fs, deny) && i < |fs|
    ensures FunctionParses(fs[i], deny)
  {
  }

  /** `T->setMetadata(kBbIdKey, !{"<id>"})`: replaces the terminator's `bb.id`, nothing else. */
  function SetBbId(b: Block, id: nat): (r: Block)
    ensures r.name == b.name && r.Size() == b.Size() && r.HasTerminator() == b.HasTerminator()
    ensures b.HasTerminator() ==> ReadAnnotation(r) == IdText(ToDecimal(id))
    ensures b.HasTerminator() ==> r.insts[..|r.insts| - 1] == b.insts[..|b.insts| - 1]
    ensures !b.HasTerminator() ==> r == b
  {
    if !b.HasTerminator() then b
    else
      var n := |b.insts|;
      var t := b.insts[n - 1];
      b.(insts := b.insts[..n - 1] + [t.(md := t.md[BbIdKey := MDString(ToDecimal(id))])])
  }

  /** `setMetadata` replaces the `bb.id` entry of the terminator and keeps its opcode and every other entry. */
  lemma SetBbIdOnlyAnnotation(b: Block, id: nat)
    requires b.HasTerminator()
    ensures var r := SetBbId(b, id);
            var t, t' := b.insts[|b.insts| - 1], r.insts[|r.insts| - 1];
            t'.Term? && t'.opcode == t.opcode && t'.md - {BbIdKey} == t.md - {BbIdKey}
            && BbIdKey in t'.md && t'.md[BbIdKey] == MDString(ToDecimal(id))
  {
  }

  /** The id written by `SetBbId` is read back unchanged. */
  lemma SetBbIdReadBack(b: Block, id: nat)
    requires b.HasTerminator() && id <= Int64Max
    ensures BlockId(SetBbId(b, id)) == Some(id) && Parses(SetBbId(b, id))
  {
    StollOfDecimal(id);
  }

  /** `builder.SetInsertPoint(T); builder.Create...`: `inst` goes immediately before the terminator. */
  function InsertBeforeTerminator(b: Block, inst: Inst): (r: Block)
    ensures r.name == b.name && r.HasTerminator() == b.HasTerminator()
    ensures ReadAnnotation(r) == ReadAnnotation(b)
    ensures b.HasTerminator() ==>
              r.Size() == b.Size() + 1
              && r.insts[..b.Size() - 1] == b.insts[..b.Size() - 1]
              && r.insts[b.Size() - 1] == inst
              && r.insts[b.Size()] == b.insts[b.Size() - 1]
    ensures !b.HasTerminator() ==> r == b
  {
    if !b.HasTerminator() then b
    else
      var n := |b.insts|;
      b.(insts := b.insts[..n - 1] + [inst, b.insts[n - 1]])
  }

  /** A 64-bit integer constant (`ConstantInt::get(Int64Ty, v)`), recorded as its 64 bits read unsigned. */
  function Bits64(v: int): U64 {
    v % U64Modulus
  }

  // ---------------------------------------------------------------------------
  // Counting inserted calls

  predicate Calls(inst: Inst, callee: string) {
    inst.HookCall? && inst.callee == callee
  }

  /** How many instructions of `insts` call `callee`. */
  function CallCount(insts: seq<Inst>, callee: string): nat {
    if insts == [] then 0
    else CallCount(insts[..|insts| - 1], callee) + if Calls(insts[|insts| - 1], callee) then 1 else 0
  }

  function BlocksCallCount(bs: seq<Block>, callee: string): nat {
    if bs == [] then 0 else CallCount(bs[0].insts, callee) + BlocksCallCount(bs[1..], callee)
  }

  /** How many calls to `callee` the whole module holds. */
  function ModuleCallCount(fs: seq<Function>, callee: string): nat {
    if fs == [] then 0 else BlocksCallCount(fs[0].blocks, callee) + ModuleCallCount(fs[1..], callee)
  }

  lemma {:induction false} CallCountAppend(a: seq<Inst>, b: seq<Inst>, callee: string)
    ensures CallCount(a + b, callee) == CallCount(a, callee) + CallCount(b, callee)
    decreases |b|
  {
    if b == [] {
      assert a + b == a;
    } else {
      var b' := b[..|b| - 1];
      assert (a + b)[..|a + b| - 1] == a + b';
      CallCountAppend(a, b', callee);
    }
  }

  /** Inserting `inst` before the terminator adds one call to `callee` exactly when `inst` is one. */
  lemma InsertCallCount(b: Block, inst: Inst, callee: string)
    requires b.HasTerminator()
    ensures CallCount(InsertBeforeTerminator(b, inst).insts, callee)
            == CallCount(b.insts, callee) + if Calls(inst, callee) then 1 else 0
  {
    var n := |b.insts|;
    var pre, t := b.insts[..n - 1], b.insts[n - 1];
    assert b.insts == pre + [t];
    CallCountAppend(pre, [t], callee);
    CallCountAppend(pre, [inst, t], callee);
    assert [inst, t][..1] == [inst];
    assert [t][..0] == [] && [inst][..0] == [];
  }

  // ---------------------------------------------------------------------------
  // The ids a module carries, in traversal order

  function BlockIds(bs: seq<Block>): seq<int> {
    if bs == [] then []
    else (if BlockId(bs[0]).Some? then [BlockId(bs[0]).value] else []) + BlockIds(bs[1..])
  }

  /** The ids of the annotated blocks of the eligible functions, function by function, block by block. */
  function ModuleIds(fs: seq<Function>, deny: seq<string>): seq<int> {
    if fs == [] then []
    else (if Eligible(fs[0], deny) then BlockIds(fs[0].blocks) else []) + ModuleIds(fs[1..], deny)
  }

  lemma {:induction false} ModuleIdsAppend(a: seq<Function>, b: seq<Function>, deny: seq<string>)
    ensures ModuleIds(a + b, deny) == ModuleIds(a, deny) + ModuleIds(b, deny)
  {
    if a != [] {
      assert (a + b)[0] == a[0] && (a + b)[1..] == a[1..] + b;
      ModuleIdsAppend(a[1..], b, deny);
    } else {
      assert a + b == b;
    }
  }

  lemma {:induction false} BlockIdsAppend(a: seq<Block>, b: seq<Block>)
    ensures BlockIds(a + b) == BlockIds(a) + BlockIds(b)
  {
    if a != [] {
      assert (a + b)[0] == a[0] && (a + b)[1..] == a[1..] + b;
      BlockIdsAppend(a[1..], b);
    } else {
      assert a + b == b;
    }
  }

  lemma BlockIdsSingle(b: Block)
    ensures BlockIds([b]) == if BlockId(b).Some? then [BlockId(b).value] else []
  {
    assert [b][1..] == [];
  }

  lemma ModuleIdsSingle(g: Function, deny: seq<string>)
    ensures ModuleIds([g], deny) == if Eligible(g, deny) then BlockIds(g.blocks) else []
  {
    assert [g][1..] == [];
  }

  lemma ModuleIdsSnoc(fs: seq<Function>, g: Function, deny: seq<string>)
    ensures ModuleIds(fs + [g], deny) == ModuleIds(fs, deny) + if Eligible(g, deny) then BlockIds(g.blocks) else []
  {
    ModuleIdsAppend(fs, [g], deny);
    ModuleIdsSingle(g, deny);
  }

  /** Two block lists that agree block by block on the id read from them. */
  predicate SameBlockIds(a: seq<Block>, b: seq<Block>) {
    |a| == |b| && forall j :: 0 <= j < |a| ==> BlockId(a[j]) == BlockId(b[j])
  }

  /** Two modules with the same functions in the same order, block by block carrying the same ids. */
  predicate SameIds(a: seq<Function>, b: seq<Function>) {
    |a| == |b| && forall i :: 0 <= i < |a| ==>
      a[i].name == b[i].name && SameBlockIds(a[i].blocks, b[i].blocks)
  }

  lemma {:induction false} BlockIdsCongruent(a: seq<Block>, b: seq<Block>)
    requires SameBlockIds(a, b)
    ensures BlockIds(a) == BlockIds(b)
  {
    if a != [] {
      assert SameBlockIds(a[1..], b[1..]);
      BlockIdsCongruent(a[1..], b[1..]);
    }
  }

  /** A transformation that keeps every block's id keeps the module's id list. */
  lemma {:induction false} ModuleIdsCongruent(a: seq<Function>, b: seq<Function>, deny: seq<string>)
    requires SameIds(a, b)
    ensures ModuleIds(a, deny) == ModuleIds(b, deny)
  {
    if a != [] {
      assert SameIds(a[1..], b[1..]);
      ModuleIdsCongruent(a[1..], b[1..], deny);
      BlockIdsCongruent(a[0].blocks, b[0].blocks);
      assert Eligible(a[0], deny) == Eligible(b[0], deny);
    }
  }

  /** `M.getFunction(name)` finds a function. */
  predicate HasFunction(fs: seq<Function>, name: string) {
    exists i :: 0 <= i < |fs| && fs[i].name == name
  }

  // ---------------------------------------------------------------------------
  // `instrumentRoiBegin`

  /** Index of the first function called `name`. */
  function FindFunction(fs: seq<Function>, name: string): (r: Option<nat>)
    ensures r.Some? ==> r.value < |fs| && fs[r.value].name == name
    ensures r.Some? ==> forall i :: 0 <= i < r.value ==> fs[i].name != name
    ensures r.None? <==> !HasFunction(fs, name)
  {
    if fs == [] then None
    else if fs[0].name == name then Some(0)
    else match FindFunction(fs[1..], name)
      case None =>
        assert !HasFunction(fs, name) by {
          forall i | 0 <= i < |fs| ensures fs[i].name != name {
            if i > 0 { assert fs[i] == fs[1..][i - 1]; }
          }
        }
        None
      case Some(i) => Some(i + 1)
  }

  /** `nugget_roi_begin_` exists, has a body, and its last block ends in a terminator. */
  predicate RoiBeginReady(fs: seq<Function>) {
    var k := FindFunction(fs, RoiBeginName);
    k.Some? && fs[k.value].blocks != [] && fs[k.value].blocks[|fs[k.value].blocks| - 1].HasTerminator()
  }

  /** The module with `call @nugget_init(args)` placed immediately before the terminator of `nugget_roi_begin_`'s last block. */
  function InsertInit(fs: seq<Function>, args: seq<int>): (r: seq<Function>)
    requires RoiBeginReady(fs)
    ensures SameIds(r, fs)
  {
    var k := FindFunction(fs, RoiBeginName).value;
    var f := fs[k];
    var last := |f.blocks| - 1;
    var r := fs[k := f.(blocks := f.blocks[last := InsertBeforeTerminator(f.blocks[last], HookCall(InitName, args))])];
    assert SameBlockIds(r[k].blocks, f.blocks);
    r
  }

  /** Inserting the init call adds that one call to the last block of the roi-begin function and changes nothing else. */
  lemma InsertInitShape(fs: seq<Function>, args: seq<int>)
    requires RoiBeginReady(fs)
    ensures var k := FindFunction(fs, RoiBeginName).value;
            var bs := fs[k].blocks;
            var r := InsertInit(fs, args);
            |r| == |fs| && (forall i :: 0 <= i < |fs| && i != k ==> r[i] == fs[i])
            && r[k].name == fs[k].name && |r[k].blocks| == |bs|
            && (forall j :: 0 <= j < |bs| - 1 ==> r[k].blocks[j] == bs[j])
            && r[k].blocks[|bs| - 1] == InsertBeforeTerminator(bs[|bs| - 1], HookCall(InitName, args))
  {
  }

  /** The init call reads no annotation and changes none: every annotation still parses afterwards. */
  lemma InsertInitParses(fs: seq<Function>, args: seq<int>, deny: seq<string>)
    requires RoiBeginReady(fs) && IdsParse(fs, deny)
    ensures IdsParse(InsertInit(fs, args), deny)
  {
    var r := InsertInit(fs, args);
    var k := FindFunction(fs, RoiBeginName).value;
    InsertInitShape(fs, args);
    forall i | 0 <= i < |r| && Eligible(r[i], deny) ensures BlocksParse(r[i].blocks) {
      if i == k {
        var bs := fs[k].blocks;
        assert Eligible(fs[k], deny);
        forall j | 0 <= j < |bs| ensures Parses(r[k].blocks[j]) {
          assert Parses(bs[j]);
        }
      } else {
        assert r[i] == fs[i];
      }
    }
  }

  /** Replacing the first element of `rest` after `done` extends `done` by the new element. */
  lemma Splice<T>(done: seq<T>, rest: seq<T>, x: T)
    requires rest != []
    ensures (done + rest)[|done| := x] == (done + [x]) + rest[1..]
    ensures rest[0] == x ==> done + rest == (done + [x]) + rest[1..]
  {
  }

  /** How a pass run ends: normally, by `report_fatal_error` with its message, or by an uncaught conversion exception on an option. */
  datatype Status = Completed | Fatal(message: string) | Uncaught(option: string)

  /** The program being transformed, held by reference and changed in place by every pass. */
  class IRModule {
    var functions: seq<Function>

    constructor(fs: seq<Function>)
      ensures functions == fs
    {
      functions := fs;
    }

    /**
     * `instrumentRoiBegin(M, args)`: adds `call @nugget_init(args)` at the end of
     * `nugget_roi_begin_`, or fails and leaves the module alone.
     */
    method InstrumentRoiBegin(args: seq<int>) returns (ok: bool)
      modifies this
      ensures ok == RoiBeginReady(old(functions))
      ensures functions == if ok then InsertInit(old(functions), args) else old(functions)
    {
      if !RoiBeginReady(functions) {
        return false;
      }
      functions := InsertInit(functions, args);
      return true;
    }
  }
}
