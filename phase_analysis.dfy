/**
 * `PhaseAnalysisPass`: before the terminator of every labelled block of every
 * eligible function, a call `nugget_bb_hook(size, id, threshold)`; then, at the
 * end of `nugget_roi_begin_`, a call `nugget_init(total)` carrying the number of
 * hook calls inserted.  The src/ and pass/ copies of the pass do the same; the
 * src/ one only adds debug output.
 */
module PhaseAnalysis {
  import opened Wrappers
  import opened Decimal
  import opened PassOptions
  import opened Ir

  const BbHookName: string := "nugget_bb_hook"
  const IntervalLength: string := "interval_length"

  /** The hook call for a block: its size before the insertion, its id, the threshold. */
  function HookFor(b: Block, id: int, threshold: U64): Inst {
    HookCall(BbHookName, [Bits64(b.Size()), Bits64(id), threshold])
  }

  /** A block after instrumentation: the hook call before its terminator when it carries an id, otherwise untouched. */
  function HookBlock(b: Block, threshold: U64): Block {
    match BlockId(b)
    case Some(id) => InsertBeforeTerminator(b, HookFor(b, id, threshold))
    case None => b
  }

  function HookBlocks(bs: seq<Block>, threshold: U64): (r: seq<Block>)
    ensures |r| == |bs|
  {
    seq(|bs|, j requires 0 <= j < |bs| => HookBlock(bs[j], threshold))
  }

  function HookFunction(f: Function, deny: seq<string>, threshold: U64): Function {
    if Eligible(f, deny) then f.(blocks := HookBlocks(f.blocks, threshold)) else f
  }

  /** The module after `instrumentAllIRBasicBlocks`; skipped functions are left alone. */
  function Hooked(fs: seq<Function>, deny: seq<string>, threshold: U64): (r: seq<Function>)
    ensures |r| == |fs|
  {
    seq(|fs|, i requires 0 <= i < |fs| => HookFunction(fs[i], deny, threshold))
  }

  lemma HookBlocksStep(bs: seq<Block>, threshold: U64, j: nat)
    requires j < |bs|
    ensures HookBlocks(bs[..j + 1], threshold) == HookBlocks(bs[..j], threshold) + [HookBlock(bs[j], threshold)]
    ensures BlockIds(bs[..j + 1]) == BlockIds(bs[..j]) + if BlockId(bs[j]).Some? then [BlockId(bs[j]).value] else []
  {
    assert bs[..j + 1] == bs[..j] + [bs[j]];
    BlockIdsAppend(bs[..j], [bs[j]]);
    BlockIdsSingle(bs[j]);
  }

  /** How many blocks of `fs` carry an id, counted function by function as the traversal goes. */
  function IdCount(fs: seq<Function>, deny: seq<string>): nat {
    if fs == [] then 0
    else
      var f := fs[|fs| - 1];
      IdCount(fs[..|fs| - 1], deny) + if Eligible(f, deny) then |BlockIds(f.blocks)| else 0
  }

  lemma {:induction false} IdCountIsIds(fs: seq<Function>, deny: seq<string>)
    ensures IdCount(fs, deny) == |ModuleIds(fs, deny)|
  {
    if fs != [] {
      var pre := fs[..|fs| - 1];
      IdCountIsIds(pre, deny);
      assert fs == pre + [fs[|fs| - 1]];
      ModuleIdsSnoc(pre, fs[|fs| - 1], deny);
    }
  }

  lemma HookedStep(fs: seq<Function>, deny: seq<string>, threshold: U64, i: nat)
    requires i < |fs|
    ensures Hooked(fs[..i + 1], deny, threshold) == Hooked(fs[..i], deny, threshold) + [HookFunction(fs[i], deny, threshold)]
    ensures IdCount(fs[..i + 1], deny) == IdCount(fs[..i], deny) + if Eligible(fs[i], deny) then |BlockIds(fs[i].blocks)| else 0
  {
    assert fs[..i + 1][..i] == fs[..i];
  }

  class PhaseAnalysisPass {
    const options: seq<Opt>

    constructor(options: seq<Opt>)
      ensures this.options == options
    {
      this.options := options;
    }

    /**
     * `instrumentAllIRBasicBlocks(M, total, threshold)`: `None` when the module
     * has no `nugget_bb_hook`, before touching anything; otherwise every block
     * that carries an id gets its hook call, and `total` is how many did.
     * Every annotation must be one `stoll` accepts: a bad one makes it throw.
     */
    method InstrumentAllIRBasicBlocks(m: IRModule, deny: seq<string>, threshold: U64) returns (total: Option<nat>)
      requires IdsParse(m.functions, deny)
      modifies m
      ensures total.None? <==> !HasFunction(old(m.functions), BbHookName)
      ensures total.None? ==> m.functions == old(m.functions)
      ensures total.Some? ==> m.functions == Hooked(old(m.functions), deny, threshold)
                              && total.value == |ModuleIds(old(m.functions), deny)|
    {
      if FindFunction(m.functions, BbHookName).None? {
        return None;
      }
      ghost var fs0 := m.functions;
      var count := 0;
      var fi := 0;
      while fi < |m.functions|
        invariant 0 <= fi <= |fs0| == |m.functions|
        invariant forall i :: 0 <= i < fi ==> m.functions[i] == HookFunction(fs0[i], deny, threshold)
        invariant forall i :: fi <= i < |fs0| ==> m.functions[i] == fs0[i]
        invariant count == IdCount(fs0[..fi], deny)
      {
        IdsParseAt(fs0, deny, fi);
        var n := HookFunctionAt(m, fi, deny, threshold);
        HookedStep(fs0, deny, threshold, fi);
        count := count + n;
        fi := fi + 1;
      }
      assert fs0[..fi] == fs0;
      assert m.functions == Hooked(fs0, deny, threshold);
      IdCountIsIds(fs0, deny);
      return Some(count);
    }

    /** Function `fi`: skipped when it is a declaration or denied, otherwise its blocks hooked; returns how many. */
    method HookFunctionAt(m: IRModule, fi: nat, deny: seq<string>, threshold: U64) returns (n: nat)
      requires fi < |m.functions|
      requires FunctionParses(m.functions[fi], deny)
      modifies m
      ensures var f := old(m.functions[fi]);
              m.functions == old(m.functions)[fi := HookFunction(f, deny, threshold)]
              && n == if Eligible(f, deny) then |BlockIds(f.blocks)| else 0
    {
      var f := m.functions[fi];
      if f.IsDeclaration() || f.name in deny {
        assert m.functions[fi := f] == m.functions;
        return 0;
      }
      n := HookFunctionBlocks(m, fi, threshold);
    }

    /** The block loop for function `fi`: a hook call before each annotated terminator; returns how many. */
    method HookFunctionBlocks(m: IRModule, fi: nat, threshold: U64) returns (count: nat)
      requires fi < |m.functions|
      requires BlocksParse(m.functions[fi].blocks)
      modifies m
      ensures var f := old(m.functions[fi]);
              m.functions == old(m.functions)[fi := f.(blocks := HookBlocks(f.blocks, threshold))]
              && count == |BlockIds(f.blocks)|
    {
      var f := m.functions[fi];
      ghost var pre := m.functions;
      ghost var done: seq<Block> := [];
      count := 0;
      var bi := 0;
      assert [] + f.blocks[bi..] == f.blocks && pre[fi := f.(blocks := f.blocks)] == pre;
      while bi < |f.blocks|
        invariant 0 <= bi <= |f.blocks|
        invariant |done| == bi && done == HookBlocks(f.blocks[..bi], threshold)
        invariant m.functions == pre[fi := f.(blocks := done + f.blocks[bi..])]
        invariant count == |BlockIds(f.blocks[..bi])|
      {
        HookBlocksStep(f.blocks, threshold, bi);
        var b := f.blocks[bi];
        assert f.blocks[bi..][0] == b;
        var a := ReadAnnotation(b);
        var hb := b;
        if a.IdText? {
          assert Parses(b);
          var id := Stoll(a.text).value;
          hb := InsertBeforeTerminator(b, HookCall(BbHookName, [Bits64(b.Size()), Bits64(id), threshold]));
          count := count + 1;
        }
        assert hb == HookBlock(b, threshold);
        var g := m.functions[fi];
        m.functions := m.functions[fi := g.(blocks := g.blocks[bi := hb])];
        Splice(done, f.blocks[bi..], hb);
        done := done + [hb];
        bi := bi + 1;
      }
      assert f.blocks[..bi] == f.blocks;
      assert done + f.blocks[bi..] == done;
    }

    /**
     * `PhaseAnalysisPass::run`: reads the threshold, instruments every block,
     * then adds `nugget_init(total)` to `nugget_roi_begin_`; each failure ends
     * the run.
     */
    method Run(m: IRModule, deny: seq<string>) returns (status: Status)
      requires IdsParse(m.functions, deny)
      modifies m
      ensures var fs := old(m.functions);
              match Stoull(OptionValue(options, IntervalLength))
              case None => status == Uncaught(IntervalLength) && m.functions == fs
              case Some(t) =>
                if !HasFunction(fs, BbHookName) then
                  status == Fatal("Error instrumenting basic blocks") && m.functions == fs
                else
                  var h := Hooked(fs, deny, t);
                  var args := [Bits64(|ModuleIds(fs, deny)|)];
                  if RoiBeginReady(h) then status == Completed && m.functions == InsertInit(h, args)
                  else status == Fatal("Error instrumenting nugget_roi_begin_") && m.functions == h
    {
      var threshold := Stoull(OptionValue(options, IntervalLength));
      if threshold.None? {
        return Uncaught(IntervalLength);
      }
      var total := InstrumentAllIRBasicBlocks(m, deny, threshold.value);
      if total.None? {
        return Fatal("Error instrumenting basic blocks");
      }
      var ok := m.InstrumentRoiBegin([Bits64(total.value)]);
      if !ok {
        return Fatal("Error instrumenting nugget_roi_begin_");
      }
      return Completed;
    }
  }

  // ---------------------------------------------------------------------------
  // What the instrumentation does to the module

  /**
   * A block that carries an id gets exactly one new instruction, the hook call
   * `(size, id, threshold)`, immediately before its unchanged terminator; any
   * other block is untouched.  Its annotation is only read.
   */
  lemma HookBlockShape(b: Block, threshold: U64)
    ensures var r := HookBlock(b, threshold);
            r.name == b.name && ReadAnnotation(r) == ReadAnnotation(b) && BlockId(r) == BlockId(b)
            && (BlockId(b).None? ==> r == b)
            && (BlockId(b).Some? ==>
                  var n := b.Size();
                  r.Size() == n + 1 && r.insts[..n - 1] == b.insts[..n - 1]
                  && r.insts[n - 1] == HookCall(BbHookName, [Bits64(n), Bits64(BlockId(b).value), threshold])
                  && r.insts[n] == b.insts[n - 1])
  {
  }

  /** Block `j` of function `i` after instrumentation. */
  lemma HookedAt(fs: seq<Function>, deny: seq<string>, threshold: U64, i: nat, j: nat)
    requires i < |fs| && j < |fs[i].blocks|
    ensures var r := Hooked(fs, deny, threshold);
            r[i].name == fs[i].name && |r[i].blocks| == |fs[i].blocks|
            && r[i].blocks[j] == if Eligible(fs[i], deny) then HookBlock(fs[i].blocks[j], threshold) else fs[i].blocks[j]
  {
  }

  /** Annotations are only read: the instrumented module carries the same ids in the same places. */
  lemma HookedKeepsIds(fs: seq<Function>, deny: seq<string>, threshold: U64)
    ensures SameIds(Hooked(fs, deny, threshold), fs)
    ensures ModuleIds(Hooked(fs, deny, threshold), deny) == ModuleIds(fs, deny)
  {
    var r := Hooked(fs, deny, threshold);
    forall i | 0 <= i < |fs| ensures r[i].name == fs[i].name && SameBlockIds(r[i].blocks, fs[i].blocks) {
      forall j | 0 <= j < |fs[i].blocks| ensures BlockId(r[i].blocks[j]) == BlockId(fs[i].blocks[j]) {
        HookedAt(fs, deny, threshold, i, j);
        HookBlockShape(fs[i].blocks[j], threshold);
      }
    }
    ModuleIdsCongruent(r, fs, deny);
  }

  lemma {:induction false} HookBlocksCallCount(bs: seq<Block>, threshold: U64)
    ensures BlocksCallCount(HookBlocks(bs, threshold), BbHookName) == BlocksCallCount(bs, BbHookName) + |BlockIds(bs)|
  {
    if bs != [] {
      var r := HookBlocks(bs, threshold);
      assert r[1..] == HookBlocks(bs[1..], threshold);
      HookBlocksCallCount(bs[1..], threshold);
      var b := bs[0];
      assert r[0] == HookBlock(b, threshold);
      if BlockId(b).Some? {
        InsertCallCount(b, HookFor(b, BlockId(b).value, threshold), BbHookName);
      }
    }
  }

  /** The number of hook calls grows by exactly the number of blocks that carry an id: `total` counts the calls inserted. */
  lemma {:induction false} HookedCallCount(fs: seq<Function>, deny: seq<string>, threshold: U64)
    ensures ModuleCallCount(Hooked(fs, deny, threshold), BbHookName)
            == ModuleCallCount(fs, BbHookName) + |ModuleIds(fs, deny)|
  {
    if fs != [] {
      var r := Hooked(fs, deny, threshold);
      assert r[1..] == Hooked(fs[1..], deny, threshold);
      HookedCallCount(fs[1..], deny, threshold);
      if Eligible(fs[0], deny) {
        HookBlocksCallCount(fs[0].blocks, threshold);
      }
    }
  }

  /**
   * An annotated block of an eligible function ends, after instrumentation, in
   * the hook call with its own id and the common threshold, then its terminator.
   */
  lemma HookedBlockCall(fs: seq<Function>, deny: seq<string>, threshold: U64, i: nat, j: nat)
    requires i < |fs| && Eligible(fs[i], deny) && j < |fs[i].blocks| && BlockId(fs[i].blocks[j]).Some?
    ensures var b, r := fs[i].blocks[j], Hooked(fs, deny, threshold)[i].blocks[j];
            r.Size() == b.Size() + 1
            && r.insts[b.Size() - 1] == HookCall(BbHookName, [Bits64(b.Size()), Bits64(BlockId(b).value), threshold])
            && r.insts[b.Size()] == b.insts[b.Size() - 1]
  {
    HookedAt(fs, deny, threshold, i, j);
    HookBlockShape(fs[i].blocks[j], threshold);
  }
}
