/**
 * `IRBBLabelPass`: gives every basic block of every eligible function a
 * module-wide id, 0, 1, 2, ... in function-then-block order, writes it as the
 * decimal string of the terminator's `bb.id` metadata, and keeps one
 * `BasicBlockInfo` record per block for the CSV file.
 */
module BBLabel {
  import opened Wrappers
  import opened Strings
  import opened Decimal
  import opened PassOptions
  import opened Ir

  /** One row of the CSV file. */
  datatype BasicBlockInfo = BasicBlockInfo(
    functionName: string,
    functionId: nat,
    basicBlockName: string,
    basicBlockInstCount: nat,
    basicBlockId: nat)

  /** The fatal error for a block without a terminator: the block's name and its function's. */
  datatype LabelFatal = MissingTerminator(blockName: string, functionName: string)

  // ---------------------------------------------------------------------------
  // Specification of the traversal

  /** How many functions the traversal processes among `fs`. */
  function EligibleFunctionCount(fs: seq<Function>, deny: seq<string>): nat {
    if fs == [] then 0
    else EligibleFunctionCount(fs[..|fs| - 1], deny) + (if Eligible(fs[|fs| - 1], deny) then 1 else 0)
  }

  /** How many blocks the traversal labels among `fs`. */
  function EligibleBlockCount(fs: seq<Function>, deny: seq<string>): nat {
    if fs == [] then 0
    else EligibleBlockCount(fs[..|fs| - 1], deny) + (if Eligible(fs[|fs| - 1], deny) then |fs[|fs| - 1].blocks| else 0)
  }

  /** Every block the traversal visits has a terminator. */
  predicate AllTerminated(fs: seq<Function>, deny: seq<string>) {
    forall i, j :: 0 <= i < |fs| && Eligible(fs[i], deny) && 0 <= j < |fs[i].blocks| ==> fs[i].blocks[j].HasTerminator()
  }

  /** `bs` with the blocks labelled `base`, `base + 1`, ... */
  function LabelBlocks(bs: seq<Block>, base: nat): seq<Block> {
    seq(|bs|, j requires 0 <= j < |bs| => SetBbId(bs[j], base + j))
  }

  /** One function after labelling, its blocks numbered from `base`; skipped functions are left alone. */
  function LabelFunction(f: Function, deny: seq<string>, base: nat): Function {
    if Eligible(f, deny) then f.(blocks := LabelBlocks(f.blocks, base)) else f
  }

  /** The module after labelling: each eligible function's blocks numbered on from the blocks before it. */
  function Labelled(fs: seq<Function>, deny: seq<string>): (r: seq<Function>)
    ensures |r| == |fs|
  {
    if fs == [] then []
    else
      var pre := fs[..|fs| - 1];
      Labelled(pre, deny) + [LabelFunction(fs[|fs| - 1], deny, EligibleBlockCount(pre, deny))]
  }

  /** The records of one function's blocks. */
  function BlockRecords(f: Function, functionId: nat, base: nat): seq<BasicBlockInfo> {
    seq(|f.blocks|, j requires 0 <= j < |f.blocks| =>
      BasicBlockInfo(f.name, functionId, f.blocks[j].name, f.blocks[j].Size(), base + j))
  }

  /** `bb_info_list_` after the traversal. */
  function Records(fs: seq<Function>, deny: seq<string>): seq<BasicBlockInfo> {
    if fs == [] then []
    else
      var pre := fs[..|fs| - 1];
      var f := fs[|fs| - 1];
      Records(pre, deny)
      + (if Eligible(f, deny) then BlockRecords(f, EligibleFunctionCount(pre, deny), EligibleBlockCount(pre, deny)) else [])
  }

  // ---------------------------------------------------------------------------
  // The CSV text

  const CsvHeader: string := "FunctionName,FunctionID,BasicBlockName,BasicBlockInstCount,BasicBlockID"

  /** The five fields of a record, in column order. */
  function CsvFields(r: BasicBlockInfo): seq<string> {
    [r.functionName, ToDecimal(r.functionId), r.basicBlockName, ToDecimal(r.basicBlockInstCount), ToDecimal(r.basicBlockId)]
  }

  /** One unquoted data row. */
  function CsvRow(r: BasicBlockInfo): string {
    r.functionName + "," + ToDecimal(r.functionId) + "," + r.basicBlockName + ","
    + ToDecimal(r.basicBlockInstCount) + "," + ToDecimal(r.basicBlockId)
  }

  /** The data rows, each ended by a newline. */
  function RowsText(rs: seq<BasicBlockInfo>): string {
    if rs == [] then [] else RowsText(rs[..|rs| - 1]) + CsvRow(rs[|rs| - 1]) + "\n"
  }

  /** The whole file: the header line, then one line per record. */
  function CsvText(rs: seq<BasicBlockInfo>): string {
    CsvHeader + "\n" + RowsText(rs)
  }

  lemma CsvTextStep(rs: seq<BasicBlockInfo>, k: nat)
    requires k < |rs|
    ensures CsvText(rs[..k + 1]) == CsvText(rs[..k]) + CsvRow(rs[k]) + "\n"
  {
    assert rs[..k + 1][..k] == rs[..k];
  }

  /** The data rows as separate lines. */
  function CsvRows(rs: seq<BasicBlockInfo>): (r: seq<string>)
    ensures |r| == |rs|
  {
    if rs == [] then [] else CsvRows(rs[..|rs| - 1]) + [CsvRow(rs[|rs| - 1])]
  }

  lemma {:induction false} CsvRowsAt(rs: seq<BasicBlockInfo>)
    ensures forall k :: 0 <= k < |rs| ==> CsvRows(rs)[k] == CsvRow(rs[k])
  {
    if rs != [] {
      CsvRowsAt(rs[..|rs| - 1]);
    }
  }

  // ---------------------------------------------------------------------------
  // The pass

  class IRBBLabelPass {
    const options: seq<Opt>
    var bbInfoList: seq<BasicBlockInfo>

    constructor(options: seq<Opt>)
      ensures this.options == options && bbInfoList == []
    {
      this.options := options;
      bbInfoList := [];
    }

    /**
     * `IRBBLabelPass::run` up to the CSV export: labels `m` in place and fills
     * `bbInfoList`, or stops at the first block without a terminator.
     */
    method Run(m: IRModule, deny: seq<string>) returns (fatal: Option<LabelFatal>)
      modifies this, m
      ensures fatal.None? <==> AllTerminated(old(m.functions), deny)
      ensures fatal.None? ==> m.functions == Labelled(old(m.functions), deny)
                              && bbInfoList == Records(old(m.functions), deny)
      ensures fatal.Some? ==> exists i, j :: StopsAt(old(m.functions), deny, i, j, fatal.value)
    {
      ghost var fs0 := m.functions;
      var functionCounter := 0;
      var basicBlockGlobalCounter := 0;
      bbInfoList := [];
      ghost var done: seq<Function> := [];
      var fi := 0;
      while fi < |m.functions|
        invariant 0 <= fi <= |fs0| == |m.functions|
        invariant |done| == fi && done == Labelled(fs0[..fi], deny) && m.functions == done + fs0[fi..]
        invariant functionCounter == EligibleFunctionCount(fs0[..fi], deny)
        invariant basicBlockGlobalCounter == EligibleBlockCount(fs0[..fi], deny)
        invariant bbInfoList == Records(fs0[..fi], deny)
        invariant FirstUnterminated(fs0, deny, fi, 0)
      {
        assert m.functions[fi] == fs0[fi];
        ghost var f := fs0[fi];
        ghost var fc, bc, list := functionCounter, basicBlockGlobalCounter, bbInfoList;
        fatal, functionCounter, basicBlockGlobalCounter := LabelFunctionAt(m, fi, deny, functionCounter, basicBlockGlobalCounter);
        if fatal.Some? {
          ghost var j :| 0 <= j < |f.blocks| && !f.blocks[j].HasTerminator()
                         && fatal.value == MissingTerminator(f.blocks[j].name, f.name)
                         && forall j2 :: 0 <= j2 < j ==> f.blocks[j2].HasTerminator();
          UnterminatedAt(fs0, deny, fi, j);
          assert StopsAt(fs0, deny, fi, j, fatal.value);
          return fatal;
        }
        RunStep(fs0, deny, fi, done, fc, bc, list, m.functions[fi], functionCounter, basicBlockGlobalCounter, bbInfoList);
        Splice(done, fs0[fi..], m.functions[fi]);
        done := done + [m.functions[fi]];
        fi := fi + 1;
      }
      assert fs0[..fi] == fs0;
      AllTerminatedIff(fs0, deny);
      return None;
    }

    /**
     * Function `fi` of `run`: skipped when it is a declaration or denied,
     * otherwise numbered by its block loop and counted.
     */
    method LabelFunctionAt(m: IRModule, fi: nat, deny: seq<string>, functionCounter: nat, base: nat)
      returns (fatal: Option<LabelFatal>, nextFunctionCounter: nat, basicBlockGlobalCounter: nat)
      requires fi < |m.functions|
      modifies this, m
      ensures var f := old(m.functions[fi]);
              fatal.None? <==> (Eligible(f, deny) ==> forall j :: 0 <= j < |f.blocks| ==> f.blocks[j].HasTerminator())
      ensures var f := old(m.functions[fi]);
              var e := Eligible(f, deny);
              fatal.None? ==>
                m.functions == old(m.functions)[fi := LabelFunction(f, deny, base)]
                && bbInfoList == old(bbInfoList) + (if e then BlockRecords(f, functionCounter, base) else [])
                && nextFunctionCounter == functionCounter + (if e then 1 else 0)
                && basicBlockGlobalCounter == base + (if e then |f.blocks| else 0)
      ensures var f := old(m.functions[fi]);
              fatal.Some? ==>
                Eligible(f, deny)
                && (exists j :: 0 <= j < |f.blocks| && !f.blocks[j].HasTerminator()
                      && fatal.value == MissingTerminator(f.blocks[j].name, f.name)
                      && forall j2 :: 0 <= j2 < j ==> f.blocks[j2].HasTerminator())
    {
      var f := m.functions[fi];
      if f.IsDeclaration() || f.name in deny {
        assert m.functions[fi := f] == m.functions && bbInfoList + [] == bbInfoList;
        return None, functionCounter, base;
      }
      fatal, basicBlockGlobalCounter := LabelFunctionBlocks(m, fi, functionCounter, base);
      nextFunctionCounter := functionCounter + 1;
    }

    /**
     * The block loop of `run` for function `fi`: each block takes the next id on
     * its terminator and adds its record, until a block without a terminator.
     */
    method LabelFunctionBlocks(m: IRModule, fi: nat, functionCounter: nat, base: nat)
      returns (fatal: Option<LabelFatal>, basicBlockGlobalCounter: nat)
      requires fi < |m.functions|
      modifies this, m
      ensures var f := old(m.functions[fi]);
              fatal.None? <==> forall j :: 0 <= j < |f.blocks| ==> f.blocks[j].HasTerminator()
      ensures var f := old(m.functions[fi]);
              fatal.None? ==>
                m.functions == old(m.functions)[fi := f.(blocks := LabelBlocks(f.blocks, base))]
                && bbInfoList == old(bbInfoList) + BlockRecords(f, functionCounter, base)
                && basicBlockGlobalCounter == base + |f.blocks|
      ensures var f := old(m.functions[fi]);
              fatal.Some? ==>
                exists j :: 0 <= j < |f.blocks| && !f.blocks[j].HasTerminator()
                  && fatal.value == MissingTerminator(f.blocks[j].name, f.name)
                  && forall j2 :: 0 <= j2 < j ==> f.blocks[j2].HasTerminator()
    {
      var f := m.functions[fi];
      ghost var pre := m.functions;
      ghost var list0 := bbInfoList;
      basicBlockGlobalCounter := base;
      var bi := 0;
      while bi < |f.blocks|
        invariant 0 <= bi <= |f.blocks|
        invariant |m.functions| == |pre| && forall i :: 0 <= i < |pre| && i != fi ==> m.functions[i] == pre[i]
        invariant m.functions[fi].name == f.name && |m.functions[fi].blocks| == |f.blocks|
        invariant forall j :: 0 <= j < bi ==> m.functions[fi].blocks[j] == SetBbId(f.blocks[j], base + j)
        invariant forall j :: bi <= j < |f.blocks| ==> m.functions[fi].blocks[j] == f.blocks[j]
        invariant forall j :: 0 <= j < bi ==> f.blocks[j].HasTerminator()
        invariant basicBlockGlobalCounter == base + bi
        invariant bbInfoList == list0 + BlockRecords(f, functionCounter, base)[..bi]
      {
        var b := m.functions[fi].blocks[bi];
        var bbId := basicBlockGlobalCounter;
        basicBlockGlobalCounter := basicBlockGlobalCounter + 1;
        if !b.HasTerminator() {
          return Some(MissingTerminator(b.name, f.name)), basicBlockGlobalCounter;
        }
        var g := m.functions[fi];
        m.functions := m.functions[fi := g.(blocks := g.blocks[bi := SetBbId(b, bbId)])];
        bbInfoList := bbInfoList + [BasicBlockInfo(f.name, functionCounter, b.name, b.Size(), bbId)];
        assert BlockRecords(f, functionCounter, base)[..bi + 1]
            == BlockRecords(f, functionCounter, base)[..bi] + [BasicBlockInfo(f.name, functionCounter, b.name, b.Size(), bbId)];
        bi := bi + 1;
      }
      assert BlockRecords(f, functionCounter, base)[..bi] == BlockRecords(f, functionCounter, base);
      assert m.functions[fi].blocks == LabelBlocks(f.blocks, base);
      assert m.functions == pre[fi := f.(blocks := LabelBlocks(f.blocks, base))];
      return None, basicBlockGlobalCounter;
    }

    /** The CSV export loop: the header, then one row per record in list order. */
    method WriteCsv() returns (text: string)
      ensures text == CsvText(bbInfoList)
    {
      text := CsvHeader + "\n";
      var k := 0;
      while k < |bbInfoList|
        invariant 0 <= k <= |bbInfoList|
        invariant text == CsvText(bbInfoList[..k])
      {
        CsvTextStep(bbInfoList, k);
        var row := CsvRow(bbInfoList[k]);
        text := text + row + "\n";
        k := k + 1;
      }
      assert bbInfoList[..k] == bbInfoList;
    }
  }

  /** One more function of the traversal: how the counters, the records and the labelled module grow. */
  lemma PrefixStep(fs: seq<Function>, deny: seq<string>, i: nat)
    requires i < |fs|
    ensures var p, f := fs[..i], fs[i];
            var e := Eligible(f, deny);
            EligibleFunctionCount(fs[..i + 1], deny) == EligibleFunctionCount(p, deny) + (if e then 1 else 0)
            && EligibleBlockCount(fs[..i + 1], deny) == EligibleBlockCount(p, deny) + (if e then |f.blocks| else 0)
            && Records(fs[..i + 1], deny)
               == Records(p, deny) + (if e then BlockRecords(f, EligibleFunctionCount(p, deny), EligibleBlockCount(p, deny)) else [])
            && Labelled(fs[..i + 1], deny) == Labelled(p, deny) + [LabelFunction(f, deny, EligibleBlockCount(p, deny))]
  {
    assert fs[..i + 1][..i] == fs[..i];
  }

  /** `run` stops with `e` at block `j` of function `i`: the first visited block without a terminator. */
  predicate StopsAt(fs: seq<Function>, deny: seq<string>, i: int, j: int, e: LabelFatal) {
    0 <= i < |fs| && Eligible(fs[i], deny) && 0 <= j < |fs[i].blocks|
    && !fs[i].blocks[j].HasTerminator()
    && e == MissingTerminator(fs[i].blocks[j].name, fs[i].name)
    && FirstUnterminated(fs, deny, i, j)
  }

  /** The function loop of `run` carried over function `i`, when it ends without a fatal error. */
  lemma RunStep(fs: seq<Function>, deny: seq<string>, i: nat, done: seq<Function>, fc: nat, bc: nat,
                list: seq<BasicBlockInfo>, g: Function, fc': nat, bc': nat, list': seq<BasicBlockInfo>)
    requires i < |fs| && FirstUnterminated(fs, deny, i, 0)
    requires done == Labelled(fs[..i], deny) && fc == EligibleFunctionCount(fs[..i], deny)
             && bc == EligibleBlockCount(fs[..i], deny) && list == Records(fs[..i], deny)
    requires var f, e := fs[i], Eligible(fs[i], deny);
             (e ==> forall j :: 0 <= j < |f.blocks| ==> f.blocks[j].HasTerminator())
             && g == LabelFunction(f, deny, bc)
             && list' == list + (if e then BlockRecords(f, fc, bc) else [])
             && fc' == fc + (if e then 1 else 0) && bc' == bc + (if e then |f.blocks| else 0)
    ensures done + [g] == Labelled(fs[..i + 1], deny) && fc' == EligibleFunctionCount(fs[..i + 1], deny)
            && bc' == EligibleBlockCount(fs[..i + 1], deny) && list' == Records(fs[..i + 1], deny)
    ensures FirstUnterminated(fs, deny, i + 1, 0)
  {
    PrefixStep(fs, deny, i);
    TerminatedStep(fs, deny, i);
  }

  /** Once function `i` is done with no fatal error, every block before function `i + 1` is terminated. */
  lemma TerminatedStep(fs: seq<Function>, deny: seq<string>, i: nat)
    requires i < |fs| && FirstUnterminated(fs, deny, i, 0)
    requires Eligible(fs[i], deny) ==> forall j :: 0 <= j < |fs[i].blocks| ==> fs[i].blocks[j].HasTerminator()
    ensures FirstUnterminated(fs, deny, i + 1, 0)
  {
  }

  /** A block without a terminator, after terminated ones in its function, is the first one the traversal meets. */
  lemma UnterminatedAt(fs: seq<Function>, deny: seq<string>, i: nat, j: nat)
    requires i < |fs| && FirstUnterminated(fs, deny, i, 0)
    requires j <= |fs[i].blocks| && forall j2 :: 0 <= j2 < j ==> fs[i].blocks[j2].HasTerminator()
    ensures FirstUnterminated(fs, deny, i, j)
  {
  }

  lemma AllTerminatedIff(fs: seq<Function>, deny: seq<string>)
    ensures AllTerminated(fs, deny) <==> FirstUnterminated(fs, deny, |fs|, 0)
  {
  }

  /** Every block the traversal visits before block `j` of function `i` has a terminator. */
  predicate FirstUnterminated(fs: seq<Function>, deny: seq<string>, i: nat, j: nat) {
    forall i2, j2 ::
      (0 <= i2 < |fs| && Eligible(fs[i2], deny) && 0 <= j2 < |fs[i2].blocks| && (i2 < i || (i2 == i && j2 < j)))
      ==> fs[i2].blocks[j2].HasTerminator()
  }

  // ---------------------------------------------------------------------------
  // What the traversal produces

  /** The ids `lo`, `lo + 1`, ..., `hi - 1`, in order. */
  function Range(lo: int, hi: int): seq<int>
    requires lo <= hi
    decreases hi - lo
  {
    if lo == hi then [] else [lo] + Range(lo + 1, hi)
  }

  lemma RangeHead(lo: int, hi: int)
    requires lo < hi
    ensures Range(lo, hi) == [lo] + Range(lo + 1, hi)
  {
  }

  lemma {:induction false} RangeAt(lo: int, hi: int)
    requires lo <= hi
    ensures |Range(lo, hi)| == hi - lo && forall k :: 0 <= k < hi - lo ==> Range(lo, hi)[k] == lo + k
    decreases hi - lo
  {
    if lo < hi {
      RangeAt(lo + 1, hi);
    }
  }

  lemma {:induction false} RangeAppend(lo: int, mid: int, hi: int)
    requires lo <= mid <= hi
    ensures Range(lo, mid) + Range(mid, hi) == Range(lo, hi)
    decreases mid - lo
  {
    if lo < mid {
      RangeAppend(lo + 1, mid, hi);
      assert [lo] + Range(lo + 1, mid) + Range(mid, hi) == [lo] + (Range(lo + 1, mid) + Range(mid, hi));
    }
  }

  lemma AllTerminatedPrefix(fs: seq<Function>, deny: seq<string>, n: nat)
    requires n <= |fs| && AllTerminated(fs, deny)
    ensures AllTerminated(fs[..n], deny)
  {
    forall i, j | 0 <= i < n && Eligible(fs[..n][i], deny) && 0 <= j < |fs[..n][i].blocks|
      ensures fs[..n][i].blocks[j].HasTerminator()
    {
      assert fs[..n][i] == fs[i];
    }
  }

  /** The traversal of a prefix of the module is the start of the traversal of the whole module. */
  lemma {:induction false} PrefixOfTraversal(fs: seq<Function>, deny: seq<string>, n: nat)
    requires n <= |fs|
    ensures Records(fs[..n], deny) <= Records(fs, deny)
    ensures Labelled(fs[..n], deny) == Labelled(fs, deny)[..n]
    ensures EligibleBlockCount(fs[..n], deny) <= EligibleBlockCount(fs, deny)
    decreases |fs|
  {
    if n < |fs| {
      var pre := fs[..|fs| - 1];
      assert pre[..n] == fs[..n];
      PrefixOfTraversal(pre, deny, n);
    } else {
      assert fs[..n] == fs;
    }
  }

  /** One record per labelled block. */
  lemma {:induction false} RecordsCount(fs: seq<Function>, deny: seq<string>)
    ensures |Records(fs, deny)| == EligibleBlockCount(fs, deny)
  {
    if fs != [] {
      RecordsCount(fs[..|fs| - 1], deny);
    }
  }

  /** The `k`-th record is the block with id `k`: ids run 0, 1, 2, ... in list order, so they are unique and increasing. */
  lemma {:induction false} RecordIdsConsecutive(fs: seq<Function>, deny: seq<string>)
    ensures forall k :: 0 <= k < |Records(fs, deny)| ==> Records(fs, deny)[k].basicBlockId == k
  {
    if fs != [] {
      var pre := fs[..|fs| - 1];
      RecordIdsConsecutive(pre, deny);
      RecordsCount(pre, deny);
    }
  }

  /**
   * Block `j` of processed function `i` has the record at position
   * `EligibleBlockCount(fs[..i]) + j`, which is also its id; its function id is
   * the number of functions processed before it.
   */
  lemma RecordOfBlock(fs: seq<Function>, deny: seq<string>, i: nat, j: nat)
    requires i < |fs| && Eligible(fs[i], deny) && j < |fs[i].blocks|
    ensures var p := fs[..i];
            var k := EligibleBlockCount(p, deny) + j;
            k < |Records(fs, deny)|
            && Records(fs, deny)[k]
               == BasicBlockInfo(fs[i].name, EligibleFunctionCount(p, deny), fs[i].blocks[j].name, fs[i].blocks[j].Size(), k)
  {
    var p := fs[..i];
    var base := EligibleBlockCount(p, deny);
    var br := BlockRecords(fs[i], EligibleFunctionCount(p, deny), base);
    PrefixStep(fs, deny, i);
    RecordsCount(p, deny);
    PrefixOfTraversal(fs, deny, i + 1);
    IndexThroughPrefix(Records(fs, deny), Records(fs[..i + 1], deny), Records(p, deny), br, j);
  }

  /** Element `j` of `b` sits at `|a| + j` of any sequence that `a + b` is a prefix of. */
  lemma IndexThroughPrefix<T>(whole: seq<T>, q: seq<T>, a: seq<T>, b: seq<T>, j: nat)
    requires q <= whole && q == a + b && j < |b|
    ensures |a| + j < |whole| && whole[|a| + j] == b[j]
  {
    assert q[|a| + j] == b[j];
  }

  /** Function `i` after labelling: its blocks numbered from the count of blocks before it, or untouched if skipped. */
  lemma LabelledAt(fs: seq<Function>, deny: seq<string>, i: nat)
    requires i < |fs|
    ensures Labelled(fs, deny)[i] == LabelFunction(fs[i], deny, EligibleBlockCount(fs[..i], deny))
    ensures EligibleBlockCount(fs[..i], deny) + (if Eligible(fs[i], deny) then |fs[i].blocks| else 0)
            <= EligibleBlockCount(fs, deny)
  {
    PrefixStep(fs, deny, i);
    PrefixOfTraversal(fs, deny, i + 1);
  }

  /** `a` is `b` with at most its terminator's metadata changed: same name, size, terminator and instructions before it. */
  predicate SameBlockShape(a: Block, b: Block) {
    a.name == b.name && a.Size() == b.Size() && a.HasTerminator() == b.HasTerminator()
    && (b.HasTerminator() ==> a.insts[..a.Size() - 1] == b.insts[..b.Size() - 1])
  }

  /** `a` is `b` with at most terminator metadata changed, and `b` itself when it is skipped. */
  predicate SameFunctionShape(a: Function, b: Function, deny: seq<string>) {
    a.name == b.name && |a.blocks| == |b.blocks|
    && (!Eligible(b, deny) ==> a == b)
    && forall j :: 0 <= j < |b.blocks| ==> SameBlockShape(a.blocks[j], b.blocks[j])
  }

  /** Labelling one function keeps its shape. */
  lemma LabelFunctionShape(f: Function, deny: seq<string>, base: nat)
    ensures SameFunctionShape(LabelFunction(f, deny, base), f, deny)
  {
  }

  /**
   * Labelling changes only terminator metadata: the same functions, the same
   * blocks with the same names and sizes and the same instructions before the
   * terminator; skipped functions are untouched.
   */
  lemma LabelledShape(fs: seq<Function>, deny: seq<string>)
    ensures var r := Labelled(fs, deny);
            |r| == |fs| && forall i :: 0 <= i < |fs| ==> SameFunctionShape(r[i], fs[i], deny)
  {
    forall i | 0 <= i < |fs| ensures SameFunctionShape(Labelled(fs, deny)[i], fs[i], deny) {
      LabelledAt(fs, deny, i);
      LabelFunctionShape(fs[i], deny, EligibleBlockCount(fs[..i], deny));
    }
  }

  /** Labelling keeps which functions the later passes visit. */
  lemma LabelledEligible(fs: seq<Function>, deny: seq<string>, i: nat)
    requires i < |fs|
    ensures Eligible(Labelled(fs, deny)[i], deny) == Eligible(fs[i], deny)
  {
    LabelledAt(fs, deny, i);
  }

  /** A terminated block list numbered from `base` carries the ids `base`, ..., `base + |bs| - 1`. */
  lemma {:induction false} LabelBlocksIds(bs: seq<Block>, base: nat, hi: nat)
    requires forall j :: 0 <= j < |bs| ==> bs[j].HasTerminator()
    requires hi == base + |bs| <= Int64Max + 1
    ensures BlockIds(LabelBlocks(bs, base)) == Range(base, hi)
  {
    if bs != [] {
      LabelBlocksIds(bs[1..], base + 1, hi);
      LabelBlocksHeadId(bs, base);
      RangeHead(base, hi);
    }
  }

  /** The first labelled block reads back `base`; the rest are numbered on from `base + 1`. */
  lemma LabelBlocksHeadId(bs: seq<Block>, base: nat)
    requires bs != [] && bs[0].HasTerminator() && base <= Int64Max
    ensures BlockIds(LabelBlocks(bs, base)) == [base] + BlockIds(LabelBlocks(bs[1..], base + 1))
  {
    var l := LabelBlocks(bs, base);
    LabelBlocksTail(bs, base);
    SetBbIdReadBack(bs[0], base);
    assert BlockIds(l) == [base] + BlockIds(l[1..]);
  }

  lemma LabelBlocksTail(bs: seq<Block>, base: nat)
    requires bs != []
    ensures LabelBlocks(bs, base)[0] == SetBbId(bs[0], base)
    ensures LabelBlocks(bs, base)[1..] == LabelBlocks(bs[1..], base + 1)
  {
  }

  /** After labelling a well-formed module, the ids read back in traversal order are exactly 0, 1, ..., N - 1. */
  lemma {:induction false} LabelledIds(fs: seq<Function>, deny: seq<string>)
    requires AllTerminated(fs, deny) && EligibleBlockCount(fs, deny) <= Int64Max + 1
    ensures ModuleIds(Labelled(fs, deny), deny) == Range(0, EligibleBlockCount(fs, deny))
  {
    if fs != [] {
      var pre, f := fs[..|fs| - 1], fs[|fs| - 1];
      AllTerminatedPrefix(fs, deny, |fs| - 1);
      LabelledIds(pre, deny);
      assert Eligible(f, deny) ==> forall j :: 0 <= j < |f.blocks| ==> f.blocks[j].HasTerminator();
      LabelOneMore(Labelled(pre, deny), f, deny, EligibleBlockCount(pre, deny));
    }
  }

  /** Labelling one more function extends the id list by the next ids. */
  lemma LabelOneMore(done: seq<Function>, f: Function, deny: seq<string>, base: nat)
    requires ModuleIds(done, deny) == Range(0, base)
    requires Eligible(f, deny) ==> forall j :: 0 <= j < |f.blocks| ==> f.blocks[j].HasTerminator()
    requires Eligible(f, deny) ==> base + |f.blocks| <= Int64Max + 1
    ensures ModuleIds(done + [LabelFunction(f, deny, base)], deny)
            == Range(0, base + if Eligible(f, deny) then |f.blocks| else 0)
  {
    var g := LabelFunction(f, deny, base);
    if Eligible(f, deny) {
      var hi := base + |f.blocks|;
      var ids := BlockIds(g.blocks);
      LabelFunctionIds(f, deny, base);
      assert ModuleIds(done + [g], deny) == Range(0, base) + ids by {
        assert Eligible(g, deny);
        ModuleIdsSnoc(done, g, deny);
      }
      RangeAppend(0, base, hi);
    } else {
      assert g == f;
      ModuleIdsSnoc(done, g, deny);
      assert Range(0, base) + [] == Range(0, base);
    }
  }

  /** A processed function numbered from `base` carries the ids `base`, `base + 1`, ... */
  lemma LabelFunctionIds(f: Function, deny: seq<string>, base: nat)
    requires Eligible(f, deny) && forall j :: 0 <= j < |f.blocks| ==> f.blocks[j].HasTerminator()
    requires base + |f.blocks| <= Int64Max + 1
    ensures BlockIds(LabelFunction(f, deny, base).blocks) == Range(base, base + |f.blocks|)
  {
    LabelBlocksIds(f.blocks, base, base + |f.blocks|);
  }

  /** Block `j` of processed function `i` after labelling: its own block with id `EligibleBlockCount(fs[..i]) + j`. */
  lemma LabelledBlock(fs: seq<Function>, deny: seq<string>, i: nat, j: nat)
    requires i < |fs| && Eligible(fs[i], deny) && j < |fs[i].blocks|
    ensures var base := EligibleBlockCount(fs[..i], deny);
            base + j < EligibleBlockCount(fs, deny) && j < |Labelled(fs, deny)[i].blocks|
            && Labelled(fs, deny)[i].blocks[j] == SetBbId(fs[i].blocks[j], base + j)
  {
    LabelledAt(fs, deny, i);
  }

  /** Every annotation the labeler writes is one `stoll` reads back. */
  lemma LabelledParses(fs: seq<Function>, deny: seq<string>)
    requires EligibleBlockCount(fs, deny) <= Int64Max + 1
    ensures IdsParse(Labelled(fs, deny), deny)
  {
    var r := Labelled(fs, deny);
    forall i | 0 <= i < |r| && Eligible(r[i], deny) ensures BlocksParse(r[i].blocks) {
      LabelledFunctionParses(fs, deny, i);
    }
  }

  lemma LabelledFunctionParses(fs: seq<Function>, deny: seq<string>, i: nat)
    requires EligibleBlockCount(fs, deny) <= Int64Max + 1 && i < |fs|
    ensures FunctionParses(Labelled(fs, deny)[i], deny)
  {
    var r := Labelled(fs, deny);
    LabelledEligible(fs, deny, i);
    if Eligible(fs[i], deny) {
      assert |r[i].blocks| == |fs[i].blocks| by { LabelledAt(fs, deny, i); }
      forall j | 0 <= j < |r[i].blocks| ensures Parses(r[i].blocks[j]) {
        LabelledBlockParses(fs, deny, i, j);
      }
    }
  }

  lemma LabelledBlockParses(fs: seq<Function>, deny: seq<string>, i: nat, j: nat)
    requires EligibleBlockCount(fs, deny) <= Int64Max + 1
    requires i < |fs| && Eligible(fs[i], deny) && j < |fs[i].blocks|
    ensures j < |Labelled(fs, deny)[i].blocks| && Parses(Labelled(fs, deny)[i].blocks[j])
  {
    LabelledBlock(fs, deny, i, j);
    var b, id := fs[i].blocks[j], EligibleBlockCount(fs[..i], deny) + j;
    if b.HasTerminator() {
      SetBbIdReadBack(b, id);
    }
  }

  /** The id a record carries is the one its block's terminator now holds. */
  lemma RecordMatchesAnnotation(fs: seq<Function>, deny: seq<string>, i: nat, j: nat)
    requires i < |fs| && Eligible(fs[i], deny) && j < |fs[i].blocks| && fs[i].blocks[j].HasTerminator()
    requires EligibleBlockCount(fs, deny) <= Int64Max + 1
    ensures var k := EligibleBlockCount(fs[..i], deny) + j;
            k < |Records(fs, deny)| && j < |Labelled(fs, deny)[i].blocks|
            && BlockId(Labelled(fs, deny)[i].blocks[j]) == Some(Records(fs, deny)[k].basicBlockId)
            && ReadAnnotation(Labelled(fs, deny)[i].blocks[j]) == IdText(ToDecimal(k))
  {
    RecordOfBlock(fs, deny, i, j);
    LabelledBlock(fs, deny, i, j);
    var b, id := fs[i].blocks[j], EligibleBlockCount(fs[..i], deny) + j;
    SetBbIdReadBack(b, id);
    assert Records(fs, deny)[id].basicBlockId == id;
  }

  // ---------------------------------------------------------------------------
  // Reading the CSV text back

  /** No field text holds a comma or a newline, so the file is unambiguous. */
  predicate PlainNames(rs: seq<BasicBlockInfo>) {
    forall k :: 0 <= k < |rs| ==>
      ',' !in rs[k].functionName && '\n' !in rs[k].functionName
      && ',' !in rs[k].basicBlockName && '\n' !in rs[k].basicBlockName
  }

  /** A decimal number holds neither separator. */
  lemma DecimalPlain(n: nat)
    ensures ',' !in ToDecimal(n) && '\n' !in ToDecimal(n)
  {
    var s := ToDecimal(n);
    forall i | 0 <= i < |s| ensures s[i] != ',' && s[i] != '\n' {
      assert IsDigit(s[i]);
    }
  }

  /** A row is its five fields joined by commas. */
  lemma RowIsJoin(r: BasicBlockInfo)
    ensures CsvRow(r) == Join(CsvFields(r), ',')
  {
    var a, b, c, d, e := r.functionName, ToDecimal(r.functionId), r.basicBlockName,
                         ToDecimal(r.basicBlockInstCount), ToDecimal(r.basicBlockId);
    assert [a, b, c, d, e][1..] == [b, c, d, e];
    assert [b, c, d, e][1..] == [c, d, e];
    assert [c, d, e][1..] == [d, e];
    assert [d, e][1..] == [e];
    assert Join([e], ',') == e;
    assert Join([d, e], ',') == d + [','] + e;
    assert Join([c, d, e], ',') == c + [','] + (d + [','] + e);
    assert Join([b, c, d, e], ',') == b + [','] + (c + [','] + (d + [','] + e));
    assert Join([a, b, c, d, e], ',') == a + [','] + (b + [','] + (c + [','] + (d + [','] + e)));
  }

  /** Splitting a row at its commas gives the record's five fields back. */
  lemma RowFields(r: BasicBlockInfo)
    requires ',' !in r.functionName && ',' !in r.basicBlockName
    ensures SplitAll(CsvRow(r), ',') == CsvFields(r)
  {
    RowIsJoin(r);
    DecimalPlain(r.functionId);
    DecimalPlain(r.basicBlockInstCount);
    DecimalPlain(r.basicBlockId);
    SplitJoin(CsvFields(r), ',');
  }

  /** A row with plain names is one line. */
  lemma RowOneLine(r: BasicBlockInfo)
    requires '\n' !in r.functionName && '\n' !in r.basicBlockName
    ensures '\n' !in CsvRow(r)
  {
    DecimalPlain(r.functionId);
    DecimalPlain(r.basicBlockInstCount);
    DecimalPlain(r.basicBlockId);
  }

  /** The numeric fields read back as the record's numbers. */
  lemma FieldsDecode(r: BasicBlockInfo)
    requires r.functionId <= Int64Max && r.basicBlockInstCount <= Int64Max && r.basicBlockId <= Int64Max
    ensures var f := CsvFields(r);
            f[0] == r.functionName && f[2] == r.basicBlockName
            && Stoll(f[1]) == Some(r.functionId as int) && Stoll(f[3]) == Some(r.basicBlockInstCount as int)
            && Stoll(f[4]) == Some(r.basicBlockId as int)
  {
    StollOfDecimal(r.functionId);
    StollOfDecimal(r.basicBlockInstCount);
    StollOfDecimal(r.basicBlockId);
  }

  /** The data rows, each ended by a newline. */
  lemma {:induction false} RowsTextIsJoin(rs: seq<BasicBlockInfo>)
    ensures RowsText(rs) == Join(CsvRows(rs) + [""], '\n')
  {
    if rs == [] {
      assert CsvRows(rs) + [""] == [""];
    } else {
      var pre, x := rs[..|rs| - 1], CsvRow(rs[|rs| - 1]);
      RowsTextIsJoin(pre);
      LineStep(CsvRows(pre), x);
      assert CsvRows(rs) + [""] == CsvRows(pre) + [x] + [""];
    }
  }

  /** One more line, in the newline-terminated layout. */
  lemma LineStep(rows: seq<string>, x: string)
    ensures Join(rows + [""], '\n') + x + "\n" == Join(rows + [x] + [""], '\n')
  {
    JoinSnoc(rows + [x], "", '\n');
    if rows == [] {
      assert rows + [x] == [x];
      assert rows + [""] == [""];
    } else {
      JoinSnoc(rows, x, '\n');
      JoinSnoc(rows, "", '\n');
    }
  }

  /**
   * After the header line, splitting the file into lines gives one row per
   * record in list order, then the empty tail after the last newline.
   */
  lemma RowLines(rs: seq<BasicBlockInfo>)
    requires PlainNames(rs)
    ensures CsvText(rs) == CsvHeader + "\n" + RowsText(rs)
    ensures SplitAll(RowsText(rs), '\n') == CsvRows(rs) + [""]
  {
    RowsTextIsJoin(rs);
    var parts := CsvRows(rs) + [""];
    CsvRowsAt(rs);
    forall i | 0 <= i < |parts| ensures '\n' !in parts[i] {
      if i < |rs| {
        assert parts[i] == CsvRow(rs[i]);
        RowOneLine(rs[i]);
      }
    }
    SplitJoin(parts, '\n');
  }
}
