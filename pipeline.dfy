/**
 * The passes run one after another on the same program: `IRBBLabelPass`
 * first, then `PhaseAnalysisPass` or `PhaseBoundPass` on its output.  These
 * lemmas connect what the labeler writes with what the instrumentors read.
 */
module Pipeline {
  import opened Decimal
  import opened Ir
  import opened BBLabel
  import opened PhaseAnalysis
  import opened PhaseBound

  /**
   * On a labelled module the instrumentors' precondition holds, the ids they
   * read are 0, 1, ..., N - 1 for the N records of the CSV file, and the
   * interval pass inserts exactly N hook calls, so the count it passes to
   * `nugget_init` is the number of CSV rows.
   */
  lemma LabelledThenHooked(fs: seq<Function>, deny: seq<string>, threshold: U64)
    requires AllTerminated(fs, deny) && EligibleBlockCount(fs, deny) <= Int64Max + 1
    ensures var l, n := Labelled(fs, deny), |Records(fs, deny)|;
            var h := Hooked(l, deny, threshold);
            IdsParse(l, deny)
            && ModuleIds(l, deny) == Range(0, n) && |ModuleIds(l, deny)| == n
            && ModuleIds(h, deny) == Range(0, n)
            && ModuleCallCount(h, BbHookName) == ModuleCallCount(l, BbHookName) + n
  {
    var l, n := Labelled(fs, deny), |Records(fs, deny)|;
    LabelledParses(fs, deny);
    LabelledIds(fs, deny);
    RecordsCount(fs, deny);
    RangeAt(0, n);
    HookedKeepsIds(l, deny, threshold);
    HookedCallCount(l, deny, threshold);
  }

  /**
   * The hook call at block `j` of processed function `i` carries the id of
   * that block's CSV record, and the block's size before the call went in.
   */
  lemma HookCarriesRecordId(fs: seq<Function>, deny: seq<string>, threshold: U64, i: nat, j: nat)
    requires AllTerminated(fs, deny) && EligibleBlockCount(fs, deny) <= Int64Max + 1
    requires i < |fs| && Eligible(fs[i], deny) && j < |fs[i].blocks|
    ensures var k := EligibleBlockCount(fs[..i], deny) + j;
            var b := fs[i].blocks[j];
            var l := Labelled(fs, deny);
            k < |Records(fs, deny)| && Records(fs, deny)[k].basicBlockId == k
            && j < |Hooked(l, deny, threshold)[i].blocks|
            && var h := Hooked(l, deny, threshold)[i].blocks[j];
               h.Size() == b.Size() + 1
               && h.insts[b.Size() - 1] == HookCall(BbHookName, [Bits64(b.Size()), Bits64(k), threshold])
  {
    var k := EligibleBlockCount(fs[..i], deny) + j;
    var l := Labelled(fs, deny);
    RecordMatchesAnnotation(fs, deny, i, j);
    LabelledBlock(fs, deny, i, j);
    LabelledEligible(fs, deny, i);
    RecordOfBlock(fs, deny, i, j);
    HookedAt(l, deny, threshold, i, j);
    HookedBlockCall(l, deny, threshold, i, j);
  }

  /** A 64-bit value is among the ids 0, ..., N - 1 exactly when it is below N. */
  lemma Ids64Range(n: nat, x: U64)
    requires n <= Int64Max + 1
    ensures x in Ids64(Range(0, n)) <==> x < n
  {
    RangeAt(0, n);
    var s := Ids64(Range(0, n));
    if x < n {
      assert s[x] == x;
    }
  }

  /**
   * On a labelled module with N blocks, `PhaseBoundPass` finds all its markers
   * exactly when the start id, the end id and (with warmup on) the warmup id
   * are below N.
   */
  lemma LabelledThenBounded(fs: seq<Function>, deny: seq<string>, warmupId: U64, startId: U64, endId: U64,
                            noWarmup: bool, mode: Mode)
    requires AllTerminated(fs, deny) && EligibleBlockCount(fs, deny) <= Int64Max + 1
    ensures var n := |Records(fs, deny)|;
            var r := MarkFunctions(Labelled(fs, deny), deny, InitialPending(warmupId, startId, endId, noWarmup), mode);
            r.1 == [] <==> startId < n && endId < n && (noWarmup || warmupId < n)
  {
    var n := |Records(fs, deny)|;
    MarkersFoundIff(Labelled(fs, deny), deny, warmupId, startId, endId, noWarmup, mode);
    LabelledIds(fs, deny);
    RecordsCount(fs, deny);
    Ids64Range(n, startId);
    Ids64Range(n, endId);
    Ids64Range(n, warmupId);
  }
}
