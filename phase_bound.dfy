/**
 * `PhaseBoundPass`: marks the boundaries of a region of interest.  A work list
 * of two or three markers `(bb_id, role)` — start, end and, when its count is
 * not zero, warmup — is matched against the blocks' `bb.id` annotations in one
 * traversal.  At each matching block one action goes before the terminator: a
 * call to the role's hook, or (label-only mode) an inline-asm label.  The
 * marker is then dropped from the list; the traversal stops when the list is
 * empty and fails if anything remains.  Before all this, `nugget_init(warmup
 * count, start count, end count)` is added to `nugget_roi_begin_`.
 */
module PhaseBound {
  import opened Wrappers
  import opened Decimal
  import opened PassOptions
  import opened Ir

  datatype Role = Warmup | Start | End

  /** What is inserted at a marker block: a hook call, or an inline-asm label. */
  datatype Mode = Call | LabelOnly

  function HookName(role: Role): string {
    match role
    case Warmup => "nugget_warmup_marker_hook"
    case Start => "nugget_start_marker_hook"
    case End => "nugget_end_marker_hook"
  }

  function LabelText(role: Role): string {
    match role
    case Warmup => "nugget_warmup_marker:\n"
    case Start => "nugget_start_marker:\n"
    case End => "nugget_end_marker:\n"
  }

  /** The asm's clobber list: it may touch memory, so nothing is moved across it. */
  const AsmClobbers: string := "~{memory}"

  /** The instruction inserted for a role: a call taking no argument, or a side-effecting asm. */
  function Action(mode: Mode, role: Role): Inst {
    match mode
    case Call => HookCall(HookName(role), [])
    case LabelOnly => Asm(LabelText(role), AsmClobbers, true)
  }

  /** Different roles get different instructions, in either mode. */
  lemma ActionInjective(mode: Mode, r1: Role, r2: Role)
    ensures Action(mode, r1) == Action(mode, r2) <==> r1 == r2
  {
    assert |HookName(Warmup)| == 25 && |HookName(Start)| == 24 && |HookName(End)| == 22;
    assert |LabelText(Warmup)| == 22 && |LabelText(Start)| == 21 && |LabelText(End)| == 19;
  }

  /** An entry of the work list: the id of the block to mark (compared as 64 bits), and for what. */
  datatype Marker = Marker(id: U64, role: Role)

  /**
   * The work list as built by both traversals: start, then end, then warmup
   * when warmup is enabled.
   */
  function InitialPending(warmupId: U64, startId: U64, endId: U64, noWarmup: bool): (p: seq<Marker>)
    ensures |p| == if noWarmup then 2 else 3
    ensures Marker(startId, Start) in p && Marker(endId, End) in p
    ensures Marker(warmupId, Warmup) in p <==> !noWarmup
    ensures forall k :: 0 <= k < |p| ==> p[k].id == IdFor(p[k].role, warmupId, startId, endId)
  {
    var p := [Marker(startId, Start), Marker(endId, End)];
    if noWarmup then p else p + [Marker(warmupId, Warmup)]
  }

  /** The id given for a role. */
  function IdFor(role: Role, warmupId: U64, startId: U64, endId: U64): U64 {
    match role
    case Warmup => warmupId
    case Start => startId
    case End => endId
  }

  /** No role is listed twice, and no id either when the enabled ids differ. */
  lemma InitialPendingDistinct(warmupId: U64, startId: U64, endId: U64, noWarmup: bool)
    ensures DistinctRoles(InitialPending(warmupId, startId, endId, noWarmup))
    ensures startId != endId && (!noWarmup ==> warmupId != startId && warmupId != endId)
            ==> DistinctIds(InitialPending(warmupId, startId, endId, noWarmup))
  {
    var s, e, w := Marker(startId, Start), Marker(endId, End), Marker(warmupId, Warmup);
    if noWarmup {
      assert InitialPending(warmupId, startId, endId, noWarmup) == [s, e];
      assert [s, e][1..] == [e] && [e][1..] == [];
    } else {
      var p := [s, e, w];
      assert InitialPending(warmupId, startId, endId, noWarmup) == p;
      assert p[1..] == [e, w] && [e, w][1..] == [w] && [w][1..] == [];
      assert forall mk :: mk in [e, w] ==> mk == e || mk == w;
      assert forall mk :: mk in [w] ==> mk == w;
      assert DistinctRoles([w]) && DistinctRoles([e, w]);
      assert DistinctIds([w]);
      if startId != endId && warmupId != startId && warmupId != endId {
        assert DistinctIds([e, w]);
      }
    }
  }

  /** No two entries share a role. */
  predicate DistinctRoles(q: seq<Marker>) {
    q == [] || ((forall mk :: mk in q[1..] ==> mk.role != q[0].role) && DistinctRoles(q[1..]))
  }

  /** No two entries share an id. */
  predicate DistinctIds(q: seq<Marker>) {
    q == [] || ((forall mk :: mk in q[1..] ==> mk.id != q[0].id) && DistinctIds(q[1..]))
  }

  /** The entries whose id is not in `seen`, in order: what `remove_if` on the id keeps. */
  function Unmatched(p: seq<Marker>, seen: seq<U64>): (r: seq<Marker>)
    ensures |r| <= |p|
  {
    if p == [] then [] else (if p[0].id in seen then [] else [p[0]]) + Unmatched(p[1..], seen)
  }

  /** The entries whose id is in `seen`, in order. */
  function Matched(p: seq<Marker>, seen: seq<U64>): (r: seq<Marker>)
    ensures |r| <= |p|
  {
    if p == [] then [] else (if p[0].id in seen then [p[0]] else []) + Matched(p[1..], seen)
  }

  /** `Unmatched` keeps exactly the entries whose id is not in `seen`. */
  lemma {:induction false} UnmatchedMembers(p: seq<Marker>, seen: seq<U64>, mk: Marker)
    ensures mk in Unmatched(p, seen) <==> mk in p && mk.id !in seen
  {
    if p != [] {
      UnmatchedMembers(p[1..], seen, mk);
      assert p == [p[0]] + p[1..];
    }
  }

  /** `Matched` keeps exactly the entries whose id is in `seen`. */
  lemma {:induction false} MatchedMembers(p: seq<Marker>, seen: seq<U64>, mk: Marker)
    ensures mk in Matched(p, seen) <==> mk in p && mk.id in seen
  {
    if p != [] {
      MatchedMembers(p[1..], seen, mk);
      assert p == [p[0]] + p[1..];
    }
  }

  /** Index of the first entry with id `x`. */
  function FirstWithId(p: seq<Marker>, x: U64): (r: Option<nat>)
    ensures r.Some? ==> r.value < |p| && p[r.value].id == x && forall k :: 0 <= k < r.value ==> p[k].id != x
    ensures r.None? ==> forall k :: 0 <= k < |p| ==> p[k].id != x
  {
    if p == [] then None
    else if p[0].id == x then Some(0)
    else match FirstWithId(p[1..], x)
      case None => None
      case Some(k) => Some(k + 1)
  }

  /** The ids as the 64-bit values they are compared as (`int64_t == uint64_t` converts to unsigned). */
  function Ids64(ids: seq<int>): (r: seq<U64>)
    ensures |r| == |ids|
  {
    seq(|ids|, k requires 0 <= k < |ids| => Bits64(ids[k]))
  }

  /** Each id becomes its 64-bit unsigned value, in place, so a value is among them exactly when some id converts to it. */
  lemma Ids64Members(ids: seq<int>)
    ensures forall k :: 0 <= k < |ids| ==> Ids64(ids)[k] == Bits64(ids[k])
    ensures forall x :: x in Ids64(ids) <==> exists k :: 0 <= k < |ids| && Bits64(ids[k]) == x
  {
    var r := Ids64(ids);
    forall x | x in r ensures exists k :: 0 <= k < |ids| && Bits64(ids[k]) == x {
      var k :| 0 <= k < |r| && r[k] == x;
      assert Bits64(ids[k]) == x;
    }
    forall x | exists k :: 0 <= k < |ids| && Bits64(ids[k]) == x ensures x in r {
      var k :| 0 <= k < |ids| && Bits64(ids[k]) == x;
      assert r[k] == x;
    }
  }

  // ---------------------------------------------------------------------------
  // The traversal, as a function of the module and the work list

  /**
   * One block: when it carries an id, the first pending entry with that id gets
   * its action before the terminator, and every entry with that id leaves the
   * list.  Blocks with no id, or one nobody waits for, are untouched.
   */
  function MarkBlock(b: Block, p: seq<Marker>, mode: Mode): (Block, seq<Marker>) {
    match BlockId(b)
    case None => (b, p)
    case Some(id) =>
      var x := Bits64(id);
      match FirstWithId(p, x)
      case None => (b, p)
      case Some(k) => (InsertBeforeTerminator(b, Action(mode, p[k].role)), Unmatched(p, [x]))
  }

  function MarkBlocks(bs: seq<Block>, p: seq<Marker>, mode: Mode): (r: (seq<Block>, seq<Marker>))
    ensures |r.0| == |bs|
  {
    if bs == [] then ([], p)
    else
      var a := MarkBlocks(bs[..|bs| - 1], p, mode);
      var s := MarkBlock(bs[|bs| - 1], a.1, mode);
      (a.0 + [s.0], s.1)
  }

  function MarkFunction(f: Function, deny: seq<string>, p: seq<Marker>, mode: Mode): (Function, seq<Marker>) {
    if Eligible(f, deny) then
      var r := MarkBlocks(f.blocks, p, mode);
      (f.(blocks := r.0), r.1)
    else (f, p)
  }

  /** The module after the traversal, and what is still pending at its end. */
  function MarkFunctions(fs: seq<Function>, deny: seq<string>, p: seq<Marker>, mode: Mode): (r: (seq<Function>, seq<Marker>))
    ensures |r.0| == |fs|
  {
    if fs == [] then ([], p)
    else
      var a := MarkFunctions(fs[..|fs| - 1], deny, p, mode);
      var g := MarkFunction(fs[|fs| - 1], deny, a.1, mode);
      (a.0 + [g.0], g.1)
  }

  /** `markers_to_instrument` finds its three hooks: start and end always, warmup when it is enabled. */
  predicate HooksPresent(fs: seq<Function>, noWarmup: bool) {
    (noWarmup || HasFunction(fs, HookName(Warmup)))
    && HasFunction(fs, HookName(Start)) && HasFunction(fs, HookName(End))
  }

  /** The six conversions `run` makes, in its order. */
  const MarkerOptionNames: seq<string> := [
    "warmup_marker_bb_id", "warmup_marker_count",
    "start_marker_bb_id", "start_marker_count",
    "end_marker_bb_id", "end_marker_count"
  ]

  /** `stoull` of each named option in turn; the first one that throws ends it, and its index is the result. */
  function ConvertAll(options: seq<Opt>, names: seq<string>): (r: Result<seq<U64>, nat>)
    ensures r.Success? ==> |r.value| == |names|
                           && forall k :: 0 <= k < |names| ==> Stoull(OptionValue(options, names[k])) == Some(r.value[k])
    ensures r.Failure? ==> r.error < |names| && Stoull(OptionValue(options, names[r.error])).None?
                           && forall j :: 0 <= j < r.error ==> Stoull(OptionValue(options, names[j])).Some?
  {
    if names == [] then Success([])
    else match Stoull(OptionValue(options, names[0]))
      case None => Failure(0)
      case Some(v) =>
        match ConvertAll(options, names[1..])
        case Failure(k) =>
          ConvertFailureShift(options, names, k);
          Failure(k + 1)
        case Success(vs) =>
          ConvertSuccessCons(options, names, v, vs);
          Success([v] + vs)
  }

  /** The first conversion succeeded and conversion `k` of the rest failed: conversion `k + 1` of all fails, after successes. */
  lemma ConvertFailureShift(options: seq<Opt>, names: seq<string>, k: nat)
    requires names != [] && Stoull(OptionValue(options, names[0])).Some?
    requires k < |names| - 1 && Stoull(OptionValue(options, names[1..][k])).None?
    requires forall j :: 0 <= j < k ==> Stoull(OptionValue(options, names[1..][j])).Some?
    ensures Stoull(OptionValue(options, names[k + 1])).None?
    ensures forall j :: 0 <= j < k + 1 ==> Stoull(OptionValue(options, names[j])).Some?
  {
    forall j | 0 <= j < k + 1 ensures Stoull(OptionValue(options, names[j])).Some? {
      if j > 0 {
        assert names[j] == names[1..][j - 1];
      }
    }
    assert names[k + 1] == names[1..][k];
  }

  /** The first conversion gave `v` and the rest gave `vs`: all of them give `[v] + vs`. */
  lemma ConvertSuccessCons(options: seq<Opt>, names: seq<string>, v: U64, vs: seq<U64>)
    requires names != [] && Stoull(OptionValue(options, names[0])) == Some(v)
    requires |vs| == |names| - 1
    requires forall k :: 0 <= k < |names| - 1 ==> Stoull(OptionValue(options, names[1..][k])) == Some(vs[k])
    ensures forall k :: 0 <= k < |names| ==> Stoull(OptionValue(options, names[k])) == Some(([v] + vs)[k])
  {
    forall k | 0 <= k < |names| ensures Stoull(OptionValue(options, names[k])) == Some(([v] + vs)[k]) {
      if k > 0 {
        assert names[k] == names[1..][k - 1] && ([v] + vs)[k] == vs[k - 1];
      }
    }
  }

  class PhaseBoundPass {
    const options: seq<Opt>

    constructor(options: seq<Opt>)
      ensures this.options == options
    {
      this.options := options;
    }

    /**
     * The traversal both `instrumentMarkerBBs` and `labelMarkerBBs` make:
     * eligible functions in order, their blocks in order, until the work list
     * is empty.  `ok` says whether it emptied.
     */
    method Traverse(m: IRModule, deny: seq<string>, pending: seq<Marker>, mode: Mode) returns (ok: bool)
      requires IdsParse(m.functions, deny)
      modifies m
      ensures var r := MarkFunctions(old(m.functions), deny, pending, mode);
              m.functions == r.0 && ok == (r.1 == [])
    {
      ghost var fs0 := m.functions;
      ghost var done: seq<Function> := [];
      var rest := pending;
      var fi := 0;
      while fi < |m.functions|
        invariant 0 <= fi <= |fs0| == |m.functions|
        invariant |done| == fi && m.functions == done + fs0[fi..]
        invariant done == MarkFunctions(fs0[..fi], deny, pending, mode).0
        invariant rest == MarkFunctions(fs0[..fi], deny, pending, mode).1
      {
        assert m.functions[fi] == fs0[fi];
        var f := m.functions[fi];
        if f.IsDeclaration() || f.name in deny {
          MarkFunctionsNext(fs0, deny, pending, mode, fi, done, rest, f, rest);
          Splice(done, fs0[fi..], f);
          done := done + [f];
          fi := fi + 1;
          continue;
        }
        assert BlocksParse(f.blocks);
        var rest' := MarkFunctionBlocks(m, fi, rest, mode);
        MarkFunctionsNext(fs0, deny, pending, mode, fi, done, rest, m.functions[fi], rest');
        Splice(done, fs0[fi..], m.functions[fi]);
        done, rest := done + [m.functions[fi]], rest';
        fi := fi + 1;
        if rest == [] {
          break;
        }
      }
      if rest == [] {
        MarkFunctionsStopped(fs0, deny, pending, mode, fi);
      } else {
        assert fs0[..fi] == fs0;
      }
      return rest == [];
    }

    /** The block loop for function `fi`; returns what is still pending, and stops once nothing is. */
    method MarkFunctionBlocks(m: IRModule, fi: nat, pending: seq<Marker>, mode: Mode) returns (rest: seq<Marker>)
      requires fi < |m.functions|
      requires BlocksParse(m.functions[fi].blocks)
      modifies m
      ensures var f := old(m.functions[fi]);
              var r := MarkBlocks(f.blocks, pending, mode);
              m.functions == old(m.functions)[fi := f.(blocks := r.0)] && rest == r.1
    {
      var f := m.functions[fi];
      ghost var pre := m.functions;
      ghost var done: seq<Block> := [];
      rest := pending;
      var bi := 0;
      assert [] + f.blocks[bi..] == f.blocks && pre[fi := f.(blocks := f.blocks)] == pre;
      while bi < |f.blocks|
        invariant 0 <= bi <= |f.blocks|
        invariant |done| == bi && m.functions == pre[fi := f.(blocks := done + f.blocks[bi..])]
        invariant done == MarkBlocks(f.blocks[..bi], pending, mode).0
        invariant rest == MarkBlocks(f.blocks[..bi], pending, mode).1
      {
        var b := f.blocks[bi];
        assert Parses(b);
        var nb, rest' := MarkOneBlock(b, rest, mode);
        MarkBlocksNext(f.blocks, pending, mode, bi, done, rest, nb, rest');
        var g := m.functions[fi];
        m.functions := m.functions[fi := g.(blocks := g.blocks[bi := nb])];
        SpliceBlock(pre, fi, f, done, bi, nb);
        done, rest := done + [nb], rest';
        bi := bi + 1;
        if rest == [] {
          break;
        }
      }
      MarkBlocksFinished(f.blocks, pending, mode, bi);
      assert MarkBlocks(f.blocks, pending, mode).0 == done + f.blocks[bi..];
    }

    /**
     * One block: read its `bb.id`, look for a pending entry with that id, and
     * when there is one insert its action and drop every entry with that id.
     */
    method MarkOneBlock(b: Block, pending: seq<Marker>, mode: Mode) returns (nb: Block, rest: seq<Marker>)
      requires Parses(b)
      ensures (nb, rest) == MarkBlock(b, pending, mode)
    {
      nb, rest := b, pending;
      var a := ReadAnnotation(b);
      if a.IdText? {
        var x := Bits64(Stoll(a.text).value);
        var k := FindMarker(pending, x);
        if k.Some? {
          nb := InsertBeforeTerminator(b, Action(mode, pending[k.value].role));
          rest := Unmatched(pending, [x]);
        }
      }
    }

    /** The scan of the work list for the block's id: the first entry that has it. */
    method FindMarker(pending: seq<Marker>, x: U64) returns (k: Option<nat>)
      ensures k == FirstWithId(pending, x)
    {
      var i := 0;
      while i < |pending| && pending[i].id != x
        invariant 0 <= i <= |pending|
        invariant forall j :: 0 <= j < i ==> pending[j].id != x
      {
        i := i + 1;
      }
      FirstWithIdIs(pending, x, i);
      return if i < |pending| then Some(i) else None;
    }

    /**
     * `instrumentMarkerBBs`: fails, before touching anything, when a hook it
     * needs is missing; otherwise calls each marker's hook at its block and
     * says whether every marker was found.
     */
    method InstrumentMarkerBBs(m: IRModule, deny: seq<string>, warmupId: U64, startId: U64, endId: U64, noWarmup: bool)
      returns (ok: bool)
      requires IdsParse(m.functions, deny)
      modifies m
      ensures var fs := old(m.functions);
              if !HooksPresent(fs, noWarmup) then !ok && m.functions == fs
              else
                var r := MarkFunctions(fs, deny, InitialPending(warmupId, startId, endId, noWarmup), Call);
                m.functions == r.0 && ok == (r.1 == [])
    {
      if FindFunction(m.functions, HookName(Warmup)).None? && !noWarmup {
        return false;
      }
      if FindFunction(m.functions, HookName(Start)).None? {
        return false;
      }
      if FindFunction(m.functions, HookName(End)).None? {
        return false;
      }
      var pending := [Marker(startId, Start), Marker(endId, End)];
      if !noWarmup {
        pending := pending + [Marker(warmupId, Warmup)];
      }
      ok := Traverse(m, deny, pending, Call);
    }

    /** `labelMarkerBBs`: puts each marker's asm label at its block; says whether every marker was found. */
    method LabelMarkerBBs(m: IRModule, deny: seq<string>, warmupId: U64, startId: U64, endId: U64, noWarmup: bool)
      returns (ok: bool)
      requires IdsParse(m.functions, deny)
      modifies m
      ensures var r := MarkFunctions(old(m.functions), deny, InitialPending(warmupId, startId, endId, noWarmup), LabelOnly);
              m.functions == r.0 && ok == (r.1 == [])
    {
      var pending := [Marker(startId, Start), Marker(endId, End)];
      if !noWarmup {
        pending := pending + [Marker(warmupId, Warmup)];
      }
      ok := Traverse(m, deny, pending, LabelOnly);
    }

    /**
     * `PhaseBoundPass::run`: converts the six options, adds `nugget_init` with
     * the three counts, then marks the blocks in the given mode; warmup is
     * disabled exactly when its count is 0.  Each failure ends the run.
     */
    method Run(m: IRModule, deny: seq<string>, mode: Mode) returns (status: Status)
      requires IdsParse(m.functions, deny)
      modifies m
      ensures var fs := old(m.functions);
              match ConvertAll(options, MarkerOptionNames)
              case Failure(k) => status == Uncaught(MarkerOptionNames[k]) && m.functions == fs
              case Success(v) =>
                var noWarmup := v[1] == 0;
                var p := InitialPending(v[0], v[2], v[4], noWarmup);
                if !RoiBeginReady(fs) then
                  status == Fatal("Error instrumenting nugget_roi_begin_") && m.functions == fs
                else
                  var h := InsertInit(fs, [v[1], v[3], v[5]]);
                  match mode
                  case LabelOnly =>
                    var r := MarkFunctions(h, deny, p, LabelOnly);
                    m.functions == r.0
                    && status == if r.1 == [] then Completed else Fatal("Error labeling marker basic blocks")
                  case Call =>
                    if !HooksPresent(h, noWarmup) then
                      m.functions == h && status == Fatal("Error instrumenting marker basic blocks")
                    else
                      var r := MarkFunctions(h, deny, p, Call);
                      m.functions == r.0
                      && status == if r.1 == [] then Completed else Fatal("Error instrumenting marker basic blocks")
    {
      var values := ConvertAll(options, MarkerOptionNames);
      if values.Failure? {
        return Uncaught(MarkerOptionNames[values.error]);
      }
      var v := values.value;
      var warmupId, warmupCount, startId, startCount, endId, endCount := v[0], v[1], v[2], v[3], v[4], v[5];
      ghost var fs := m.functions;
      var ok := m.InstrumentRoiBegin([warmupCount, startCount, endCount]);
      if !ok {
        return Fatal("Error instrumenting nugget_roi_begin_");
      }
      InsertInitParses(fs, [warmupCount, startCount, endCount], deny);
      if mode == LabelOnly {
        ok := LabelMarkerBBs(m, deny, warmupId, startId, endId, warmupCount == 0);
        if !ok {
          return Fatal("Error labeling marker basic blocks");
        }
        return Completed;
      }
      ok := InstrumentMarkerBBs(m, deny, warmupId, startId, endId, warmupCount == 0);
      if !ok {
        return Fatal("Error instrumenting marker basic blocks");
      }
      return Completed;
    }
  }

  // ---------------------------------------------------------------------------
  // Steps of the traversal

  lemma FirstWithIdIs(p: seq<Marker>, x: U64, k: nat)
    requires k <= |p| && (k < |p| ==> p[k].id == x) && forall j :: 0 <= j < k ==> p[j].id != x
    ensures FirstWithId(p, x) == if k < |p| then Some(k) else None
  {
    var r := FirstWithId(p, x);
    if r.Some? {
      assert r.value >= k;
    }
  }

  lemma MarkBlocksStep(bs: seq<Block>, p: seq<Marker>, mode: Mode, j: nat)
    requires j < |bs|
    ensures var a := MarkBlocks(bs[..j], p, mode);
            var s := MarkBlock(bs[j], a.1, mode);
            MarkBlocks(bs[..j + 1], p, mode) == (a.0 + [s.0], s.1)
  {
    assert bs[..j + 1][..j] == bs[..j];
  }

  /** The block loop's invariant carried over one block. */
  lemma MarkBlocksNext(bs: seq<Block>, p: seq<Marker>, mode: Mode, j: nat,
                       done: seq<Block>, rest: seq<Marker>, nb: Block, rest': seq<Marker>)
    requires j < |bs|
    requires done == MarkBlocks(bs[..j], p, mode).0 && rest == MarkBlocks(bs[..j], p, mode).1
    requires (nb, rest') == MarkBlock(bs[j], rest, mode)
    ensures done + [nb] == MarkBlocks(bs[..j + 1], p, mode).0 && rest' == MarkBlocks(bs[..j + 1], p, mode).1
  {
    MarkBlocksStep(bs, p, mode, j);
  }

  /** Writing block `j` of function `i` back extends the marked prefix of its blocks by one. */
  lemma SpliceBlock(fs: seq<Function>, i: nat, f: Function, done: seq<Block>, j: nat, nb: Block)
    requires i < |fs| && |done| == j < |f.blocks|
    ensures var g := f.(blocks := done + f.blocks[j..]);
            fs[i := g][i := g.(blocks := g.blocks[j := nb])] == fs[i := f.(blocks := (done + [nb]) + f.blocks[j + 1..])]
  {
    Splice(done, f.blocks[j..], nb);
    assert f.blocks[j..][1..] == f.blocks[j + 1..];
  }

  lemma MarkFunctionsStep(fs: seq<Function>, deny: seq<string>, p: seq<Marker>, mode: Mode, i: nat)
    requires i < |fs|
    ensures var a := MarkFunctions(fs[..i], deny, p, mode);
            var g := MarkFunction(fs[i], deny, a.1, mode);
            MarkFunctions(fs[..i + 1], deny, p, mode) == (a.0 + [g.0], g.1)
  {
    assert fs[..i + 1][..i] == fs[..i];
  }

  /** The function loop's invariant carried over one function. */
  lemma MarkFunctionsNext(fs: seq<Function>, deny: seq<string>, p: seq<Marker>, mode: Mode, i: nat,
                          done: seq<Function>, rest: seq<Marker>, g: Function, rest': seq<Marker>)
    requires i < |fs|
    requires done == MarkFunctions(fs[..i], deny, p, mode).0 && rest == MarkFunctions(fs[..i], deny, p, mode).1
    requires (g, rest') == MarkFunction(fs[i], deny, rest, mode)
    ensures done + [g] == MarkFunctions(fs[..i + 1], deny, p, mode).0 && rest' == MarkFunctions(fs[..i + 1], deny, p, mode).1
  {
    MarkFunctionsStep(fs, deny, p, mode, i);
  }

  lemma MarkBlockEmpty(b: Block, mode: Mode)
    ensures MarkBlock(b, [], mode) == (b, [])
  {
    if BlockId(b).Some? {
      assert FirstWithId([], Bits64(BlockId(b).value)) == None;
    }
  }

  /** With nothing pending the traversal changes nothing. */
  lemma {:induction false} MarkBlocksEmpty(bs: seq<Block>, mode: Mode)
    ensures MarkBlocks(bs, [], mode) == (bs, [])
  {
    if bs != [] {
      var pre := bs[..|bs| - 1];
      MarkBlocksEmpty(pre, mode);
      MarkBlockEmpty(bs[|bs| - 1], mode);
      assert bs == pre + [bs[|bs| - 1]];
    }
  }

  /**
   * Once the work list is empty after the first `n` blocks, the rest are left
   * as they are: stopping there is the same as going on.
   */
  lemma {:induction false} MarkBlocksStopped(bs: seq<Block>, p: seq<Marker>, mode: Mode, n: nat)
    requires n <= |bs| && MarkBlocks(bs[..n], p, mode).1 == []
    ensures MarkBlocks(bs, p, mode) == (MarkBlocks(bs[..n], p, mode).0 + bs[n..], [])
    decreases |bs|
  {
    if |bs| == n {
      assert bs[..n] == bs && bs[n..] == [];
      var r := MarkBlocks(bs, p, mode);
      assert r.0 + [] == r.0;
    } else {
      var pre := bs[..|bs| - 1];
      assert pre[..n] == bs[..n];
      MarkBlocksStopped(pre, p, mode, n);
      MarkBlocksStoppedStep(bs, p, mode, n);
    }
  }

  /** One more block after the work list ran out changes nothing. */
  lemma MarkBlocksStoppedStep(bs: seq<Block>, p: seq<Marker>, mode: Mode, n: nat)
    requires n < |bs|
    requires MarkBlocks(bs[..|bs| - 1], p, mode) == (MarkBlocks(bs[..n], p, mode).0 + bs[n..|bs| - 1], [])
    ensures MarkBlocks(bs, p, mode) == (MarkBlocks(bs[..n], p, mode).0 + bs[n..], [])
  {
    var pre, z := bs[..|bs| - 1], bs[|bs| - 1];
    MarkBlockEmpty(z, mode);
    var done := MarkBlocks(bs[..n], p, mode).0;
    assert bs[n..] == bs[n..|bs| - 1] + [z];
    assert (done + bs[n..|bs| - 1]) + [z] == done + bs[n..];
  }

  /** Where the block loop leaves off, at the end of the function or with nothing pending, the rest of the blocks stay as they are. */
  lemma MarkBlocksFinished(bs: seq<Block>, p: seq<Marker>, mode: Mode, n: nat)
    requires n <= |bs| && (n == |bs| || MarkBlocks(bs[..n], p, mode).1 == [])
    ensures MarkBlocks(bs, p, mode).0 == MarkBlocks(bs[..n], p, mode).0 + bs[n..]
    ensures MarkBlocks(bs, p, mode).1 == MarkBlocks(bs[..n], p, mode).1
  {
    if n == |bs| {
      assert bs[..n] == bs && bs[n..] == [];
      var r := MarkBlocks(bs, p, mode);
      assert r.0 + [] == r.0;
    } else {
      MarkBlocksStopped(bs, p, mode, n);
    }
  }

  /** Once the work list is empty after the first `n` functions, the rest of the module is left as it is. */
  lemma {:induction false} MarkFunctionsStopped(fs: seq<Function>, deny: seq<string>, p: seq<Marker>, mode: Mode, n: nat)
    requires n <= |fs| && MarkFunctions(fs[..n], deny, p, mode).1 == []
    ensures MarkFunctions(fs, deny, p, mode) == (MarkFunctions(fs[..n], deny, p, mode).0 + fs[n..], [])
    decreases |fs|
  {
    if |fs| == n {
      assert fs[..n] == fs && fs[n..] == [];
      var r := MarkFunctions(fs, deny, p, mode);
      assert r.0 + [] == r.0;
    } else {
      var pre := fs[..|fs| - 1];
      var f := fs[|fs| - 1];
      assert pre[..n] == fs[..n];
      MarkFunctionsStopped(pre, deny, p, mode, n);
      MarkBlocksEmpty(f.blocks, mode);
      assert f.(blocks := f.blocks) == f;
      assert MarkFunction(f, deny, [], mode) == (f, []);
      var done := MarkFunctions(fs[..n], deny, p, mode).0;
      assert fs[n..] == pre[n..] + [f];
      assert (done + pre[n..]) + [f] == done + fs[n..];
    }
  }

  // ---------------------------------------------------------------------------
  // What remains pending

  lemma {:induction false} UnmatchedKeepsAll(p: seq<Marker>, s: seq<U64>)
    requires forall k :: 0 <= k < |p| ==> p[k].id !in s
    ensures Unmatched(p, s) == p
  {
    if p != [] {
      UnmatchedKeepsAll(p[1..], s);
    }
  }

  lemma {:induction false} UnmatchedAppend(p: seq<Marker>, s: seq<U64>, t: seq<U64>)
    ensures Unmatched(Unmatched(p, s), t) == Unmatched(p, s + t)
  {
    if p != [] {
      var p0, p', u := p[0], p[1..], Unmatched(p[1..], s);
      UnmatchedAppend(p', s, t);
      assert (p0.id in s + t) == (p0.id in s || p0.id in t);
      if p0.id in s {
        assert Unmatched(p, s) == u;
        assert Unmatched(p, s + t) == Unmatched(p', s + t);
      } else {
        assert Unmatched(p, s) == [p0] + u;
        assert ([p0] + u)[0] == p0 && ([p0] + u)[1..] == u;
        if p0.id in t {
          assert Unmatched([p0] + u, t) == Unmatched(u, t);
          assert Unmatched(p, s + t) == Unmatched(p', s + t);
        } else {
          assert Unmatched([p0] + u, t) == [p0] + Unmatched(u, t);
          assert Unmatched(p, s + t) == [p0] + Unmatched(p', s + t);
        }
      }
    }
  }

  lemma Ids64Append(a: seq<int>, b: seq<int>)
    ensures Ids64(a + b) == Ids64(a) + Ids64(b)
  {
  }

  lemma MarkBlockPending(b: Block, p: seq<Marker>, mode: Mode)
    ensures MarkBlock(b, p, mode).1 == Unmatched(p, Ids64(BlockIds([b])))
  {
    BlockIdsSingle(b);
    match BlockId(b)
    case None =>
      UnmatchedKeepsAll(p, []);
    case Some(id) =>
      assert Ids64([id]) == [Bits64(id)];
      if FirstWithId(p, Bits64(id)).None? {
        UnmatchedKeepsAll(p, [Bits64(id)]);
      }
  }

  lemma {:induction false} MarkBlocksPending(bs: seq<Block>, p: seq<Marker>, mode: Mode)
    ensures MarkBlocks(bs, p, mode).1 == Unmatched(p, Ids64(BlockIds(bs)))
  {
    if bs == [] {
      UnmatchedKeepsAll(p, []);
    } else {
      var pre, z := bs[..|bs| - 1], bs[|bs| - 1];
      MarkBlocksPending(pre, p, mode);
      var a := MarkBlocks(pre, p, mode);
      MarkBlockPending(z, a.1, mode);
      UnmatchedAppend(p, Ids64(BlockIds(pre)), Ids64(BlockIds([z])));
      BlockIdsLast(bs);
    }
  }

  /** The ids a function contributes to the traversal: none unless it is eligible. */
  function VisitedIds(g: Function, deny: seq<string>): seq<int> {
    if Eligible(g, deny) then BlockIds(g.blocks) else []
  }

  lemma {:induction false} MarkFunctionsPending(fs: seq<Function>, deny: seq<string>, p: seq<Marker>, mode: Mode)
    ensures MarkFunctions(fs, deny, p, mode).1 == Unmatched(p, Ids64(ModuleIds(fs, deny)))
  {
    if fs == [] {
      UnmatchedKeepsAll(p, []);
    } else {
      var pre, g := fs[..|fs| - 1], fs[|fs| - 1];
      MarkFunctionsPending(pre, deny, p, mode);
      var a := MarkFunctions(pre, deny, p, mode);
      MarkFunctionPending(g, deny, a.1, mode);
      UnmatchedAppend(p, Ids64(ModuleIds(pre, deny)), Ids64(VisitedIds(g, deny)));
      ModuleIdsLast(fs, deny);
    }
  }

  lemma MarkFunctionPending(g: Function, deny: seq<string>, q: seq<Marker>, mode: Mode)
    ensures MarkFunction(g, deny, q, mode).1 == Unmatched(q, Ids64(VisitedIds(g, deny)))
  {
    if Eligible(g, deny) {
      MarkBlocksPending(g.blocks, q, mode);
    } else {
      UnmatchedKeepsAll(q, []);
    }
  }

  lemma BlockIdsLast(bs: seq<Block>)
    requires bs != []
    ensures Ids64(BlockIds(bs)) == Ids64(BlockIds(bs[..|bs| - 1])) + Ids64(BlockIds([bs[|bs| - 1]]))
  {
    var pre, z := bs[..|bs| - 1], bs[|bs| - 1];
    assert bs == pre + [z];
    BlockIdsAppend(pre, [z]);
    Ids64Append(BlockIds(pre), BlockIds([z]));
  }

  /** The ids of a module are those of all but its last function, then the last function's. */
  lemma ModuleIdsLast(fs: seq<Function>, deny: seq<string>)
    requires fs != []
    ensures Ids64(ModuleIds(fs, deny)) == Ids64(ModuleIds(fs[..|fs| - 1], deny)) + Ids64(VisitedIds(fs[|fs| - 1], deny))
  {
    var pre, g := fs[..|fs| - 1], fs[|fs| - 1];
    assert fs == pre + [g];
    ModuleIdsSnoc(pre, g, deny);
    Ids64Append(ModuleIds(pre, deny), VisitedIds(g, deny));
  }

  /**
   * What is pending at the end is exactly the entries whose id no visited block
   * carries: the traversal succeeds exactly when every entry's id is found.
   */
  lemma AllFoundIff(fs: seq<Function>, deny: seq<string>, p: seq<Marker>, mode: Mode)
    ensures MarkFunctions(fs, deny, p, mode).1 == Unmatched(p, Ids64(ModuleIds(fs, deny)))
    ensures MarkFunctions(fs, deny, p, mode).1 == [] <==> forall mk :: mk in p ==> mk.id in Ids64(ModuleIds(fs, deny))
  {
    MarkFunctionsPending(fs, deny, p, mode);
    var s := Ids64(ModuleIds(fs, deny));
    var r := Unmatched(p, s);
    if r != [] {
      UnmatchedMembers(p, s, r[0]);
    } else {
      forall mk | mk in p ensures mk.id in s {
        UnmatchedMembers(p, s, mk);
      }
    }
  }

  /**
   * For the work list the pass builds: the markers are all found exactly when
   * the module carries the start id, the end id and, when warmup is enabled,
   * the warmup id.
   */
  lemma MarkersFoundIff(fs: seq<Function>, deny: seq<string>, warmupId: U64, startId: U64, endId: U64, noWarmup: bool, mode: Mode)
    ensures var s := Ids64(ModuleIds(fs, deny));
            MarkFunctions(fs, deny, InitialPending(warmupId, startId, endId, noWarmup), mode).1 == []
            <==> startId in s && endId in s && (noWarmup || warmupId in s)
  {
    var p := InitialPending(warmupId, startId, endId, noWarmup);
    AllFoundIff(fs, deny, p, mode);
    var s := Ids64(ModuleIds(fs, deny));
    if startId in s && endId in s && (noWarmup || warmupId in s) {
      forall mk | mk in p ensures mk.id in s {
        if mk.role == Warmup {
          assert mk == Marker(warmupId, Warmup);
        }
      }
    }
  }

  // ---------------------------------------------------------------------------
  // What the traversal does to the blocks

  /**
   * A block that carries an id somebody waits for gets exactly one new
   * instruction, the action of the first such entry, immediately before its
   * unchanged terminator; the entries with that id leave the list.  Any other
   * block, and the list, are left alone.  The annotation is only read.
   */
  lemma MarkBlockShape(b: Block, p: seq<Marker>, mode: Mode)
    ensures var r := MarkBlock(b, p, mode);
            r.0.name == b.name && ReadAnnotation(r.0) == ReadAnnotation(b) && BlockId(r.0) == BlockId(b)
            && (BlockId(b).None? || FirstWithId(p, Bits64(BlockId(b).value)).None? ==> r == (b, p))
            && (BlockId(b).Some? && FirstWithId(p, Bits64(BlockId(b).value)).Some? ==>
                  var x := Bits64(BlockId(b).value);
                  var k := FirstWithId(p, x).value;
                  var n := b.Size();
                  r.0.Size() == n + 1 && r.0.insts[..n - 1] == b.insts[..n - 1]
                  && r.0.insts[n - 1] == Action(mode, p[k].role) && r.0.insts[n] == b.insts[n - 1]
                  && r.1 == Unmatched(p, [x]) && |r.1| < |p|)
  {
    if BlockId(b).Some? && FirstWithId(p, Bits64(BlockId(b).value)).Some? {
      var k := FirstWithId(p, Bits64(BlockId(b).value)).value;
      UnmatchedShorter(p, [Bits64(BlockId(b).value)], k);
    }
  }

  lemma {:induction false} UnmatchedShorter(p: seq<Marker>, s: seq<U64>, k: nat)
    requires k < |p| && p[k].id in s
    ensures |Unmatched(p, s)| < |p|
  {
    if k > 0 {
      UnmatchedShorter(p[1..], s, k - 1);
    }
  }

  lemma {:induction false} MarkBlocksKeepIds(bs: seq<Block>, p: seq<Marker>, mode: Mode)
    ensures SameBlockIds(MarkBlocks(bs, p, mode).0, bs)
  {
    if bs != [] {
      var pre, z := bs[..|bs| - 1], bs[|bs| - 1];
      MarkBlocksKeepIds(pre, p, mode);
      var a := MarkBlocks(pre, p, mode);
      MarkBlockShape(z, a.1, mode);
      var r := MarkBlocks(bs, p, mode).0;
      forall j | 0 <= j < |bs| ensures BlockId(r[j]) == BlockId(bs[j]) {
        if j < |pre| {
          assert r[j] == a.0[j] && bs[j] == pre[j];
        }
      }
    }
  }

  /** Markers are only read: the marked module carries the same ids in the same places. */
  lemma {:induction false} MarkFunctionsKeepIds(fs: seq<Function>, deny: seq<string>, p: seq<Marker>, mode: Mode)
    ensures SameIds(MarkFunctions(fs, deny, p, mode).0, fs)
  {
    if fs != [] {
      var pre, g := fs[..|fs| - 1], fs[|fs| - 1];
      MarkFunctionsKeepIds(pre, deny, p, mode);
      var a := MarkFunctions(pre, deny, p, mode);
      if Eligible(g, deny) {
        MarkBlocksKeepIds(g.blocks, a.1, mode);
      }
      var r := MarkFunctions(fs, deny, p, mode).0;
      assert r[|pre|].name == g.name && SameBlockIds(r[|pre|].blocks, g.blocks);
      forall i | 0 <= i < |pre| ensures r[i].name == fs[i].name && SameBlockIds(r[i].blocks, fs[i].blocks) {
        assert r[i] == a.0[i] && fs[i] == pre[i];
      }
    }
  }

  // ---------------------------------------------------------------------------
  // Which instructions are added

  /** Every instruction of the blocks, with multiplicity. */
  function BlocksInsts(bs: seq<Block>): multiset<Inst> {
    if bs == [] then multiset{} else BlocksInsts(bs[..|bs| - 1]) + multiset(bs[|bs| - 1].insts)
  }

  /** Every instruction of the module, with multiplicity. */
  function ModuleInsts(fs: seq<Function>): multiset<Inst> {
    if fs == [] then multiset{} else ModuleInsts(fs[..|fs| - 1]) + BlocksInsts(fs[|fs| - 1].blocks)
  }

  /** One action for each entry. */
  function ActionsOf(mode: Mode, q: seq<Marker>): multiset<Inst> {
    if q == [] then multiset{} else multiset{Action(mode, q[0].role)} + ActionsOf(mode, q[1..])
  }

  lemma {:induction false} ActionsOfAppend(mode: Mode, a: seq<Marker>, b: seq<Marker>)
    ensures ActionsOf(mode, a + b) == ActionsOf(mode, a) + ActionsOf(mode, b)
  {
    if a != [] {
      assert (a + b)[1..] == a[1..] + b;
      ActionsOfAppend(mode, a[1..], b);
    } else {
      assert a + b == b;
    }
  }

  lemma InsertInsts(b: Block, inst: Inst)
    requires b.HasTerminator()
    ensures multiset(InsertBeforeTerminator(b, inst).insts) == multiset(b.insts) + multiset{inst}
  {
    var n := |b.insts|;
    assert b.insts == b.insts[..n - 1] + [b.insts[n - 1]];
  }

  /** With distinct ids, the entry a block matches is the only one with that id. */
  lemma {:induction false} MatchedSingle(q: seq<Marker>, k: nat, x: U64)
    requires DistinctIds(q) && k < |q| && q[k].id == x
    ensures Matched(q, [x]) == [q[k]]
  {
    if k == 0 {
      forall j | 0 <= j < |q[1..]| ensures q[1..][j].id !in [x] {
        assert q[1..][j] in q[1..];
      }
      MatchedNone(q[1..], [x]);
    } else {
      assert q[k] == q[1..][k - 1] && q[k] in q[1..];
      MatchedSingle(q[1..], k - 1, x);
    }
  }

  lemma {:induction false} MatchedNone(q: seq<Marker>, s: seq<U64>)
    requires forall k :: 0 <= k < |q| ==> q[k].id !in s
    ensures Matched(q, s) == []
  {
    if q != [] {
      MatchedNone(q[1..], s);
    }
  }

  lemma {:induction false} UnmatchedDistinct(q: seq<Marker>, s: seq<U64>)
    requires DistinctIds(q)
    ensures DistinctIds(Unmatched(q, s))
  {
    if q != [] {
      UnmatchedDistinct(q[1..], s);
      var u := Unmatched(q[1..], s);
      if q[0].id in s {
        assert Unmatched(q, s) == u;
      } else {
        assert Unmatched(q, s) == [q[0]] + u;
        assert ([q[0]] + u)[1..] == u && ([q[0]] + u)[0] == q[0];
        forall mk | mk in u ensures mk.id != q[0].id {
          UnmatchedMembers(q[1..], s, mk);
        }
      }
    }
  }

  /** The entries matched by `s` then by `t` are those matched by `s + t`, counted as actions. */
  lemma {:induction false} MatchedSplit(mode: Mode, q: seq<Marker>, s: seq<U64>, t: seq<U64>)
    ensures ActionsOf(mode, Matched(q, s + t))
            == ActionsOf(mode, Matched(q, s)) + ActionsOf(mode, Matched(Unmatched(q, s), t))
  {
    if q != [] {
      var q0, q' := q[0], q[1..];
      MatchedSplit(mode, q', s, t);
      var u := Unmatched(q', s);
      assert (q0.id in s + t) == (q0.id in s || q0.id in t);
      if q0.id in s {
        assert Matched(q, s + t) == [q0] + Matched(q', s + t);
        assert Matched(q, s) == [q0] + Matched(q', s);
        assert Unmatched(q, s) == u;
        ActionsOfCons(mode, q0, Matched(q', s + t));
        ActionsOfCons(mode, q0, Matched(q', s));
      } else {
        assert Matched(q, s) == Matched(q', s);
        assert Unmatched(q, s) == [q0] + u;
        assert ([q0] + u)[1..] == u && ([q0] + u)[0] == q0;
        if q0.id in t {
          assert Matched(q, s + t) == [q0] + Matched(q', s + t);
          assert Matched([q0] + u, t) == [q0] + Matched(u, t);
          ActionsOfCons(mode, q0, Matched(q', s + t));
          ActionsOfCons(mode, q0, Matched(u, t));
        } else {
          assert Matched(q, s + t) == Matched(q', s + t);
          assert Matched([q0] + u, t) == Matched(u, t);
        }
      }
    }
  }

  lemma ActionsOfCons(mode: Mode, x: Marker, q: seq<Marker>)
    ensures ActionsOf(mode, [x] + q) == multiset{Action(mode, x.role)} + ActionsOf(mode, q)
  {
    assert ([x] + q)[1..] == q;
  }

  lemma MarkBlockInsts(b: Block, q: seq<Marker>, mode: Mode)
    requires DistinctIds(q)
    ensures multiset(MarkBlock(b, q, mode).0.insts) == multiset(b.insts) + ActionsOf(mode, Matched(q, Ids64(BlockIds([b]))))
  {
    BlockIdsSingle(b);
    if BlockId(b).None? {
      assert MarkBlock(b, q, mode).0 == b;
      MatchedNone(q, []);
    } else {
      var x := Bits64(BlockId(b).value);
      assert Ids64(BlockIds([b])) == [x];
      var f := FirstWithId(q, x);
      if f.None? {
        assert MarkBlock(b, q, mode).0 == b;
        MatchedNone(q, [x]);
      } else {
        assert MarkBlock(b, q, mode).0 == InsertBeforeTerminator(b, Action(mode, q[f.value].role));
        ActedInsts(b, q, mode, f.value, x);
      }
    }
  }

  /** The block acted on gains the action of the one entry with its id. */
  lemma ActedInsts(b: Block, q: seq<Marker>, mode: Mode, k: nat, x: U64)
    requires b.HasTerminator() && DistinctIds(q) && k < |q| && q[k].id == x
    ensures multiset(InsertBeforeTerminator(b, Action(mode, q[k].role)).insts)
            == multiset(b.insts) + ActionsOf(mode, Matched(q, [x]))
  {
    MatchedSingle(q, k, x);
    InsertInsts(b, Action(mode, q[k].role));
    assert [q[k]][1..] == [];
  }

  lemma {:induction false} MarkBlocksInsts(bs: seq<Block>, q: seq<Marker>, mode: Mode)
    requires DistinctIds(q)
    ensures BlocksInsts(MarkBlocks(bs, q, mode).0) == BlocksInsts(bs) + ActionsOf(mode, Matched(q, Ids64(BlockIds(bs))))
  {
    if bs == [] {
      MatchedNone(q, []);
    } else {
      var pre := bs[..|bs| - 1];
      MarkBlocksInsts(pre, q, mode);
      LastBlockInsts(bs, q, mode);
      BlocksIdsSplit(bs, q, mode);
    }
  }

  /** The last block of `bs` gains the actions for the entries still pending that its id matches. */
  lemma LastBlockInsts(bs: seq<Block>, q: seq<Marker>, mode: Mode)
    requires bs != [] && DistinctIds(q)
    ensures var pre, z := bs[..|bs| - 1], bs[|bs| - 1];
            var a := MarkBlocks(pre, q, mode);
            var r := MarkBlocks(bs, q, mode).0;
            BlocksInsts(r) == BlocksInsts(a.0) + multiset(z.insts)
                              + ActionsOf(mode, Matched(Unmatched(q, Ids64(BlockIds(pre))), Ids64(BlockIds([z]))))
  {
    var pre, z := bs[..|bs| - 1], bs[|bs| - 1];
    var a := MarkBlocks(pre, q, mode);
    var r := MarkBlocks(bs, q, mode).0;
    MarkBlocksPending(pre, q, mode);
    UnmatchedDistinct(q, Ids64(BlockIds(pre)));
    MarkBlockInsts(z, a.1, mode);
    assert r[..|r| - 1] == a.0;
  }

  /** The entries matched over `bs` are those matched over all but the last block, then those the last block matches among the rest. */
  lemma BlocksIdsSplit(bs: seq<Block>, q: seq<Marker>, mode: Mode)
    requires bs != []
    ensures var pre, z := bs[..|bs| - 1], bs[|bs| - 1];
            var s := Ids64(BlockIds(pre));
            ActionsOf(mode, Matched(q, Ids64(BlockIds(bs))))
            == ActionsOf(mode, Matched(q, s)) + ActionsOf(mode, Matched(Unmatched(q, s), Ids64(BlockIds([z]))))
  {
    var pre, z := bs[..|bs| - 1], bs[|bs| - 1];
    MatchedSplit(mode, q, Ids64(BlockIds(pre)), Ids64(BlockIds([z])));
    BlockIdsLast(bs);
  }

  /**
   * The marked module holds exactly the original instructions plus one action
   * for each entry whose id it carries (with distinct ids in the work list).
   */
  lemma {:induction false} MarkFunctionsInsts(fs: seq<Function>, deny: seq<string>, q: seq<Marker>, mode: Mode)
    requires DistinctIds(q)
    ensures ModuleInsts(MarkFunctions(fs, deny, q, mode).0)
            == ModuleInsts(fs) + ActionsOf(mode, Matched(q, Ids64(ModuleIds(fs, deny))))
  {
    if fs == [] {
      MatchedNone(q, []);
    } else {
      var pre := fs[..|fs| - 1];
      MarkFunctionsInsts(pre, deny, q, mode);
      LastFunctionInsts(fs, deny, q, mode);
      FunctionIdsSplit(fs, deny, q, mode);
    }
  }

  lemma LastFunctionInsts(fs: seq<Function>, deny: seq<string>, q: seq<Marker>, mode: Mode)
    requires fs != [] && DistinctIds(q)
    ensures var pre, g := fs[..|fs| - 1], fs[|fs| - 1];
            var a := MarkFunctions(pre, deny, q, mode);
            var r := MarkFunctions(fs, deny, q, mode).0;
            ModuleInsts(r) == ModuleInsts(a.0) + BlocksInsts(g.blocks)
                              + ActionsOf(mode, Matched(Unmatched(q, Ids64(ModuleIds(pre, deny))), Ids64(VisitedIds(g, deny))))
  {
    var pre, g := fs[..|fs| - 1], fs[|fs| - 1];
    var a := MarkFunctions(pre, deny, q, mode);
    var r := MarkFunctions(fs, deny, q, mode).0;
    MarkFunctionsPending(pre, deny, q, mode);
    UnmatchedDistinct(q, Ids64(ModuleIds(pre, deny)));
    assert r == a.0 + [MarkFunction(g, deny, a.1, mode).0];
    assert r[..|r| - 1] == a.0;
    FunctionInsts(g, deny, a.1, mode);
  }

  /** A function gains the actions of the entries its visited blocks match. */
  lemma FunctionInsts(g: Function, deny: seq<string>, q: seq<Marker>, mode: Mode)
    requires DistinctIds(q)
    ensures BlocksInsts(MarkFunction(g, deny, q, mode).0.blocks)
            == BlocksInsts(g.blocks) + ActionsOf(mode, Matched(q, Ids64(VisitedIds(g, deny))))
  {
    if Eligible(g, deny) {
      MarkBlocksInsts(g.blocks, q, mode);
    } else {
      MatchedNone(q, []);
    }
  }

  lemma FunctionIdsSplit(fs: seq<Function>, deny: seq<string>, q: seq<Marker>, mode: Mode)
    requires fs != []
    ensures var pre, g := fs[..|fs| - 1], fs[|fs| - 1];
            var s := Ids64(ModuleIds(pre, deny));
            ActionsOf(mode, Matched(q, Ids64(ModuleIds(fs, deny))))
            == ActionsOf(mode, Matched(q, s)) + ActionsOf(mode, Matched(Unmatched(q, s), Ids64(VisitedIds(g, deny))))
  {
    var pre, g := fs[..|fs| - 1], fs[|fs| - 1];
    MatchedSplit(mode, q, Ids64(ModuleIds(pre, deny)), Ids64(VisitedIds(g, deny)));
    ModuleIdsLast(fs, deny);
  }

  /** With distinct roles, a role's action is among the matched actions once when its entry matched, never otherwise. */
  lemma {:induction false} ActionsOfRole(mode: Mode, q: seq<Marker>, s: seq<U64>, role: Role)
    requires DistinctRoles(q)
    ensures ActionsOf(mode, Matched(q, s))[Action(mode, role)]
            == if exists mk :: mk in q && mk.role == role && mk.id in s then 1 else 0
  {
    if q != [] {
      var q0, q' := q[0], q[1..];
      ActionsOfRole(mode, q', s, role);
      ActionInjective(mode, q0.role, role);
      assert q == [q0] + q';
      if q0.id in s {
        assert Matched(q, s) == [q0] + Matched(q', s);
        ActionsOfCons(mode, q0, Matched(q', s));
        if q0.role == role {
          forall mk | mk in q' ensures mk.role != role {}
        }
      } else {
        assert Matched(q, s) == Matched(q', s);
      }
    }
  }

  /**
   * Each role is acted on at most once: with distinct enabled ids, the marked
   * module holds one more copy of a role's action than the original exactly
   * when the role is enabled and some visited block carries its id.
   */
  lemma MarkerActedOnce(fs: seq<Function>, deny: seq<string>, warmupId: U64, startId: U64, endId: U64,
                        noWarmup: bool, mode: Mode, role: Role)
    requires startId != endId && (!noWarmup ==> warmupId != startId && warmupId != endId)
    ensures var p := InitialPending(warmupId, startId, endId, noWarmup);
            var ids := Ids64(ModuleIds(fs, deny));
            var id := IdFor(role, warmupId, startId, endId);
            var enabled := role != Warmup || !noWarmup;
            ModuleInsts(MarkFunctions(fs, deny, p, mode).0)[Action(mode, role)]
            == ModuleInsts(fs)[Action(mode, role)] + if enabled && id in ids then 1 else 0
  {
    var p := InitialPending(warmupId, startId, endId, noWarmup);
    var ids := Ids64(ModuleIds(fs, deny));
    InitialPendingDistinct(warmupId, startId, endId, noWarmup);
    MarkFunctionsInsts(fs, deny, p, mode);
    ActionsOfRole(mode, p, ids, role);
    var id := IdFor(role, warmupId, startId, endId);
    if role != Warmup || !noWarmup {
      assert Marker(id, role) in p;
    }
    if exists mk :: mk in p && mk.role == role && mk.id in ids {
      var mk :| mk in p && mk.role == role && mk.id in ids;
      assert mk == Marker(id, role);
    }
  }
}
