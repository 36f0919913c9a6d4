/** The `jit_uni_eltwise_injector_f32` object while it generates `compute_vector_range`:
    the register choice of `injector_preamble`, the tail step, the postamble and the two
    bodies, each a method that updates the object's fields and appends to the emitted
    code `ops`, and each proved against the specification functions of `EltwiseRegs` and
    `EltwiseRange`. */
module EltwiseInjector {
  import opened EltwiseKinds
  import opened EltwiseRegs
  import opened EltwiseOps
  import opened EltwiseRange
  import EltwiseTable

  class Injector {
    /** The construction parameters. */
    const cfg: Config
    /** `preserved_vec_idxs`, room for `aux_vecs_count()` registers. */
    const preservedVecIdxs: array<nat>
    /** `preserved_gpr_idxs`, room for `preserved_gprs_max` registers. */
    const preservedGprIdxs: array<nat>
    var vecsToPreserve: nat
    var preservedVecsCount: nat
    /** `start_idx_tail`, as a position in the requested set. */
    var startIdxTail: nat
    /** The roles `assign_regs` hands out. */
    var zTmp: nat
    var vmmMask: nat
    var vmmAux: seq<nat>
    /** The code emitted so far. */
    var ops: seq<Op>

    ghost predicate Valid()
    {
      preservedVecIdxs.Length == AuxVecsCount && preservedGprIdxs.Length == PreservedGprsMax
      && preservedVecIdxs != preservedGprIdxs
    }

    /** `z_tmp` is the first scratch register, `vmm_mask` and `vmm_aux0` share the
        second, and `vmm_aux1 .. vmm_aux7` are the rest. */
    ghost predicate Roles()
      requires Valid()
      reads this`zTmp, this`vmmMask, this`vmmAux, preservedVecIdxs
    {
      zTmp == preservedVecIdxs[0] && vmmMask == preservedVecIdxs[1]
      && vmmAux == preservedVecIdxs[1..]
    }

    constructor(cfg: Config)
      ensures this.cfg == cfg && Valid()
      ensures ops == [] && preservedVecsCount == 0 && startIdxTail == 0
    {
      this.cfg := cfg;
      preservedVecIdxs := new nat[AuxVecsCount](_ => 0);
      preservedGprIdxs := new nat[PreservedGprsMax](_ => 0);
      vecsToPreserve, preservedVecsCount, startIdxTail := 0, 0, 0;
      zTmp, vmmMask, vmmAux := 0, 0, [];
      ops := [];
    }

    /** `assign_regs`. */
    method AssignRegs()
      requires Valid()
      modifies this`zTmp, this`vmmMask, this`vmmAux
      ensures Roles()
    {
      zTmp := preservedVecIdxs[0];
      vmmMask := preservedVecIdxs[1];
      vmmAux := preservedVecIdxs[1..];
    }

    // -------------------------------------------------------------------------------
    // injector_preamble

    /** The first part of `injector_preamble`: register 0 on `asimd`, then the
        registers outside `[start_idx, end_idx)` in ascending order, until
        `aux_vecs_count()` are taken or the registers run out. */
    method TakeSpares(idxs: seq<nat>)
      requires Valid() && IndexSet(idxs) && (cfg.isa == Asimd ==> 0 < idxs[0])
      modifies this`vecsToPreserve, this`preservedVecsCount, preservedVecIdxs
      ensures vecsToPreserve == AuxVecsCount
      ensures preservedVecsCount == SparesTaken(cfg.isa, idxs)
      ensures forall j :: 0 <= j < preservedVecsCount ==> preservedVecIdxs[j] == Spares(cfg.isa, idxs)[j]
    {
      preservedVecsCount := 0;
      vecsToPreserve := AuxVecsCount;
      ghost var head: seq<nat> := [];
      if cfg.isa == Asimd && vecsToPreserve > 0 {
        preservedVecIdxs[preservedVecsCount] := 0;
        preservedVecsCount := preservedVecsCount + 1;
        head := [0];
      }
      ScanOutside(StartIdx(idxs), EndIdx(idxs), head);
      SparesSplit(cfg.isa, idxs);
    }

    /** The scanning loop of `injector_preamble`, from the first free slot: every
        register outside `[start, end)` is taken, in ascending order, until
        `aux_vecs_count()` slots are filled. */
    method ScanOutside(start: nat, end: nat, ghost head: seq<nat>)
      requires Valid() && vecsToPreserve == AuxVecsCount && preservedVecsCount == |head| <= 1
      requires forall j :: 0 <= j < |head| ==> preservedVecIdxs[j] == head[j]
      modifies this`preservedVecsCount, preservedVecIdxs
      ensures preservedVecsCount == Min(AuxVecsCount, |head| + |Outside(|head|, VecsCount, start, end)|)
      ensures forall j :: 0 <= j < preservedVecsCount ==>
                preservedVecIdxs[j] == (head + Outside(|head|, VecsCount, start, end))[j]
    {
      ghost var lo := |head|;
      ghost var taken := head;
      var idx := preservedVecsCount;
      while idx < VecsCount
        invariant lo <= idx <= VecsCount
        invariant taken == head + Outside(lo, idx, start, end)
        invariant preservedVecsCount == Min(AuxVecsCount, |taken|)
        invariant forall j :: 0 <= j < preservedVecsCount ==> preservedVecIdxs[j] == taken[j]
      {
        if preservedVecsCount >= vecsToPreserve {
          break;
        }
        ScanStep(head, lo, idx, start, end);
        if !(start <= idx < end) {
          taken := TakeOne(idx, taken);
        }
        idx := idx + 1;
      }
      ScanStops(head, lo, idx, start, end, preservedVecsCount);
    }

    /** One register taken by the scan of `injector_preamble`. */
    method TakeOne(idx: nat, ghost taken: seq<nat>) returns (ghost next: seq<nat>)
      requires Valid() && preservedVecsCount == |taken| < AuxVecsCount
      requires forall j :: 0 <= j < |taken| ==> preservedVecIdxs[j] == taken[j]
      modifies this`preservedVecsCount, preservedVecIdxs
      ensures next == taken + [idx] && preservedVecsCount == |next|
      ensures forall j :: 0 <= j < |next| ==> preservedVecIdxs[j] == next[j]
    {
      preservedVecIdxs[preservedVecsCount] := idx;
      preservedVecsCount := preservedVecsCount + 1;
      next := taken + [idx];
    }

    /** The second loop of `injector_preamble`: the registers still missing are borrowed
        from the front of the set, and `start_idx_tail` moves past them. */
    method BorrowFront(idxs: seq<nat>)
      requires Valid() && Feasible(cfg.isa, idxs)
      requires vecsToPreserve == AuxVecsCount && preservedVecsCount == SparesTaken(cfg.isa, idxs)
      requires forall j :: 0 <= j < preservedVecsCount ==> preservedVecIdxs[j] == Spares(cfg.isa, idxs)[j]
      modifies this`preservedVecsCount, this`startIdxTail, preservedVecIdxs
      ensures preservedVecsCount == AuxVecsCount
      ensures startIdxTail == Borrowed(cfg.isa, idxs)
      ensures preservedVecIdxs[..] == Scratch(cfg.isa, idxs)
    {
      startIdxTail := 0;
      ghost var n := preservedVecsCount;
      ghost var sp := Spares(cfg.isa, idxs);
      ghost var taken := sp[..n];
      var tail := vecsToPreserve - preservedVecsCount;
      var i := 0;
      while i < tail
        invariant 0 <= i <= tail && startIdxTail == i
        invariant taken == sp[..n] + idxs[..i] && preservedVecsCount == |taken| == n + i <= AuxVecsCount
        invariant forall j :: 0 <= j < |taken| ==> preservedVecIdxs[j] == taken[j]
      {
        ExtendPrefix(sp[..n], idxs, i);
        taken := TakeOne(idxs[startIdxTail], taken);
        startIdxTail := startIdxTail + 1;
        i := i + 1;
      }
      Joined(preservedVecIdxs[..], taken, []);
    }

    /** The GPR loop of `injector_preamble`: from register 30 down, skipping `x_table`,
        until `aux_gprs_count()` are taken. */
    method TakeGprs()
      requires Valid()
      modifies preservedGprIdxs
      ensures preservedGprIdxs[..AuxGprsCount(cfg.alg, cfg.isa)] == cfg.Gprs()
    {
      GprScratchProperties(cfg.alg, cfg.isa, cfg.xTable);
      GprScanLength(TopGpr + 1, cfg.xTable);
      var want := AuxGprsCount(cfg.alg, cfg.isa);
      var count := 0;
      var g := 0;
      while g <= TopGpr
        invariant 0 <= g <= TopGpr + 1
        invariant count == Min(want, |GprScan(g, cfg.xTable)|)
        invariant forall j :: 0 <= j < count ==> preservedGprIdxs[j] == GprScan(g, cfg.xTable)[j]
      {
        var r := TopGpr - g;
        if count < want && r != cfg.xTable {
          preservedGprIdxs[count] := r;
          count := count + 1;
        }
        g := g + 1;
      }
      assert count == want;
    }

    /** The stores of `injector_preamble` and `injector_preamble_tail`: register
        `preserved_vec_idxs[i]` into slot `i`, for the slots from `off` on. */
    method EmitSaves(off: nat)
      requires Valid() && off <= AuxVecsCount
      modifies this`ops
      ensures ops == old(ops) + SaveAll(preservedVecIdxs[off..], off)
    {
      var i := off;
      while i < AuxVecsCount
        invariant off <= i <= AuxVecsCount
        invariant ops == old(ops) + SaveAll(preservedVecIdxs[off..i], off)
      {
        EmitSnoc(preservedVecIdxs[off..i], preservedVecIdxs[i], off);
        assert preservedVecIdxs[off..i + 1] == preservedVecIdxs[off..i] + [preservedVecIdxs[i]];
        ops := ops + [SaveVec(preservedVecIdxs[i], i)];
        i := i + 1;
      }
    }

    /** The loads of `injector_preamble_tail` and `injector_postamble`: register
        `preserved_vec_idxs[i]` from slot `i`, for the slots from `off` on. */
    method EmitRestores(off: nat)
      requires Valid() && off <= AuxVecsCount
      modifies this`ops
      ensures ops == old(ops) + RestoreAll(preservedVecIdxs[off..], off)
    {
      var i := off;
      while i < AuxVecsCount
        invariant off <= i <= AuxVecsCount
        invariant ops == old(ops) + RestoreAll(preservedVecIdxs[off..i], off)
      {
        EmitSnoc(preservedVecIdxs[off..i], preservedVecIdxs[i], off);
        assert preservedVecIdxs[off..i + 1] == preservedVecIdxs[off..i] + [preservedVecIdxs[i]];
        ops := ops + [RestoreVec(preservedVecIdxs[i], i)];
        i := i + 1;
      }
    }

    /** `injector_preamble`: chooses the scratch registers, saves them with
        `save_state`, and assigns the roles. None of the registers the first pass
        computes is among them. */
    method Preamble(idxs: seq<nat>)
      requires Valid() && Feasible(cfg.isa, idxs)
      modifies this`vecsToPreserve, this`preservedVecsCount, this`startIdxTail, this`ops
      modifies this`zTmp, this`vmmMask, this`vmmAux, preservedVecIdxs, preservedGprIdxs
      ensures vecsToPreserve == preservedVecsCount == AuxVecsCount
      ensures preservedVecIdxs[..] == Scratch(cfg.isa, idxs)
      ensures startIdxTail == Borrowed(cfg.isa, idxs)
      ensures preservedGprIdxs[..AuxGprsCount(cfg.alg, cfg.isa)] == cfg.Gprs()
      ensures ops == old(ops) + PreambleOps(cfg, preservedVecIdxs[..])
      ensures Roles()
    {
      ChooseVecs(idxs);
      TakeGprs();
      EmitSaveState();
      AssignRegs();
    }

    /** The two loops of `injector_preamble` that fill `preserved_vec_idxs`: the spares
        first, then registers borrowed from the front of the set. */
    method ChooseVecs(idxs: seq<nat>)
      requires Valid() && Feasible(cfg.isa, idxs)
      modifies this`vecsToPreserve, this`preservedVecsCount, this`startIdxTail, preservedVecIdxs
      ensures vecsToPreserve == preservedVecsCount == AuxVecsCount
      ensures preservedVecIdxs[..] == Scratch(cfg.isa, idxs)
      ensures startIdxTail == Borrowed(cfg.isa, idxs)
    {
      TakeSpares(idxs);
      BorrowFront(idxs);
    }

    /** The `save_state` block of `injector_preamble`: push `x_table`, then the scratch
        GPRs, lower the stack pointer past the vector save area, store every scratch
        vector register into its slot, and load the table address. */
    method EmitSaveState()
      requires Valid() && preservedGprIdxs[..AuxGprsCount(cfg.alg, cfg.isa)] == cfg.Gprs()
      requires preservedVecsCount == AuxVecsCount
      modifies this`ops
      ensures ops == old(ops) + PreambleOps(cfg, preservedVecIdxs[..])
    {
      if !cfg.saveState {
        return;
      }
      ghost var g := cfg.Gprs();
      ops := ops + [PushGpr(cfg.xTable)];
      ghost var base := ops;
      var n := AuxGprsCount(cfg.alg, cfg.isa);
      var i := 0;
      while i < n
        invariant 0 <= i <= n && ops == base + PushAll(g[..i])
      {
        EmitSnoc(g[..i], g[i], 0);
        assert g[..i + 1] == g[..i] + [g[i]];
        ops := ops + [PushGpr(preservedGprIdxs[i])];
        i := i + 1;
      }
      assert g[..i] == g;
      if preservedVecsCount > 0 {
        ops := ops + [SubSp(preservedVecsCount * EltwiseTable.Vlen(cfg.isa))];
      }
      EmitSaves(0);
      assert preservedVecIdxs[0..] == preservedVecIdxs[..];
      ops := ops + [LoadTableAddr];
      ConcatFive(old(ops), [PushGpr(cfg.xTable)], PushAll(g), ReserveVecs(cfg, preservedVecsCount),
                 SaveAll(preservedVecIdxs[..], 0), [LoadTableAddr]);
    }

    // -------------------------------------------------------------------------------
    // injector_preamble_tail

    /** `injector_preamble_tail` as written: reload the borrowed registers, add the
        number borrowed to each of the last `t` scratch registers, store the new ones. */
    method PreambleTail()
      requires Valid() && Roles() && startIdxTail <= AuxVecsCount == vecsToPreserve
      modifies this`zTmp, this`vmmMask, this`vmmAux, this`ops, preservedVecIdxs
      ensures preservedVecIdxs[..] == ShiftTail(old(preservedVecIdxs[..]), startIdxTail)
      ensures ops == old(ops) + TailOps(cfg.saveState, old(preservedVecIdxs[..]), preservedVecIdxs[..], startIdxTail)
      ensures Roles()
    {
      var tail := startIdxTail;
      if tail == 0 {
        return;
      }
      ghost var o, before := ops, preservedVecIdxs[..];
      ReloadTail(tail);
      ghost var reloaded := ops;
      ShiftSlots(tail);
      StoreTail(tail);
      TailOpsHalves(cfg.saveState, o, reloaded, ops, before, preservedVecIdxs[..], tail);
      AssignRegs();
    }

    /** The reload half of the tail step: with `save_state`, the last `tail` scratch
        registers are reloaded from their slots. */
    method ReloadTail(tail: nat)
      requires Valid() && tail <= AuxVecsCount
      modifies this`ops
      ensures ops == old(ops) + if cfg.saveState then RestoreAll(preservedVecIdxs[..][AuxVecsCount - tail..], AuxVecsCount - tail) else []
    {
      if cfg.saveState {
        EmitRestores(AuxVecsCount - tail);
        assert preservedVecIdxs[AuxVecsCount - tail..] == preservedVecIdxs[..][AuxVecsCount - tail..];
      }
    }

    /** The store half of the tail step: with `save_state`, the last `tail` scratch
        registers are stored into their slots. */
    method StoreTail(tail: nat)
      requires Valid() && tail <= AuxVecsCount
      modifies this`ops
      ensures ops == old(ops) + if cfg.saveState then SaveAll(preservedVecIdxs[..][AuxVecsCount - tail..], AuxVecsCount - tail) else []
    {
      if cfg.saveState {
        EmitSaves(AuxVecsCount - tail);
        assert preservedVecIdxs[AuxVecsCount - tail..] == preservedVecIdxs[..][AuxVecsCount - tail..];
      }
    }

    /** The loop of `injector_preamble_tail`: the last `tail` scratch registers move up
        by `tail`. */
    method ShiftSlots(tail: nat)
      requires Valid() && tail <= AuxVecsCount
      modifies preservedVecIdxs
      ensures preservedVecIdxs[..] == ShiftTail(old(preservedVecIdxs[..]), tail)
    {
      var idxOff := AuxVecsCount - tail;
      var i := 0;
      while i < tail
        invariant 0 <= i <= tail
        invariant forall j :: 0 <= j < AuxVecsCount ==>
                    preservedVecIdxs[j] == if idxOff <= j < idxOff + i then old(preservedVecIdxs[j]) + tail
                                           else old(preservedVecIdxs[j])
      {
        preservedVecIdxs[idxOff + i] := preservedVecIdxs[idxOff + i] + tail;
        i := i + 1;
      }
    }

    /** The loop of the corrected tail step: the last `tail` scratch slots take the
        registers of the set from position `tail` on. */
    method RehomeSlots(idxs: seq<nat>, tail: nat)
      requires Valid() && tail <= AuxVecsCount && 2 * tail <= |idxs|
      modifies preservedVecIdxs
      ensures preservedVecIdxs[..] == RehomeTail(old(preservedVecIdxs[..]), idxs, tail)
    {
      var idxOff := AuxVecsCount - tail;
      var i := 0;
      while i < tail
        invariant 0 <= i <= tail
        invariant forall j :: 0 <= j < AuxVecsCount ==>
                    preservedVecIdxs[j] == if idxOff <= j < idxOff + i then idxs[tail + (j - idxOff)]
                                           else old(preservedVecIdxs[j])
      {
        preservedVecIdxs[idxOff + i] := idxs[tail + i];
        i := i + 1;
      }
    }

    /** The corrected tail step: the last `t` scratch slots take the `t` registers that
        follow the borrowed ones in the set. */
    method PreambleTailCorrected(idxs: seq<nat>)
      requires Valid() && Roles() && startIdxTail <= AuxVecsCount == vecsToPreserve
      requires 2 * startIdxTail <= |idxs|
      modifies this`zTmp, this`vmmMask, this`vmmAux, this`ops, preservedVecIdxs
      ensures preservedVecIdxs[..] == RehomeTail(old(preservedVecIdxs[..]), idxs, startIdxTail)
      ensures ops == old(ops) + TailOps(cfg.saveState, old(preservedVecIdxs[..]), preservedVecIdxs[..], startIdxTail)
      ensures Roles()
    {
      var tail := startIdxTail;
      if tail == 0 {
        RehomeNothing(preservedVecIdxs[..], idxs);
        return;
      }
      ghost var o, before := ops, preservedVecIdxs[..];
      ReloadTail(tail);
      ghost var reloaded := ops;
      RehomeSlots(idxs, tail);
      StoreTail(tail);
      TailOpsHalves(cfg.saveState, o, reloaded, ops, before, preservedVecIdxs[..], tail);
      AssignRegs();
    }

    // -------------------------------------------------------------------------------
    // injector_postamble, compute_body, compute_vector_range

    /** `injector_postamble` as written: with `save_state`, reload every scratch
        register, raise the stack pointer past the save area, then load the scratch GPRs
        in reverse and `x_table` last, each with a pre-indexed load. */
    method Postamble()
      requires Valid() && preservedGprIdxs[..AuxGprsCount(cfg.alg, cfg.isa)] == cfg.Gprs()
      requires preservedVecsCount == AuxVecsCount
      modifies this`ops
      ensures ops == old(ops) + PostambleAsWritten(cfg, preservedVecIdxs[..])
    {
      if !cfg.saveState {
        return;
      }
      EmitRestores(0);
      ReleaseSaveArea();
      ReloadGprs(true);
      ConcatFour(old(ops), RestoreAll(preservedVecIdxs[..], 0), ReleaseVecs(cfg, preservedVecsCount),
                 LoadRun(Reverse(cfg.Gprs()), true), [LoadOp(cfg.xTable, true)]);
    }

    /** `injector_postamble` with the GPR loads corrected to post-indexed pops. */
    method PostambleCorrected()
      requires Valid() && preservedGprIdxs[..AuxGprsCount(cfg.alg, cfg.isa)] == cfg.Gprs()
      requires preservedVecsCount == AuxVecsCount
      modifies this`ops
      ensures ops == old(ops) + PostambleOps(cfg, preservedVecIdxs[..])
    {
      if !cfg.saveState {
        return;
      }
      EmitRestores(0);
      ReleaseSaveArea();
      ReloadGprs(false);
      ConcatFour(old(ops), RestoreAll(preservedVecIdxs[..], 0), ReleaseVecs(cfg, preservedVecsCount),
                 LoadRun(Reverse(cfg.Gprs()), false), [LoadOp(cfg.xTable, false)]);
    }

    /** The `add_imm` that raises the stack pointer past the vector save area. */
    method ReleaseSaveArea()
      modifies this`ops
      ensures ops == old(ops) + ReleaseVecs(cfg, preservedVecsCount)
    {
      if preservedVecsCount > 0 {
        ops := ops + [AddSp(preservedVecsCount * EltwiseTable.Vlen(cfg.isa))];
      }
    }

    /** The postamble's GPR loads: the scratch GPRs from the last to the first, then
        `x_table`. */
    method ReloadGprs(preIndexed: bool)
      requires Valid() && preservedGprIdxs[..AuxGprsCount(cfg.alg, cfg.isa)] == cfg.Gprs()
      modifies this`ops
      ensures ops == old(ops) + LoadRun(Reverse(cfg.Gprs()), preIndexed) + [LoadOp(cfg.xTable, preIndexed)]
    {
      ghost var g := cfg.Gprs();
      var i := AuxGprsCount(cfg.alg, cfg.isa);
      while i > 0
        invariant 0 <= i <= |g| && ops == old(ops) + LoadRun(Reverse(g[i..]), preIndexed)
      {
        ReverseSnoc(g, i);
        EmitSnoc(Reverse(g[i..]), g[i - 1], 0);
        ops := ops + [LoadOp(preservedGprIdxs[i - 1], preIndexed)];
        i := i - 1;
      }
      assert g[0..] == g;
      ops := ops + [LoadOp(cfg.xTable, preIndexed)];
    }

    /** `compute_body`: the routine of the algorithm and direction, then the `scale`
        multiplication unless it is 1, for the registers at positions `[from, to)` of
        the set, in order. */
    method ComputeBody(idxs: seq<nat>, from: nat, to: nat)
      requires cfg.Supported() && from <= to <= |idxs|
      modifies this`ops
      ensures ops == old(ops) + BodyOps(Dispatch(cfg.isFwd, cfg.alg, cfg.alphaIsZero).value, cfg.scaleIsOne, idxs[from..to])
    {
      var r := Dispatch(cfg.isFwd, cfg.alg, cfg.alphaIsZero).value;
      var i := from;
      while i < to
        invariant from <= i <= to
        invariant ops == old(ops) + BodyOps(r, cfg.scaleIsOne, idxs[from..i])
      {
        assert idxs[from..i + 1][..i - from] == idxs[from..i];
        ops := ops + [Apply(r, idxs[i])] + (if cfg.scaleIsOne then [] else [ScaleBy(idxs[i])]);
        i := i + 1;
      }
    }

    /** The first half of `compute_vector_range`: the preamble, then the body over the
        registers from `start_idx_tail` on. */
    method FirstPass(idxs: seq<nat>)
      requires Valid() && cfg.Supported() && Feasible(cfg.isa, idxs)
      modifies this, preservedVecIdxs, preservedGprIdxs
      ensures vecsToPreserve == preservedVecsCount == AuxVecsCount && startIdxTail == Borrowed(cfg.isa, idxs) <= |idxs|
      ensures preservedVecIdxs[..] == Scratch(cfg.isa, idxs)
      ensures preservedGprIdxs[..AuxGprsCount(cfg.alg, cfg.isa)] == cfg.Gprs()
      ensures Roles()
      ensures ops == old(ops) + PreambleOps(cfg, Scratch(cfg.isa, idxs))
                     + BodyOps(Dispatch(cfg.isFwd, cfg.alg, cfg.alphaIsZero).value, cfg.scaleIsOne,
                               idxs[Borrowed(cfg.isa, idxs)..])
    {
      ghost var sc := Scratch(cfg.isa, idxs);
      Preamble(idxs);
      ghost var pre := ops;
      assert pre == old(ops) + PreambleOps(cfg, sc);
      var t := startIdxTail;
      ComputeBody(idxs, t, |idxs|);
      WholeSlices(idxs, t);
    }

    /** The second half of `compute_vector_range`, with the corrected tail step: the tail
        step, the body over the registers before `start_idx_tail`, the postamble. */
    method SecondPass(idxs: seq<nat>)
      requires Valid() && cfg.Supported() && TailFits(cfg.isa, idxs)
      requires vecsToPreserve == preservedVecsCount == AuxVecsCount && startIdxTail == Borrowed(cfg.isa, idxs)
      requires preservedVecIdxs[..] == Scratch(cfg.isa, idxs)
      requires preservedGprIdxs[..AuxGprsCount(cfg.alg, cfg.isa)] == cfg.Gprs()
      requires Roles()
      modifies this`zTmp, this`vmmMask, this`vmmAux, this`ops, preservedVecIdxs
      ensures preservedVecIdxs[..] == TailScratch(cfg.isa, idxs)
      ensures ops == old(ops)
                     + TailOps(cfg.saveState, Scratch(cfg.isa, idxs), TailScratch(cfg.isa, idxs), Borrowed(cfg.isa, idxs))
                     + BodyOps(Dispatch(cfg.isFwd, cfg.alg, cfg.alphaIsZero).value, cfg.scaleIsOne,
                               idxs[..Borrowed(cfg.isa, idxs)])
                     + PostambleOps(cfg, TailScratch(cfg.isa, idxs))
    {
      PreambleTailCorrected(idxs);
      ComputeBody(idxs, 0, startIdxTail);
      WholeSlices(idxs, startIdxTail);
      PostambleCorrected();
    }

    /** `compute_vector_range` over an index set, with the corrected tail step: the code
        it emits is `RangeOps`, which computes every register exactly once and reloads
        every saved register from its own slot. */
    method ComputeVectorRange(idxs: seq<nat>)
      requires Valid() && cfg.Supported() && TailFits(cfg.isa, idxs)
      requires idxs[|idxs| - 1] <= VecsCount
      modifies this, preservedVecIdxs, preservedGprIdxs
      ensures ops == old(ops) + RangeOps(cfg, idxs)
      ensures preservedVecIdxs[..] == TailScratch(cfg.isa, idxs)
    {
      FirstPass(idxs);
      SecondPass(idxs);
      RangeOpsParts(cfg, idxs);
      ConcatFive(old(ops), PreambleOps(cfg, Scratch(cfg.isa, idxs)),
                 BodyOps(Dispatch(cfg.isFwd, cfg.alg, cfg.alphaIsZero).value, cfg.scaleIsOne, idxs[Borrowed(cfg.isa, idxs)..]),
                 TailOps(cfg.saveState, Scratch(cfg.isa, idxs), TailScratch(cfg.isa, idxs), Borrowed(cfg.isa, idxs)),
                 BodyOps(Dispatch(cfg.isFwd, cfg.alg, cfg.alphaIsZero).value, cfg.scaleIsOne, idxs[..Borrowed(cfg.isa, idxs)]),
                 PostambleOps(cfg, TailScratch(cfg.isa, idxs)));
    }

    /** The `(start_idx, end_idx)` overload: builds the set `{start_idx, ...,
        end_idx - 1}` and computes it. Such a set always fits. */
    method ComputeVectorRangeOf(start: nat, end: nat)
      requires Valid() && cfg.Supported()
      requires start < end <= VecsCount + 1 && (cfg.isa == Asimd ==> 0 < start)
      modifies this, preservedVecIdxs, preservedGprIdxs
      ensures TailFits(cfg.isa, RangeSet(start, end))
      ensures ops == old(ops) + RangeOps(cfg, RangeSet(start, end))
    {
      var idxs: seq<nat> := [];
      var i := start;
      while i < end
        invariant start <= i <= end && idxs == RangeSet(start, i)
      {
        idxs := idxs + [i];
        i := i + 1;
      }
      ContiguousFits(cfg.isa, start, end);
      ComputeVectorRange(idxs);
    }
  }
}
