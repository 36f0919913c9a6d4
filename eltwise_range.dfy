/** `compute_vector_range` as a whole: the code the preamble, the two bodies, the tail
    step and the postamble emit for an index set, and what that code guarantees — every
    requested register is computed exactly once, never while it serves as scratch, and
    every register saved is restored from the slot it was saved into. The tail step is
    given twice: as written (`ShiftTail`) and corrected (`RehomeTail`). */
module EltwiseRange {
  import opened Options
  import opened EltwiseKinds
  import opened EltwiseRegs
  import opened EltwiseOps
  import EltwiseTable

  /** The construction parameters of `jit_uni_eltwise_injector_f32` the model uses:
      the instruction set, the algorithm and direction, whether `alpha` is zero and
      `scale` is one, `save_state`, and the register number of `x_table`. */
  datatype Config = Config(isa: Isa, alg: Alg, isFwd: bool, alphaIsZero: bool,
                           scaleIsOne: bool, saveState: bool, xTable: nat)
  {
    /** `compute_body` has a routine for this algorithm and direction. */
    predicate Supported()
    {
      Dispatch(isFwd, alg, alphaIsZero).Some?
    }

    /** The scratch general-purpose registers the preamble takes. */
    function Gprs(): seq<nat>
    {
      GprScratch(AuxGprsCount(alg, isa), xTable)
    }
  }

  // ---------------------------------------------------------------------------------
  // The tail step

  /** `injector_preamble_tail` as written: each of the last `t` scratch slots, which hold
      the borrowed registers, is increased by `t`; the other slots keep their registers. */
  function ShiftTail(p: seq<nat>, t: nat): seq<nat>
    requires t <= |p|
  {
    seq(|p|, i requires 0 <= i < |p| => if i < |p| - t then p[i] else p[i] + t)
  }

  /** The corrected tail step: the last `t` slots take the `t` registers of the set that
      follow the borrowed ones, which the first pass has already finished. */
  function RehomeTail(p: seq<nat>, idxs: seq<nat>, t: nat): seq<nat>
    requires t <= |p| && 2 * t <= |idxs|
  {
    seq(|p|, i requires 0 <= i < |p| => if i < |p| - t then p[i] else idxs[t + (i - (|p| - t))])
  }

  /** With nothing borrowed the corrected tail step changes nothing. */
  lemma RehomeNothing(p: seq<nat>, idxs: seq<nat>)
    ensures RehomeTail(p, idxs, 0) == p
  {
  }

  /** What the corrected tail step demands: the set holds at least twice as many
      registers as were borrowed. */
  predicate TailFits(isa: Isa, idxs: seq<nat>)
  {
    Feasible(isa, idxs) && 2 * Borrowed(isa, idxs) <= |idxs|
  }

  /** The scratch registers of the second pass (corrected tail step). */
  function TailScratch(isa: Isa, idxs: seq<nat>): seq<nat>
    requires TailFits(isa, idxs)
  {
    ScratchProperties(isa, idxs);
    RehomeTail(Scratch(isa, idxs), idxs, Borrowed(isa, idxs))
  }

  /** Re-homing the borrowed end of spares-then-borrowed registers replaces the borrowed
      front of the set with the registers that follow it. */
  lemma RehomeShape(sp: seq<nat>, n: nat, idxs: seq<nat>, t: nat)
    requires n <= |sp| && 2 * t <= |idxs|
    ensures RehomeTail(sp[..n] + idxs[..t], idxs, t) == sp[..n] + idxs[t..2 * t]
  {
    var p := sp[..n] + idxs[..t];
    var q := RehomeTail(p, idxs, t);
    forall i | 0 <= i < |q| ensures q[i] == (sp[..n] + idxs[t..2 * t])[i] {
      if i < n {
        assert q[i] == p[i] == sp[i];
      }
    }
  }

  /** On a contiguous set, shifting the borrowed registers by their number gives the
      registers that follow them. */
  lemma ShiftShape(sp: seq<nat>, n: nat, idxs: seq<nat>, t: nat)
    requires n <= |sp| && 2 * t <= |idxs|
    requires forall k :: 0 <= k < |idxs| ==> idxs[k] == idxs[0] + k
    ensures ShiftTail(sp[..n] + idxs[..t], t) == sp[..n] + idxs[t..2 * t]
  {
    var p := sp[..n] + idxs[..t];
    var q := ShiftTail(p, t);
    forall i | 0 <= i < |q| ensures q[i] == (sp[..n] + idxs[t..2 * t])[i] {
      if i < n {
        assert q[i] == p[i] == sp[i];
      } else {
        assert q[i] == p[i] + t == idxs[i - n] + t;
      }
    }
  }

  /** The second-pass scratch registers are the taken spares followed by the registers
      of the set right after the borrowed ones. */
  lemma TailScratchShape(isa: Isa, idxs: seq<nat>)
    requires TailFits(isa, idxs)
    ensures var n, t := SparesTaken(isa, idxs), Borrowed(isa, idxs);
            && Scratch(isa, idxs) == Spares(isa, idxs)[..n] + idxs[..t]
            && TailScratch(isa, idxs) == Spares(isa, idxs)[..n] + idxs[t..2 * t]
  {
    RehomeShape(Spares(isa, idxs), SparesTaken(isa, idxs), idxs, Borrowed(isa, idxs));
  }

  /** The corrected second-pass scratch registers are distinct, keep the spares, and
      are none of the registers the second pass computes (the borrowed front of the
      set); with nothing borrowed they are the preamble's. */
  lemma TailScratchProperties(isa: Isa, idxs: seq<nat>)
    requires TailFits(isa, idxs)
    ensures |TailScratch(isa, idxs)| == AuxVecsCount
    ensures Distinct(TailScratch(isa, idxs))
    ensures forall k :: 0 <= k < Borrowed(isa, idxs) ==> idxs[k] !in TailScratch(isa, idxs)
    ensures TailScratch(isa, idxs)[..SparesTaken(isa, idxs)] == Scratch(isa, idxs)[..SparesTaken(isa, idxs)]
    ensures Borrowed(isa, idxs) == 0 ==> TailScratch(isa, idxs) == Scratch(isa, idxs)
  {
    SparesFacts(isa, idxs);
    TailScratchShape(isa, idxs);
    var sp := Spares(isa, idxs);
    var n, t := SparesTaken(isa, idxs), Borrowed(isa, idxs);
    JoinFacts(sp, n, idxs, t, 2 * t);
  }

  /** On a contiguous set (the `(start_idx, end_idx)` overload) the tail step as written
      and the corrected one agree. */
  lemma ShiftMatchesRehomeWhenContiguous(isa: Isa, idxs: seq<nat>)
    requires TailFits(isa, idxs)
    requires forall k :: 0 <= k < |idxs| ==> idxs[k] == idxs[0] + k
    ensures ShiftTail(Scratch(isa, idxs), Borrowed(isa, idxs)) == TailScratch(isa, idxs)
  {
    TailScratchShape(isa, idxs);
    ShiftShape(Spares(isa, idxs), SparesTaken(isa, idxs), idxs, Borrowed(isa, idxs));
  }

  /** The set `{start, ..., end - 1}` that the `(start_idx, end_idx)` overload of
      `compute_vector_range` builds. */
  function RangeSet(start: nat, end: nat): (r: seq<nat>)
    ensures |r| == if start <= end then end - start else 0
    ensures forall k :: 0 <= k < |r| ==> r[k] == start + k
  {
    if end <= start then [] else seq(end - start, i requires 0 <= i < end - start => start + i)
  }

  /** A contiguous request always fits: the scratch registers outside it and the set
      itself supply the nine, at most as many are borrowed as follow them in the set, and
      on such a set the tail step as written is the corrected one. */
  lemma ContiguousFits(isa: Isa, start: nat, end: nat)
    requires start < end <= VecsCount + 1 && (isa == Asimd ==> 0 < start)
    ensures TailFits(isa, RangeSet(start, end))
    ensures ShiftTail(Scratch(isa, RangeSet(start, end)), Borrowed(isa, RangeSet(start, end)))
            == TailScratch(isa, RangeSet(start, end))
  {
    ContiguousTailFits(isa, start, end);
    ShiftMatchesRehomeWhenContiguous(isa, RangeSet(start, end));
  }

  /** The spares outside a contiguous request and the request together supply the
      nine, and the request holds twice what is borrowed. */
  lemma ContiguousTailFits(isa: Isa, start: nat, end: nat)
    requires start < end <= VecsCount + 1 && (isa == Asimd ==> 0 < start)
    ensures TailFits(isa, RangeSet(start, end))
  {
    var idxs := RangeSet(start, end);
    assert IndexSet(idxs);
    assert StartIdx(idxs) == start && EndIdx(idxs) == end;
    SparesAsScan(isa, idxs);
    OutsideLength(0, VecsCount, start, end);
    OverlapWithin(0, VecsCount, start, end);
    BorrowBound(|Spares(isa, idxs)|, |idxs|);
  }

  /** When the spares and the set cover all 32 registers, the set holds at least twice
      what must be borrowed from it. */
  lemma BorrowBound(spares: nat, n: nat)
    requires VecsCount <= spares + n && n <= VecsCount + 1
    ensures AuxVecsCount <= spares + n && 2 * (AuxVecsCount - Min(AuxVecsCount, spares)) <= n
  {
  }

  /** The registers of `[start, end)` inside `[lo, hi)` are no more than `end - start`. */
  lemma OverlapWithin(lo: nat, hi: nat, start: nat, end: nat)
    requires start <= end
    ensures Overlap(lo, hi, start, end) <= end - start
  {
  }

  /** The index set `{0, 2, 3, ..., 31}`: register 1 left out, so the set is not
      contiguous while `[start_idx, end_idx)` still spans all 32 registers. */
  function GappedSet(): seq<nat>
  {
    [0] + seq(30, i requires 0 <= i < 30 => i + 2)
  }

  /** The tail step as written corrupts a result. For `{0, 2, 3, ..., 31}` on `sve_512`
      nothing lies outside `[0, 32)`, so all nine scratch registers are borrowed:
      `0, 2, 3, ..., 9`. Shifting them by nine makes register 9 scratch again, and
      register 9 is itself one of the borrowed registers the second pass computes, so
      its routine runs on a register the other routines use as scratch. The corrected
      step picks `10, ..., 18` instead, none of which the second pass computes. */
  lemma ShiftTailCollides()
    ensures TailFits(Sve512, GappedSet())
    ensures Borrowed(Sve512, GappedSet()) == 9
    ensures ShiftTail(Scratch(Sve512, GappedSet()), 9)[0] == GappedSet()[8] == 9
    ensures forall k :: 0 <= k < 9 ==> GappedSet()[k] !in TailScratch(Sve512, GappedSet())
  {
    var idxs := GappedSet();
    assert IndexSet(idxs) by {
      forall i, j | 0 <= i < j < |idxs| ensures idxs[i] < idxs[j] {
      }
    }
    assert StartIdx(idxs) == 0 && EndIdx(idxs) == 32;
    SparesAsScan(Sve512, idxs);
    OutsideLength(0, VecsCount, 0, 32);
    assert |Spares(Sve512, idxs)| == 0;
    TailScratchProperties(Sve512, idxs);
  }

  // ---------------------------------------------------------------------------------
  // Emitted code

  /** The `sub_imm` of the stack pointer that makes room for `n` saved vector registers
      of the instruction set's length, when there are any. */
  function ReserveVecs(cfg: Config, n: nat): seq<Op>
  {
    if n > 0 then [SubSp(n * EltwiseTable.Vlen(cfg.isa))] else []
  }

  /** The matching `add_imm` that gives the room back. */
  function ReleaseVecs(cfg: Config, n: nat): seq<Op>
  {
    if n > 0 then [AddSp(n * EltwiseTable.Vlen(cfg.isa))] else []
  }

  /** `injector_preamble`'s code: with `save_state`, push `x_table`, then the scratch
      GPRs, lower the stack pointer past the vector save area, store the scratch vector
      registers into slots `0 ..`, and load the table address; without it, nothing (the
      predicate setup is left out). */
  function PreambleOps(cfg: Config, vecs: seq<nat>): seq<Op>
  {
    if cfg.saveState
    then [PushGpr(cfg.xTable)] + PushAll(cfg.Gprs()) + ReserveVecs(cfg, |vecs|) + SaveAll(vecs, 0) + [LoadTableAddr]
    else []
  }

  /** `injector_preamble_tail`'s code: with `save_state` and something borrowed, reload
      the borrowed registers from their slots, then store the new scratch registers into
      the same slots. */
  function TailOps(saveState: bool, before: seq<nat>, after: seq<nat>, t: nat): seq<Op>
    requires t <= |before| == |after|
  {
    if t == 0 || !saveState then []
    else RestoreAll(before[|before| - t..], |before| - t) + SaveAll(after[|after| - t..], |after| - t)
  }

  /** The tail step's code is its reload half followed by its store half. */
  lemma TailOpsHalves(saveState: bool, o: seq<Op>, reloaded: seq<Op>, ops: seq<Op>,
                      before: seq<nat>, after: seq<nat>, t: nat)
    requires 0 < t <= |before| == |after|
    requires reloaded == o + if saveState then RestoreAll(before[|before| - t..], |before| - t) else []
    requires ops == reloaded + if saveState then SaveAll(after[|after| - t..], |after| - t) else []
    ensures ops == o + TailOps(saveState, before, after, t)
  {
  }

  /** `injector_postamble`'s code: with `save_state`, reload the scratch vector
      registers from their slots, raise the stack pointer past the save area, then load
      the scratch GPRs in reverse and `x_table` last; without it, nothing. The GPR loads
      are pre-indexed as written, or post-indexed pops. */
  function PostambleWith(cfg: Config, vecs: seq<nat>, preIndexed: bool): seq<Op>
  {
    if cfg.saveState
    then RestoreAll(vecs, 0) + ReleaseVecs(cfg, |vecs|) + LoadRun(Reverse(cfg.Gprs()), preIndexed)
         + [LoadOp(cfg.xTable, preIndexed)]
    else []
  }

  /** The postamble as written: pre-indexed loads. */
  function PostambleAsWritten(cfg: Config, vecs: seq<nat>): seq<Op>
  {
    PostambleWith(cfg, vecs, true)
  }

  /** The postamble corrected to pop: post-indexed loads. */
  function PostambleOps(cfg: Config, vecs: seq<nat>): seq<Op>
  {
    PostambleWith(cfg, vecs, false)
  }

  /** The whole of `compute_vector_range` (corrected tail step): preamble, the first
      pass over the set from `start_idx_tail` on, the tail step, the second pass over
      the borrowed front, postamble. */
  function RangeOps(cfg: Config, idxs: seq<nat>): seq<Op>
    requires cfg.Supported() && TailFits(cfg.isa, idxs)
  {
    ScratchProperties(cfg.isa, idxs);
    TailScratchProperties(cfg.isa, idxs);
    var t := Borrowed(cfg.isa, idxs);
    var r := Dispatch(cfg.isFwd, cfg.alg, cfg.alphaIsZero).value;
    PreambleOps(cfg, Scratch(cfg.isa, idxs))
    + BodyOps(r, cfg.scaleIsOne, idxs[t..])
    + TailOps(cfg.saveState, Scratch(cfg.isa, idxs), TailScratch(cfg.isa, idxs), t)
    + BodyOps(r, cfg.scaleIsOne, idxs[..t])
    + PostambleOps(cfg, TailScratch(cfg.isa, idxs))
  }

  lemma RangeOpsParts(cfg: Config, idxs: seq<nat>)
    requires cfg.Supported() && TailFits(cfg.isa, idxs)
    ensures var t := Borrowed(cfg.isa, idxs);
            var r := Dispatch(cfg.isFwd, cfg.alg, cfg.alphaIsZero).value;
            RangeOps(cfg, idxs)
            == PreambleOps(cfg, Scratch(cfg.isa, idxs)) + BodyOps(r, cfg.scaleIsOne, idxs[t..])
               + TailOps(cfg.saveState, Scratch(cfg.isa, idxs), TailScratch(cfg.isa, idxs), t)
               + BodyOps(r, cfg.scaleIsOne, idxs[..t]) + PostambleOps(cfg, TailScratch(cfg.isa, idxs))
  {
  }

  /** The preamble, the tail step and the postamble apply no routine. */
  lemma PreambleAppliesNothing(cfg: Config, vecs: seq<nat>)
    ensures Applied(PreambleOps(cfg, vecs)) == []
  {
    if cfg.saveState {
      var head, pushes, room := [PushGpr(cfg.xTable)], PushAll(cfg.Gprs()), ReserveVecs(cfg, |vecs|);
      var saves, tail := SaveAll(vecs, 0), [LoadTableAddr];
      AppliedNone(head);
      AppliedNone(room);
      AppliedNone(tail);
      StoresApplyNothing(cfg.Gprs(), 0);
      StoresApplyNothing(vecs, 0);
      AppliedAppend(head, pushes);
      AppliedAppend(head + pushes, room);
      AppliedAppend(head + pushes + room, saves);
      AppliedAppend(head + pushes + room + saves, tail);
    }
  }

  lemma TailAppliesNothing(saveState: bool, before: seq<nat>, after: seq<nat>, t: nat)
    requires t <= |before| == |after|
    ensures Applied(TailOps(saveState, before, after, t)) == []
  {
    if t != 0 && saveState {
      var off := |before| - t;
      StoresApplyNothing(before[off..], off);
      StoresApplyNothing(after[off..], off);
      AppliedAppend(RestoreAll(before[off..], off), SaveAll(after[off..], off));
    }
  }

  lemma PostambleAppliesNothing(cfg: Config, vecs: seq<nat>)
    ensures Applied(PostambleOps(cfg, vecs)) == []
  {
    if cfg.saveState {
      var loads, room := RestoreAll(vecs, 0), ReleaseVecs(cfg, |vecs|);
      var pops, last := LoadRun(Reverse(cfg.Gprs()), false), [PopGpr(cfg.xTable)];
      AppliedNone(room);
      AppliedNone(last);
      StoresApplyNothing(vecs, 0);
      StoresApplyNothing(Reverse(cfg.Gprs()), 0);
      AppliedAppend(loads, room);
      AppliedAppend(loads + room, pops);
      AppliedAppend(loads + room + pops, last);
    }
  }

  lemma AppliedFive(pre: seq<Op>, b1: seq<Op>, tl: seq<Op>, b2: seq<Op>, post: seq<Op>)
    requires Applied(pre) == Applied(tl) == Applied(post) == []
    ensures Applied(pre + b1 + tl + b2 + post) == Applied(b1) + Applied(b2)
  {
    AppliedAppend(pre, b1);
    AppliedAppend(pre + b1, tl);
    AppliedAppend(pre + b1 + tl, b2);
    AppliedAppend(pre + b1 + tl + b2, post);
  }

  /** The code of the five parts, for any scratch registers, applies the routine to the
      registers of the two passes and to nothing else. */
  lemma PartsApply(cfg: Config, r: Routine, idxs: seq<nat>, sc: seq<nat>, ts: seq<nat>, t: nat)
    requires t <= |idxs| && t <= |sc| == |ts|
    ensures Applied(PreambleOps(cfg, sc) + BodyOps(r, cfg.scaleIsOne, idxs[t..])
                    + TailOps(cfg.saveState, sc, ts, t) + BodyOps(r, cfg.scaleIsOne, idxs[..t])
                    + PostambleOps(cfg, ts)) == idxs[t..] + idxs[..t]
  {
    PreambleAppliesNothing(cfg, sc);
    TailAppliesNothing(cfg.saveState, sc, ts, t);
    PostambleAppliesNothing(cfg, ts);
    BodyApplies(r, cfg.scaleIsOne, idxs[t..]);
    BodyApplies(r, cfg.scaleIsOne, idxs[..t]);
    AppliedFive(PreambleOps(cfg, sc), BodyOps(r, cfg.scaleIsOne, idxs[t..]), TailOps(cfg.saveState, sc, ts, t),
                BodyOps(r, cfg.scaleIsOne, idxs[..t]), PostambleOps(cfg, ts));
  }

  /** Every requested register is computed exactly once: the first pass covers the set
      from `start_idx_tail` on, the second the borrowed front, and nothing else applies
      the routine. */
  lemma RangeComputesEachOnce(cfg: Config, idxs: seq<nat>)
    requires cfg.Supported() && TailFits(cfg.isa, idxs)
    ensures Applied(RangeOps(cfg, idxs)) == idxs[Borrowed(cfg.isa, idxs)..] + idxs[..Borrowed(cfg.isa, idxs)]
    ensures multiset(Applied(RangeOps(cfg, idxs))) == multiset(idxs)
  {
    ScratchProperties(cfg.isa, idxs);
    TailScratchProperties(cfg.isa, idxs);
    var t := Borrowed(cfg.isa, idxs);
    PartsApply(cfg, Dispatch(cfg.isFwd, cfg.alg, cfg.alphaIsZero).value, idxs,
               Scratch(cfg.isa, idxs), TailScratch(cfg.isa, idxs), t);
    RotationKeepsMultiset(idxs, t);
  }

  lemma RotationKeepsMultiset(s: seq<nat>, t: nat)
    requires t <= |s|
    ensures multiset(s[t..] + s[..t]) == multiset(s)
  {
    assert s[..t] + s[t..] == s;
  }

  lemma RestoresFive(pre: seq<Op>, b1: seq<Op>, tl: seq<Op>, b2: seq<Op>, post: seq<Op>)
    requires RestoresMatchSaves([], pre) && NoRestores(b1) && NoRestores(b2)
    requires RestoresMatchSaves(pre + b1, tl) && RestoresMatchSaves(pre + b1 + tl + b2, post)
    ensures RestoresMatchSaves([], pre + b1 + tl + b2 + post)
  {
    RestoresMatchFromStart(pre, b1);
    RestoresMatchFromStart(pre + b1, tl);
    RestoresMatchFromStart(pre + b1 + tl, b2);
    RestoresMatchFromStart(pre + b1 + tl + b2, post);
  }

  /** Every load from the save area in `compute_vector_range` reads back the register
      last stored into that slot: the tail step reloads each borrowed register from the
      slot the preamble stored it in, and the postamble reloads each second-pass scratch
      register from the slot it was last stored in. */
  lemma RangeRestoresMatchSaves(cfg: Config, idxs: seq<nat>)
    requires cfg.Supported() && TailFits(cfg.isa, idxs)
    ensures RestoresMatchSaves([], RangeOps(cfg, idxs))
  {
    ScratchProperties(cfg.isa, idxs);
    TailScratchProperties(cfg.isa, idxs);
    TailScratchShape(cfg.isa, idxs);
    var t := Borrowed(cfg.isa, idxs);
    var r := Dispatch(cfg.isFwd, cfg.alg, cfg.alphaIsZero).value;
    var sc, ts := Scratch(cfg.isa, idxs), TailScratch(cfg.isa, idxs);
    var pre := PreambleOps(cfg, sc);
    var b1 := BodyOps(r, cfg.scaleIsOne, idxs[t..]);
    var tl := TailOps(cfg.saveState, sc, ts, t);
    var b2 := BodyOps(r, cfg.scaleIsOne, idxs[..t]);
    var post := PostambleOps(cfg, ts);
    BodyNoSaves(r, cfg.scaleIsOne, idxs[t..]);
    BodyNoSaves(r, cfg.scaleIsOne, idxs[..t]);
    PreambleMatches(cfg, sc);
    forall i | 0 <= i < |sc| ensures LastSaved(pre + b1, i) == LastSaved(pre, i) {
      LastSavedNoSaves(pre, b1, i);
    }
    TailMatches(cfg, sc, ts, t, pre + b1);
    if cfg.saveState {
      SlotsAfterTail(cfg, sc, ts, t, pre, b1, b2);
      PostambleMatches(cfg, ts, pre + b1 + tl + b2);
    }
    RestoresFive(pre, b1, tl, b2, post);
  }

  /** The preamble loads nothing, and with `save_state` slot `i` ends up holding
      `vecs[i]`. */
  lemma PreambleMatches(cfg: Config, vecs: seq<nat>)
    ensures NoRestores(PreambleOps(cfg, vecs))
    ensures RestoresMatchSaves([], PreambleOps(cfg, vecs))
    ensures cfg.saveState ==> forall i :: 0 <= i < |vecs| ==> LastSaved(PreambleOps(cfg, vecs), i) == Some(vecs[i])
  {
    if cfg.saveState {
      var head := [PushGpr(cfg.xTable)] + PushAll(cfg.Gprs()) + ReserveVecs(cfg, |vecs|);
      forall i | 0 <= i < |vecs| ensures LastSaved(PreambleOps(cfg, vecs), i) == Some(vecs[i]) {
        LastSavedSaveAll(head, vecs, 0, i);
        LastSavedNoSaves(head + SaveAll(vecs, 0), [LoadTableAddr], i);
      }
    }
  }

  /** The tail step's loads read back the borrowed registers the preamble stored. */
  lemma TailMatches(cfg: Config, before: seq<nat>, after: seq<nat>, t: nat, p: seq<Op>)
    requires t <= |before| == |after|
    requires cfg.saveState ==> forall i :: 0 <= i < |before| ==> LastSaved(p, i) == Some(before[i])
    ensures RestoresMatchSaves(p, TailOps(cfg.saveState, before, after, t))
  {
    if t > 0 && cfg.saveState {
      var off := |before| - t;
      SavedSuffix(p, before, off);
      ReloadThenStore(p, before[off..], after[off..], off);
    }
  }

  /** Reloading registers from the slots that hold them and then storing others reads
      back only what was stored. */
  lemma ReloadThenStore(p: seq<Op>, bs: seq<nat>, regs: seq<nat>, off: nat)
    requires forall k :: 0 <= k < |bs| ==> LastSaved(p, off + k) == Some(bs[k])
    ensures RestoresMatchSaves(p, RestoreAll(bs, off) + SaveAll(regs, off))
  {
    RestoreAllMatches(p, bs, off);
    StoresMatch(p + RestoreAll(bs, off), regs, off);
    RestoresMatchAppend(p, RestoreAll(bs, off), SaveAll(regs, off));
  }

  /** The slots from `off` on hold the registers of the suffix of `before` there. */
  lemma SavedSuffix(p: seq<Op>, before: seq<nat>, off: nat)
    requires off <= |before|
    requires forall i :: 0 <= i < |before| ==> LastSaved(p, i) == Some(before[i])
    ensures forall k :: 0 <= k < |before[off..]| ==> LastSaved(p, off + k) == Some(before[off..][k])
  {
    forall k | 0 <= k < |before[off..]| ensures LastSaved(p, off + k) == Some(before[off..][k]) {
      assert before[off..][k] == before[off + k];
    }
  }

  /** After the tail step, and through the second body, slot `i` holds `after[i]`. */
  lemma SlotsAfterTail(cfg: Config, before: seq<nat>, after: seq<nat>, t: nat,
                       pre: seq<Op>, b1: seq<Op>, b2: seq<Op>)
    requires cfg.saveState && t <= |before| == |after| == |before|
    requires pre == PreambleOps(cfg, before) && NoSaves(b1) && NoSaves(b2)
    requires before[..|before| - t] == after[..|after| - t]
    ensures forall i :: 0 <= i < |after| ==>
              LastSaved(pre + b1 + TailOps(cfg.saveState, before, after, t) + b2, i) == Some(after[i])
  {
    PreambleMatches(cfg, before);
    forall i | 0 <= i < |after|
      ensures LastSaved(pre + b1 + TailOps(cfg.saveState, before, after, t) + b2, i) == Some(after[i])
    {
      SlotAfterTail(cfg, before, after, t, pre, b1, b2, i);
    }
  }

  /** One slot of `SlotsAfterTail`. */
  lemma SlotAfterTail(cfg: Config, before: seq<nat>, after: seq<nat>, t: nat,
                      pre: seq<Op>, b1: seq<Op>, b2: seq<Op>, i: nat)
    requires cfg.saveState && t <= |before| == |after| == |before| && i < |after|
    requires LastSaved(pre, i) == Some(before[i]) && NoSaves(b1) && NoSaves(b2)
    requires before[..|before| - t] == after[..|after| - t]
    ensures LastSaved(pre + b1 + TailOps(cfg.saveState, before, after, t) + b2, i) == Some(after[i])
  {
    var tl := TailOps(cfg.saveState, before, after, t);
    LastSavedNoSaves(pre + b1 + tl, b2, i);
    LastSavedNoSaves(pre, b1, i);
    if t == 0 {
      assert pre + b1 + tl == pre + b1;
      assert before[i] == before[..|before|][i];
    } else {
      SlotAfterReload(pre + b1, before, after, |before| - t, i);
    }
  }

  /** A slot after reloading the slots from `off` on and storing `after` there. */
  lemma SlotAfterReload(p: seq<Op>, before: seq<nat>, after: seq<nat>, off: nat, i: nat)
    requires off <= |before| == |after| && i < |after|
    requires LastSaved(p, i) == Some(before[i]) && before[..off] == after[..off]
    ensures LastSaved(p + (RestoreAll(before[off..], off) + SaveAll(after[off..], off)), i) == Some(after[i])
  {
    var loads := RestoreAll(before[off..], off);
    assert NoSaves(loads);
    assert p + (loads + SaveAll(after[off..], off)) == (p + loads) + SaveAll(after[off..], off);
    LastSavedSaveAll(p + loads, after[off..], off, i);
    LastSavedNoSaves(p, loads, i);
    if i < off {
      assert before[i] == before[..off][i] && after[i] == after[..off][i];
    }
  }

  /** The postamble's loads read back what the slots hold. */
  lemma PostambleMatches(cfg: Config, vecs: seq<nat>, p: seq<Op>)
    requires cfg.saveState
    requires forall i :: 0 <= i < |vecs| ==> LastSaved(p, i) == Some(vecs[i])
    ensures RestoresMatchSaves(p, PostambleOps(cfg, vecs))
  {
    var loads := RestoreAll(vecs, 0);
    var pops := ReleaseVecs(cfg, |vecs|) + LoadRun(Reverse(cfg.Gprs()), false) + [PopGpr(cfg.xTable)];
    RestoreAllMatches(p, vecs, 0);
    assert NoRestores(pops);
    assert PostambleOps(cfg, vecs) == loads + pops;
    RestoresMatchAppend(p, loads, pops);
  }

  /** `x_table` followed by the scratch GPRs: what the preamble pushes, in order. */
  function PushedGprs(cfg: Config): seq<nat>
  {
    [cfg.xTable] + cfg.Gprs()
  }

  lemma PushedGprsDistinct(cfg: Config)
    ensures Distinct(PushedGprs(cfg)) && |PushedGprs(cfg)| == 1 + |cfg.Gprs()|
  {
    GprScratchProperties(cfg.alg, cfg.isa, cfg.xTable);
    var g := cfg.Gprs();
    var regs := PushedGprs(cfg);
    forall i, j | 0 <= i < j < |regs| ensures regs[i] != regs[j] {
      if i == 0 {
        assert regs[j] == g[j - 1] && g[j - 1] in g;
      } else {
        assert regs[i] == g[i - 1] && regs[j] == g[j - 1];
      }
    }
  }

  /** With `save_state`, the preamble is the GPR pushes, the room for the vector save
      area, and operations that leave the stack machine alone; the postamble is the
      mirror image. */
  lemma StackPhases(cfg: Config, vecs: seq<nat>, preIndexed: bool)
    requires cfg.saveState
    ensures PreambleOps(cfg, vecs)
            == PushAll(PushedGprs(cfg)) + ReserveVecs(cfg, |vecs|) + (SaveAll(vecs, 0) + [LoadTableAddr])
    ensures PostambleWith(cfg, vecs, preIndexed)
            == RestoreAll(vecs, 0) + ReleaseVecs(cfg, |vecs|) + LoadRun(Reverse(PushedGprs(cfg)), preIndexed)
    ensures forall i :: 0 <= i < |SaveAll(vecs, 0) + [LoadTableAddr]| ==> Inert((SaveAll(vecs, 0) + [LoadTableAddr])[i])
    ensures forall i :: 0 <= i < |RestoreAll(vecs, 0)| ==> Inert(RestoreAll(vecs, 0)[i])
  {
    var g := cfg.Gprs();
    assert PushAll(PushedGprs(cfg)) == [PushGpr(cfg.xTable)] + PushAll(g);
    assert Reverse(PushedGprs(cfg)) == Reverse(g) + [cfg.xTable];
    EmitSnoc(Reverse(g), cfg.xTable, 0);
  }

  /** Whatever the preamble stored, the stack machine's state after the preamble,
      with the registers replaced by `current` (what the bodies leave), followed by the
      postamble with loads of either kind: the run from the GPR pushes to the GPR loads. */
  lemma StackAcross(cfg: Config, vecs: seq<nat>, preIndexed: bool, m: Machine, current: map<nat, int>)
    requires cfg.saveState
    ensures var pushed := Exec(m, PreambleOps(cfg, vecs));
            var g := Exec(m, PushAll(PushedGprs(cfg)));
            Exec(Machine(current, pushed.sp, pushed.mem), PostambleWith(cfg, vecs, preIndexed))
            == Exec(Machine(current, g.sp, g.mem), LoadRun(Reverse(PushedGprs(cfg)), preIndexed))
  {
    StackPhases(cfg, vecs, preIndexed);
    var rest := SaveAll(vecs, 0) + [LoadTableAddr];
    var room, back := ReserveVecs(cfg, |vecs|), ReleaseVecs(cfg, |vecs|);
    var g := Exec(m, PushAll(PushedGprs(cfg)));
    ExecAppend(m, PushAll(PushedGprs(cfg)) + room, rest);
    ExecAppend(m, PushAll(PushedGprs(cfg)), room);
    ExecInert(Exec(g, room), rest);
    var pushed := Exec(m, PreambleOps(cfg, vecs));
    assert pushed == Exec(g, room);
    var q := Machine(current, pushed.sp, pushed.mem);
    ExecAppend(q, RestoreAll(vecs, 0) + back, LoadRun(Reverse(PushedGprs(cfg)), preIndexed));
    ExecAppend(q, RestoreAll(vecs, 0), back);
    ExecInert(q, RestoreAll(vecs, 0));
    if |vecs| > 0 {
      ExecOne(g, room[0]);
      ExecOne(q, back[0]);
    }
    assert Exec(q, RestoreAll(vecs, 0) + back) == Machine(current, g.sp, g.mem);
  }

  /** The general-purpose registers the preamble pushes are popped by the postamble in
      the opposite order: whatever the bodies do to the registers, `x_table` and the
      scratch GPRs get their values back and the stack pointer returns to where it was
      before the preamble. */
  lemma PostambleUndoesPreamble(cfg: Config, vecs: seq<nat>, m: Machine, current: map<nat, int>)
    requires cfg.saveState
    ensures var pushed := Exec(m, PreambleOps(cfg, vecs));
            var popped := Exec(Machine(current, pushed.sp, pushed.mem), PostambleOps(cfg, vecs));
            && popped.sp == m.sp
            && cfg.xTable in popped.gpr && popped.gpr[cfg.xTable] == ValueOf(m.gpr, cfg.xTable)
            && (forall r :: r in cfg.Gprs() ==> r in popped.gpr && popped.gpr[r] == ValueOf(m.gpr, r))
  {
    PushedGprsDistinct(cfg);
    StackAcross(cfg, vecs, false, m, current);
    StackRoundTrip(m, PushedGprs(cfg), current);
  }

  /** As written, each of the postamble's pre-indexed loads reads the word above the
      one its register was pushed to: `x_table` gets the word just above everything the
      preamble pushed, which the preamble never wrote, and each scratch GPR gets the value
      of the register pushed before it. */
  lemma PostambleAsWrittenMisloads(cfg: Config, vecs: seq<nat>, m: Machine, current: map<nat, int>)
    requires cfg.saveState
    ensures var pushed := Exec(m, PreambleOps(cfg, vecs));
            var loaded := Exec(Machine(current, pushed.sp, pushed.mem), PostambleAsWritten(cfg, vecs));
            var g := cfg.Gprs();
            && loaded.sp == m.sp
            && cfg.xTable in loaded.gpr && loaded.gpr[cfg.xTable] == Word(m.mem, m.sp)
            && (|g| > 0 ==> g[0] in loaded.gpr && loaded.gpr[g[0]] == ValueOf(m.gpr, cfg.xTable))
            && (forall k :: 1 <= k < |g| ==> g[k] in loaded.gpr && loaded.gpr[g[k]] == ValueOf(m.gpr, g[k - 1]))
  {
    PushedGprsDistinct(cfg);
    StackAcross(cfg, vecs, true, m, current);
    var regs, g := PushedGprs(cfg), cfg.Gprs();
    var pushed := Exec(m, PushAll(regs));
    var loaded := Exec(Machine(current, pushed.sp, pushed.mem), LoadRun(Reverse(regs), true));
    StackLoadsShifted(m, regs, current);
    assert regs[0] == cfg.xTable;
    if |g| > 0 {
      assert regs[1] == g[0];
    }
    forall k | 1 <= k < |g| ensures g[k] in loaded.gpr && loaded.gpr[g[k]] == ValueOf(m.gpr, g[k - 1]) {
      assert regs[k + 1] == g[k] && regs[k] == g[k - 1];
    }
  }

  /** A concrete run of the as-written postamble for any configuration with
      `save_state`: with `x_table` holding 1 on entry and nothing stored above the stack
      pointer, `x_table` holds 0 on exit. */
  lemma TableAddressNotRestored(cfg: Config, vecs: seq<nat>)
    requires cfg.saveState
    ensures var m := Machine(map[cfg.xTable := 1], 4096, map[]);
            var pushed := Exec(m, PreambleOps(cfg, vecs));
            var loaded := Exec(Machine(map[], pushed.sp, pushed.mem), PostambleAsWritten(cfg, vecs));
            ValueOf(loaded.gpr, cfg.xTable) == 0 && ValueOf(m.gpr, cfg.xTable) == 1
  {
    PostambleAsWrittenMisloads(cfg, vecs, Machine(map[cfg.xTable := 1], 4096, map[]), map[]);
  }
}
