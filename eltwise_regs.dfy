/** Scratch-register bookkeeping of the eltwise injector: which vector registers
    `injector_preamble` takes as scratch (spares outside the requested range first, then
    registers borrowed from the front of the range), which general-purpose registers it
    takes, how `injector_preamble_tail` re-homes the borrowed ones for the second pass,
    the push/pop order of `injector_postamble`, and the two `compute_body` passes of
    `compute_vector_range`. Emitted code is an abstract sequence of `Op`s. */
module EltwiseRegs {
  import opened EltwiseKinds

  /** Vector registers of the target (`vecs_count`). */
  const VecsCount: nat := 32
  /** The highest general-purpose register the preamble allocates from. */
  const TopGpr: nat := 30
  /** Slots of `preserved_gpr_idxs`: the most `aux_gprs_count()` ever asks for. */
  const PreservedGprsMax: nat := 4

  predicate Increasing(s: seq<nat>)
  {
    forall i, j :: 0 <= i < j < |s| ==> s[i] < s[j]
  }

  predicate Distinct(s: seq<nat>)
  {
    forall i, j :: 0 <= i < j < |s| ==> s[i] != s[j]
  }

  /** A `vmm_index_set_t`: a non-empty ordered set of vector register indices. */
  predicate IndexSet(idxs: seq<nat>)
  {
    |idxs| > 0 && Increasing(idxs)
  }

  function Min(a: nat, b: nat): nat
  {
    if a <= b then a else b
  }

  /** The registers in `[lo, hi)` outside `[start, end)`, in ascending order: what the
      preamble's spare-register scan visits. */
  function Outside(lo: nat, hi: nat, start: nat, end: nat): seq<nat>
    decreases hi
  {
    if hi <= lo then []
    else Outside(lo, hi - 1, start, end) + (if start <= hi - 1 < end then [] else [hi - 1])
  }

  /** One more step of the scan appends the register just visited unless it lies in
      the range. */
  lemma OutsideStep(lo: nat, hi: nat, start: nat, end: nat)
    requires lo <= hi
    ensures Outside(lo, hi + 1, start, end) == Outside(lo, hi, start, end) + (if start <= hi < end then [] else [hi])
  {
  }

  /** The scan's registers after `head`, one more step on. */
  lemma ScanStep(head: seq<nat>, lo: nat, hi: nat, start: nat, end: nat)
    requires lo <= hi
    ensures start <= hi < end ==> head + Outside(lo, hi + 1, start, end) == head + Outside(lo, hi, start, end)
    ensures !(start <= hi < end) ==>
              head + Outside(lo, hi + 1, start, end) == (head + Outside(lo, hi, start, end)) + [hi]
  {
    OutsideStep(lo, hi, start, end);
    if !(start <= hi < end) {
      assert head + (Outside(lo, hi, start, end) + [hi]) == (head + Outside(lo, hi, start, end)) + [hi];
    } else {
      assert Outside(lo, hi, start, end) + [] == Outside(lo, hi, start, end);
    }
  }

  /** Size of the intersection of `[lo, hi)` and `[start, end)`. */
  function Overlap(lo: nat, hi: nat, start: nat, end: nat): nat
  {
    var a := if lo <= start then start else lo;
    var b := if hi <= end then hi else end;
    if a < b then b - a else 0
  }

  /** The scan yields exactly the registers of `[lo, hi)` outside `[start, end)`. */
  lemma {:induction false} OutsideMembers(lo: nat, hi: nat, start: nat, end: nat)
    ensures forall r: nat :: r in Outside(lo, hi, start, end) <==> lo <= r < hi && !(start <= r < end)
    decreases hi
  {
    if hi > lo {
      OutsideMembers(lo, hi - 1, start, end);
    }
  }

  /** The scan yields its registers in ascending order. */
  lemma {:induction false} OutsideIncreasing(lo: nat, hi: nat, start: nat, end: nat)
    ensures Increasing(Outside(lo, hi, start, end))
    decreases hi
  {
    if hi > lo {
      OutsideIncreasing(lo, hi - 1, start, end);
      OutsideMembers(lo, hi - 1, start, end);
      var p := Outside(lo, hi - 1, start, end);
      var s := Outside(lo, hi, start, end);
      if !(start <= hi - 1 < end) {
        assert s == p + [hi - 1];
        forall i, j | 0 <= i < j < |s| ensures s[i] < s[j] {
          if j == |p| {
            assert s[i] == p[i] && p[i] in p;
          } else {
            assert s[i] == p[i] && s[j] == p[j];
          }
        }
      }
    }
  }

  /** The scan yields as many registers as `[lo, hi)` has outside the range. */
  lemma {:induction false} OutsideLength(lo: nat, hi: nat, start: nat, end: nat)
    ensures |Outside(lo, hi, start, end)| + Overlap(lo, hi, start, end) == if hi <= lo then 0 else hi - lo
    decreases hi
  {
    if hi > lo {
      OutsideLength(lo, hi - 1, start, end);
    }
  }

  /** A first register outside the range starts the scan. */
  lemma {:induction false} OutsideFirst(lo: nat, hi: nat, start: nat, end: nat)
    requires lo < hi && lo < start
    ensures Outside(lo, hi, start, end) == [lo] + Outside(lo + 1, hi, start, end)
    decreases hi
  {
    if hi > lo + 1 {
      OutsideFirst(lo, hi - 1, start, end);
    }
  }

  /** A scan stopped early has visited a prefix of the full scan. */
  lemma {:induction false} OutsidePrefix(lo: nat, mid: nat, hi: nat, start: nat, end: nat)
    requires mid <= hi
    ensures var s := Outside(lo, mid, start, end);
            |s| <= |Outside(lo, hi, start, end)| && Outside(lo, hi, start, end)[..|s|] == s
    decreases hi
  {
    if mid < hi {
      OutsidePrefix(lo, mid, hi - 1, start, end);
    }
  }

  /** The preamble's scan, stopped once `aux_vecs_count()` registers are taken or
      the registers run out, has taken a prefix of the full scan, and as many registers
      as the full scan offers up to `aux_vecs_count()`. */
  lemma ScanStops(head: seq<nat>, lo: nat, idx: nat, start: nat, end: nat, count: nat)
    requires lo <= idx <= VecsCount
    requires count == Min(AuxVecsCount, |head| + |Outside(lo, idx, start, end)|)
    requires idx == VecsCount || count >= AuxVecsCount
    ensures count == Min(AuxVecsCount, |head + Outside(lo, VecsCount, start, end)|)
    ensures forall j :: 0 <= j < count ==>
              (head + Outside(lo, idx, start, end))[j] == (head + Outside(lo, VecsCount, start, end))[j]
  {
    var part, full := Outside(lo, idx, start, end), Outside(lo, VecsCount, start, end);
    OutsidePrefix(lo, idx, VecsCount, start, end);
    CountStops(count, |head|, |part|, |full|);
    PrefixAgrees(head, part, full, count);
  }

  /** A count capped at `aux_vecs_count()` that stopped early was already capped. */
  lemma CountStops(count: nat, h: nat, a: nat, b: nat)
    requires count == Min(AuxVecsCount, h + a) && a <= b && (a == b || count >= AuxVecsCount)
    ensures count <= h + a && count == Min(AuxVecsCount, h + b)
  {
  }

  /** Taking one more element of `s` after a prefix of it extends the prefix. */
  lemma ExtendPrefix(a: seq<nat>, s: seq<nat>, i: nat)
    requires i < |s|
    ensures (a + s[..i]) + [s[i]] == a + s[..i + 1]
  {
    assert s[..i + 1] == s[..i] + [s[i]];
  }

  /** A sequence that agrees with `x` and then with `y`, and is as long as both, is
      their concatenation. */
  lemma Joined(a: seq<nat>, x: seq<nat>, y: seq<nat>)
    requires |a| == |x| + |y|
    requires forall j :: 0 <= j < |x| ==> a[j] == x[j]
    requires forall j :: 0 <= j < |y| ==> a[|x| + j] == y[j]
    ensures a == x + y
  {
    forall j | 0 <= j < |a| ensures a[j] == (x + y)[j] {
      if j >= |x| {
        assert a[|x| + (j - |x|)] == y[j - |x|];
      }
    }
  }

  /** Extending the end of a sequence keeps its first elements. */
  lemma PrefixAgrees(head: seq<nat>, part: seq<nat>, full: seq<nat>, count: nat)
    requires |part| <= |full| && full[..|part|] == part && count <= |head| + |part|
    ensures forall j :: 0 <= j < count ==> (head + part)[j] == (head + full)[j]
  {
    forall j | 0 <= j < count ensures (head + part)[j] == (head + full)[j] {
      if j >= |head| {
        assert full[j - |head|] == full[..|part|][j - |head|];
      }
    }
  }

  function StartIdx(idxs: seq<nat>): nat
    requires |idxs| > 0
  {
    idxs[0]
  }

  /** One past the largest requested index (`*vmm_idxs.rbegin() + 1`). */
  function EndIdx(idxs: seq<nat>): nat
    requires |idxs| > 0
  {
    idxs[|idxs| - 1] + 1
  }

  /** Every register the preamble may use without borrowing, in the order it takes them:
      register 0 first on `asimd` (the mask register there), then the registers outside
      `[start_idx, end_idx)` in ascending order. */
  function Spares(isa: Isa, idxs: seq<nat>): seq<nat>
    requires |idxs| > 0
  {
    if isa == Asimd then [0] + Outside(1, VecsCount, StartIdx(idxs), EndIdx(idxs))
    else Outside(0, VecsCount, StartIdx(idxs), EndIdx(idxs))
  }

  lemma SparesSplit(isa: Isa, idxs: seq<nat>)
    requires |idxs| > 0
    ensures Spares(isa, idxs) == (if isa == Asimd then [0] else [])
                                 + Outside(if isa == Asimd then 1 else 0, VecsCount, StartIdx(idxs), EndIdx(idxs))
  {
    if isa != Asimd {
      assert [] + Outside(0, VecsCount, StartIdx(idxs), EndIdx(idxs)) == Spares(isa, idxs);
    }
  }

  /** Spares the preamble takes: all of them, up to `aux_vecs_count()`. */
  function SparesTaken(isa: Isa, idxs: seq<nat>): nat
    requires |idxs| > 0
  {
    Min(AuxVecsCount, |Spares(isa, idxs)|)
  }

  /** Registers borrowed from the front of the requested set; this is where
      `start_idx_tail` ends up. */
  function Borrowed(isa: Isa, idxs: seq<nat>): nat
    requires |idxs| > 0
  {
    AuxVecsCount - SparesTaken(isa, idxs)
  }

  /** What the preamble demands of the request: `asimd` asserts that register 0 lies
      below the range, and the spares and the set together must supply
      `aux_vecs_count()` registers (otherwise the borrowing loop runs off the set). */
  predicate Feasible(isa: Isa, idxs: seq<nat>)
  {
    IndexSet(idxs) && (isa == Asimd ==> 0 < idxs[0])
    && AuxVecsCount <= |Spares(isa, idxs)| + |idxs|
  }

  /** The scratch vector registers `preserved_vec_idxs` holds after the preamble. */
  function Scratch(isa: Isa, idxs: seq<nat>): seq<nat>
    requires Feasible(isa, idxs)
  {
    Spares(isa, idxs)[..SparesTaken(isa, idxs)] + idxs[..Borrowed(isa, idxs)]
  }

  /** On `asimd` (where register 0 lies below the range) the spares are the plain scan
      from register 0. */
  lemma SparesAsScan(isa: Isa, idxs: seq<nat>)
    requires IndexSet(idxs) && (isa == Asimd ==> 0 < idxs[0])
    ensures Spares(isa, idxs) == Outside(0, VecsCount, StartIdx(idxs), EndIdx(idxs))
  {
    if isa == Asimd {
      OutsideFirst(0, VecsCount, StartIdx(idxs), EndIdx(idxs));
    }
  }

  /** The spares are increasing registers below `vecs_count`, exactly those outside
      `[start_idx, end_idx)`; none of them is in the requested set. */
  lemma SparesFacts(isa: Isa, idxs: seq<nat>)
    requires IndexSet(idxs) && (isa == Asimd ==> 0 < idxs[0])
    ensures Increasing(Spares(isa, idxs))
    ensures forall r: nat :: r in Spares(isa, idxs) <==> r < VecsCount && !(StartIdx(idxs) <= r < EndIdx(idxs))
    ensures forall k :: 0 <= k < |idxs| ==> idxs[k] !in Spares(isa, idxs)
  {
    var s, e := StartIdx(idxs), EndIdx(idxs);
    SparesAsScan(isa, idxs);
    OutsideIncreasing(0, VecsCount, s, e);
    OutsideMembers(0, VecsCount, s, e);
    var sp := Spares(isa, idxs);

    forall k | 0 <= k < |idxs| ensures idxs[k] !in Spares(isa, idxs) {
      IndexSetBounds(idxs, k);
    }
  }

  /** Every member of an index set lies in `[start_idx, end_idx)`. */
  lemma IndexSetBounds(idxs: seq<nat>, k: nat)
    requires IndexSet(idxs) && k < |idxs|
    ensures StartIdx(idxs) <= idxs[k] < EndIdx(idxs)
  {
  }

  /** Joining a prefix of increasing registers that avoid an index set to a window
      `[a, b)` of that set gives distinct registers, none of them in the set outside the
      window. */
  lemma JoinFacts(sp: seq<nat>, n: nat, idxs: seq<nat>, a: nat, b: nat)
    requires Increasing(sp) && n <= |sp| && (forall k :: 0 <= k < |idxs| ==> idxs[k] !in sp)
    requires IndexSet(idxs) && a <= b <= |idxs|
    ensures Distinct(sp[..n] + idxs[a..b])
    ensures forall k :: 0 <= k < |idxs| && !(a <= k < b) ==> idxs[k] !in sp[..n] + idxs[a..b]
    ensures forall i :: 0 <= i < n ==> (sp[..n] + idxs[a..b])[i] == sp[i]
    ensures forall i, k :: 0 <= i < n && 0 <= k < |idxs| ==> sp[i] != idxs[k]
  {
    var sc := sp[..n] + idxs[a..b];
    forall i, j | 0 <= i < j < |sc| ensures sc[i] != sc[j] {
      if j < n {
        assert sc[i] == sp[i] && sc[j] == sp[j];
      } else if i < n {
        assert sc[i] == sp[i] && sc[j] == idxs[a + j - n];
        assert sp[i] in sp && idxs[a + j - n] in idxs;
      } else {
        assert sc[i] == idxs[a + i - n] && sc[j] == idxs[a + j - n];
      }
    }
    forall k, m | 0 <= k < |idxs| && !(a <= k < b) && 0 <= m < |sc| ensures sc[m] != idxs[k] {
      if m < n {
        assert sc[m] == sp[m] && sp[m] in sp && idxs[k] in idxs;
      } else {
        assert sc[m] == idxs[a + m - n] && a + m - n != k;
      }
    }
    forall i, k | 0 <= i < n && 0 <= k < |idxs| ensures sp[i] != idxs[k] {
      assert sp[i] in sp;
    }
  }

  /** The preamble's scratch registers: exactly `aux_vecs_count()` of them, pairwise
      distinct, register 0 first on `asimd`; the taken spares are free registers below
      `vecs_count`; and no register of the first pass (the set from `start_idx_tail` on)
      is scratch. */
  lemma ScratchProperties(isa: Isa, idxs: seq<nat>)
    requires Feasible(isa, idxs)
    ensures |Scratch(isa, idxs)| == AuxVecsCount
    ensures Distinct(Scratch(isa, idxs))
    ensures isa == Asimd ==> Scratch(isa, idxs)[0] == 0
    ensures forall i :: 0 <= i < SparesTaken(isa, idxs) ==> Scratch(isa, idxs)[i] < VecsCount
    ensures forall i, k :: 0 <= i < SparesTaken(isa, idxs) && 0 <= k < |idxs| ==>
              Scratch(isa, idxs)[i] != idxs[k]
    ensures forall k :: Borrowed(isa, idxs) <= k < |idxs| ==> idxs[k] !in Scratch(isa, idxs)
  {
    ScratchSpares(isa, idxs);
    ScratchDisjoint(isa, idxs);
  }

  /** The scratch registers number `aux_vecs_count()`, and the spares among them, register
      0 first on `asimd`, lie below `vecs_count`. */
  lemma ScratchSpares(isa: Isa, idxs: seq<nat>)
    requires Feasible(isa, idxs)
    ensures |Scratch(isa, idxs)| == AuxVecsCount
    ensures isa == Asimd ==> Scratch(isa, idxs)[0] == 0
    ensures forall i :: 0 <= i < SparesTaken(isa, idxs) ==> Scratch(isa, idxs)[i] < VecsCount
  {
    SparesFacts(isa, idxs);
    var sp := Spares(isa, idxs);
    var n, t := SparesTaken(isa, idxs), Borrowed(isa, idxs);
    var sc := Scratch(isa, idxs);
    assert sc == sp[..n] + idxs[..t];
    forall i | 0 <= i < n ensures sc[i] < VecsCount {
      assert sc[i] == sp[i] && sp[i] in sp;
    }
    if isa == Asimd {
      assert sc[0] == sp[0] == 0;
    }
  }

  /** The scratch registers are pairwise distinct, the spares among them are not in the
      set, and the set's registers from `start_idx_tail` on are not scratch. */
  lemma ScratchDisjoint(isa: Isa, idxs: seq<nat>)
    requires Feasible(isa, idxs)
    ensures Distinct(Scratch(isa, idxs))
    ensures forall i, k :: 0 <= i < SparesTaken(isa, idxs) && 0 <= k < |idxs| ==>
              Scratch(isa, idxs)[i] != idxs[k]
    ensures forall k :: Borrowed(isa, idxs) <= k < |idxs| ==> idxs[k] !in Scratch(isa, idxs)
  {
    SparesFacts(isa, idxs);
    var sp := Spares(isa, idxs);
    var n, t := SparesTaken(isa, idxs), Borrowed(isa, idxs);
    JoinFacts(sp, n, idxs, 0, t);
    assert Scratch(isa, idxs) == sp[..n] + idxs[0..t];
  }

  /** Spares are taken lowest first: a register outside the range that the preamble
      left unused is above every spare it took, and then it took a full set. */
  lemma SparesLowestFirst(isa: Isa, idxs: seq<nat>, r: nat)
    requires Feasible(isa, idxs)
    requires r < VecsCount && !(StartIdx(idxs) <= r < EndIdx(idxs))
    requires r !in Scratch(isa, idxs)
    ensures SparesTaken(isa, idxs) == AuxVecsCount
    ensures forall i :: 0 <= i < SparesTaken(isa, idxs) ==> Scratch(isa, idxs)[i] < r
  {
    var s := Spares(isa, idxs);
    var m := SpareAt(isa, idxs, r);
    TakenBelow(s, idxs[..Borrowed(isa, idxs)], SparesTaken(isa, idxs), m);
  }

  /** A register outside the range is a spare, at some position of the spares. */
  lemma SpareAt(isa: Isa, idxs: seq<nat>, r: nat) returns (m: nat)
    requires IndexSet(idxs) && (isa == Asimd ==> 0 < idxs[0])
    requires r < VecsCount && !(StartIdx(idxs) <= r < EndIdx(idxs))
    ensures Increasing(Spares(isa, idxs)) && m < |Spares(isa, idxs)| && Spares(isa, idxs)[m] == r
  {
    SparesFacts(isa, idxs);
    var s := Spares(isa, idxs);
    assert r in s;
    m :| 0 <= m < |s| && s[m] == r;
  }

  /** An element of an increasing sequence missing from a prefix of it (followed by
      anything else) lies beyond the prefix, above all of it. */
  lemma TakenBelow(s: seq<nat>, rest: seq<nat>, n: nat, m: nat)
    requires Increasing(s) && n <= |s| && m < |s| && s[m] !in s[..n] + rest
    ensures n <= m && forall i :: 0 <= i < n ==> (s[..n] + rest)[i] < s[m]
  {
    forall i | 0 <= i < n ensures s[i] != s[m] {
      assert (s[..n] + rest)[i] == s[i];
    }
    forall i | 0 <= i < n ensures (s[..n] + rest)[i] < s[m] {
      assert (s[..n] + rest)[i] == s[i];
    }
  }

  // ---------------------------------------------------------------------------------
  // General-purpose scratch registers

  /** The registers the preamble's GPR loop accepts in its first `k` iterations: 30,
      29, ... downward, skipping `x_table`. */
  function GprScan(k: nat, xTable: nat): seq<nat>
    requires k <= TopGpr + 1
  {
    if k == 0 then []
    else GprScan(k - 1, xTable) + (if TopGpr - (k - 1) == xTable then [] else [TopGpr - (k - 1)])
  }

  lemma {:induction false} GprScanMembers(k: nat, xTable: nat)
    requires k <= TopGpr + 1
    ensures forall r: nat :: r in GprScan(k, xTable) <==> TopGpr + 1 - k <= r <= TopGpr && r != xTable
  {
    if k > 0 {
      GprScanMembers(k - 1, xTable);
    }
  }

  lemma {:induction false} GprScanDecreasing(k: nat, xTable: nat)
    requires k <= TopGpr + 1
    ensures forall i, j :: 0 <= i < j < |GprScan(k, xTable)| ==> GprScan(k, xTable)[i] > GprScan(k, xTable)[j]
  {
    if k > 0 {
      GprScanDecreasing(k - 1, xTable);
      GprScanMembers(k - 1, xTable);
      var p := GprScan(k - 1, xTable);
      var s := GprScan(k, xTable);
      if TopGpr - (k - 1) != xTable {
        assert s == p + [TopGpr - (k - 1)];
        forall i, j | 0 <= i < j < |s| ensures s[i] > s[j] {
          if j == |p| {
            assert s[i] == p[i] && p[i] in p;
          } else {
            assert s[i] == p[i] && s[j] == p[j];
          }
        }
      }
    }
  }

  lemma {:induction false} GprScanLength(k: nat, xTable: nat)
    requires k <= TopGpr + 1
    ensures |GprScan(k, xTable)| + 1 >= k
    ensures (xTable > TopGpr || xTable < TopGpr + 1 - k) ==> |GprScan(k, xTable)| == k
  {
    if k > 0 {
      GprScanLength(k - 1, xTable);
    }
  }

  /** `preserved_gpr_idxs` after the preamble: the first `n` accepted registers. */
  function GprScratch(n: nat, xTable: nat): seq<nat>
    requires n <= TopGpr
  {
    GprScanLength(TopGpr + 1, xTable);
    GprScan(TopGpr + 1, xTable)[..n]
  }

  /** The GPR loop finds `aux_gprs_count()` registers, so its assert holds: they are
      distinct, at most 30, never `x_table`, taken from the top down, and every other
      register above the lowest one taken is `x_table`. */
  lemma GprScratchProperties(alg: Alg, isa: Isa, xTable: nat)
    ensures var g := GprScratch(AuxGprsCount(alg, isa), xTable);
            && |g| == AuxGprsCount(alg, isa) <= PreservedGprsMax
            && (forall i, j :: 0 <= i < j < |g| ==> g[i] > g[j])
            && (forall r :: r in g ==> r <= TopGpr && r != xTable)
            && (forall r :: |g| > 0 && g[|g| - 1] < r <= TopGpr && r != xTable ==> r in g)
  {
    var n := AuxGprsCount(alg, isa);
    GprScanLength(TopGpr + 1, xTable);
    GprScanMembers(TopGpr + 1, xTable);
    GprScanDecreasing(TopGpr + 1, xTable);
    var s := GprScan(TopGpr + 1, xTable);
    var g := GprScratch(n, xTable);
    assert g == s[..n];
    forall r | r in g ensures r <= TopGpr && r != xTable {
      var m :| 0 <= m < |g| && g[m] == r;
      assert s[m] == r && s[m] in s;
    }
    forall r | |g| > 0 && g[|g| - 1] < r <= TopGpr && r != xTable ensures r in g {
      assert r in s;
      var m :| 0 <= m < |s| && s[m] == r;
      assert g[m] == r;
    }
  }
}
