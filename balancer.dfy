/** The reduction work balancer `reduce_balancer_t`: given the thread count, the job
    count, the size of a job, the reduction depth and a scratch budget, `balance()` picks
    how many thread groups to form, how many threads share a group and the upper bound
    on jobs per group, by a brute-force scan over the jobs-per-group candidates. */
module ReduceBalance {
  import opened IntUtil

  /** The inputs of the balancer (the constructor arguments). */
  datatype Params = Params(
    nthr: nat,
    jobSize: nat,
    njobs: nat,
    reductionSize: nat,
    maxBufferSize: nat,
    allowNthrInGroup: bool)
  {
    /** What `balance()` asserts of its inputs. */
    predicate Valid() {
      nthr > 0 && jobSize > 0 && njobs > 0 && reductionSize > 0
    }
  }

  /** The outcome of `balance()`: `ngroups_`, `nthr_per_group_`, `njobs_per_group_ub_`. */
  datatype Topology = Topology(ngroups: nat, nthrPerGroup: nat, njobsPerGroupUb: nat)

  function MinNjobsPerGroup(p: Params): (r: nat)
    requires p.Valid()
    ensures 1 <= r <= p.njobs
  {
    DivMulLe(p.njobs, p.nthr);
    Max(1, p.njobs / p.nthr)
  }

  function MaxNjobsPerGroup(p: Params): nat
    requires p.Valid()
  {
    Max(1, p.maxBufferSize / (p.nthr * p.jobSize))
  }

  /** The topology tried for `c_njobs_per_group == c`; the initial guess is the same
      computation for `c == min_njobs_per_group`. */
  function Candidate(p: Params, c: nat): (t: Topology)
    requires p.Valid() && 1 <= c <= p.njobs
  {
    var g := Min(p.njobs / c, p.nthr);
    assert g >= 1 by {
      assert p.njobs / c >= 1;
    }
    var tpg := if p.allowNthrInGroup then Min(p.nthr / g, p.reductionSize) else 1;
    Topology(g, tpg, DivUp(p.njobs, g))
  }

  /** `c_thread_complexity_ub`: the bytes a thread of the group touches, bounded above. */
  function Cost(p: Params, t: Topology): nat
    requires p.Valid() && t.nthrPerGroup > 0
  {
    var bytes: nat := p.jobSize * t.njobsPerGroupUb;
    var rounds: nat := DivUp(p.reductionSize, t.nthrPerGroup) + (if t.nthrPerGroup != 1 then 1 else 0);
    bytes * rounds
  }

  function CandidateCost(p: Params, c: nat): nat
    requires p.Valid() && 1 <= c <= p.njobs
  {
    CandidateWellShaped(p, c);
    Cost(p, Candidate(p, c))
  }

  /** A candidate is skipped when it needs a reduction buffer larger than the budget. */
  predicate Admissible(p: Params, t: Topology)
    requires p.Valid()
  {
    !(t.nthrPerGroup > 1 && t.njobsPerGroupUb > MaxNjobsPerGroup(p))
  }

  function InitialGuess(p: Params): Topology
    requires p.Valid()
  {
    Candidate(p, MinNjobsPerGroup(p))
  }

  /** The rough bound the scan starts from. */
  function InitialBound(p: Params): nat {
    p.njobs * p.jobSize * p.reductionSize
  }

  /** The incumbent (topology and its cost bound) after the scan has looked at the
      candidates `[min_njobs_per_group, c)`. */
  function Scan(p: Params, c: nat): (Topology, nat)
    requires p.Valid() && MinNjobsPerGroup(p) <= c <= p.njobs
    decreases c
  {
    if c == MinNjobsPerGroup(p) then (InitialGuess(p), InitialBound(p))
    else
      var prev := Scan(p, c - 1);
      var cand := Candidate(p, c - 1);
      CandidateWellShaped(p, c - 1);
      if Admissible(p, cand) && Cost(p, cand) < prev.1
      then (cand, Cost(p, cand))
      else prev
  }

  /** The topology `balance()` settles on. */
  function BalanceSpec(p: Params): Topology
    requires p.Valid()
  {
    Scan(p, p.njobs).0
  }

  /** What every candidate satisfies by construction. */
  predicate WellShaped(p: Params, t: Topology)
    requires p.Valid()
  {
    && 1 <= t.ngroups <= p.njobs
    && t.nthrPerGroup >= 1
    && t.ngroups * t.nthrPerGroup <= p.nthr
    && (!p.allowNthrInGroup ==> t.nthrPerGroup == 1)
    && t.njobsPerGroupUb == DivUp(p.njobs, t.ngroups)
  }

  lemma CandidateWellShaped(p: Params, c: nat)
    requires p.Valid() && 1 <= c <= p.njobs
    ensures WellShaped(p, Candidate(p, c))
  {
    var t := Candidate(p, c);
    var g := t.ngroups;
    DivMulLe(p.njobs, c);
    DivMulLe(p.nthr, g);
    assert t.nthrPerGroup <= p.nthr / g;
    MulLe(t.nthrPerGroup, p.nthr / g, g);
  }

  /** The initial guess never needs a reduction buffer: either one thread per group, or
      exactly one job per group. */
  lemma InitialGuessAdmissible(p: Params)
    requires p.Valid()
    ensures InitialGuess(p).nthrPerGroup == 1 || InitialGuess(p).njobsPerGroupUb == 1
    ensures Admissible(p, InitialGuess(p))
  {
    CandidateWellShaped(p, MinNjobsPerGroup(p));
    if InitialGuess(p).nthrPerGroup > 1 {
      InitialGuessShared(p);
    }
  }

  lemma InitialGuessShared(p: Params)
    requires p.Valid() && InitialGuess(p).nthrPerGroup > 1
    ensures InitialGuess(p).njobsPerGroupUb == 1
  {
    var g := InitialGuess(p).ngroups;
    assert p.nthr / g >= 2;
    SharedGuessGroups(p.njobs, p.nthr, MinNjobsPerGroup(p), g);
    DivUpSelf(p.njobs);
  }

  /** When the initial guess puts two threads or more in a group, there are fewer jobs
      than threads and every job gets a group of its own. */
  lemma SharedGuessGroups(njobs: nat, nthr: nat, m: nat, g: nat)
    requires njobs > 0 && nthr > 0 && m == Max(1, njobs / nthr)
    requires g == Min(njobs / m, nthr) && g > 0 && nthr / g >= 2
    ensures g == njobs
  {
    SharedOnlyIfFewer(nthr, g);
    if njobs >= nthr {
      EvenShareFillsThreads(njobs, nthr);
      assert false;
    }
  }

  lemma SharedOnlyIfFewer(nthr: nat, g: nat)
    requires g > 0 && nthr / g >= 2
    ensures g < nthr
  {
    DivMulLe(nthr, g);
    MulLe(2, nthr / g, g);
  }

  /** With at least as many jobs as threads, `njobs / (njobs / nthr)` groups are enough to
      give every thread a group of its own. */
  lemma EvenShareFillsThreads(njobs: nat, nthr: nat)
    requires 0 < nthr <= njobs
    ensures njobs / nthr >= 1
    ensures njobs / (njobs / nthr) >= nthr
  {
    var q := njobs / nthr;
    DivLowerBound(njobs, nthr, 1);
    DivMulLe(njobs, nthr);
    DivLowerBound(njobs, q, nthr);
  }

  lemma DivUpSelf(n: nat)
    requires n > 0
    ensures DivUp(n, n) == 1
  {
    var q := DivUp(n, n);
    if q >= 2 {
      MulLe(1, q - 1, n);
      assert false;
    }
  }

  /** The incumbent after any prefix of the scan is well shaped and admissible, and its
      bound is its cost (or the starting bound for the initial guess). */
  lemma {:induction false} ScanInvariant(p: Params, c: nat)
    requires p.Valid() && MinNjobsPerGroup(p) <= c <= p.njobs
    ensures WellShaped(p, Scan(p, c).0)
    ensures Admissible(p, Scan(p, c).0)
    ensures Scan(p, c).1 <= InitialBound(p)
    decreases c
  {
    if c == MinNjobsPerGroup(p) {
      CandidateWellShaped(p, c);
      InitialGuessAdmissible(p);
    } else {
      ScanInvariant(p, c - 1);
      CandidateWellShaped(p, c - 1);
    }
  }

  /** The invariants `balance()` asserts at its end (lines 92, 93 and 96), and the shape
      facts the reducers rely on. */
  lemma BalanceInvariants(p: Params)
    requires p.Valid()
    ensures var t := BalanceSpec(p);
            && t.ngroups * t.nthrPerGroup <= p.nthr
            && (!p.allowNthrInGroup ==> t.nthrPerGroup == 1)
            && (t.njobsPerGroupUb <= MaxNjobsPerGroup(p) || t.nthrPerGroup == 1)
            && WellShaped(p, t)
  {
    ScanInvariant(p, p.njobs);
  }

  /** The topology `balance()` picks is well shaped. */
  lemma BalancedShape(p: Params, t: Topology)
    requires p.Valid() && t == BalanceSpec(p)
    ensures WellShaped(p, t)
  {
    BalanceInvariants(p);
  }

  /** The byte bound of line 94: the reduction buffers of all threads fit the budget,
      provided the budget holds at least one job per thread. */
  lemma BalanceBufferFits(p: Params)
    requires p.Valid() && p.maxBufferSize >= p.nthr * p.jobSize
    ensures var t := BalanceSpec(p);
            t.nthrPerGroup == 1 || t.njobsPerGroupUb * p.jobSize * p.nthr <= p.maxBufferSize
  {
    BalanceInvariants(p);
    var t := BalanceSpec(p);
    if t.nthrPerGroup != 1 {
      BudgetBound(t.njobsPerGroupUb, p.jobSize, p.nthr, p.maxBufferSize);
    }
  }

  lemma BudgetBound(u: nat, jobSize: nat, nthr: nat, buf: nat)
    requires jobSize > 0 && nthr > 0 && buf >= nthr * jobSize
    requires u <= Max(1, buf / (nthr * jobSize))
    ensures u * jobSize * nthr <= buf
  {
    var d := nthr * jobSize;
    var q := buf / d;
    DivLowerBound(buf, d, 1);
    DivMulLe(buf, d);
    MulLe(u, q, d);
    assert u * jobSize * nthr == u * d;
  }

  /** Without that budget the byte bound of line 94 fails: `max(1, ...)` at line 54 admits
      one job per group for eight threads sharing a one-byte budget. */
  lemma BufferBoundNeedsBudget()
    ensures var p := Params(8, 1, 4, 2, 1, true);
            && p.Valid()
            && BalanceSpec(p) == Topology(4, 2, 1)
            && BalanceSpec(p).njobsPerGroupUb * p.jobSize * p.nthr > p.maxBufferSize
  {
    var p := Params(8, 1, 4, 2, 1, true);
    assert MinNjobsPerGroup(p) == 1;
    assert Candidate(p, 1) == Topology(4, 2, 1);
    assert Candidate(p, 2) == Topology(2, 2, 2);
    assert Candidate(p, 3) == Topology(1, 2, 4);
    assert Scan(p, 2) == (Topology(4, 2, 1), 2);
    assert Scan(p, 3) == Scan(p, 2);
  }

  /** The incumbent after `[min, c)` costs no more than any admissible candidate seen. */
  lemma {:induction false} ScanLowerBound(p: Params, c: nat)
    requires p.Valid() && MinNjobsPerGroup(p) <= c <= p.njobs
    ensures forall k :: (MinNjobsPerGroup(p) <= k < c
                         && Admissible(p, Candidate(p, k))) ==> Scan(p, c).1 <= CandidateCost(p, k)
    decreases c
  {
    if c > MinNjobsPerGroup(p) {
      ScanLowerBound(p, c - 1);
      ScanUnfold(p, c);
    }
  }

  /** The scan keeps the first candidate of strictly smallest cost: when the incumbent
      after `[min, c)` is a candidate, it beats the starting bound and every admissible
      candidate before it costs strictly more. */
  lemma {:induction false} ScanOptimal(p: Params, c: nat) returns (chosen: nat)
    requires p.Valid() && MinNjobsPerGroup(p) <= c <= p.njobs
    ensures var r := Scan(p, c);
            && (chosen == 0 ==> r == (InitialGuess(p), InitialBound(p)))
            && (chosen != 0 ==> MinNjobsPerGroup(p) <= chosen < c
                                && r.0 == Candidate(p, chosen) && r.1 == Cost(p, r.0)
                                && Admissible(p, r.0) && r.1 < InitialBound(p))
            && (forall k :: (MinNjobsPerGroup(p) <= k < chosen
                             && Admissible(p, Candidate(p, k))) ==> r.1 < CandidateCost(p, k))
    decreases c
  {
    if c == MinNjobsPerGroup(p) {
      chosen := 0;
    } else {
      var prevChosen := ScanOptimal(p, c - 1);
      ScanUnfold(p, c);
      if Admissible(p, Candidate(p, c - 1)) && CandidateCost(p, c - 1) < Scan(p, c - 1).1 {
        chosen := c - 1;
        ScanTakes(p, c);
      } else {
        chosen := prevChosen;
      }
    }
  }

  /** When the scan takes candidate `c - 1`, it beats every earlier admissible candidate
      and the starting bound. */
  lemma ScanTakes(p: Params, c: nat)
    requires p.Valid() && MinNjobsPerGroup(p) < c <= p.njobs
    requires Admissible(p, Candidate(p, c - 1)) && CandidateCost(p, c - 1) < Scan(p, c - 1).1
    ensures Scan(p, c) == (Candidate(p, c - 1), CandidateCost(p, c - 1))
    ensures CandidateCost(p, c - 1) < InitialBound(p)
    ensures forall k :: (MinNjobsPerGroup(p) <= k < c - 1
                         && Admissible(p, Candidate(p, k))) ==> CandidateCost(p, c - 1) < CandidateCost(p, k)
  {
    ScanUnfold(p, c);
    ScanInvariant(p, c - 1);
    ScanLowerBound(p, c - 1);
  }

  /** One step of the scan, with the candidate's cost named. */
  lemma ScanUnfold(p: Params, c: nat)
    requires p.Valid() && MinNjobsPerGroup(p) < c <= p.njobs
    ensures var prev := Scan(p, c - 1);
            var cand := Candidate(p, c - 1);
            Scan(p, c) == if Admissible(p, cand) && CandidateCost(p, c - 1) < prev.1
                          then (cand, CandidateCost(p, c - 1)) else prev
  {
  }

  /** `balance()`'s choice is either the initial guess, when no admissible candidate beats
      the starting bound, or the first admissible candidate of least cost. */
  lemma BalanceChoosesFirstCheapest(p: Params) returns (chosen: nat)
    requires p.Valid()
    ensures chosen == 0 ==> BalanceSpec(p) == InitialGuess(p)
    ensures chosen != 0 ==> && MinNjobsPerGroup(p) <= chosen < p.njobs
                            && BalanceSpec(p) == Candidate(p, chosen)
                            && Admissible(p, Candidate(p, chosen))
    ensures forall k :: (MinNjobsPerGroup(p) <= k < p.njobs
                         && Admissible(p, Candidate(p, k))) ==> Scan(p, p.njobs).1 <= CandidateCost(p, k)
    ensures chosen != 0 ==> Scan(p, p.njobs).1 == CandidateCost(p, chosen)
    ensures forall k :: (MinNjobsPerGroup(p) <= k < chosen
                         && Admissible(p, Candidate(p, k))) ==> CandidateCost(p, chosen) < CandidateCost(p, k)
  {
    chosen := ScanOptimal(p, p.njobs);
    ScanLowerBound(p, p.njobs);
  }

  /** The topology `balance()` considers for at least `c` jobs per group: as many groups
      as `c` divides into the jobs (at most one per thread), the threads shared out
      between the groups when the reduction may use them, and the jobs split evenly. */
  method CandidateOf(p: Params, c: nat) returns (t: Topology)
    requires p.Valid() && 1 <= c <= p.njobs
    ensures t == Candidate(p, c) && WellShaped(p, t)
  {
    CandidateWellShaped(p, c);
    var ngroups := Min(p.njobs / c, p.nthr);
    var nthrPerGroup := if p.allowNthrInGroup then Min(p.nthr / ngroups, p.reductionSize) else 1;
    t := Topology(ngroups, nthrPerGroup, DivUp(p.njobs, ngroups));
  }

  /** The cost `balance()` weighs a candidate by: the size of a group's data times the
      share of the reduction one of its threads does (plus one when several threads
      share it). */
  method CostOf(p: Params, t: Topology) returns (cost: nat)
    requires p.Valid() && t.nthrPerGroup > 0
    ensures cost == Cost(p, t)
  {
    var groupSizeUb := p.jobSize * t.njobsPerGroupUb;
    var threadReductionUb := DivUp(p.reductionSize, t.nthrPerGroup)
                             + (if t.nthrPerGroup != 1 then 1 else 0);
    cost := groupSizeUb * threadReductionUb;
  }

  /** `reduce_balancer_t`: the inputs are fixed at construction, `balance()` then sets the
      topology fields. */
  class ReduceBalancer {
    const nthr: nat
    const jobSize: nat
    const njobs: nat
    const reductionSize: nat
    const maxBufferSize: nat
    const allowNthrInGroup: bool

    var ngroups: nat
    var nthrPerGroup: nat
    var njobsPerGroupUb: nat

    function Inputs(): Params {
      Params(nthr, jobSize, njobs, reductionSize, maxBufferSize, allowNthrInGroup)
    }

    function Topo(): Topology
      reads this
    {
      Topology(ngroups, nthrPerGroup, njobsPerGroupUb)
    }

    constructor (nthr: nat, jobSize: nat, njobs: nat, reductionSize: nat,
                 maxBufferSize: nat, lockFree: bool)
      requires Params(nthr, jobSize, njobs, reductionSize, maxBufferSize, lockFree).Valid()
      ensures Inputs() == Params(nthr, jobSize, njobs, reductionSize, maxBufferSize, lockFree)
      ensures Topo() == BalanceSpec(Inputs())
    {
      this.nthr := nthr;
      this.jobSize := jobSize;
      this.njobs := njobs;
      this.reductionSize := reductionSize;
      this.maxBufferSize := maxBufferSize;
      this.allowNthrInGroup := lockFree;
      new;
      Balance();
    }

    /** `reduce_balancer_t::balance()`. */
    method Balance()
      requires Inputs().Valid()
      modifies this`ngroups, this`nthrPerGroup, this`njobsPerGroupUb
      ensures Topo() == BalanceSpec(Inputs())
    {
      var p := Inputs();
      var minNjobs: nat := Max(1, njobs / nthr);
      var maxNjobs: nat := Max(1, maxBufferSize / (nthr * jobSize));
      assert minNjobs == MinNjobsPerGroup(p) && maxNjobs == MaxNjobsPerGroup(p);

      // the initial guess
      var best := CandidateOf(p, minNjobs);
      var bound := InitialBound(p);

      for c := minNjobs to njobs
        invariant (best, bound) == Scan(p, c)
      {
        var cand := CandidateOf(p, c);
        if cand.nthrPerGroup > 1 && cand.njobsPerGroupUb > maxNjobs {
          continue;
        }
        var cost := CostOf(p, cand);
        if cost < bound {
          best, bound := cand, cost;
        }
      }

      ngroups, nthrPerGroup, njobsPerGroupUb := best.ngroups, best.nthrPerGroup, best.njobsPerGroupUb;
    }
  }

  // ---- thread-to-group helpers of `reduce_balancer_t` ----

  function GroupId(t: Topology, ithr: nat): nat
    requires t.nthrPerGroup > 0
  {
    ithr / t.nthrPerGroup
  }

  function IdInGroup(t: Topology, ithr: nat): nat
    requires t.nthrPerGroup > 0
  {
    ithr % t.nthrPerGroup
  }

  predicate Idle(t: Topology, ithr: nat) {
    ithr >= t.nthrPerGroup * t.ngroups
  }

  /** Jobs of group `grp`: the first `njobs % ngroups` groups take one more. */
  function GrpNjobs(p: Params, t: Topology, grp: nat): nat
    requires t.ngroups > 0
  {
    if grp >= t.ngroups then 0
    else p.njobs / t.ngroups + (if grp < p.njobs % t.ngroups then 1 else 0)
  }

  function GrpJobOff(p: Params, t: Topology, grp: nat): nat
    requires t.ngroups > 0
  {
    if grp >= t.ngroups then p.njobs
    else p.njobs / t.ngroups * grp + Min(grp, p.njobs % t.ngroups)
  }

  /** `space_per_thread`: one scratch slot holds the jobs of a group. */
  function SpacePerThread(p: Params, t: Topology): nat {
    t.njobsPerGroupUb * p.jobSize
  }

  /** A working thread belongs to an existing group, and that group's jobs are a
      non-empty range of `[0, njobs)` that fits one scratch slot. */
  lemma GroupJobsFit(p: Params, t: Topology, ithr: nat)
    requires p.Valid() && WellShaped(p, t) && !Idle(t, ithr)
    ensures GroupId(t, ithr) < t.ngroups
    ensures IdInGroup(t, ithr) < t.nthrPerGroup
    ensures 1 <= GrpNjobs(p, t, GroupId(t, ithr)) <= t.njobsPerGroupUb
    ensures GrpJobOff(p, t, GroupId(t, ithr)) + GrpNjobs(p, t, GroupId(t, ithr)) <= p.njobs
  {
    var g := GroupId(t, ithr);
    WorkingThreadHasGroup(t.ngroups, t.nthrPerGroup, ithr);
    GroupShare(p.njobs, t.ngroups, g);
    DivUpVsDiv(p.njobs, t.ngroups);
  }

  lemma WorkingThreadHasGroup(ngroups: nat, nthrPerGroup: nat, ithr: nat)
    requires nthrPerGroup > 0 && ithr < nthrPerGroup * ngroups
    ensures ithr / nthrPerGroup < ngroups
  {
    var g := ithr / nthrPerGroup;
    if g >= ngroups {
      assert false;
    }
  }

  /** Group `g` of `n` owns `q` or `q + 1` jobs starting at `q * g + min(g, r)`; they end
      within `njobs`. */
  lemma GroupShare(njobs: nat, n: nat, g: nat)
    requires 0 < n <= njobs && g < n
    ensures njobs / n >= 1
    ensures njobs / n * g + Min(g, njobs % n) + njobs / n + (if g < njobs % n then 1 else 0) <= njobs
  {
    var q := njobs / n;
    var r := njobs % n;
    assert njobs == q * n + r;
    DivLowerBound(njobs, n, 1);
    MulLe(g + 1, n, q);
    assert q * g + q == q * (g + 1);
  }

  /** The groups' job ranges follow one another: group `g + 1` starts where group `g`
      ends, group 0 starts at 0 and the last group ends at `njobs`. */
  lemma GroupJobsContiguous(p: Params, t: Topology, g: nat)
    requires p.Valid() && WellShaped(p, t) && g < t.ngroups
    ensures g == 0 ==> GrpJobOff(p, t, g) == 0
    ensures GrpJobOff(p, t, g) + GrpNjobs(p, t, g) == GrpJobOff(p, t, g + 1)
  {
    var n := t.ngroups;
    var q := p.njobs / n;
    var r := p.njobs % n;
    assert p.njobs == q * n + r;
    if g + 1 == n {
      assert q * g + q == q * n;
    } else {
      assert q * (g + 1) == q * g + q;
    }
  }
}
