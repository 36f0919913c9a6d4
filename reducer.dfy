/** `cpu_reducer_t`: the 1-D reduction. The threads of a group each hold a partial
    result for the group's jobs: the group's first thread (its leader) writes straight
    into the destination, every other thread into its own slot of the reduction space.
    `reduce_nolock` then has each thread of the group add the followers' slots into the
    leader's destination, over its own cache-line-aligned stretch of the group's data. */
module CpuReducer {
  import opened IntUtil
  import opened Options
  import opened ReduceBalance
  import opened ReduceDriver

  /** `64 / sizeof(data_t)`: the elements of one 64-byte cache line (`TYPESIZE` is 4). */
  const CACHE_LINE: nat := 16

  /** What a reducer books in the scratchpad: reduction-space elements and barrier
      contexts. */
  datatype Booking = Booking(spaceElems: nat, barriers: nat)

  /** Where `get_local_ptr` points: into the destination or into the reduction space. */
  datatype Loc = InDst(off: nat) | InSpace(off: nat)

  /** `conf_t::init_scratchpad`: nothing to book with one thread per group; otherwise a
      slot of `space_per_thread` elements for every non-leader thread of every group, and
      one barrier per group. */
  function InitScratchpad(p: Params, t: Topology): (b: Option<Booking>)
    requires t.ngroups > 0 && t.nthrPerGroup > 0
    ensures b.None? <==> t.nthrPerGroup == 1
    ensures b.Some? ==> b.value.barriers == t.ngroups
  {
    if t.nthrPerGroup == 1 then None
    else Some(Booking(t.ngroups * (t.nthrPerGroup - 1) * SpacePerThread(p, t), t.ngroups))
  }

  /** `get_local_ptr(ithr, dst, scratchpad)`: a leader's partial result is the
      destination at its group's first job; follower `id` of group `g` owns slot
      `g * (nthr_per_group - 1) + id - 1`. */
  function GetLocalPtr(p: Params, t: Topology, ithr: nat): Loc
    requires t.ngroups > 0 && t.nthrPerGroup > 0
  {
    var id := IdInGroup(t, ithr);
    if id == 0 then InDst(LeaderBase(p, t, GroupId(t, ithr)))
    else InSpace(SlotIndex(t, ithr) * SpacePerThread(p, t))
  }

  /** The slot number of a follower. */
  function SlotIndex(t: Topology, ithr: nat): nat
    requires t.nthrPerGroup > 0 && IdInGroup(t, ithr) > 0
  {
    var others: nat := t.nthrPerGroup - 1;
    var before: nat := GroupId(t, ithr) * others;
    before + (IdInGroup(t, ithr) - 1)
  }

  /** The global number of thread `id` of group `grp`. */
  function ThreadOf(t: Topology, grp: nat, id: nat): nat
  {
    grp * t.nthrPerGroup + id
  }

  /** Thread `id` of group `grp` is thread `grp * nthr_per_group + id`. */
  lemma ThreadOfGroup(t: Topology, grp: nat, id: nat)
    requires id < t.nthrPerGroup
    ensures GroupId(t, grp * t.nthrPerGroup + id) == grp
    ensures IdInGroup(t, grp * t.nthrPerGroup + id) == id
    ensures grp < t.ngroups ==> !Idle(t, grp * t.nthrPerGroup + id)
  {
    DivModOf(grp, t.nthrPerGroup, id);
    if grp < t.ngroups {
      MulLe(grp + 1, t.ngroups, t.nthrPerGroup);
    }
  }

  /** Different threads differ in their group or in their place in it. */
  lemma ThreadsDiffer(t: Topology, a: nat, b: nat)
    requires t.nthrPerGroup > 0 && a != b
    ensures GroupId(t, a) != GroupId(t, b) || IdInGroup(t, a) != IdInGroup(t, b)
  {
    assert a == GroupId(t, a) * t.nthrPerGroup + IdInGroup(t, a);
    assert b == GroupId(t, b) * t.nthrPerGroup + IdInGroup(t, b);
  }

  /** Different (quotient, remainder) pairs give different numbers. */
  lemma PairInjective(m: nat, ga: nat, ia: nat, gb: nat, ib: nat)
    requires m > 0 && ia < m && ib < m && (ga != gb || ia != ib)
    ensures ga * m + ia != gb * m + ib
  {
    if ga * m + ia == gb * m + ib {
      DivModOf(ga, m, ia);
      DivModOf(gb, m, ib);
    }
  }

  /** A stretch of `lx` scaled elements from `x` ends where the stretch from `y` starts, or
      before, when `x + lx <= y`. */
  lemma ScaledBefore(x: nat, lx: nat, y: nat, c: nat)
    requires x + lx <= y
    ensures x * c + lx * c <= y * c
  {
    MulLe(x + lx, y, c);
    assert (x + lx) * c == x * c + lx * c;
  }

  /** Slot `i` of group `g`, `m` slots per group and `c` elements per slot, ends within
      the `n * m * c` elements of `n` groups. */
  lemma SlotFits(g: nat, n: nat, m: nat, i: nat, c: nat)
    requires g < n && i < m
    ensures (g * m + i) * c + c <= n * m * c
  {
    MulLe(g + 1, n, m);
    assert g * m + i + 1 <= (g + 1) * m;
    ScaledBefore(g * m + i, 1, n * m, c);
  }

  /** Two different followers' slots do not overlap. */
  lemma FollowerSlotsDisjoint(p: Params, t: Topology, a: nat, b: nat)
    requires t.ngroups > 0 && t.nthrPerGroup > 0
    requires a != b && IdInGroup(t, a) > 0 && IdInGroup(t, b) > 0
    ensures GetLocalPtr(p, t, a).InSpace? && GetLocalPtr(p, t, b).InSpace?
    ensures GetLocalPtr(p, t, a).off + SpacePerThread(p, t) <= GetLocalPtr(p, t, b).off
         || GetLocalPtr(p, t, b).off + SpacePerThread(p, t) <= GetLocalPtr(p, t, a).off
  {
    var sa := SlotIndex(t, a);
    var sb := SlotIndex(t, b);
    ThreadsDiffer(t, a, b);
    PairInjective(t.nthrPerGroup - 1, GroupId(t, a), IdInGroup(t, a) - 1,
                  GroupId(t, b), IdInGroup(t, b) - 1);
    var spt := SpacePerThread(p, t);
    if sa < sb {
      ScaledBefore(sa, 1, sb, spt);
    } else {
      ScaledBefore(sb, 1, sa, spt);
    }
  }

  /** A working follower's slot lies within the booked reduction space. */
  lemma FollowerSlotInBooking(p: Params, t: Topology, ithr: nat)
    requires t.ngroups > 0 && t.nthrPerGroup > 0
    requires !Idle(t, ithr) && IdInGroup(t, ithr) > 0
    ensures InitScratchpad(p, t).Some?
    ensures GetLocalPtr(p, t, ithr).InSpace?
    ensures GetLocalPtr(p, t, ithr).off + SpacePerThread(p, t)
            <= InitScratchpad(p, t).value.spaceElems
  {
    WorkingThreadHasGroup(t.ngroups, t.nthrPerGroup, ithr);
    SlotFits(GroupId(t, ithr), t.ngroups, t.nthrPerGroup - 1, IdInGroup(t, ithr) - 1,
             SpacePerThread(p, t));
  }

  /** The leaders of two different groups write disjoint stretches of the destination,
      each within its `njobs * job_size` elements. */
  lemma LeaderRangesDisjoint(p: Params, t: Topology, a: nat, b: nat)
    requires p.Valid() && WellShaped(p, t)
    requires !Idle(t, a) && !Idle(t, b) && GroupId(t, a) < GroupId(t, b)
    requires IdInGroup(t, a) == 0 && IdInGroup(t, b) == 0
    ensures GetLocalPtr(p, t, a).InDst? && GetLocalPtr(p, t, b).InDst?
    ensures GetLocalPtr(p, t, a).off + ReductionSize(p, t, GroupId(t, a))
            <= GetLocalPtr(p, t, b).off
    ensures GetLocalPtr(p, t, b).off + ReductionSize(p, t, GroupId(t, b))
            <= p.njobs * p.jobSize
  {
    var ga := GroupId(t, a);
    var gb := GroupId(t, b);
    GroupJobsFit(p, t, b);
    GroupJobOffMonotone(p, t, ga, gb);
    ScaledBefore(GrpJobOff(p, t, ga), GrpNjobs(p, t, ga), GrpJobOff(p, t, gb), p.jobSize);
    ScaledBefore(GrpJobOff(p, t, gb), GrpNjobs(p, t, gb), p.njobs, p.jobSize);
  }

  lemma {:induction false} GroupJobOffMonotone(p: Params, t: Topology, ga: nat, gb: nat)
    requires p.Valid() && WellShaped(p, t) && ga < gb < t.ngroups
    ensures GrpJobOff(p, t, ga) + GrpNjobs(p, t, ga) <= GrpJobOff(p, t, gb)
    decreases gb - ga
  {
    GroupJobsContiguous(p, t, ga);
    if ga + 1 < gb {
      GroupJobsContiguous(p, t, ga + 1);
      GroupJobOffMonotone(p, t, ga + 1, gb);
    }
  }

  /** The driver the reducer builds: the `nthr_per_group - 1` follower slots are the
      sources, `space_per_thread` apart, added into the loaded destination. */
  function DrvConfig(p: Params, t: Topology): DriverConfig
    requires t.nthrPerGroup > 0
  {
    DriverConfig(t.nthrPerGroup - 1, SpacePerThread(p, t), 0, 0, false)
  }

  /** Where group `grp`'s leader writes, and where its first follower's slot starts. */
  function LeaderBase(p: Params, t: Topology, grp: nat): nat
    requires t.ngroups > 0
  {
    GrpJobOff(p, t, grp) * p.jobSize
  }

  function FollowerBase(p: Params, t: Topology, grp: nat): nat
    requires t.nthrPerGroup > 0
  {
    var others: nat := t.nthrPerGroup - 1;
    var before: nat := grp * others;
    before * SpacePerThread(p, t)
  }

  /** The elements a group reduces: its jobs times the job size. */
  function ReductionSize(p: Params, t: Topology, grp: nat): nat
    requires t.ngroups > 0
  {
    GrpNjobs(p, t, grp) * p.jobSize
  }

  /** The stretch `[lo, hi)` of its group's data that thread `ithr` reduces: its
      `balance211` share of the group's cache lines, clipped to the data. */
  function ThreadSlice(p: Params, t: Topology, ithr: nat): (nat, nat)
    requires t.ngroups > 0 && t.nthrPerGroup > 0
  {
    var id := IdInGroup(t, ithr);
    var rs := ReductionSize(p, t, GroupId(t, ithr));
    var se := Balance211(DivUp(rs, CACHE_LINE), t.nthrPerGroup, id);
    (Min(se.0 * CACHE_LINE, rs), Min(se.1 * CACHE_LINE, rs))
  }

  /** The reduction of `reduce_nolock` is skipped for single-thread groups and idle
      threads. */
  predicate Redundant(t: Topology, ithr: nat) {
    t.nthrPerGroup == 1 || Idle(t, ithr)
  }

  /** What `reduce_nolock(ithr)` leaves in the destination `d`: a redundant thread changes
      nothing; any other thread adds the followers' slots into its own stretch of its
      group's data and leaves everything else as it was. */
  function NolockSpec(p: Params, t: Topology, ithr: nat, d: seq<Elem>, sp: seq<Elem>): (r: seq<Elem>)
    requires t.ngroups > 0 && t.nthrPerGroup > 0
    ensures |r| == |d|
  {
    if Redundant(t, ithr) then d
    else
      var grp := GroupId(t, ithr);
      RowSpec(DrvConfig(p, t), d, sp, LeaderBase(p, t, grp), FollowerBase(p, t, grp),
              ThreadSlice(p, t, ithr).0, ThreadSlice(p, t, ithr).1)
  }

  /** The reference reduction (the `SIMPLE_IMPL` branch): the leader of `grp` adds, one
      follower after the other, each follower's partial result (found through
      `get_local_ptr`) into every element of the group's data. */
  function SimpleReduce(p: Params, t: Topology, grp: nat, d: seq<Elem>, sp: seq<Elem>): (r: seq<Elem>)
    requires t.ngroups > 0 && t.nthrPerGroup > 0
    ensures |r| == |d|
  {
    var base := LeaderBase(p, t, grp);
    seq(|d|, j requires 0 <= j < |d| =>
      if base <= j < base + ReductionSize(p, t, grp)
      then FollowersSum(p, t, grp, d[j], sp, j - base, 1)
      else d[j])
  }

  /** `acc` plus element `i` of the partial results of followers `id, id + 1, ...`. */
  function FollowersSum(p: Params, t: Topology, grp: nat, acc: Elem, sp: seq<Elem>, i: nat, id: nat): Elem
    requires t.ngroups > 0 && t.nthrPerGroup > 0
    decreases t.nthrPerGroup - id
  {
    if id >= t.nthrPerGroup then acc
    else
      var l := GetLocalPtr(p, t, grp * t.nthrPerGroup + id);
      FollowersSum(p, t, grp, Add(acc, Get(sp, l.off + i)), sp, i, id + 1)
  }

  /** The followers' slots, walked through `get_local_ptr`, are the driver's sources: one
      slot after the other, `space_per_thread` apart, starting at the first follower's. */
  lemma {:induction false} FollowersSumIsStrided(p: Params, t: Topology, grp: nat, acc: Elem,
                                                 sp: seq<Elem>, i: nat, id: nat)
    requires p.Valid() && WellShaped(p, t) && 1 <= id <= t.nthrPerGroup
    ensures FollowersSum(p, t, grp, acc, sp, i, id)
            == SrcSum(acc, sp, FollowerBase(p, t, grp) + (id - 1) * SpacePerThread(p, t) + i,
                      SpacePerThread(p, t), t.nthrPerGroup - id)
    decreases t.nthrPerGroup - id
  {
    var k := t.nthrPerGroup;
    var spt := SpacePerThread(p, t);
    if id < k {
      var off := FollowerBase(p, t, grp) + (id - 1) * spt;
      FollowerOffset(p, t, grp, id);
      FollowersSumIsStrided(p, t, grp, Add(acc, Get(sp, off + i)), sp, i, id + 1);
      NextStride(FollowerBase(p, t, grp), spt, id, i);
    }
  }

  /** Follower `id` of a group has the slot `id - 1` places after the group's first. */
  lemma FollowerOffset(p: Params, t: Topology, grp: nat, id: nat)
    requires p.Valid() && WellShaped(p, t) && 1 <= id < t.nthrPerGroup
    ensures GetLocalPtr(p, t, grp * t.nthrPerGroup + id).off
            == FollowerBase(p, t, grp) + (id - 1) * SpacePerThread(p, t)
  {
    ThreadOfGroup(t, grp, id);
    var k, spt := t.nthrPerGroup, SpacePerThread(p, t);
    assert (grp * (k - 1) + (id - 1)) * spt == (grp * (k - 1) + 0) * spt + (id - 1) * spt;
  }

  /** One slot further on is one stride further on. */
  lemma NextStride(base: nat, spt: nat, id: nat, i: nat)
    requires id >= 1
    ensures base + (id - 1) * spt + i + spt == base + id * spt + i
  {
  }

  /** The share boundaries of a group's threads: thread `id` reduces `[Done(id), Done(id + 1))`. */
  function Done(p: Params, t: Topology, grp: nat, id: nat): nat
    requires t.ngroups > 0 && t.nthrPerGroup > 0 && id <= t.nthrPerGroup
  {
    var rs := ReductionSize(p, t, grp);
    if id == t.nthrPerGroup then rs
    else Min(Balance211(DivUp(rs, CACHE_LINE), t.nthrPerGroup, id).0 * CACHE_LINE, rs)
  }

  /** The threads' stretches tile the group's data in thread order. */
  lemma ThreadSlicesTile(p: Params, t: Topology, grp: nat, id: nat)
    requires p.Valid() && WellShaped(p, t) && grp < t.ngroups && id < t.nthrPerGroup
    ensures Done(p, t, grp, 0) == 0
    ensures ThreadSlice(p, t, grp * t.nthrPerGroup + id)
            == (Done(p, t, grp, id), Done(p, t, grp, id + 1))
    ensures Done(p, t, grp, id) <= Done(p, t, grp, id + 1)
  {
    var k := t.nthrPerGroup;
    var rs := ReductionSize(p, t, grp);
    var n := DivUp(rs, CACHE_LINE);
    ThreadOfGroup(t, grp, id);
    Balance211Contract(n, k, 0);
    Balance211Contract(n, k, id);
    if id + 1 == k {
      assert n * CACHE_LINE >= rs;
    }
    MulLe(Balance211(n, k, id).0, Balance211(n, k, id).1, CACHE_LINE);
  }

  /** `cpu_reducer_t`: the configuration's balancer and, for groups of more than one
      thread, the driver. */
  class Reducer {
    const p: Params
    const t: Topology
    const drv: Driver?

    predicate Valid() {
      && p.Valid() && WellShaped(p, t)
      && (t.nthrPerGroup == 1 <==> drv == null)
      && (drv != null ==> drv.Config() == DrvConfig(p, t))
    }

    constructor (b: ReduceBalancer)
      requires b.Inputs().Valid() && b.Topo() == BalanceSpec(b.Inputs())
      ensures Valid() && p == b.Inputs() && t == b.Topo()
    {
      BalanceInvariants(b.Inputs());
      p := b.Inputs();
      t := b.Topo();
      if b.nthrPerGroup == 1 {
        drv := null;
      } else {
        drv := new Driver(b.nthrPerGroup - 1, b.njobsPerGroupUb * b.jobSize, 0, 0, false);
      }
    }

    /** `reduce_nolock(ithr, dst, scratchpad)`: thread `ithr` adds the followers' slots
        into its stretch of its group's destination. */
    method ReduceNolock(ithr: nat, dst: array<Elem>, space: array<Elem>)
      requires Valid() && dst != space
      requires dst.Length >= p.njobs * p.jobSize
      requires t.nthrPerGroup > 1 ==> space.Length >= InitScratchpad(p, t).value.spaceElems
      modifies dst
      ensures dst[..] == NolockSpec(p, t, ithr, old(dst[..]), space[..])
    {
      if t.nthrPerGroup == 1 || Idle(t, ithr) {
        return;
      }
      var id := IdInGroup(t, ithr);
      var grp := GroupId(t, ithr);
      var cl := CACHE_LINE;
      var rs := ReductionSize(p, t, grp);
      var se := Balance211(DivUp(rs, cl), t.nthrPerGroup, id);
      var start, end := se.0, se.1;
      if start == end {
        NolockEmpty(p, t, ithr, old(dst[..]), space[..]);
        return;
      }
      NolockPlan(p, t, ithr, dst.Length, space.Length);
      var d := GetLocalPtr(p, t, ithr - id);
      var sp := GetLocalPtr(p, t, ithr - id + 1);
      var len := Min(end * cl, rs) - start * cl;
      drv.Run(dst, d.off + start * cl, space, sp.off + start * cl, 1, len);
      NolockEffect(p, t, ithr, drv.Config(), old(dst[..]), space[..], d.off + start * cl,
                   sp.off + start * cl, len, dst[..]);
    }
  }

  /** Thread `id` of a group extends the reduced prefix of the group's data by its own
      stretch. */
  lemma GroupStep(p: Params, t: Topology, grp: nat, id: nat, d0: seq<Elem>,
                  before: seq<Elem>, sp: seq<Elem>, after: seq<Elem>)
    requires p.Valid() && WellShaped(p, t) && t.nthrPerGroup > 1
    requires grp < t.ngroups && id < t.nthrPerGroup
    requires before == RowSpec(DrvConfig(p, t), d0, sp, LeaderBase(p, t, grp),
                               FollowerBase(p, t, grp), 0, Done(p, t, grp, id))
    requires after == NolockSpec(p, t, ThreadOf(t, grp, id), before, sp)
    ensures after
            == RowSpec(DrvConfig(p, t), d0, sp, LeaderBase(p, t, grp),
                       FollowerBase(p, t, grp), 0, Done(p, t, grp, id + 1))
  {
    ThreadOfGroup(t, grp, id);
    ThreadSlicesTile(p, t, grp, id);
    RowSpecSplit(DrvConfig(p, t), d0, sp, LeaderBase(p, t, grp), FollowerBase(p, t, grp),
                 0, Done(p, t, grp, id), Done(p, t, grp, id + 1));
  }

  /** The destination after threads `0 .. n - 1` of group `grp` have each run
      `reduce_nolock`, in that order. */
  function AfterThreads(p: Params, t: Topology, grp: nat, d0: seq<Elem>, sp: seq<Elem>, n: nat): (r: seq<Elem>)
    requires t.ngroups > 0 && t.nthrPerGroup > 0
    ensures |r| == |d0|
    decreases n
  {
    if n == 0 then d0
    else NolockSpec(p, t, ThreadOf(t, grp, n - 1), AfterThreads(p, t, grp, d0, sp, n - 1), sp)
  }

  lemma AfterThreadsStep(p: Params, t: Topology, grp: nat, d0: seq<Elem>, sp: seq<Elem>, n: nat)
    requires t.ngroups > 0 && t.nthrPerGroup > 0 && n > 0
    ensures AfterThreads(p, t, grp, d0, sp, n)
            == NolockSpec(p, t, ThreadOf(t, grp, n - 1), AfterThreads(p, t, grp, d0, sp, n - 1), sp)
  {
  }

  /** After the first `n` threads of a group, the group's data is reduced up to where
      thread `n`'s stretch begins. */
  lemma {:induction false} AfterThreadsPrefix(p: Params, t: Topology, grp: nat, d0: seq<Elem>,
                                              sp: seq<Elem>, n: nat)
    requires p.Valid() && WellShaped(p, t) && t.nthrPerGroup > 1
    requires grp < t.ngroups && n <= t.nthrPerGroup
    ensures AfterThreads(p, t, grp, d0, sp, n)
            == RowSpec(DrvConfig(p, t), d0, sp, LeaderBase(p, t, grp), FollowerBase(p, t, grp),
                       0, Done(p, t, grp, n))
    decreases n
  {
    if n == 0 {
      ThreadSlicesTile(p, t, grp, 0);
    } else {
      var prev := AfterThreads(p, t, grp, d0, sp, n - 1);
      AfterThreadsPrefix(p, t, grp, d0, sp, n - 1);
      var cur := AfterThreads(p, t, grp, d0, sp, n);
      AfterThreadsStep(p, t, grp, d0, sp, n);
      GroupStep(p, t, grp, n - 1, d0, prev, sp, cur);
    }
  }

  /** Once every thread of a group has run `reduce_nolock`, the group's data holds what
      the reference reduction computes. */
  lemma GroupReduces(p: Params, t: Topology, grp: nat, d0: seq<Elem>, sp: seq<Elem>)
    requires p.Valid() && WellShaped(p, t) && t.nthrPerGroup > 1 && grp < t.ngroups
    ensures AfterThreads(p, t, grp, d0, sp, t.nthrPerGroup) == SimpleReduce(p, t, grp, d0, sp)
  {
    AfterThreadsPrefix(p, t, grp, d0, sp, t.nthrPerGroup);
    SimpleReduceIsDriven(p, t, grp, d0, sp, AfterThreads(p, t, grp, d0, sp, t.nthrPerGroup));
  }

  /** `reduce_nolock` needs no lock: two working threads write disjoint stretches, so
      their reductions give the same destination in either order. */
  lemma NolockCommutes(p: Params, t: Topology, a: nat, b: nat, d: seq<Elem>, sp: seq<Elem>)
    requires p.Valid() && WellShaped(p, t) && a != b
    ensures NolockSpec(p, t, a, NolockSpec(p, t, b, d, sp), sp)
            == NolockSpec(p, t, b, NolockSpec(p, t, a, d, sp), sp)
  {
    if !Redundant(t, a) && !Redundant(t, b) {
      var ga, gb := GroupId(t, a), GroupId(t, b);
      SlicesApart(p, t, a, b);
      RowSpecCommute(DrvConfig(p, t), d, sp,
                     LeaderBase(p, t, ga), FollowerBase(p, t, ga), ThreadSlice(p, t, a).0, ThreadSlice(p, t, a).1,
                     LeaderBase(p, t, gb), FollowerBase(p, t, gb), ThreadSlice(p, t, b).0, ThreadSlice(p, t, b).1);
    }
  }

  /** The stretches of two different working threads do not overlap. */
  lemma SlicesApart(p: Params, t: Topology, a: nat, b: nat)
    requires p.Valid() && WellShaped(p, t) && a != b && !Redundant(t, a) && !Redundant(t, b)
    ensures var la, lb := LeaderBase(p, t, GroupId(t, a)), LeaderBase(p, t, GroupId(t, b));
            || la + ThreadSlice(p, t, a).1 <= lb + ThreadSlice(p, t, b).0
            || lb + ThreadSlice(p, t, b).1 <= la + ThreadSlice(p, t, a).0
  {
    if GroupId(t, a) == GroupId(t, b) {
      ThreadsDiffer(t, a, b);
      if IdInGroup(t, a) < IdInGroup(t, b) {
        SliceOrder(p, t, a, b);
      } else {
        SliceOrder(p, t, b, a);
      }
    } else if GroupId(t, a) < GroupId(t, b) {
      SlicesOfGroups(p, t, a, b);
    } else {
      SlicesOfGroups(p, t, b, a);
    }
  }

  /** Within a group, an earlier thread's stretch ends before a later thread's begins. */
  lemma SliceOrder(p: Params, t: Topology, a: nat, b: nat)
    requires p.Valid() && WellShaped(p, t) && !Redundant(t, a) && !Redundant(t, b)
    requires GroupId(t, a) == GroupId(t, b) && IdInGroup(t, a) < IdInGroup(t, b)
    ensures ThreadSlice(p, t, a).1 <= ThreadSlice(p, t, b).0
  {
    var rs := ReductionSize(p, t, GroupId(t, a));
    var n := DivUp(rs, CACHE_LINE);
    Balance211Ordered(n, t.nthrPerGroup, IdInGroup(t, a), IdInGroup(t, b));
    MulLe(Balance211(n, t.nthrPerGroup, IdInGroup(t, a)).1,
          Balance211(n, t.nthrPerGroup, IdInGroup(t, b)).0, CACHE_LINE);
  }

  /** A stretch of an earlier group's data ends before any stretch of a later group's. */
  lemma SlicesOfGroups(p: Params, t: Topology, a: nat, b: nat)
    requires p.Valid() && WellShaped(p, t) && !Redundant(t, a) && !Redundant(t, b)
    requires GroupId(t, a) < GroupId(t, b)
    ensures LeaderBase(p, t, GroupId(t, a)) + ThreadSlice(p, t, a).1
            <= LeaderBase(p, t, GroupId(t, b)) + ThreadSlice(p, t, b).0
  {
    var ga, gb := GroupId(t, a), GroupId(t, b);
    WorkingThreadHasGroup(t.ngroups, t.nthrPerGroup, a);
    WorkingThreadHasGroup(t.ngroups, t.nthrPerGroup, b);
    ThreadOfGroup(t, ga, 0);
    ThreadOfGroup(t, gb, 0);
    LeaderRangesDisjoint(p, t, ga * t.nthrPerGroup, gb * t.nthrPerGroup);
  }

  /** A thread whose share of cache lines is empty changes nothing. */
  lemma NolockEmpty(p: Params, t: Topology, ithr: nat, d0: seq<Elem>, sp: seq<Elem>)
    requires p.Valid() && WellShaped(p, t) && !Redundant(t, ithr)
    requires var rs := ReductionSize(p, t, GroupId(t, ithr));
             var se := Balance211(DivUp(rs, CACHE_LINE), t.nthrPerGroup, IdInGroup(t, ithr));
             se.0 == se.1
    ensures NolockSpec(p, t, ithr, d0, sp) == d0
  {
  }

  /** What a working thread with a non-empty share hands the driver: the leader's and
      the first follower's data at the share's first cache line, and a row that fits
      the destination and the booked space. */
  lemma NolockPlan(p: Params, t: Topology, ithr: nat, dLen: nat, sLen: nat)
    requires p.Valid() && WellShaped(p, t) && !Redundant(t, ithr)
    requires dLen >= p.njobs * p.jobSize
    requires sLen >= InitScratchpad(p, t).value.spaceElems
    requires var rs := ReductionSize(p, t, GroupId(t, ithr));
             var se := Balance211(DivUp(rs, CACHE_LINE), t.nthrPerGroup, IdInGroup(t, ithr));
             se.0 != se.1
    ensures var grp, id := GroupId(t, ithr), IdInGroup(t, ithr);
            && GetLocalPtr(p, t, ithr - id) == InDst(LeaderBase(p, t, grp))
            && GetLocalPtr(p, t, ithr - id + 1) == InSpace(FollowerBase(p, t, grp))
    ensures var grp, id := GroupId(t, ithr), IdInGroup(t, ithr);
            var rs := ReductionSize(p, t, grp);
            var se := Balance211(DivUp(rs, CACHE_LINE), t.nthrPerGroup, id);
            && se.0 * CACHE_LINE <= Min(se.1 * CACHE_LINE, rs)
            && RowsFit(DrvConfig(p, t), dLen, sLen,
                       LeaderBase(p, t, grp) + se.0 * CACHE_LINE,
                       FollowerBase(p, t, grp) + se.0 * CACHE_LINE, 1,
                       Min(se.1 * CACHE_LINE, rs) - se.0 * CACHE_LINE)
  {
    var grp, id := GroupId(t, ithr), IdInGroup(t, ithr);
    var rs := ReductionSize(p, t, grp);
    LeaderAndFirstFollower(p, t, ithr);
    GroupJobsFit(p, t, ithr);
    Balance211Contract(DivUp(rs, CACHE_LINE), t.nthrPerGroup, id);
    var se := Balance211(DivUp(rs, CACHE_LINE), t.nthrPerGroup, id);
    NolockFits(p, t, grp, se.0, se.1, dLen, sLen);
  }

  /** The one row `reduce_nolock` hands the driver is the thread's stretch of its group's
      data. */
  lemma NolockEffect(p: Params, t: Topology, ithr: nat, cfg: DriverConfig, d0: seq<Elem>, sp: seq<Elem>,
                     dAt: nat, sAt: nat, len: nat, after: seq<Elem>)
    requires p.Valid() && WellShaped(p, t) && !Redundant(t, ithr)
    requires cfg == DrvConfig(p, t)
    requires var rs := ReductionSize(p, t, GroupId(t, ithr));
             var se := Balance211(DivUp(rs, CACHE_LINE), t.nthrPerGroup, IdInGroup(t, ithr));
             && se.0 < se.1
             && len == Min(se.1 * CACHE_LINE, rs) - se.0 * CACHE_LINE
             && dAt == LeaderBase(p, t, GroupId(t, ithr)) + se.0 * CACHE_LINE
             && sAt == FollowerBase(p, t, GroupId(t, ithr)) + se.0 * CACHE_LINE
    requires after == DriveSpec(cfg, d0, sp, dAt, sAt, 1, len)
    ensures after == NolockSpec(p, t, ithr, d0, sp)
  {
    var grp := GroupId(t, ithr);
    var rs := ReductionSize(p, t, grp);
    var se := Balance211(DivUp(rs, CACHE_LINE), t.nthrPerGroup, IdInGroup(t, ithr));
    GroupJobsFit(p, t, ithr);
    Balance211Contract(DivUp(rs, CACHE_LINE), t.nthrPerGroup, IdInGroup(t, ithr));
    ClipSlice(rs, CACHE_LINE, se.0, se.1);
    RowSpecShift(DrvConfig(p, t), d0, sp, LeaderBase(p, t, grp), FollowerBase(p, t, grp),
                 se.0 * CACHE_LINE, len);
  }

  /** Thread `ithr - id_in_group` is its group's leader, and the next thread the group's
      first follower. */
  lemma LeaderAndFirstFollower(p: Params, t: Topology, ithr: nat)
    requires t.ngroups > 0 && t.nthrPerGroup > 1
    ensures var grp := GroupId(t, ithr);
            var id := IdInGroup(t, ithr);
            && ithr - id == grp * t.nthrPerGroup
            && GetLocalPtr(p, t, ithr - id) == InDst(LeaderBase(p, t, grp))
            && GetLocalPtr(p, t, ithr - id + 1) == InSpace(FollowerBase(p, t, grp))
  {
    var grp := GroupId(t, ithr);
    assert ithr == grp * t.nthrPerGroup + IdInGroup(t, ithr);
    ThreadOfGroup(t, grp, 0);
    ThreadOfGroup(t, grp, 1);
  }

  /** A working group's data is a stretch of the destination that fits one slot. */
  lemma GroupDataFits(p: Params, t: Topology, grp: nat)
    requires p.Valid() && WellShaped(p, t) && grp < t.ngroups
    ensures ReductionSize(p, t, grp) <= SpacePerThread(p, t)
    ensures LeaderBase(p, t, grp) + ReductionSize(p, t, grp) <= p.njobs * p.jobSize
  {
    ThreadOfGroup(t, grp, 0);
    GroupJobsFit(p, t, grp * t.nthrPerGroup);
    MulLe(GrpNjobs(p, t, grp), t.njobsPerGroupUb, p.jobSize);
    ScaledBefore(GrpJobOff(p, t, grp), GrpNjobs(p, t, grp), p.njobs, p.jobSize);
  }

  /** The last follower's slot of a working group ends within the booked space. */
  lemma SourcesInBooking(p: Params, t: Topology, grp: nat)
    requires t.nthrPerGroup > 1 && grp < t.ngroups
    ensures FollowerBase(p, t, grp) + (t.nthrPerGroup - 2) * SpacePerThread(p, t)
            + SpacePerThread(p, t) <= InitScratchpad(p, t).value.spaceElems
  {
    var m := t.nthrPerGroup - 1;
    var spt := SpacePerThread(p, t);
    SlotFits(grp, t.ngroups, m, m - 1, spt);
    assert (grp * m + (m - 1)) * spt == (grp * m) * spt + (m - 1) * spt;
  }

  /** A non-empty share of `n` cache lines starts inside the `rs` elements it clips to. */
  lemma ClipSlice(rs: nat, cl: nat, start: nat, end: nat)
    requires cl > 0 && start < end <= DivUp(rs, cl)
    ensures start * cl < rs
    ensures start * cl <= Min(end * cl, rs)
  {
    MulLe(start, DivUp(rs, cl) - 1, cl);
    MulLe(start, end, cl);
  }

  /** What `reduce_nolock` hands the driver lies within the destination and the booked
      space: one row of `len` elements, from the leader's and first follower's data. */
  lemma NolockFits(p: Params, t: Topology, grp: nat, start: nat, end: nat, dLen: nat, sLen: nat)
    requires p.Valid() && WellShaped(p, t) && t.nthrPerGroup > 1 && grp < t.ngroups
    requires start < end <= DivUp(ReductionSize(p, t, grp), CACHE_LINE)
    requires dLen >= p.njobs * p.jobSize
    requires sLen >= InitScratchpad(p, t).value.spaceElems
    ensures start * CACHE_LINE < ReductionSize(p, t, grp)
    ensures start * CACHE_LINE <= Min(end * CACHE_LINE, ReductionSize(p, t, grp))
    ensures RowsFit(DrvConfig(p, t), dLen, sLen,
                    LeaderBase(p, t, grp) + start * CACHE_LINE,
                    FollowerBase(p, t, grp) + start * CACHE_LINE, 1,
                    Min(end * CACHE_LINE, ReductionSize(p, t, grp)) - start * CACHE_LINE)
  {
    var rs := ReductionSize(p, t, grp);
    ClipSlice(rs, CACHE_LINE, start, end);
    GroupDataFits(p, t, grp);
    SourcesInBooking(p, t, grp);
  }

  /** The driven reduction of the whole group is the reference reduction. */
  lemma SimpleReduceIsDriven(p: Params, t: Topology, grp: nat, d: seq<Elem>, sp: seq<Elem>,
                             after: seq<Elem>)
    requires p.Valid() && WellShaped(p, t) && t.nthrPerGroup > 1
    requires after == RowSpec(DrvConfig(p, t), d, sp, LeaderBase(p, t, grp),
                              FollowerBase(p, t, grp), 0, Done(p, t, grp, t.nthrPerGroup))
    ensures after == SimpleReduce(p, t, grp, d, sp)
  {
    var base := LeaderBase(p, t, grp);
    forall j | base <= j < base + ReductionSize(p, t, grp) && j < |d|
      ensures Reduced(DrvConfig(p, t), d[j], sp, FollowerBase(p, t, grp) + (j - base))
              == FollowersSum(p, t, grp, d[j], sp, j - base, 1)
    {
      FirstFollowerOn(p, t, grp, d[j], sp, j - base);
    }
  }

  /** The driver's sum for element `i` of the group's data is the followers' sum. */
  lemma FirstFollowerOn(p: Params, t: Topology, grp: nat, acc: Elem, sp: seq<Elem>, i: nat)
    requires p.Valid() && WellShaped(p, t) && t.nthrPerGroup > 1
    ensures Reduced(DrvConfig(p, t), acc, sp, FollowerBase(p, t, grp) + i)
            == FollowersSum(p, t, grp, acc, sp, i, 1)
  {
    FollowersSumIsStrided(p, t, grp, acc, sp, i, 1);
    assert (1 - 1) * SpacePerThread(p, t) == 0;
  }
}
