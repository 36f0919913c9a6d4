/** `cpu_reducer_2d_t`: the 2-D reduction. Every job is a tile of `job_size_y` rows of
    `job_size_x` elements of a `dst_y` by `dst_x` destination, and every thread of a
    group (leader included) holds its partial results for all the group's jobs in its own
    slot of the reduction space. `reduce_nolock` splits the group's jobs between
    sub-groups of threads and, inside a job, the tile's elements (in row-major order)
    between the threads of a sub-group; each thread stores the sum of all slots over its
    elements with at most three calls of the driver. */
module CpuReducer2D {
  import opened IntUtil
  import opened Options
  import opened ReduceBalance
  import opened ReduceDriver
  import CpuReducer

  /** The 2-D part of the reducer's configuration. */
  datatype Geometry = Geometry(jobSizeX: nat, jobSizeY: nat, dstX: nat, dstY: nat, xBlock: nat)

  /** How the reducer's users set it up: a job is a `job_size_y` by `job_size_x` tile, the
      jobs cover the destination, and widths are whole `x_block`s. */
  predicate GeometryFits(p: Params, g: Geometry) {
    && g.jobSizeX > 0 && g.jobSizeY > 0 && g.xBlock > 0
    && p.jobSize == g.jobSizeX * g.jobSizeY
    && g.jobSizeX % g.xBlock == 0 && g.dstX % g.xBlock == 0
    && p.njobs == DivUp(g.dstX, g.jobSizeX) * DivUp(g.dstY, g.jobSizeY)
  }

  // ---- choose_x_blocking ----

  /** The halving / thirding of `choose_x_blocking`'s loop: `b` blocks are halved, else
      divided by three, while the result stays at least `m`. */
  function Shrink(b: nat, m: nat): nat
    requires m > 0
    decreases b
  {
    if b % 2 == 0 && b >= m * 2 then Shrink(b / 2, m)
    else if b % 3 == 0 && b >= m * 3 then Shrink(b / 3, m)
    else b
  }

  /** The fewest x blocks each thread should get: enough blocks for `nthr / ny` threads
      per row. */
  function MinXBlocks(b: nat, ny: nat, nthr: nat): nat
    requires ny > 0
  {
    DivUp(b, Max(1, nthr / ny))
  }

  /** What `choose_x_blocking(nx, ny, nthr_per_grp)` returns, in elements. */
  function XBlockingSpec(xBlock: nat, nx: nat, ny: nat, nthr: nat): nat
    requires xBlock > 0 && nx >= xBlock && ny > 0
  {
    var b := nx / xBlock;
    DivLowerBound(nx, xBlock, 1);
    var m := MinXBlocks(b, ny, nthr);
    var s := Shrink(b, m);
    (if s >= m * 4 then 1 else s) * xBlock
  }

  /** A multiple of `s` scaled by `c` is still one. */
  lemma MultipleScaled(h: nat, s: nat, c: nat)
    requires s > 0 && h % s == 0
    ensures (c * h) % s == 0
  {
    var k := h / s;
    assert h == k * s + h % s;
    assert c * h == (c * k) * s;
    DivModOf(c * k, s, 0);
  }

  /** The shrunk count divides the count it started from, stays at least `m` when that
      count was, and can be neither halved nor thirded any further. */
  lemma {:induction false} ShrinkProps(b: nat, m: nat)
    requires m > 0 && b > 0
    ensures Shrink(b, m) > 0 && b % Shrink(b, m) == 0
    ensures b >= m ==> Shrink(b, m) >= m
    ensures Shrink(b, m) <= b
    ensures !(Shrink(b, m) % 2 == 0 && Shrink(b, m) >= m * 2)
    ensures !(Shrink(b, m) % 3 == 0 && Shrink(b, m) >= m * 3)
    decreases b
  {
    if b % 2 == 0 && b >= m * 2 {
      var h := b / 2;
      assert b == 2 * h;
      ShrinkProps(h, m);
      MultipleScaled(h, Shrink(h, m), 2);
    } else if b % 3 == 0 && b >= m * 3 {
      var h := b / 3;
      assert b == 3 * h;
      ShrinkProps(h, m);
      MultipleScaled(h, Shrink(h, m), 3);
    } else {
      DivModOf(1, b, 0);
    }
  }

  /** `choose_x_blocking` returns a positive multiple of `x_block` that divides `nx`; in
      blocks it is either 1 or at least the minimum count and less than four times it,
      and (unless 1) neither halvable nor thirdable without going under the minimum. */
  lemma XBlockingProps(xBlock: nat, nx: nat, ny: nat, nthr: nat)
    requires xBlock > 0 && nx >= xBlock && nx % xBlock == 0 && ny > 0
    ensures var r := XBlockingSpec(xBlock, nx, ny, nthr);
            && r > 0 && r % xBlock == 0 && nx % r == 0
    ensures var q := XBlockingSpec(xBlock, nx, ny, nthr) / xBlock;
            var m := MinXBlocks(nx / xBlock, ny, nthr);
            && (q == 1 || m <= q < m * 4)
            && (q == 1 || !(q % 2 == 0 && q >= m * 2))
            && (q == 1 || !(q % 3 == 0 && q >= m * 3))
  {
    var b := nx / xBlock;
    DivLowerBound(nx, xBlock, 1);
    assert nx == b * xBlock + nx % xBlock;
    var m := MinXBlocks(b, ny, nthr);
    DivUpAtMost(b, Max(1, nthr / ny));
    var s := Shrink(b, m);
    ShrinkProps(b, m);
    var q := if s >= m * 4 then 1 else s;
    var r := q * xBlock;
    DivModOf(q, xBlock, 0);
    assert b % q == 0 by {
      if q == 1 {
        DivModOf(b, 1, 0);
      }
    }
    DivisorsCompose(nx, xBlock, q);
  }

  /** A divisor of `nx / x_block` times `x_block` divides `nx` when `x_block` does. */
  lemma DivisorsCompose(nx: nat, xBlock: nat, q: nat)
    requires xBlock > 0 && q > 0 && nx % xBlock == 0 && (nx / xBlock) % q == 0
    ensures nx % (q * xBlock) == 0
  {
    var b := nx / xBlock;
    var k := b / q;
    assert nx == b * xBlock + nx % xBlock;
    assert b == k * q + b % q;
    assert nx == k * (q * xBlock);
    DivModOf(k, q * xBlock, 0);
  }

  /** Rounding up a division by at least 1 gives at most the dividend. */
  lemma DivUpAtMost(a: nat, c: nat)
    requires c >= 1
    ensures DivUp(a, c) <= a
  {
    var q := DivUp(a, c);
    if q > a {
      MulLe(1, c, q - 1);
    }
  }

  // ---- scratchpad, slots and the driver ----

  /** `conf_t::init_scratchpad` of the 2-D reducer: nothing with one thread per group;
      otherwise a slot of `space_per_thread` elements for every thread of every group
      (leaders included) and one barrier per group. */
  function InitScratchpad2D(p: Params, t: Topology): (b: Option<CpuReducer.Booking>)
    ensures b.None? <==> t.nthrPerGroup == 1
    ensures b.Some? ==> b.value.barriers == t.ngroups
  {
    if t.nthrPerGroup == 1 then None
    else Some(CpuReducer.Booking(t.ngroups * t.nthrPerGroup * SpacePerThread(p, t), t.ngroups))
  }

  /** The slot number of thread `ithr`: `group_id * nthr_per_group + id_in_group`. */
  function Slot2D(t: Topology, ithr: nat): nat
    requires t.nthrPerGroup > 0
  {
    GroupId(t, ithr) * t.nthrPerGroup + IdInGroup(t, ithr)
  }

  /** `get_local_ptr(ithr, scratchpad)`: the start of thread `ithr`'s slot. */
  function GetLocalPtr2D(p: Params, t: Topology, ithr: nat): nat
    requires t.nthrPerGroup > 0
  {
    Slot2D(t, ithr) * SpacePerThread(p, t)
  }

  /** A working thread's slot number is the thread number, and its slot lies within the
      booked space. */
  lemma Slot2DInBooking(p: Params, t: Topology, ithr: nat)
    requires t.ngroups > 0 && t.nthrPerGroup > 1 && !Idle(t, ithr)
    ensures Slot2D(t, ithr) == ithr
    ensures InitScratchpad2D(p, t).Some?
    ensures GetLocalPtr2D(p, t, ithr) + SpacePerThread(p, t)
            <= InitScratchpad2D(p, t).value.spaceElems
  {
    WorkingThreadHasGroup(t.ngroups, t.nthrPerGroup, ithr);
    CpuReducer.SlotFits(GroupId(t, ithr), t.ngroups, t.nthrPerGroup, IdInGroup(t, ithr),
                        SpacePerThread(p, t));
  }

  /** Two different threads' slots do not overlap. */
  lemma Slots2DDisjoint(p: Params, t: Topology, a: nat, b: nat)
    requires t.nthrPerGroup > 0 && a != b
    ensures GetLocalPtr2D(p, t, a) + SpacePerThread(p, t) <= GetLocalPtr2D(p, t, b)
         || GetLocalPtr2D(p, t, b) + SpacePerThread(p, t) <= GetLocalPtr2D(p, t, a)
  {
    CpuReducer.ThreadsDiffer(t, a, b);
    CpuReducer.PairInjective(t.nthrPerGroup, GroupId(t, a), IdInGroup(t, a),
                             GroupId(t, b), IdInGroup(t, b));
    var sa, sb := Slot2D(t, a), Slot2D(t, b);
    if sa < sb {
      CpuReducer.ScaledBefore(sa, 1, sb, SpacePerThread(p, t));
    } else {
      CpuReducer.ScaledBefore(sb, 1, sa, SpacePerThread(p, t));
    }
  }

  /** The driver the 2-D reducer builds: all `nthr_per_group` slots of a group are the
      sources, `space_per_thread` apart; a row is `job_size_x` apart in a slot and
      `dst_x` apart in the destination; the destination is overwritten. */
  function DrvConfig2D(p: Params, t: Topology, g: Geometry): DriverConfig {
    DriverConfig(t.nthrPerGroup, SpacePerThread(p, t), g.jobSizeX, g.dstX, true)
  }

  // ---- jobs as tiles ----

  /** Where a job lies in the destination: its first row and column and its extent. */
  datatype JobTile = JobTile(startY: int, startX: int, ny: int, nx: int)

  /** The tile of global job `gj`: jobs are numbered row-major, `div_up(dst_x,
      job_size_x)` to a row of tiles, and the last row and column of tiles are clipped
      to the destination. */
  function JobOf(g: Geometry, gj: nat): JobTile
    requires g.jobSizeX > 0 && g.dstX > 0
  {
    var njobsX := DivUp(g.dstX, g.jobSizeX);
    var jy := Quotient(gj, njobsX);
    var jx := Remainder(gj, njobsX);
    var startY := jy * g.jobSizeY;
    var startX := jx * g.jobSizeX;
    JobTile(startY, startX, Min(g.dstY - startY, g.jobSizeY), Min(g.dstX - startX, g.jobSizeX))
  }

  /** A tile index below `div_up(dim, size)` starts inside the dimension. */
  lemma TileStartsInside(dim: nat, size: nat, j: nat)
    requires size > 0 && j < DivUp(dim, size)
    ensures j * size < dim
  {
    MulLe(j, DivUp(dim, size) - 1, size);
  }

  /** The difference of two multiples of `s` is one. */
  lemma MultipleDiff(a: nat, b: nat, s: nat)
    requires s > 0 && b <= a && a % s == 0 && b % s == 0
    ensures (a - b) % s == 0
  {
    var qa, qb := a / s, b / s;
    assert a == qa * s && b == qb * s;
    if qa < qb {
      MulLe(qa + 1, qb, s);
    }
    assert a - b == (qa - qb) * s;
    DivModOf(qa - qb, s, 0);
  }

  /** A positive multiple of `s` is at least `s`. */
  lemma PositiveMultiple(n: nat, s: nat)
    requires s > 0 && n > 0 && n % s == 0
    ensures n >= s
  {
    assert n == (n / s) * s;
    MulLe(1, n / s, s);
  }

  /** Every job's tile lies inside the destination and is at least one row high and one
      `x_block` wide, a whole number of `x_block`s. */
  lemma JobTileInside(p: Params, g: Geometry, gj: nat)
    requires p.Valid() && GeometryFits(p, g) && gj < p.njobs
    ensures g.dstX > 0
    ensures var jt := JobOf(g, gj);
            && 0 <= jt.startY && 1 <= jt.ny <= g.jobSizeY && jt.startY + jt.ny <= g.dstY
            && 0 <= jt.startX && g.xBlock <= jt.nx <= g.jobSizeX && jt.startX + jt.nx <= g.dstX
            && jt.nx % g.xBlock == 0
  {
    var nX := DivUp(g.dstX, g.jobSizeX);
    JobRowBelow(p, g, gj);
    TileRowInside(g, Quotient(gj, nX));
    TileColumnInside(g, Remainder(gj, nX));
  }

  /** A job index below `njobs` falls in one of the `div_up(dst_y, job_size_y)` tile rows. */
  lemma JobRowBelow(p: Params, g: Geometry, gj: nat)
    requires GeometryFits(p, g) && gj < p.njobs
    ensures g.dstX > 0
    ensures Quotient(gj, DivUp(g.dstX, g.jobSizeX)) < DivUp(g.dstY, g.jobSizeY)
  {
    var nX, nY := DivUp(g.dstX, g.jobSizeX), DivUp(g.dstY, g.jobSizeY);
    FactorsPositive(nX, nY);
    DivUpOfZero(g.jobSizeX);
    QuotientBelow(gj, nY, nX);
  }

  /** A positive product has positive factors. */
  lemma FactorsPositive(a: nat, b: nat)
    requires a * b > 0
    ensures a > 0 && b > 0
  {
  }

  /** Nothing to cover takes no tiles. */
  lemma DivUpOfZero(b: nat)
    requires b > 0
    ensures DivUp(0, b) == 0
  {
  }

  /** Tile row `jy` starts inside the destination and keeps to it. */
  lemma TileRowInside(g: Geometry, jy: nat)
    requires g.jobSizeY > 0 && jy < DivUp(g.dstY, g.jobSizeY)
    ensures var startY := jy * g.jobSizeY;
            1 <= Min(g.dstY - startY, g.jobSizeY) && startY + Min(g.dstY - startY, g.jobSizeY) <= g.dstY
  {
    TileStartsInside(g.dstY, g.jobSizeY, jy);
  }

  /** Tile column `jx` starts inside the destination, keeps to it and is a whole number
      of `x_block`s wide. */
  lemma TileColumnInside(g: Geometry, jx: nat)
    requires g.jobSizeX > 0 && g.xBlock > 0 && jx < DivUp(g.dstX, g.jobSizeX)
    requires g.jobSizeX % g.xBlock == 0 && g.dstX % g.xBlock == 0
    ensures var startX := jx * g.jobSizeX;
            var nx := Min(g.dstX - startX, g.jobSizeX);
            && g.xBlock <= nx && startX + nx <= g.dstX && nx % g.xBlock == 0
  {
    TileStartsInside(g.dstX, g.jobSizeX, jx);
    var startX := jx * g.jobSizeX;
    MultipleScaled(g.jobSizeX, g.xBlock, jx);
    MultipleDiff(g.dstX, startX, g.xBlock);
    var nx := Min(g.dstX - startX, g.jobSizeX);
    PositiveMultiple(nx, g.xBlock);
  }

  // ---- a thread's share of a tile, walked row-major ----

  /** Where a job's tile sits: its first destination row and column, and the start of its
      partial results in the group's first slot. */
  datatype Tile = Tile(startY: nat, startX: nat, spaceOff: nat)

  /** Element `x` of row `r` of the tile in the destination (`reduce_block`'s `d`)... */
  function TileDst(g: Geometry, tile: Tile, r: nat, x: nat): nat {
    (tile.startY + r) * g.dstX + tile.startX + x
  }

  /** ... and in the first slot of the reduction space (its `space`). */
  function TileSrc(g: Geometry, tile: Tile, r: nat, x: nat): nat {
    tile.spaceOff + r * g.jobSizeX + x
  }

  /** Reducing `n` consecutive elements of a tile `nx` wide, in row-major order, from
      column `x` of the row at `dRow` (sources at `sRow`): the rest of that row, then
      whole rows one step further on, the last one possibly cut short. */
  function TileWalk(cfg: DriverConfig, d: seq<Elem>, sp: seq<Elem>, dRow: nat, sRow: nat,
                    x: nat, nx: nat, n: nat): (r: seq<Elem>)
    requires x < nx
    ensures |r| == |d|
    decreases n
  {
    if n == 0 then d
    else
      var w := Min(nx - x, n);
      TileWalk(cfg, RowSpec(cfg, d, sp, dRow, sRow, x, x + w), sp,
               dRow + cfg.dstStep, sRow + cfg.srcStep, 0, nx, n - w)
  }

  /** Elements `[nxy, e)` of the tile in row-major order, `nx` to a row, reduced. */
  function Remaining(cfg: DriverConfig, g: Geometry, d: seq<Elem>, sp: seq<Elem>, tile: Tile,
                     nx: nat, nxy: nat, e: nat): (r: seq<Elem>)
    requires nx > 0 && nxy <= e
    ensures |r| == |d|
  {
    TileWalk(cfg, d, sp, TileDst(g, tile, nxy / nx, 0), TileSrc(g, tile, nxy / nx, 0),
             nxy % nx, nx, e - nxy)
  }

  /** Row `r + k` of a tile is `k` steps after row `r`, and column `x` is `x` elements in. */
  lemma TileRows(g: Geometry, tile: Tile, r: nat, k: nat, x: nat)
    ensures TileDst(g, tile, r + k, 0) == TileDst(g, tile, r, 0) + k * g.dstX
    ensures TileSrc(g, tile, r + k, 0) == TileSrc(g, tile, r, 0) + k * g.jobSizeX
    ensures TileDst(g, tile, r, x) == TileDst(g, tile, r, 0) + x
    ensures TileSrc(g, tile, r, x) == TileSrc(g, tile, r, 0) + x
  {
    assert (tile.startY + r + k) * g.dstX == (tile.startY + r) * g.dstX + k * g.dstX;
    assert (r + k) * g.jobSizeX == r * g.jobSizeX + k * g.jobSizeX;
  }

  /** `rows` whole rows driven from the start of a row are the first `rows * nx`
      elements of the walk. */
  lemma {:induction false} WalkRows(cfg: DriverConfig, d: seq<Elem>, sp: seq<Elem>, dRow: nat,
                                    sRow: nat, nx: nat, rows: nat, n: nat, rest: nat,
                                    dEnd: nat, sEnd: nat)
    requires nx > 0 && n == rows * nx + rest
    requires dEnd == dRow + rows * cfg.dstStep && sEnd == sRow + rows * cfg.srcStep
    ensures TileWalk(cfg, d, sp, dRow, sRow, 0, nx, n)
            == TileWalk(cfg, DriveSpec(cfg, d, sp, dRow, sRow, rows, nx), sp, dEnd, sEnd, 0, nx, rest)
    decreases rows
  {
    if rows > 0 {
      RowsArith(rows, nx, n, dRow, cfg.dstStep, sRow, cfg.srcStep);
      var d1 := RowSpec(cfg, d, sp, dRow, sRow, 0, nx);
      WalkRows(cfg, d1, sp, dRow + cfg.dstStep, sRow + cfg.srcStep, nx, rows - 1, n - nx, rest, dEnd, sEnd);
      WalkOneMoreRow(cfg, d, sp, dRow, sRow, nx, rows, n, rest, dEnd, sEnd);
    }
  }

  /** The step of `WalkRows`: one whole row in front of a walk already known to equal
      the remaining rows driven. */
  lemma WalkOneMoreRow(cfg: DriverConfig, d: seq<Elem>, sp: seq<Elem>, dRow: nat, sRow: nat,
                       nx: nat, rows: nat, n: nat, rest: nat, dEnd: nat, sEnd: nat)
    requires 0 < nx <= n && rows > 0
    requires var d1 := RowSpec(cfg, d, sp, dRow, sRow, 0, nx);
             TileWalk(cfg, d1, sp, dRow + cfg.dstStep, sRow + cfg.srcStep, 0, nx, n - nx)
             == TileWalk(cfg, DriveSpec(cfg, d1, sp, dRow + cfg.dstStep, sRow + cfg.srcStep, rows - 1, nx),
                         sp, dEnd, sEnd, 0, nx, rest)
    ensures TileWalk(cfg, d, sp, dRow, sRow, 0, nx, n)
            == TileWalk(cfg, DriveSpec(cfg, d, sp, dRow, sRow, rows, nx), sp, dEnd, sEnd, 0, nx, rest)
  {
    WalkFullRow(cfg, d, sp, dRow, sRow, nx, n);
  }

  /** A walk that starts at the beginning of a row and has a whole row to go reduces
      that row first. */
  lemma WalkFullRow(cfg: DriverConfig, d: seq<Elem>, sp: seq<Elem>, dRow: nat, sRow: nat,
                    nx: nat, n: nat)
    requires 0 < nx <= n
    ensures TileWalk(cfg, d, sp, dRow, sRow, 0, nx, n)
            == TileWalk(cfg, RowSpec(cfg, d, sp, dRow, sRow, 0, nx), sp, dRow + cfg.dstStep,
                        sRow + cfg.srcStep, 0, nx, n - nx)
  {
    assert Min(nx - 0, n) == nx;
  }

  /** The offsets and counts one row further on. */
  lemma RowsArith(rows: nat, nx: nat, n: nat, dRow: nat, dStep: nat, sRow: nat, sStep: nat)
    requires rows > 0 && rows * nx <= n
    ensures nx <= n && n - nx == (rows - 1) * nx + (n - rows * nx)
    ensures dRow + dStep + (rows - 1) * dStep == dRow + rows * dStep
    ensures sRow + sStep + (rows - 1) * sStep == sRow + rows * sStep
  {
    MulLe(1, rows, nx);
    assert rows * nx == (rows - 1) * nx + nx;
    assert rows * dStep == (rows - 1) * dStep + dStep;
    assert rows * sStep == (rows - 1) * sStep + sStep;
  }

  /** The walk's first (possibly partial) row, reduced, leaves the walk from the start of
      the next row. */
  lemma WalkFirstRow(cfg: DriverConfig, d: seq<Elem>, after: seq<Elem>, sp: seq<Elem>,
                     dRow: nat, sRow: nat, x: nat, nx: nat, n: nat, w: nat)
    requires x < nx && 0 < n && w == Min(nx - x, n)
    requires after == RowSpec(cfg, d, sp, dRow + x, sRow + x, 0, w)
    ensures TileWalk(cfg, d, sp, dRow, sRow, x, nx, n)
            == TileWalk(cfg, after, sp, dRow + cfg.dstStep, sRow + cfg.srcStep, 0, nx, n - w)
  {
    RowSpecShift(cfg, d, sp, dRow, sRow, x, w);
  }

  /** Position `nxy` of the walk, given as row `r` and column `x`. */
  lemma RemainingAt(cfg: DriverConfig, g: Geometry, d: seq<Elem>, sp: seq<Elem>, tile: Tile,
                    nx: nat, nxy: nat, e: nat, r: nat, x: nat)
    requires x < nx && nxy == r * nx + x && nxy <= e
    ensures Remaining(cfg, g, d, sp, tile, nx, nxy, e)
            == TileWalk(cfg, d, sp, TileDst(g, tile, r, 0), TileSrc(g, tile, r, 0), x, nx, e - nxy)
  {
    DivModOf(r, nx, x);
  }

  /** Block (a) and block (c) of `reduce_nolock`: one row, from column `x` of row `r`
      (position `nxy`) to the end of the row or to `e`, whichever comes first. */
  lemma PartialRowStep(cfg: DriverConfig, g: Geometry, before: seq<Elem>, after: seq<Elem>,
                       sp: seq<Elem>, tile: Tile, nx: nat, nxy: nat, e: nat, r: nat, x: nat,
                       w: nat)
    requires cfg.dstStep == g.dstX && cfg.srcStep == g.jobSizeX
    requires x < nx && nxy == r * nx + x && nxy < e && w == Min(nx - x, e - nxy)
    requires after == DriveSpec(cfg, before, sp, TileDst(g, tile, r, x), TileSrc(g, tile, r, x), 1, w)
    ensures Remaining(cfg, g, before, sp, tile, nx, nxy, e)
            == Remaining(cfg, g, after, sp, tile, nx, nxy + w, e)
  {
    var dR, sR := TileDst(g, tile, r, 0), TileSrc(g, tile, r, 0);
    RemainingAt(cfg, g, before, sp, tile, nx, nxy, e, r, x);
    OneRowDrive(cfg, g, before, after, sp, tile, r, x, w);
    WalkFirstRow(cfg, before, after, sp, dR, sR, x, nx, e - nxy, w);
    AfterFirstRow(cfg, g, after, sp, tile, nx, nxy, e, r, x, w);
  }

  /** A one-row driver call at column `x` of row `r` reduces that stretch of the row. */
  lemma OneRowDrive(cfg: DriverConfig, g: Geometry, before: seq<Elem>, after: seq<Elem>,
                    sp: seq<Elem>, tile: Tile, r: nat, x: nat, w: nat)
    requires after == DriveSpec(cfg, before, sp, TileDst(g, tile, r, x), TileSrc(g, tile, r, x), 1, w)
    ensures after == RowSpec(cfg, before, sp, TileDst(g, tile, r, 0) + x, TileSrc(g, tile, r, 0) + x, 0, w)
  {
  }

  /** Once the first row's stretch is done, the walk goes on from the next row, or is
      over. */
  lemma AfterFirstRow(cfg: DriverConfig, g: Geometry, d: seq<Elem>, sp: seq<Elem>, tile: Tile,
                      nx: nat, nxy: nat, e: nat, r: nat, x: nat, w: nat)
    requires cfg.dstStep == g.dstX && cfg.srcStep == g.jobSizeX
    requires x < nx && nxy == r * nx + x && nxy < e && w == Min(nx - x, e - nxy)
    ensures TileWalk(cfg, d, sp, TileDst(g, tile, r, 0) + cfg.dstStep,
                     TileSrc(g, tile, r, 0) + cfg.srcStep, 0, nx, e - nxy - w)
            == Remaining(cfg, g, d, sp, tile, nx, nxy + w, e)
  {
    if x + w == nx {
      TileRows(g, tile, r, 1, 0);
      assert (r + 1) * nx == r * nx + nx;
      RemainingAt(cfg, g, d, sp, tile, nx, nxy + w, e, r + 1, 0);
    } else {
      assert e - (nxy + w) == 0;
    }
  }

  /** Block (b) of `reduce_nolock`: `rows` whole rows from the start of row `r`. */
  lemma FullRowsStep(cfg: DriverConfig, g: Geometry, before: seq<Elem>, after: seq<Elem>,
                     sp: seq<Elem>, tile: Tile, nx: nat, nxy: nat, e: nat, r: nat, rows: nat)
    requires cfg.dstStep == g.dstX && cfg.srcStep == g.jobSizeX
    requires nx > 0 && nxy == r * nx && nxy + nx * rows <= e
    requires after == DriveSpec(cfg, before, sp, TileDst(g, tile, r, 0), TileSrc(g, tile, r, 0), rows, nx)
    ensures Remaining(cfg, g, before, sp, tile, nx, nxy, e)
            == Remaining(cfg, g, after, sp, tile, nx, nxy + nx * rows, e)
  {
    var m := nxy + nx * rows;
    RowsAhead(nxy, e, r, rows, nx);
    RemainingAt(cfg, g, before, sp, tile, nx, nxy, e, r, 0);
    TileRowsWalk(cfg, g, before, after, sp, tile, nx, r, rows, e - nxy, e - m);
    RemainingAt(cfg, g, after, sp, tile, nx, m, e, r + rows, 0);
  }

  /** `WalkRows` from row `r` of a tile to row `r + rows`. */
  lemma TileRowsWalk(cfg: DriverConfig, g: Geometry, before: seq<Elem>, after: seq<Elem>,
                     sp: seq<Elem>, tile: Tile, nx: nat, r: nat, rows: nat, n: nat, rest: nat)
    requires cfg.dstStep == g.dstX && cfg.srcStep == g.jobSizeX
    requires nx > 0 && n == rows * nx + rest
    requires after == DriveSpec(cfg, before, sp, TileDst(g, tile, r, 0), TileSrc(g, tile, r, 0), rows, nx)
    ensures TileWalk(cfg, before, sp, TileDst(g, tile, r, 0), TileSrc(g, tile, r, 0), 0, nx, n)
            == TileWalk(cfg, after, sp, TileDst(g, tile, r + rows, 0), TileSrc(g, tile, r + rows, 0), 0, nx, rest)
  {
    TileRows(g, tile, r, rows, 0);
    WalkRows(cfg, before, sp, TileDst(g, tile, r, 0), TileSrc(g, tile, r, 0), nx, rows, n,
             rest, TileDst(g, tile, r + rows, 0), TileSrc(g, tile, r + rows, 0));
  }

  lemma RowsAhead(nxy: nat, e: nat, r: nat, rows: nat, nx: nat)
    requires nxy == r * nx && nxy + nx * rows <= e
    ensures e - nxy == rows * nx + (e - (nxy + nx * rows))
    ensures nxy + nx * rows == (r + rows) * nx
  {
    assert (r + rows) * nx == r * nx + rows * nx;
  }

  // ---- where the driver may read and write ----

  /** A tile `ny` rows by `nx` columns lies inside a destination of `dLen` elements, and
      the sources of its last row (hence of all its rows) inside a space of `sLen`. */
  predicate TileFits(cfg: DriverConfig, g: Geometry, dLen: nat, sLen: nat, tile: Tile,
                     ny: nat, nx: nat)
  {
    && 0 < ny && 0 < nx && tile.startX + nx <= g.dstX
    && (tile.startY + ny) * g.dstX <= dLen
    && SrcFits(cfg, sLen, TileSrc(g, tile, ny - 1, 0), nx)
  }

  /** Any block of rows `[r, r + rows)` and columns `[x, x + w)` of a tile that fits,
      fits the driver. */
  lemma BlockFits(cfg: DriverConfig, g: Geometry, dLen: nat, sLen: nat, tile: Tile,
                  ny: nat, nx: nat, r: nat, x: nat, rows: nat, w: nat)
    requires cfg.dstStep == g.dstX && cfg.srcStep == g.jobSizeX
    requires TileFits(cfg, g, dLen, sLen, tile, ny, nx)
    requires 0 < rows && r + rows <= ny && x + w <= nx
    ensures RowsFit(cfg, dLen, sLen, TileDst(g, tile, r, x), TileSrc(g, tile, r, x), rows, w)
  {
    var last := r + rows - 1;
    TileRows(g, tile, r, rows - 1, x);
    BlockLastRowDst(g, dLen, tile, ny, nx, last, x, w);
    BlockLastRowSrc(cfg, g, sLen, tile, ny, nx, last, x, w);
    RowsFitFromLast(cfg, dLen, sLen, TileDst(g, tile, r, x), TileSrc(g, tile, r, x), rows, w);
  }

  /** The destination half of `BlockFits`, for the block's last row. */
  lemma BlockLastRowDst(g: Geometry, dLen: nat, tile: Tile, ny: nat, nx: nat, last: nat, x: nat, w: nat)
    requires tile.startX + nx <= g.dstX && (tile.startY + ny) * g.dstX <= dLen
    requires last < ny && x + w <= nx
    ensures TileDst(g, tile, last, 0) + x + w <= dLen
  {
    MulLe(tile.startY + last + 1, tile.startY + ny, g.dstX);
    assert (tile.startY + last + 1) * g.dstX == (tile.startY + last) * g.dstX + g.dstX;
  }

  /** The source half of `BlockFits`, for the block's last row. */
  lemma BlockLastRowSrc(cfg: DriverConfig, g: Geometry, sLen: nat, tile: Tile, ny: nat, nx: nat,
                        last: nat, x: nat, w: nat)
    requires last < ny && x + w <= nx
    requires SrcFits(cfg, sLen, TileSrc(g, tile, ny - 1, 0), nx)
    ensures SrcFits(cfg, sLen, TileSrc(g, tile, last, 0) + x, w)
  {
    TileRows(g, tile, last, ny - 1 - last, 0);
  }

  /** A position before `ny * nx` lies in one of the `ny` rows. */
  lemma RowBelow(nxy: nat, nx: nat, ny: nat)
    requires nx > 0 && nxy < ny * nx
    ensures nxy / nx < ny
  {
    assert nxy == (nxy / nx) * nx + nxy % nx;
    if nxy / nx >= ny {
      MulLe(ny, nxy / nx, nx);
      assert false;
    }
  }

  /** `rows` whole rows from the start of row `r` that end by `ny * nx` stay in the tile. */
  lemma RowsBelow(r: nat, rows: nat, nx: nat, ny: nat)
    requires nx > 0 && r * nx + rows * nx <= ny * nx
    ensures r + rows <= ny
  {
    assert (r + rows) * nx == r * nx + rows * nx;
    if r + rows > ny {
      MulLe(ny + 1, r + rows, nx);
      assert false;
    }
  }

  /** Where block (a) or block (c) starts and that it fits; after block (a) the walk is
      at the start of a row or done. */
  lemma PartialPlan(cfg: DriverConfig, g: Geometry, dLen: nat, sLen: nat, tile: Tile,
                    ny: nat, nx: nat, nxy: nat, e: nat, r: int, x: int, w: int)
    requires cfg.dstStep == g.dstX && cfg.srcStep == g.jobSizeX
    requires TileFits(cfg, g, dLen, sLen, tile, ny, nx) && nxy < e <= ny * nx
    requires r == nxy / nx && x == nxy % nx && w == Min(nx - x, e - nxy)
    ensures 0 <= r && 0 <= x < nx && 1 <= w && nxy == r * nx + x
    ensures RowsFit(cfg, dLen, sLen, TileDst(g, tile, r, x), TileSrc(g, tile, r, x), 1, w)
    ensures (nxy + w) % nx == 0 || nxy + w == e
  {
    PartialArith(nxy, e, ny, nx, r, x, w);
    BlockFits(cfg, g, dLen, sLen, tile, ny, nx, r, x, 1, w);
  }

  lemma PartialArith(nxy: nat, e: nat, ny: nat, nx: nat, r: int, x: int, w: int)
    requires nx > 0 && nxy < e <= ny * nx
    requires r == nxy / nx && x == nxy % nx && w == Min(nx - x, e - nxy)
    ensures 0 <= r < ny && 0 <= x < nx && 1 <= w && x + w <= nx && nxy == r * nx + x
    ensures (nxy + w) % nx == 0 || nxy + w == e
  {
    assert nxy == r * nx + x;
    RowBelow(nxy, nx, ny);
    if x + w == nx {
      RowEnd(nxy, nx, w);
    }
  }

  /** Finishing the row that position `nxy` lies in lands at the start of the next one. */
  lemma RowEnd(nxy: nat, nx: nat, w: nat)
    requires nx > 0 && nxy % nx + w == nx
    ensures (nxy + w) % nx == 0 && (nxy + w) / nx == nxy / nx + 1
  {
    var r := nxy / nx;
    assert nxy == r * nx + nxy % nx;
    assert (r + 1) * nx == r * nx + nx;
    assert nxy + w == (r + 1) * nx + 0;
    DivModOf(r + 1, nx, 0);
  }

  /** Where block (b) starts and that it fits; after it, less than a row is left and the
      walk is at the start of a row. */
  lemma RowsPlan(cfg: DriverConfig, g: Geometry, dLen: nat, sLen: nat, tile: Tile,
                 ny: nat, nx: nat, nxy: nat, e: nat, r: int, rows: int)
    requires cfg.dstStep == g.dstX && cfg.srcStep == g.jobSizeX
    requires TileFits(cfg, g, dLen, sLen, tile, ny, nx) && nxy + nx < e <= ny * nx
    requires nxy % nx == 0 && r == nxy / nx && rows == (e - nxy) / nx
    ensures 0 <= r && 1 <= rows && nxy == r * nx
    ensures nxy + nx * rows <= e && e - (nxy + nx * rows) < nx && (nxy + nx * rows) % nx == 0
    ensures RowsFit(cfg, dLen, sLen, TileDst(g, tile, r, 0), TileSrc(g, tile, r, 0), rows, nx)
  {
    assert nxy == r * nx + nxy % nx;
    assert e - nxy == rows * nx + (e - nxy) % nx;
    DivLowerBound(e - nxy, nx, 1);
    RowsBelow(r, rows, nx, ny);
    BlockFits(cfg, g, dLen, sLen, tile, ny, nx, r, 0, rows, nx);
    RowsEnd(r, nx, rows);
  }

  /** Whole rows from the start of row `r` end at the start of a row. */
  lemma RowsEnd(r: nat, nx: nat, rows: nat)
    requires nx > 0
    ensures (r * nx + nx * rows) % nx == 0
  {
    assert (r + rows) * nx == r * nx + rows * nx;
    DivModOf(r + rows, nx, 0);
  }

  // ---- a thread's jobs ----

  /** The group leader's slot starts the group's space: `get_local_ptr(ithr - id_in_grp)`
      is slot `group_id * nthr_per_group`. */
  lemma LeaderSlot2D(t: Topology, ithr: nat)
    requires t.nthrPerGroup > 0
    ensures ithr - IdInGroup(t, ithr) == GroupId(t, ithr) * t.nthrPerGroup
    ensures Slot2D(t, ithr - IdInGroup(t, ithr)) == GroupId(t, ithr) * t.nthrPerGroup
  {
    var k := t.nthrPerGroup;
    assert ithr == GroupId(t, ithr) * k + IdInGroup(t, ithr);
    DivModOf(GroupId(t, ithr), k, 0);
  }

  /** Sub-group `id / n` exists when thread `id` is below `grps * n`. */
  lemma QuotientBelow(id: nat, grps: nat, n: nat)
    requires n > 0 && id < grps * n
    ensures Quotient(id, n) < grps
  {
    assert id == (id / n) * n + id % n;
    if id / n >= grps {
      MulLe(grps, id / n, n);
      assert false;
    }
  }

  /** `pr_grps` and `pr_nthr_per_grp` of a working thread's group: the group's threads
      are split into at most one sub-group per job, of equal size. */
  function PrSplit(p: Params, t: Topology, ithr: nat): (r: (nat, nat))
    requires p.Valid() && WellShaped(p, t) && !Idle(t, ithr)
    ensures 1 <= r.0 <= GrpNjobs(p, t, GroupId(t, ithr)) && 1 <= r.1
    ensures r.0 * r.1 <= t.nthrPerGroup
  {
    GroupJobsFit(p, t, ithr);
    var grps := Min(GrpNjobs(p, t, GroupId(t, ithr)), t.nthrPerGroup);
    var n := t.nthrPerGroup / grps;
    DivLowerBound(t.nthrPerGroup, grps, 1);
    DivMulLe(t.nthrPerGroup, grps);
    (grps, n)
  }

  /** The elements `[s, e)` of an `n`-element tile, counted in `xb`-blocks by
      `balance211`, lie within the tile. */
  lemma ScaledShare(n: nat, xb: nat, team: nat, id: nat)
    requires xb > 0 && n % xb == 0 && id < team
    ensures Balance211(Blocks(n, xb), team, id).0 * xb <= Balance211(Blocks(n, xb), team, id).1 * xb <= n
  {
    var q := Blocks(n, xb);
    assert n == q * xb + n % xb;
    Balance211Contract(q, team, id);
    var se := Balance211(q, team, id);
    ScaledBounds(se.0, se.1, q, xb);
  }

  lemma ScaledBounds(a: nat, b: nat, q: nat, xb: nat)
    requires a <= b <= q
    ensures a * xb <= b * xb <= q * xb
  {
    MulLe(a, b, xb);
    MulLe(b, q, xb);
  }

  /** Where job `j` of a working thread's group lies: its tile (with the start of the
      job's partial results in the leader's slot) and its extent. */
  datatype Site = Site(tile: Tile, ny: nat, nx: nat)

  function JobSite(p: Params, t: Topology, g: Geometry, ithr: nat, j: nat): (js: Site)
    requires p.Valid() && WellShaped(p, t) && GeometryFits(p, g) && !Idle(t, ithr)
    requires j < GrpNjobs(p, t, GroupId(t, ithr))
    ensures 1 <= js.ny <= g.jobSizeY && g.xBlock <= js.nx <= g.jobSizeX && js.nx % g.xBlock == 0
    ensures js.tile.startY + js.ny <= g.dstY && js.tile.startX + js.nx <= g.dstX
  {
    GroupJobsFit(p, t, ithr);
    var gj := GrpJobOff(p, t, GroupId(t, ithr)) + j;
    JobTileInside(p, g, gj);
    var jt := JobOf(g, gj);
    var base := GetLocalPtr2D(p, t, ithr - IdInGroup(t, ithr));
    Site(Tile(jt.startY, jt.startX, base + j * p.jobSize), jt.ny, jt.nx)
  }

  /** What thread `prId` of a sub-group of `prNthr` does with a tile `ny` by `nx`: the
      `x_blocking` it chooses and the positions `[s, e)` of the tile (row-major) that it
      reduces. */
  datatype Share = Share(xBlocking: nat, s: nat, e: nat)

  function ShareOf(xBlock: nat, ny: nat, nx: nat, prNthr: nat, prId: nat): (sh: Share)
    requires xBlock > 0 && 1 <= ny && xBlock <= nx && nx % xBlock == 0 && prId < prNthr
    ensures sh.xBlocking > 0 && sh.xBlocking % xBlock == 0 && nx % sh.xBlocking == 0
    ensures sh.s <= sh.e <= ny * nx
  {
    XBlockingProps(xBlock, nx, ny, prNthr);
    var xb := XBlockingSpec(xBlock, nx, ny, prNthr);
    ThreadShare(xb, ny, nx, prNthr, prId);
    var se := Balance211(Blocks(ny * nx, xb), prNthr, prId);
    Share(xb, se.0 * xb, se.1 * xb)
  }

  /** How many `xb`-element blocks make `n` elements (`n / xb`). */
  function Blocks(n: nat, xb: nat): nat
    requires xb > 0
  {
    n / xb
  }

  /** A thread's share `[s, e)` of a tile `ny` by `nx`, counted in `xb` units, lies within
      the tile. */
  lemma ThreadShare(xb: nat, ny: nat, nx: nat, prNthr: nat, prId: nat)
    requires xb > 0 && nx % xb == 0 && prId < prNthr
    ensures Balance211(Blocks(ny * nx, xb), prNthr, prId).0 * xb
            <= Balance211(Blocks(ny * nx, xb), prNthr, prId).1 * xb <= ny * nx
  {
    MultipleScaled(nx, xb, ny);
    ScaledShare(ny * nx, xb, prNthr, prId);
  }

  /** The destination after thread `ithr` has done its part of job `j`. */
  function JobWork(p: Params, t: Topology, g: Geometry, ithr: nat, j: nat, prNthr: nat,
                   prId: nat, d: seq<Elem>, sp: seq<Elem>): (r: seq<Elem>)
    requires p.Valid() && WellShaped(p, t) && GeometryFits(p, g) && !Idle(t, ithr)
    requires j < GrpNjobs(p, t, GroupId(t, ithr)) && prId < prNthr
    ensures |r| == |d|
  {
    var js := JobSite(p, t, g, ithr, j);
    var sh := ShareOf(g.xBlock, js.ny, js.nx, prNthr, prId);
    Remaining(DrvConfig2D(p, t, g), g, d, sp, js.tile, js.nx, sh.s, sh.e)
  }

  /** ... and after its parts of jobs `lo`, `lo + 1`, ..., `hi - 1`, in that order. */
  function JobsWork(p: Params, t: Topology, g: Geometry, ithr: nat, prNthr: nat, prId: nat,
                    lo: nat, hi: nat, d: seq<Elem>, sp: seq<Elem>): (r: seq<Elem>)
    requires p.Valid() && WellShaped(p, t) && GeometryFits(p, g) && !Idle(t, ithr)
    requires hi <= GrpNjobs(p, t, GroupId(t, ithr)) && prId < prNthr
    ensures |r| == |d|
    decreases hi - lo
  {
    if lo >= hi then d
    else JobsWork(p, t, g, ithr, prNthr, prId, lo + 1, hi,
                  JobWork(p, t, g, ithr, lo, prNthr, prId, d, sp), sp)
  }

  /** What `reduce_nolock(ithr, dst, scratchpad)` of the 2-D reducer leaves in the
      destination: nothing changes for a redundant or idle thread; otherwise the thread
      takes its sub-group's share of the group's jobs and, in each, its share of the
      tile. */
  function NolockSpec2D(p: Params, t: Topology, g: Geometry, ithr: nat, d: seq<Elem>,
                        sp: seq<Elem>): (r: seq<Elem>)
    requires p.Valid() && WellShaped(p, t) && GeometryFits(p, g)
    ensures |r| == |d|
  {
    if t.nthrPerGroup == 1 || Idle(t, ithr) then d
    else
      var pr := PrSplit(p, t, ithr);
      if IdInGroup(t, ithr) >= pr.0 * pr.1 then d
      else SubGroupWork(p, t, g, ithr, pr.0, pr.1, d, sp)
  }

  /** The work of a thread that belongs to one of the `grps` sub-groups of `n` threads:
      sub-group `id / n` takes its `balance211` share of the group's jobs and the thread
      is number `id % n` in it. */
  function SubGroupWork(p: Params, t: Topology, g: Geometry, ithr: nat, grps: nat, n: nat,
                        d: seq<Elem>, sp: seq<Elem>): (r: seq<Elem>)
    requires p.Valid() && WellShaped(p, t) && GeometryFits(p, g) && !Idle(t, ithr)
    requires 1 <= grps && 1 <= n && IdInGroup(t, ithr) < grps * n
    ensures |r| == |d|
  {
    var id := IdInGroup(t, ithr);
    QuotientBelow(id, grps, n);
    var myGrp := Quotient(id, n);
    var njobs := GrpNjobs(p, t, GroupId(t, ithr));
    Balance211Contract(njobs, grps, myGrp);
    var jobs := Balance211(njobs, grps, myGrp);
    JobsWork(p, t, g, ithr, n, Remainder(id, n), jobs.0, jobs.1, d, sp)
  }

  /** The rows of a tile no larger than a job fit one job's stretch of a slot. */
  lemma RowSpan(ny: nat, nx: nat, jsy: nat, jsx: nat)
    requires 1 <= ny <= jsy && nx <= jsx
    ensures (ny - 1) * jsx + nx <= jsx * jsy
  {
    assert ny * jsx == (ny - 1) * jsx + jsx;
    MulLe(ny, jsy, jsx);
  }

  /** Job `j < ub` of a slot of `ub` jobs ends within the slot. */
  lemma JobSpan(j: nat, ub: nat, jobSize: nat, within: nat)
    requires j < ub && within <= jobSize
    ensures j * jobSize + within <= ub * jobSize
  {
    MulLe(j + 1, ub, jobSize);
    assert (j + 1) * jobSize == j * jobSize + jobSize;
  }

  /** The last of group `grp`'s `k` slots ends within the space of `ngroups` groups. */
  lemma SlotSpan(grp: nat, ngroups: nat, k: nat, spt: nat, within: nat)
    requires grp < ngroups && 1 <= k && within <= spt
    ensures grp * k * spt + (k - 1) * spt + within <= ngroups * k * spt
  {
    assert (grp * k + k) * spt == grp * k * spt + k * spt;
    assert k * spt == (k - 1) * spt + spt;
    MulLe(grp + 1, ngroups, k);
    MulLe((grp + 1) * k, ngroups * k, spt);
  }

  /** Every job a working thread handles lies inside the destination, and its sources
      (in all the group's slots) inside the booked space. */
  lemma JobFits(p: Params, t: Topology, g: Geometry, ithr: nat, j: nat, dLen: nat, sLen: nat)
    requires p.Valid() && WellShaped(p, t) && GeometryFits(p, g) && !Idle(t, ithr)
    requires j < GrpNjobs(p, t, GroupId(t, ithr))
    requires t.nthrPerGroup > 1 && dLen >= g.dstX * g.dstY
    requires sLen >= InitScratchpad2D(p, t).value.spaceElems
    ensures var js := JobSite(p, t, g, ithr, j);
            TileFits(DrvConfig2D(p, t, g), g, dLen, sLen, js.tile, js.ny, js.nx)
  {
    var js := JobSite(p, t, g, ithr, j);
    MulLe(js.tile.startY + js.ny, g.dstY, g.dstX);
    JobSrcFits(p, t, g, ithr, j, sLen);
  }

  /** The sources of the last row of job `j`, in all the group's slots, lie within the
      reduction space. */
  lemma JobSrcFits(p: Params, t: Topology, g: Geometry, ithr: nat, j: nat, sLen: nat)
    requires p.Valid() && WellShaped(p, t) && GeometryFits(p, g) && !Idle(t, ithr)
    requires j < GrpNjobs(p, t, GroupId(t, ithr))
    requires t.nthrPerGroup > 1
    requires sLen >= InitScratchpad2D(p, t).value.spaceElems
    ensures var js := JobSite(p, t, g, ithr, j);
            SrcFits(DrvConfig2D(p, t, g), sLen, TileSrc(g, js.tile, js.ny - 1, 0), js.nx)
  {
    GroupJobsFit(p, t, ithr);
    var js := JobSite(p, t, g, ithr, j);
    LeaderSlot2D(t, ithr);
    SrcSpan(GroupId(t, ithr), t.ngroups, t.nthrPerGroup, t.njobsPerGroupUb, p.jobSize, j,
            js.ny, js.nx, g.jobSizeY, g.jobSizeX);
  }

  /** Slot `k - 1` of group `grp`, job `j`, row `ny - 1`, up to column `nx`, is inside the
      `ngroups * k` slots of `ub * jobSize` elements. */
  lemma SrcSpan(grp: nat, ngroups: nat, k: nat, ub: nat, jobSize: nat, j: nat, ny: nat,
                nx: nat, jsy: nat, jsx: nat)
    requires grp < ngroups && 1 <= k && j < ub && jobSize == jsx * jsy
    requires 1 <= ny <= jsy && nx <= jsx
    ensures grp * k * (ub * jobSize) + j * jobSize + (ny - 1) * jsx + (k - 1) * (ub * jobSize) + nx
            <= ngroups * k * (ub * jobSize)
  {
    RowSpan(ny, nx, jsy, jsx);
    var within := (ny - 1) * jsx + nx;
    JobSpan(j, ub, jobSize, within);
    SlotSpan(grp, ngroups, k, ub * jobSize, j * jobSize + within);
  }

  /** `cpu_reducer_2d_t`: the balancer's outcome, the geometry and, with more than one
      thread per group, the driver. */
  class Reducer2D {
    const p: Params
    const t: Topology
    const g: Geometry
    const drv: Driver?

    predicate Valid() {
      && p.Valid() && WellShaped(p, t) && GeometryFits(p, g)
      && (t.nthrPerGroup == 1 <==> drv == null)
      && (drv != null ==> drv.Config() == DrvConfig2D(p, t, g))
    }

    /** With more than one thread per group: the driver is there, built for this
        reducer. */
    predicate Driven() {
      && t.nthrPerGroup > 1 && drv != null && drv.Config() == DrvConfig2D(p, t, g)
    }

    /** The constructor: no driver with one thread per group, otherwise one summing the
        group's `nthr_per_group` slots. */
    constructor (b: ReduceBalancer, g: Geometry)
      requires b.Inputs().Valid() && b.Topo() == BalanceSpec(b.Inputs())
      requires GeometryFits(b.Inputs(), g)
      ensures Valid() && p == b.Inputs() && t == b.Topo() && this.g == g
    {
      var p0, t0 := b.Inputs(), b.Topo();
      BalancedShape(p0, t0);
      p, t, this.g := p0, t0, g;
      if t0.nthrPerGroup == 1 {
        drv := null;
      } else {
        drv := new Driver(t0.nthrPerGroup, SpacePerThread(p0, t0), g.jobSizeX, g.dstX, true);
      }
    }

    /** `choose_x_blocking(nx, ny, nthr_per_grp)`. */
    method ChooseXBlocking(nx: nat, ny: nat, nthrPerGrp: nat) returns (r: nat)
      requires g.xBlock > 0 && nx >= g.xBlock && nx % g.xBlock == 0 && ny > 0
      ensures r == XBlockingSpec(g.xBlock, nx, ny, nthrPerGrp)
      ensures r > 0 && nx % r == 0
    {
      XBlockingProps(g.xBlock, nx, ny, nthrPerGrp);
      var xBlocking := Quotient(nx, g.xBlock);
      DivLowerBound(nx, g.xBlock, 1);
      var minXBlocking := DivUp(xBlocking, Max(1, nthrPerGrp / ny));
      assert minXBlocking == MinXBlocks(nx / g.xBlock, ny, nthrPerGrp);
      while true
        invariant xBlocking > 0
        invariant Shrink(xBlocking, minXBlocking) == Shrink(nx / g.xBlock, minXBlocking)
        decreases xBlocking
      {
        if xBlocking % 2 == 0 && xBlocking >= minXBlocking * 2 {
          xBlocking := xBlocking / 2;
        } else if xBlocking % 3 == 0 && xBlocking >= minXBlocking * 3 {
          xBlocking := xBlocking / 3;
        } else {
          break;
        }
      }
      if xBlocking >= minXBlocking * 4 {
        xBlocking := 1;
      }
      r := xBlocking * g.xBlock;
    }

    /** `reduce_block(space_base, dst, job, start_y, start_x, ny_start, nx_start, ny_step,
        nx_step)`: the driver over `ny_step` rows of `nx_step` elements of the job's tile,
        from row `ny_start` and column `nx_start`. */
    method ReduceBlock(spaceBase: nat, dst: array<Elem>, space: array<Elem>, job: nat,
                       startY: nat, startX: nat, nyStart: nat, nxStart: nat,
                       nyStep: nat, nxStep: nat)
      requires Driven() && dst != space && nyStep >= 1
      requires RowsFit(DrvConfig2D(p, t, g), dst.Length, space.Length,
                       TileDst(g, Tile(startY, startX, spaceBase + job * p.jobSize), nyStart, nxStart),
                       TileSrc(g, Tile(startY, startX, spaceBase + job * p.jobSize), nyStart, nxStart),
                       nyStep, nxStep)
      modifies dst
      ensures dst[..] == DriveSpec(DrvConfig2D(p, t, g), old(dst[..]), space[..],
                                   TileDst(g, Tile(startY, startX, spaceBase + job * p.jobSize), nyStart, nxStart),
                                   TileSrc(g, Tile(startY, startX, spaceBase + job * p.jobSize), nyStart, nxStart),
                                   nyStep, nxStep)
    {
      var d := (startY + nyStart) * g.dstX + startX + nxStart;
      var sp := spaceBase + job * p.jobSize + nyStart * g.jobSizeX + nxStart;
      drv.Run(dst, d, space, sp, nyStep, nxStep);
    }

    /** Block (a) or block (c) of one job in `reduce_nolock`: a `reduce_block` call over
        one row, from position `nxy` to the end of its row or to `e`. */
    method PartialRow(spaceBase: nat, dst: array<Elem>, space: array<Elem>, job: nat,
                      startY: nat, startX: nat, ny: nat, nx: nat, nxy: nat, e: nat)
      returns (next: nat)
      requires Driven() && dst != space && nxy < e <= ny * nx
      requires TileFits(DrvConfig2D(p, t, g), g, dst.Length, space.Length,
                        Tile(startY, startX, spaceBase + job * p.jobSize), ny, nx)
      modifies dst
      ensures next == nxy + Min(nx - nxy % nx, e - nxy)
      ensures next % nx == 0 || next == e
      ensures Remaining(DrvConfig2D(p, t, g), g, dst[..], space[..],
                        Tile(startY, startX, spaceBase + job * p.jobSize), nx, next, e)
           == Remaining(DrvConfig2D(p, t, g), g, old(dst[..]), space[..],
                        Tile(startY, startX, spaceBase + job * p.jobSize), nx, nxy, e)
    {
      ghost var cfg := DrvConfig2D(p, t, g);
      ghost var tile := Tile(startY, startX, spaceBase + job * p.jobSize);
      var r := nxy / nx;
      var x := nxy % nx;
      var nxStep := Min(nx - x, e - nxy);
      PartialPlan(cfg, g, dst.Length, space.Length, tile, ny, nx, nxy, e, r, x, nxStep);
      ReduceBlock(spaceBase, dst, space, job, startY, startX, r, x, 1, nxStep);
      PartialRowStep(cfg, g, old(dst[..]), dst[..], space[..], tile, nx, nxy, e, r, x, nxStep);
      next := nxy + nxStep;
    }

    /** Block (b) of one job in `reduce_nolock`: a `reduce_block` call over all the whole
        rows between the start of a row at `nxy` and `e`. */
    method WholeRows(spaceBase: nat, dst: array<Elem>, space: array<Elem>, job: nat,
                     startY: nat, startX: nat, ny: nat, nx: nat, nxy: nat, e: nat)
      returns (next: nat)
      requires Driven() && dst != space && nxy + nx < e <= ny * nx
      requires TileFits(DrvConfig2D(p, t, g), g, dst.Length, space.Length,
                        Tile(startY, startX, spaceBase + job * p.jobSize), ny, nx)
      requires nxy % nx == 0
      modifies dst
      ensures next % nx == 0 && next <= e && e - next < nx
      ensures Remaining(DrvConfig2D(p, t, g), g, dst[..], space[..],
                        Tile(startY, startX, spaceBase + job * p.jobSize), nx, next, e)
           == Remaining(DrvConfig2D(p, t, g), g, old(dst[..]), space[..],
                        Tile(startY, startX, spaceBase + job * p.jobSize), nx, nxy, e)
    {
      ghost var cfg := DrvConfig2D(p, t, g);
      ghost var tile := Tile(startY, startX, spaceBase + job * p.jobSize);
      var r := nxy / nx;
      var nyStep := (e - nxy) / nx;
      RowsPlan(cfg, g, dst.Length, space.Length, tile, ny, nx, nxy, e, r, nyStep);
      ReduceBlock(spaceBase, dst, space, job, startY, startX, r, nxy % nx, nyStep, nx);
      FullRowsStep(cfg, g, old(dst[..]), dst[..], space[..], tile, nx, nxy, e, r, nyStep);
      next := nxy + nx * nyStep;
    }

    /** The three `reduce_block` calls of one job in `reduce_nolock`: the rest of the row
        that position `s` starts in, the whole rows after it, and the start of the row
        that `e` ends in. Together they reduce positions `[s, e)` of the tile. */
    method ReduceTile(spaceBase: nat, dst: array<Elem>, space: array<Elem>, job: nat,
                      startY: nat, startX: nat, ny: nat, nx: nat, s: nat, e: nat)
      requires Driven() && dst != space && s < e <= ny * nx
      requires TileFits(DrvConfig2D(p, t, g), g, dst.Length, space.Length,
                        Tile(startY, startX, spaceBase + job * p.jobSize), ny, nx)
      modifies dst
      ensures dst[..] == Remaining(DrvConfig2D(p, t, g), g, old(dst[..]), space[..],
                                   Tile(startY, startX, spaceBase + job * p.jobSize), nx, s, e)
    {
      var nxy := s;
      if nxy % nx != 0 {
        nxy := PartialRow(spaceBase, dst, space, job, startY, startX, ny, nx, nxy, e);
      }
      if e - nxy > nx {
        nxy := WholeRows(spaceBase, dst, space, job, startY, startX, ny, nx, nxy, e);
      }
      if e - nxy > 0 {
        nxy := PartialRow(spaceBase, dst, space, job, startY, startX, ny, nx, nxy, e);
      }
    }

    /** One pass of `reduce_nolock`'s job loop: job `j` of the group (global job
        `global_job_start + j`), its tile, its `x_blocking`, and the thread's share of the
        tile, reduced unless it is empty. */
    method ReduceJob(ithr: nat, dst: array<Elem>, space: array<Elem>, spaceBase: nat, j: nat,
                     globalJobStart: nat, njobsX: nat, prNthr: nat, prId: nat)
      requires Valid() && Driven() && dst != space && !Idle(t, ithr)
      requires j < GrpNjobs(p, t, GroupId(t, ithr)) && prId < prNthr
      requires spaceBase == GetLocalPtr2D(p, t, ithr - IdInGroup(t, ithr))
      requires globalJobStart == GrpJobOff(p, t, GroupId(t, ithr))
      requires njobsX == DivUp(g.dstX, g.jobSizeX)
      requires dst.Length >= g.dstX * g.dstY
      requires space.Length >= InitScratchpad2D(p, t).value.spaceElems
      modifies dst
      ensures dst[..] == JobWork(p, t, g, ithr, j, prNthr, prId, old(dst[..]), space[..])
    {
      var globalJob := globalJobStart + j;
      var jY := globalJob / njobsX;
      var jX := globalJob % njobsX;
      var startY := jY * g.jobSizeY;
      var startX := jX * g.jobSizeX;
      var ny := Min(g.dstY - startY, g.jobSizeY);
      var nx := Min(g.dstX - startX, g.jobSizeX);
      JobLocals(p, t, g, ithr, j, spaceBase, startY, startX, ny, nx, dst.Length, space.Length);
      var xBlocking := ChooseXBlocking(nx, ny, prNthr);
      var se := Balance211(Blocks(ny * nx, xBlocking), prNthr, prId);
      ShareLocals(g.xBlock, ny, nx, prNthr, prId, xBlocking, se.0, se.1);
      if se.0 == se.1 {
        JobDone(p, t, g, ithr, j, prNthr, prId, old(dst[..]), space[..], dst[..]);
        return;
      }
      ReduceTile(spaceBase, dst, space, j, startY, startX, ny, nx, se.0 * xBlocking,
                 se.1 * xBlocking);
      JobDone(p, t, g, ithr, j, prNthr, prId, old(dst[..]), space[..], dst[..]);
    }

    /** The job loop of `reduce_nolock`: jobs `lo .. hi - 1` of the group, in order. */
    method ReduceJobs(ithr: nat, dst: array<Elem>, space: array<Elem>, spaceBase: nat,
                      globalJobStart: nat, njobsX: nat, prNthr: nat, prId: nat, lo: nat, hi: nat)
      requires Valid() && Driven() && dst != space && !Idle(t, ithr)
      requires lo <= hi <= GrpNjobs(p, t, GroupId(t, ithr)) && prId < prNthr
      requires spaceBase == GetLocalPtr2D(p, t, ithr - IdInGroup(t, ithr))
      requires globalJobStart == GrpJobOff(p, t, GroupId(t, ithr))
      requires njobsX == DivUp(g.dstX, g.jobSizeX)
      requires dst.Length >= g.dstX * g.dstY
      requires space.Length >= InitScratchpad2D(p, t).value.spaceElems
      modifies dst
      ensures dst[..] == JobsWork(p, t, g, ithr, prNthr, prId, lo, hi, old(dst[..]), space[..])
    {
      var j := lo;
      while j < hi
        invariant lo <= j <= hi
        invariant JobsWork(p, t, g, ithr, prNthr, prId, j, hi, dst[..], space[..])
                  == JobsWork(p, t, g, ithr, prNthr, prId, lo, hi, old(dst[..]), space[..])
        decreases hi - j
      {
        ghost var before := dst[..];
        ReduceJob(ithr, dst, space, spaceBase, j, globalJobStart, njobsX, prNthr, prId);
        JobsStep(p, t, g, ithr, prNthr, prId, j, hi, before, dst[..], space[..]);
        j := j + 1;
      }
    }

    /** `reduce_nolock(ithr, dst, scratchpad)`: the group's jobs are divided between
        `pr_grps` sub-groups of `pr_nthr_per_grp` threads; every thread of a sub-group
        takes its share of each of the sub-group's jobs and sums the group's slots into
        the destination there. */
    method ReduceNolock(ithr: nat, dst: array<Elem>, space: array<Elem>)
      requires Valid() && dst != space
      requires dst.Length >= g.dstX * g.dstY
      requires t.nthrPerGroup > 1 ==> space.Length >= InitScratchpad2D(p, t).value.spaceElems
      modifies dst
      ensures dst[..] == NolockSpec2D(p, t, g, ithr, old(dst[..]), space[..])
    {
      if t.nthrPerGroup == 1 || Idle(t, ithr) {
        return;
      }
      var idInGrp := IdInGroup(t, ithr);
      var njobsInGrp := GrpNjobs(p, t, GroupId(t, ithr));
      var njobsX := DivUp(g.dstX, g.jobSizeX);
      var globalJobStart := GrpJobOff(p, t, GroupId(t, ithr));
      var spaceBase := GetLocalPtr2D(p, t, ithr - idInGrp);
      var prGrps := Min(njobsInGrp, t.nthrPerGroup);
      PrLocals(p, t, ithr, prGrps);
      var prNthrPerGrp := t.nthrPerGroup / prGrps;
      if idInGrp >= prGrps * prNthrPerGrp {
        return;
      }
      QuotientBelow(idInGrp, prGrps, prNthrPerGrp);
      var prMyGrp := Quotient(idInGrp, prNthrPerGrp);
      var prMyId := Remainder(idInGrp, prNthrPerGrp);
      var jobs := Balance211(njobsInGrp, prGrps, prMyGrp);
      Balance211Contract(njobsInGrp, prGrps, prMyGrp);
      ReduceJobs(ithr, dst, space, spaceBase, globalJobStart, njobsX, prNthrPerGrp, prMyId,
                 jobs.0, jobs.1);
      NolockJobs(p, t, g, ithr, old(dst[..]), space[..], prGrps, prNthrPerGrp, prMyGrp, prMyId,
                 jobs.0, jobs.1);
    }
  }

  /** The locals `reduce_nolock` computes for job `j` are the job's site, which fits. */
  lemma JobLocals(p: Params, t: Topology, g: Geometry, ithr: nat, j: nat, spaceBase: nat,
                  startY: int, startX: int, ny: int, nx: int, dLen: nat, sLen: nat)
    requires p.Valid() && WellShaped(p, t) && GeometryFits(p, g) && !Idle(t, ithr)
    requires j < GrpNjobs(p, t, GroupId(t, ithr)) && t.nthrPerGroup > 1
    requires spaceBase == GetLocalPtr2D(p, t, ithr - IdInGroup(t, ithr))
    requires var gj := GrpJobOff(p, t, GroupId(t, ithr)) + j;
             && startY == gj / DivUp(g.dstX, g.jobSizeX) * g.jobSizeY
             && startX == gj % DivUp(g.dstX, g.jobSizeX) * g.jobSizeX
    requires ny == Min(g.dstY - startY, g.jobSizeY) && nx == Min(g.dstX - startX, g.jobSizeX)
    requires dLen >= g.dstX * g.dstY && sLen >= InitScratchpad2D(p, t).value.spaceElems
    ensures 0 <= startY && 0 <= startX && 1 <= ny && g.xBlock <= nx && nx % g.xBlock == 0
    ensures JobSite(p, t, g, ithr, j) == Site(Tile(startY, startX, spaceBase + j * p.jobSize), ny, nx)
    ensures TileFits(DrvConfig2D(p, t, g), g, dLen, sLen,
                     Tile(startY, startX, spaceBase + j * p.jobSize), ny, nx)
  {
    JobFits(p, t, g, ithr, j, dLen, sLen);
  }

  /** `pr_grps` and `pr_nthr_per_grp` as `reduce_nolock` computes them. */
  lemma PrLocals(p: Params, t: Topology, ithr: nat, grps: int)
    requires p.Valid() && WellShaped(p, t) && t.nthrPerGroup > 1 && !Idle(t, ithr)
    requires grps == Min(GrpNjobs(p, t, GroupId(t, ithr)), t.nthrPerGroup)
    ensures grps >= 1 && (grps, t.nthrPerGroup / grps) == PrSplit(p, t, ithr)
  {
    GroupJobsFit(p, t, ithr);
  }

  /** Reducing job `lo` advances the fold over the jobs `[lo, hi)` by one job. */
  lemma JobsStep(p: Params, t: Topology, g: Geometry, ithr: nat, n: nat, id: nat, lo: nat,
                 hi: nat, before: seq<Elem>, after: seq<Elem>, sp: seq<Elem>)
    requires p.Valid() && WellShaped(p, t) && GeometryFits(p, g) && !Idle(t, ithr)
    requires lo < hi <= GrpNjobs(p, t, GroupId(t, ithr)) && id < n
    requires after == JobWork(p, t, g, ithr, lo, n, id, before, sp)
    ensures JobsWork(p, t, g, ithr, n, id, lo, hi, before, sp)
            == JobsWork(p, t, g, ithr, n, id, lo + 1, hi, after, sp)
  {
  }

  /** A working thread of a sub-group does exactly the work of its sub-group's jobs. */
  lemma NolockJobs(p: Params, t: Topology, g: Geometry, ithr: nat, d: seq<Elem>,
                   sp: seq<Elem>, grps: nat, n: nat, myGrp: nat, id: nat, lo: nat, hi: nat)
    requires p.Valid() && WellShaped(p, t) && GeometryFits(p, g)
    requires t.nthrPerGroup > 1 && !Idle(t, ithr)
    requires (grps, n) == PrSplit(p, t, ithr) && IdInGroup(t, ithr) < grps * n
    requires myGrp == Quotient(IdInGroup(t, ithr), n) && myGrp < grps
    requires id == Remainder(IdInGroup(t, ithr), n)
    requires (lo, hi) == Balance211(GrpNjobs(p, t, GroupId(t, ithr)), grps, myGrp)
    requires id < n && hi <= GrpNjobs(p, t, GroupId(t, ithr))
    ensures NolockSpec2D(p, t, g, ithr, d, sp) == JobsWork(p, t, g, ithr, n, id, lo, hi, d, sp)
  {
  }

  /** The thread's share as `reduce_nolock` computes it is `ShareOf`'s. */
  lemma ShareLocals(xBlock: nat, ny: nat, nx: nat, prNthr: nat, prId: nat, xb: nat,
                    s: nat, e: nat)
    requires xBlock > 0 && 1 <= ny && xBlock <= nx && nx % xBlock == 0 && prId < prNthr
    requires xb == XBlockingSpec(xBlock, nx, ny, prNthr) && xb > 0 && nx % xb == 0
    requires (s, e) == Balance211(Blocks(ny * nx, xb), prNthr, prId)
    ensures ShareOf(xBlock, ny, nx, prNthr, prId) == Share(xb, s * xb, e * xb)
    ensures s * xb <= e * xb <= ny * nx
    ensures s != e ==> s * xb < e * xb
  {
    ThreadShare(xb, ny, nx, prNthr, prId);
    Balance211Contract(Blocks(ny * nx, xb), prNthr, prId);
    ScaledStrict(s, e, xb);
  }

  lemma ScaledStrict(s: nat, e: nat, xb: nat)
    requires s <= e && xb > 0
    ensures s != e ==> s * xb < e * xb
  {
    if s != e {
      MulLe(s + 1, e, xb);
      assert (s + 1) * xb == s * xb + xb;
    }
  }

  /** The destination after the job's share of the tile has been reduced is `JobWork`. */
  lemma JobDone(p: Params, t: Topology, g: Geometry, ithr: nat, j: nat, prNthr: nat, prId: nat,
                d: seq<Elem>, sp: seq<Elem>, after: seq<Elem>)
    requires p.Valid() && WellShaped(p, t) && GeometryFits(p, g) && !Idle(t, ithr)
    requires j < GrpNjobs(p, t, GroupId(t, ithr)) && prId < prNthr
    requires var js := JobSite(p, t, g, ithr, j);
             var sh := ShareOf(g.xBlock, js.ny, js.nx, prNthr, prId);
             after == Remaining(DrvConfig2D(p, t, g), g, d, sp, js.tile, js.nx, sh.s, sh.e)
    ensures after == JobWork(p, t, g, ithr, j, prNthr, prId, d, sp)
  {
  }
}
