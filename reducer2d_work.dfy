/** What the threads of one sub-group achieve together on one job of the 2-D reducer:
    their shares of the tile's elements follow one another, so reducing them one after
    the other reduces the whole tile, every element from the sum of the group's slots. */
module CpuReducer2DWork {
  import opened IntUtil
  import opened ReduceDriver
  import opened CpuReducer2D

  /** Reducing the elements `[a, b)` of a tile and then `[b, c)` reduces `[a, c)`. */
  lemma {:induction false} RemainingSplit(cfg: DriverConfig, g: Geometry, d: seq<Elem>,
                                          sp: seq<Elem>, tile: Tile, nx: nat, a: nat, b: nat,
                                          c: nat)
    requires cfg.dstStep == g.dstX && cfg.srcStep == g.jobSizeX
    requires nx > 0 && a <= b <= c
    ensures Remaining(cfg, g, Remaining(cfg, g, d, sp, tile, nx, a, b), sp, tile, nx, b, c)
            == Remaining(cfg, g, d, sp, tile, nx, a, c)
    decreases b - a
  {
    if a == b {
      RemainingEmpty(cfg, g, d, sp, tile, nx, a);
    } else {
      var r, x := a / nx, a % nx;
      assert a == r * nx + x;
      var w := Min(nx - x, c - a);
      if Min(nx - x, b - a) == w {
        var dw := DriveSpec(cfg, d, sp, TileDst(g, tile, r, x), TileSrc(g, tile, r, x), 1, w);
        PartialRowStep(cfg, g, d, dw, sp, tile, nx, a, c, r, x, w);
        PartialRowStep(cfg, g, d, dw, sp, tile, nx, a, b, r, x, w);
        RemainingSplit(cfg, g, dw, sp, tile, nx, a + w, b, c);
      } else {
        SplitInRow(cfg, g, d, sp, tile, nx, a, b, c, r, x);
      }
    }
  }

  /** The split point `b` lies inside the row `a` starts in, before that row's end and
      before `c`: the two chunks of that row join. */
  lemma SplitInRow(cfg: DriverConfig, g: Geometry, d: seq<Elem>, sp: seq<Elem>, tile: Tile,
                   nx: nat, a: nat, b: nat, c: nat, r: nat, x: nat)
    requires cfg.dstStep == g.dstX && cfg.srcStep == g.jobSizeX
    requires x < nx && a == r * nx + x && a < b <= c
    requires Min(nx - x, b - a) != Min(nx - x, c - a)
    ensures Remaining(cfg, g, Remaining(cfg, g, d, sp, tile, nx, a, b), sp, tile, nx, b, c)
            == Remaining(cfg, g, d, sp, tile, nx, a, c)
  {
    InRowArith(nx, a, b, c, r * nx, x);
    var d1 := DriveSpec(cfg, d, sp, TileDst(g, tile, r, x), TileSrc(g, tile, r, x), 1, b - a);
    PartialRowStep(cfg, g, d, d1, sp, tile, nx, a, b, r, x, b - a);
    RemainingEmpty(cfg, g, d1, sp, tile, nx, b);
    RestOfRow(cfg, g, d, d1, sp, tile, nx, a, b, c, r, x);
  }

  /** After the chunk `[a, b)` of a row, the walk from `b` to `c` finishes what the walk
      from `a` to `c` would have done. */
  lemma RestOfRow(cfg: DriverConfig, g: Geometry, d: seq<Elem>, d1: seq<Elem>, sp: seq<Elem>,
                  tile: Tile, nx: nat, a: nat, b: nat, c: nat, r: nat, x: nat)
    requires cfg.dstStep == g.dstX && cfg.srcStep == g.jobSizeX
    requires x < nx && a == r * nx + x && a < b < c
    requires x + (b - a) < nx && b == r * nx + (x + (b - a))
    requires d1 == DriveSpec(cfg, d, sp, TileDst(g, tile, r, x), TileSrc(g, tile, r, x), 1, b - a)
    requires Min(nx - x, c - a) - (b - a) == Min(nx - (x + (b - a)), c - b)
    ensures Remaining(cfg, g, d1, sp, tile, nx, b, c) == Remaining(cfg, g, d, sp, tile, nx, a, c)
  {
    var w := Min(nx - x, c - a);
    var w1 := b - a;
    var w2 := w - w1;
    var dw := DriveSpec(cfg, d, sp, TileDst(g, tile, r, x), TileSrc(g, tile, r, x), 1, w);
    var d2 := DriveSpec(cfg, d1, sp, TileDst(g, tile, r, x + w1),
                        TileSrc(g, tile, r, x + w1), 1, w2);
    JoinChunks(cfg, g, d, d1, d2, dw, sp, tile, r, x, w1, w2);
    BothReachChunkEnd(cfg, g, d, d1, dw, sp, tile, nx, a, b, c, r, x, w, w1);
  }

  /** Driving `[a, a + w)` from `d`, or `[b, a + w)` from `d1`, gives the same state, so
      the walks to `c` from either agree. */
  lemma BothReachChunkEnd(cfg: DriverConfig, g: Geometry, d: seq<Elem>, d1: seq<Elem>,
                          dw: seq<Elem>, sp: seq<Elem>, tile: Tile, nx: nat, a: nat, b: nat,
                          c: nat, r: nat, x: nat, w: nat, w1: nat)
    requires cfg.dstStep == g.dstX && cfg.srcStep == g.jobSizeX
    requires x < nx && a == r * nx + x && a < b < c && w1 == b - a
    requires x + w1 < nx && b == r * nx + (x + w1)
    requires w == Min(nx - x, c - a) && w - w1 == Min(nx - (x + w1), c - b)
    requires dw == DriveSpec(cfg, d, sp, TileDst(g, tile, r, x), TileSrc(g, tile, r, x), 1, w)
    requires dw == DriveSpec(cfg, d1, sp, TileDst(g, tile, r, x + w1),
                             TileSrc(g, tile, r, x + w1), 1, w - w1)
    ensures Remaining(cfg, g, d1, sp, tile, nx, b, c) == Remaining(cfg, g, d, sp, tile, nx, a, c)
  {
    PartialRowStep(cfg, g, d, dw, sp, tile, nx, a, c, r, x, w);
    PartialRowStep(cfg, g, d1, dw, sp, tile, nx, b, c, r, x + w1, w - w1);
  }

  /** The column arithmetic of a chunk that stops inside a row before the row's end. */
  lemma InRowArith(nx: nat, a: nat, b: nat, c: nat, base: nat, x: nat)
    requires x < nx && a == base + x && a < b <= c
    requires Min(nx - x, b - a) != Min(nx - x, c - a)
    ensures x + (b - a) < nx && b < c && b == base + (x + (b - a))
    ensures Min(nx - x, c - a) - (b - a) == Min(nx - (x + (b - a)), c - b)
  {
  }

  /** Reducing no element changes nothing. */
  lemma RemainingEmpty(cfg: DriverConfig, g: Geometry, d: seq<Elem>, sp: seq<Elem>,
                       tile: Tile, nx: nat, a: nat)
    requires nx > 0
    ensures Remaining(cfg, g, d, sp, tile, nx, a, a) == d
  {
    assert a % nx < nx;
  }

  /** Two adjacent chunks of a row, reduced one after the other, are one chunk. */
  lemma JoinChunks(cfg: DriverConfig, g: Geometry, d: seq<Elem>, d1: seq<Elem>,
                   d2: seq<Elem>, dw: seq<Elem>, sp: seq<Elem>, tile: Tile, r: nat, x: nat,
                   w1: nat, w2: nat)
    requires d1 == DriveSpec(cfg, d, sp, TileDst(g, tile, r, x), TileSrc(g, tile, r, x), 1, w1)
    requires d2 == DriveSpec(cfg, d1, sp, TileDst(g, tile, r, x + w1),
                             TileSrc(g, tile, r, x + w1), 1, w2)
    requires dw == DriveSpec(cfg, d, sp, TileDst(g, tile, r, x), TileSrc(g, tile, r, x), 1,
                             w1 + w2)
    ensures d2 == dw
  {
    var dR, sR := TileDst(g, tile, r, 0), TileSrc(g, tile, r, 0);
    TileRows(g, tile, r, 0, x);
    TileRows(g, tile, r, 0, x + w1);
    OneRowDrive(cfg, g, d, d1, sp, tile, r, x, w1);
    OneRowDrive(cfg, g, d1, d2, sp, tile, r, x + w1, w2);
    OneRowDrive(cfg, g, d, dw, sp, tile, r, x, w1 + w2);
    RowSpecShift(cfg, d, sp, dR, sR, x, w1);
    RowSpecShift(cfg, d1, sp, dR, sR, x + w1, w2);
    RowSpecShift(cfg, d, sp, dR, sR, x, w1 + w2);
    RowSpecSplit(cfg, d, sp, dR, sR, x, x + w1, x + w1 + w2);
  }

  /** Reducing all `ny * nx` elements of a tile is the driver's pass over its `ny` rows
      of `nx` elements. */
  lemma WholeTile(cfg: DriverConfig, g: Geometry, d: seq<Elem>, sp: seq<Elem>, tile: Tile,
                  ny: nat, nx: nat)
    requires cfg.dstStep == g.dstX && cfg.srcStep == g.jobSizeX && nx > 0
    ensures Remaining(cfg, g, d, sp, tile, nx, 0, ny * nx)
            == DriveSpec(cfg, d, sp, TileDst(g, tile, 0, 0), TileSrc(g, tile, 0, 0), ny, nx)
  {
    var dR, sR := TileDst(g, tile, 0, 0), TileSrc(g, tile, 0, 0);
    TileRows(g, tile, 0, ny, 0);
    WalkRows(cfg, d, sp, dR, sR, nx, ny, ny * nx, 0, TileDst(g, tile, ny, 0),
             TileSrc(g, tile, ny, 0));
  }

  /** The end of the elements thread `id` of a sub-group of `prNthr` reduces; 0 before
      the first thread. */
  function ShareEnd(xBlock: nat, ny: nat, nx: nat, prNthr: nat, id: nat): nat
    requires xBlock > 0 && 1 <= ny && xBlock <= nx && nx % xBlock == 0 && id <= prNthr
  {
    if id == 0 then 0 else ShareOf(xBlock, ny, nx, prNthr, id - 1).e
  }

  /** The shares of a sub-group's threads follow one another and cover the tile: thread
      `id` starts where thread `id - 1` stopped, thread 0 starts at 0 and the last one
      stops at `ny * nx`. */
  lemma SharesTile(xBlock: nat, ny: nat, nx: nat, prNthr: nat, id: nat)
    requires xBlock > 0 && 1 <= ny && xBlock <= nx && nx % xBlock == 0 && id < prNthr
    ensures ShareOf(xBlock, ny, nx, prNthr, id).s == ShareEnd(xBlock, ny, nx, prNthr, id)
    ensures id == prNthr - 1 ==> ShareOf(xBlock, ny, nx, prNthr, id).e == ny * nx
  {
    XBlockingProps(xBlock, nx, ny, prNthr);
    var xb := XBlockingSpec(xBlock, nx, ny, prNthr);
    var q := Blocks(ny * nx, xb);
    var se := Balance211(q, prNthr, id);
    ShareLocals(xBlock, ny, nx, prNthr, id, xb, se.0, se.1);
    Balance211Contract(q, prNthr, id);
    if id > 0 {
      var prev := Balance211(q, prNthr, id - 1);
      ShareLocals(xBlock, ny, nx, prNthr, id - 1, xb, prev.0, prev.1);
      Balance211Contract(q, prNthr, id - 1);
    }
    if id == prNthr - 1 {
      MultipleScaled(nx, xb, ny);
      BlocksExact(ny * nx, xb);
    }
  }

  lemma BlocksExact(n: nat, xb: nat)
    requires xb > 0 && n % xb == 0
    ensures Blocks(n, xb) * xb == n
  {
    assert n == (n / xb) * xb + n % xb;
  }

  /** The destination after threads `0 .. m - 1` of a sub-group have each reduced their
      share of the tile, in that order. */
  function SharesWork(cfg: DriverConfig, g: Geometry, d: seq<Elem>, sp: seq<Elem>, tile: Tile,
                      xBlock: nat, ny: nat, nx: nat, prNthr: nat, m: nat): (r: seq<Elem>)
    requires xBlock > 0 && 1 <= ny && xBlock <= nx && nx % xBlock == 0 && m <= prNthr
    ensures |r| == |d|
    decreases m
  {
    if m == 0 then d
    else
      var sh := ShareOf(xBlock, ny, nx, prNthr, m - 1);
      Remaining(cfg, g, SharesWork(cfg, g, d, sp, tile, xBlock, ny, nx, prNthr, m - 1), sp,
                tile, nx, sh.s, sh.e)
  }

  /** After the first `m` threads of a sub-group, the tile is reduced up to where thread
      `m`'s share begins. */
  lemma {:induction false} SharesPrefix(cfg: DriverConfig, g: Geometry, d: seq<Elem>,
                                        sp: seq<Elem>, tile: Tile, xBlock: nat, ny: nat,
                                        nx: nat, prNthr: nat, m: nat)
    requires cfg.dstStep == g.dstX && cfg.srcStep == g.jobSizeX
    requires xBlock > 0 && 1 <= ny && xBlock <= nx && nx % xBlock == 0 && m <= prNthr
    ensures ShareEnd(xBlock, ny, nx, prNthr, m) <= ny * nx
    ensures SharesWork(cfg, g, d, sp, tile, xBlock, ny, nx, prNthr, m)
            == Remaining(cfg, g, d, sp, tile, nx, 0, ShareEnd(xBlock, ny, nx, prNthr, m))
    decreases m
  {
    if m == 0 {
      RemainingEmpty(cfg, g, d, sp, tile, nx, 0);
    } else {
      SharesPrefix(cfg, g, d, sp, tile, xBlock, ny, nx, prNthr, m - 1);
      SharesTile(xBlock, ny, nx, prNthr, m - 1);
      var sh := ShareOf(xBlock, ny, nx, prNthr, m - 1);
      RemainingSplit(cfg, g, d, sp, tile, nx, 0, sh.s, sh.e);
    }
  }

  /** All `pr_nthr_per_grp` threads of a sub-group, each reducing its share of a job in
      turn, reduce the job's whole tile: the driver's pass over its `ny` rows. */
  lemma SubGroupReducesTile(cfg: DriverConfig, g: Geometry, d: seq<Elem>, sp: seq<Elem>,
                            tile: Tile, xBlock: nat, ny: nat, nx: nat, prNthr: nat)
    requires cfg.dstStep == g.dstX && cfg.srcStep == g.jobSizeX
    requires xBlock > 0 && 1 <= ny && xBlock <= nx && nx % xBlock == 0 && prNthr > 0
    ensures SharesWork(cfg, g, d, sp, tile, xBlock, ny, nx, prNthr, prNthr)
            == DriveSpec(cfg, d, sp, TileDst(g, tile, 0, 0), TileSrc(g, tile, 0, 0), ny, nx)
  {
    SharesPrefix(cfg, g, d, sp, tile, xBlock, ny, nx, prNthr, prNthr);
    SharesTile(xBlock, ny, nx, prNthr, prNthr - 1);
    WholeTile(cfg, g, d, sp, tile, ny, nx);
  }

  /** Once the sub-group is done with a job, element `x` of row `y` of the tile holds the
      sum, over the slots of the group, of that element's partial results (the driver
      clears the destination first). */
  lemma SubGroupElement(cfg: DriverConfig, g: Geometry, d: seq<Elem>, sp: seq<Elem>,
                        tile: Tile, xBlock: nat, ny: nat, nx: nat, prNthr: nat, y: nat, x: nat)
    requires cfg.dstStep == g.dstX && cfg.srcStep == g.jobSizeX && cfg.nullifyDst
    requires xBlock > 0 && 1 <= ny && xBlock <= nx && nx % xBlock == 0 && prNthr > 0
    requires nx <= g.dstX && y < ny && x < nx && TileDst(g, tile, y, x) < |d|
    ensures SharesWork(cfg, g, d, sp, tile, xBlock, ny, nx, prNthr, prNthr)[TileDst(g, tile, y, x)]
            == SrcSum(0, sp, TileSrc(g, tile, y, x), cfg.srcLd, cfg.nSrc)
  {
    SubGroupReducesTile(cfg, g, d, sp, tile, xBlock, ny, nx, prNthr);
    TileRows(g, tile, 0, y, x);
    TileRows(g, tile, y, 0, x);
    DrivePointwise(cfg, d, sp, TileDst(g, tile, 0, 0), TileSrc(g, tile, 0, 0), ny, nx, y, x);
  }
}
