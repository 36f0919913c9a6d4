/** The JIT-generated reduction kernel `reducer_2d_driver_f_s_32_t` for SVE, as the
    loops it runs rather than the instructions it emits. A call `drv(dst, srcs, ny, nx)`
    walks `ny` rows; in each row it sums `n_src` source rows, `src_ld` elements apart,
    into the `nx` destination elements (which it first loads, or zeroes when the driver
    nullifies its destination), then steps `dst_step` and `src_step` elements to the
    next row. Elements are 32-bit: the s32 instantiation adds with wrap-around. */
module ReduceDriver {
  import opened IntUtil

  /** A 32-bit element as its unsigned bit pattern; the s32 instantiation reads the same
      pattern in two's complement, so its additions wrap modulo 2^32. */
  type Elem = x: int | 0 <= x < 0x1_0000_0000

  /** The lane addition (`add` on 32-bit lanes). */
  function Add(a: Elem, b: Elem): Elem {
    (a + b) % 0x1_0000_0000
  }

  /** Bytes per element (`sizeof(float)` or `sizeof(int32_t)`). */
  const TYPESIZE: nat := 4
  /** Bytes per SVE vector register for the 512-bit `sve` isa. */
  const VLEN: nat := 64
  /** Vector registers of the isa. */
  const N_VREGS: nat := 32

  /** `loop_x`'s three branches: how many registers each chunk loads, and how many bytes
      each load moves. */
  const NLOADS: seq<nat> := [N_VREGS / 2, 1, 1]
  const LOAD_LEN: seq<nat> := [VLEN, VLEN, TYPESIZE]

  /** The chunk of branch `b`, in elements. */
  function ChunkLen(b: nat): nat
    requires b < 3
  {
    NLOADS[b] * LOAD_LEN[b] / TYPESIZE
  }

  /** The chunks are 16 registers of 16 lanes, one register, one element. */
  lemma ChunkLens()
    ensures ChunkLen(0) == 256 && ChunkLen(1) == 16 && ChunkLen(2) == 1
    ensures forall b :: 0 <= b < 3 ==> NLOADS[b] * LOAD_LEN[b] == ChunkLen(b) * TYPESIZE
  {
  }

  /** What the driver is built with. */
  datatype DriverConfig = DriverConfig(
    nSrc: nat,
    srcLd: nat,
    srcStep: nat,
    dstStep: nat,
    nullifyDst: bool)

  /** The source element at `at`; the driver's preconditions keep every read within
      the buffer, so the zero past its end is never used by a call. */
  function Get(src: seq<Elem>, at: nat): Elem {
    if at < |src| then src[at] else 0
  }

  /** `acc + src[at] + src[at + ld] + ... + src[at + (n-1) * ld]`, added left to right as
      the kernel adds the sources one after the other. */
  function SrcSum(acc: Elem, src: seq<Elem>, at: nat, ld: nat, n: nat): Elem
    decreases n
  {
    if n == 0 then acc else SrcSum(Add(acc, Get(src, at)), src, at + ld, ld, n - 1)
  }

  /** The value the kernel stores for a destination element that held `prior` and whose
      first source element sits at `at`. */
  function Reduced(cfg: DriverConfig, prior: Elem, src: seq<Elem>, at: nat): Elem {
    SrcSum(if cfg.nullifyDst then 0 else prior, src, at, cfg.srcLd, cfg.nSrc)
  }

  /** The sources of a `len`-element stretch starting at `at` lie within `sLen`. */
  predicate SrcFits(cfg: DriverConfig, sLen: nat, at: nat, len: nat) {
    cfg.nSrc == 0 || at + (cfg.nSrc - 1) * cfg.srcLd + len <= sLen
  }

  /** Each of the `n` source stretches of `len` elements at `at, at + ld, ...` lies
      within `sLen`. */
  predicate SourcesFit(sLen: nat, at: nat, ld: nat, n: nat, len: nat)
    decreases n
  {
    n == 0 || (at + len <= sLen && SourcesFit(sLen, at + ld, ld, n - 1, len))
  }

  /** When the last source stretch fits, they all do. */
  lemma {:induction false} SrcFitsEach(cfg: DriverConfig, sLen: nat, at: nat, len: nat)
    requires SrcFits(cfg, sLen, at, len)
    ensures SourcesFit(sLen, at, cfg.srcLd, cfg.nSrc, len)
  {
    LastSourceFits(sLen, at, cfg.srcLd, cfg.nSrc, len);
  }

  lemma {:induction false} LastSourceFits(sLen: nat, at: nat, ld: nat, n: nat, len: nat)
    requires n == 0 || at + (n - 1) * ld + len <= sLen
    ensures SourcesFit(sLen, at, ld, n, len)
    decreases n
  {
    if n > 1 {
      ShiftRow(at, ld, n - 1);
      LastSourceFits(sLen, at + ld, ld, n - 1, len);
    }
  }

  /** `d` with the elements `[dAt + lo, dAt + hi)` reduced; element `dAt + i` takes its
      sources from `sAt + i`. */
  function RowSpec(cfg: DriverConfig, d: seq<Elem>, src: seq<Elem>, dAt: nat, sAt: nat,
                   lo: nat, hi: nat): (r: seq<Elem>)
    ensures |r| == |d|
    ensures forall j :: 0 <= j < |d| && !(dAt + lo <= j < dAt + hi) ==> r[j] == d[j]
  {
    seq(|d|, j requires 0 <= j < |d| =>
      if dAt + lo <= j < dAt + hi then Reduced(cfg, d[j], src, sAt + (j - dAt)) else d[j])
  }

  /** The rows `dOff, dOff + dst_step, ...` of `nx` elements each lie within `dLen`,
      and so do the sources of the rows `sOff, sOff + src_step, ...` within `sLen`. */
  predicate RowsFit(cfg: DriverConfig, dLen: nat, sLen: nat, dOff: nat, sOff: nat,
                    ny: nat, nx: nat)
    decreases ny
  {
    ny == 0 ||
    (&& dOff + nx <= dLen
     && SrcFits(cfg, sLen, sOff, nx)
     && RowsFit(cfg, dLen, sLen, dOff + cfg.dstStep, sOff + cfg.srcStep, ny - 1, nx))
  }

  /** It is enough that the last row and its sources fit. */
  lemma {:induction false} RowsFitFromLast(cfg: DriverConfig, dLen: nat, sLen: nat, dOff: nat,
                                           sOff: nat, ny: nat, nx: nat)
    requires ny > 0
    requires dOff + (ny - 1) * cfg.dstStep + nx <= dLen
    requires SrcFits(cfg, sLen, sOff + (ny - 1) * cfg.srcStep, nx)
    ensures RowsFit(cfg, dLen, sLen, dOff, sOff, ny, nx)
    decreases ny
  {
    if ny > 1 {
      ShiftRow(dOff, cfg.dstStep, ny - 1);
      ShiftRow(sOff, cfg.srcStep, ny - 1);
      RowsFitFromLast(cfg, dLen, sLen, dOff + cfg.dstStep, sOff + cfg.srcStep, ny - 1, nx);
    }
  }

  lemma ShiftRow(off: nat, step: nat, y: nat)
    requires y > 0
    ensures off + step + (y - 1) * step == off + y * step
  {
  }

  /** What a call `drv(dst, src, ny, nx)` leaves in the destination: the row at `dOff`
      reduced from the sources at `sOff`, then the remaining rows from one step further. */
  function DriveSpec(cfg: DriverConfig, d: seq<Elem>, src: seq<Elem>, dOff: nat, sOff: nat,
                     ny: nat, nx: nat): (r: seq<Elem>)
    ensures |r| == |d|
    decreases ny
  {
    if ny == 0 then d
    else
      DriveSpec(cfg, RowSpec(cfg, d, src, dOff, sOff, 0, nx), src,
                dOff + cfg.dstStep, sOff + cfg.srcStep, ny - 1, nx)
  }

  /** Reducing `[lo, mid)` and then `[mid, hi)` reduces `[lo, hi)`: every element is
      reduced from its own old value, once. */
  lemma RowSpecSplit(cfg: DriverConfig, d: seq<Elem>, src: seq<Elem>, dAt: nat, sAt: nat,
                     lo: nat, mid: nat, hi: nat)
    requires lo <= mid <= hi
    ensures RowSpec(cfg, RowSpec(cfg, d, src, dAt, sAt, lo, mid), src, dAt, sAt, mid, hi)
            == RowSpec(cfg, d, src, dAt, sAt, lo, hi)
  {
  }

  /** A chunk addressed from its own start is the same stretch of the row. */
  lemma RowSpecShift(cfg: DriverConfig, d: seq<Elem>, src: seq<Elem>, dAt: nat, sAt: nat,
                     x: nat, len: nat)
    ensures RowSpec(cfg, d, src, dAt + x, sAt + x, 0, len) == RowSpec(cfg, d, src, dAt, sAt, x, x + len)
  {
  }

  /** Reductions of two stretches that do not overlap give the same result in either
      order: each reads only its own destination elements and the sources. */
  lemma RowSpecCommute(cfg: DriverConfig, d: seq<Elem>, src: seq<Elem>,
                       dA: nat, sA: nat, loA: nat, hiA: nat,
                       dB: nat, sB: nat, loB: nat, hiB: nat)
    requires dA + hiA <= dB + loB || dB + hiB <= dA + loA
    ensures RowSpec(cfg, RowSpec(cfg, d, src, dA, sA, loA, hiA), src, dB, sB, loB, hiB)
            == RowSpec(cfg, RowSpec(cfg, d, src, dB, sB, loB, hiB), src, dA, sA, loA, hiA)
  {
  }

  /** Reducing the next `len` elements of a row whose first `x` are reduced leaves its
      first `x + len` reduced. */
  lemma ChunkStep(cfg: DriverConfig, d0: seq<Elem>, cur: seq<Elem>, after: seq<Elem>,
                  src: seq<Elem>, dAt: nat, sAt: nat, x: nat, len: nat)
    requires cur == RowSpec(cfg, d0, src, dAt, sAt, 0, x)
    requires after == RowSpec(cfg, cur, src, dAt + x, sAt + x, 0, len)
    ensures after == RowSpec(cfg, d0, src, dAt, sAt, 0, x + len)
  {
    RowSpecShift(cfg, cur, src, dAt, sAt, x, len);
    RowSpecSplit(cfg, d0, src, dAt, sAt, 0, x, x + len);
  }

  /** `j` is one of the elements `dOff + y * step + x` with `y < ny` and `x < nx`. */
  predicate InBlock(j: nat, dOff: nat, step: nat, ny: nat, nx: nat)
    decreases ny
  {
    ny > 0 && (dOff <= j < dOff + nx || InBlock(j, dOff + step, step, ny - 1, nx))
  }

  /** The driver writes nothing outside its `ny` by `nx` block. */
  lemma {:induction false} DriveOutsideUnchanged(cfg: DriverConfig, d: seq<Elem>, src: seq<Elem>,
                                                 dOff: nat, sOff: nat, ny: nat, nx: nat, j: nat)
    requires j < |d| && !InBlock(j, dOff, cfg.dstStep, ny, nx)
    ensures DriveSpec(cfg, d, src, dOff, sOff, ny, nx)[j] == d[j]
    decreases ny
  {
    if ny > 0 {
      var e := RowSpec(cfg, d, src, dOff, sOff, 0, nx);
      DriveOutsideUnchanged(cfg, e, src, dOff + cfg.dstStep, sOff + cfg.srcStep, ny - 1, nx, j);
    }
  }

  /** The driver writes nothing before its first row. */
  lemma {:induction false} DriveUnchangedBefore(cfg: DriverConfig, d: seq<Elem>, src: seq<Elem>,
                                                dOff: nat, sOff: nat, ny: nat, nx: nat, j: nat)
    requires j < dOff && j < |d|
    ensures DriveSpec(cfg, d, src, dOff, sOff, ny, nx)[j] == d[j]
    decreases ny
  {
    if ny > 0 {
      var e := RowSpec(cfg, d, src, dOff, sOff, 0, nx);
      DriveUnchangedBefore(cfg, e, src, dOff + cfg.dstStep, sOff + cfg.srcStep, ny - 1, nx, j);
    }
  }

  /** `rd` is the start of row `y` of rows `step` apart from `off`. */
  predicate OnRow(rd: nat, off: nat, step: nat, y: nat)
    decreases y
  {
    if y == 0 then rd == off else OnRow(rd, off + step, step, y - 1)
  }

  lemma {:induction false} OnRowIs(off: nat, step: nat, y: nat)
    ensures OnRow(off + y * step, off, step, y)
    decreases y
  {
    if y > 0 {
      ShiftRow(off, step, y);
      OnRowIs(off + step, step, y - 1);
    }
  }

  lemma {:induction false} OnRowAtLeast(rd: nat, off: nat, step: nat, y: nat)
    requires OnRow(rd, off, step, y)
    ensures off <= rd
    decreases y
  {
    if y > 0 {
      OnRowAtLeast(rd, off + step, step, y - 1);
    }
  }

  /** The element in row `y < ny`, column `x < nx` ends up reduced from its old value,
      from the sources of row `y`, provided the rows do not overlap. */
  lemma DrivePointwise(cfg: DriverConfig, d: seq<Elem>, src: seq<Elem>,
                       dOff: nat, sOff: nat, ny: nat, nx: nat, y: nat, x: nat)
    requires ny <= 1 || cfg.dstStep >= nx
    requires y < ny && x < nx && dOff + y * cfg.dstStep + x < |d|
    ensures DriveSpec(cfg, d, src, dOff, sOff, ny, nx)[dOff + y * cfg.dstStep + x]
            == Reduced(cfg, d[dOff + y * cfg.dstStep + x], src, sOff + y * cfg.srcStep + x)
  {
    OnRowIs(dOff, cfg.dstStep, y);
    OnRowIs(sOff, cfg.srcStep, y);
    RowPointwise(cfg, d, src, dOff, sOff, ny, nx, y, x, dOff + y * cfg.dstStep, sOff + y * cfg.srcStep);
  }

  /** `DrivePointwise` with the starts `rd`, `rs` of row `y` given by `OnRow`. */
  lemma {:induction false} RowPointwise(cfg: DriverConfig, d: seq<Elem>, src: seq<Elem>,
                                        dOff: nat, sOff: nat, ny: nat, nx: nat, y: nat, x: nat,
                                        rd: nat, rs: nat)
    requires ny <= 1 || cfg.dstStep >= nx
    requires y < ny && x < nx && rd + x < |d|
    requires OnRow(rd, dOff, cfg.dstStep, y) && OnRow(rs, sOff, cfg.srcStep, y)
    ensures DriveSpec(cfg, d, src, dOff, sOff, ny, nx)[rd + x] == Reduced(cfg, d[rd + x], src, rs + x)
    decreases ny
  {
    if y == 0 {
      FirstRowPointwise(cfg, d, src, dOff, sOff, ny, nx, x);
    } else {
      var step, sStep := cfg.dstStep, cfg.srcStep;
      assert OnRow(rd, dOff + step, step, y - 1) && OnRow(rs, sOff + sStep, sStep, y - 1);
      OnRowAtLeast(rd, dOff + step, step, y - 1);
      var e := RowSpec(cfg, d, src, dOff, sOff, 0, nx);
      RowPointwise(cfg, e, src, dOff + step, sOff + sStep, ny - 1, nx, y - 1, x, rd, rs);
      LaterRowPointwise(cfg, d, src, dOff, sOff, ny, nx, rd + x, rs + x);
    }
  }

  /** Row 0 is reduced by the first `RowSpec` and left alone by the later rows. */
  lemma FirstRowPointwise(cfg: DriverConfig, d: seq<Elem>, src: seq<Elem>,
                          dOff: nat, sOff: nat, ny: nat, nx: nat, x: nat)
    requires ny <= 1 || cfg.dstStep >= nx
    requires 0 < ny && x < nx && dOff + x < |d|
    ensures DriveSpec(cfg, d, src, dOff, sOff, ny, nx)[dOff + x] == Reduced(cfg, d[dOff + x], src, sOff + x)
  {
    var e := RowSpec(cfg, d, src, dOff, sOff, 0, nx);
    if ny > 1 {
      DriveUnchangedBefore(cfg, e, src, dOff + cfg.dstStep, sOff + cfg.srcStep, ny - 1, nx, dOff + x);
    }
  }

  /** An element past the first row is untouched by the first `RowSpec`, so what the
      remaining rows make of it is what the whole call makes of it. */
  lemma LaterRowPointwise(cfg: DriverConfig, d: seq<Elem>, src: seq<Elem>,
                          dOff: nat, sOff: nat, ny: nat, nx: nat, j: nat, sj: nat)
    requires 1 < ny && cfg.dstStep >= nx && dOff + cfg.dstStep <= j < |d|
    requires var e := RowSpec(cfg, d, src, dOff, sOff, 0, nx);
             DriveSpec(cfg, e, src, dOff + cfg.dstStep, sOff + cfg.srcStep, ny - 1, nx)[j]
             == Reduced(cfg, e[j], src, sj)
    ensures DriveSpec(cfg, d, src, dOff, sOff, ny, nx)[j] == Reduced(cfg, d[j], src, sj)
  {
  }

  /** `reducer_2d_driver_f_s_32_t`: a kernel specialised, once, for its configuration. */
  class Driver {
    const nSrc: nat
    const srcLd: nat
    const srcStep: nat
    const dstStep: nat
    const nullifyDst: bool

    function Config(): DriverConfig {
      DriverConfig(nSrc, srcLd, srcStep, dstStep, nullifyDst)
    }

    constructor (nSrc: nat, srcLd: nat, srcStep: nat, dstStep: nat, nullifyDst: bool)
      ensures Config() == DriverConfig(nSrc, srcLd, srcStep, dstStep, nullifyDst)
    {
      this.nSrc := nSrc;
      this.srcLd := srcLd;
      this.srcStep := srcStep;
      this.dstStep := dstStep;
      this.nullifyDst := nullifyDst;
    }

    /** The registers of one chunk of `loop_x` after loading (or zeroing) `len`
        destination elements and adding each source's `len` elements in turn. */
    method LoadAndAccumulate(dst: array<Elem>, dAt: nat, src: array<Elem>, sAt: nat, len: nat)
      returns (acc: seq<Elem>)
      requires dAt + len <= dst.Length && SrcFits(Config(), src.Length, sAt, len)
      ensures |acc| == len
      ensures forall i :: 0 <= i < len ==> acc[i] == Reduced(Config(), dst[dAt + i], src[..], sAt + i)
    {
      var sv := src[..];
      acc := if nullifyDst then seq(len, _ => 0) else dst[dAt..dAt + len];
      var s: nat := 0;
      var base: nat := sAt;
      SrcFitsEach(Config(), |sv|, sAt, len);
      while s < nSrc
        invariant s <= nSrc && |acc| == len
        invariant SourcesFit(|sv|, base, srcLd, nSrc - s, len)
        invariant forall i :: 0 <= i < len ==>
          SrcSum(acc[i], sv, base + i, srcLd, nSrc - s) == Reduced(Config(), dst[dAt + i], sv, sAt + i)
      {
        acc := seq(len, i requires 0 <= i < len && |acc| == len => Add(acc[i], sv[base + i]));
        base := base + srcLd;
        s := s + 1;
      }
    }

    /** One chunk of `loop_x`: the accumulated registers are stored back over the `len`
        destination elements. */
    method Chunk(dst: array<Elem>, dAt: nat, src: array<Elem>, sAt: nat, len: nat)
      requires dst != src
      requires dAt + len <= dst.Length && SrcFits(Config(), src.Length, sAt, len)
      modifies dst
      ensures dst[..] == RowSpec(Config(), old(dst[..]), src[..], dAt, sAt, 0, len)
    {
      var acc := LoadAndAccumulate(dst, dAt, src, sAt, len);
      for i := 0 to len
        invariant forall k :: 0 <= k < dst.Length && !(dAt <= k < dAt + i) ==> dst[k] == old(dst[k])
        invariant forall k :: 0 <= k < i ==> dst[dAt + k] == acc[k]
      {
        dst[dAt + i] := acc[i];
      }
      forall k | 0 <= k < dst.Length
        ensures dst[k] == RowSpec(Config(), old(dst[..]), src[..], dAt, sAt, 0, len)[k]
      {
        if dAt <= k < dAt + len {
          assert dst[k] == acc[k - dAt];
        }
      }
    }

    /** `loop_x`: cover the row with chunks of 256, then 16, then 1 elements. */
    method LoopX(dst: array<Elem>, dAt: nat, src: array<Elem>, sAt: nat, nx: nat)
      requires dst != src
      requires dAt + nx <= dst.Length && SrcFits(Config(), src.Length, sAt, nx)
      requires nSrc >= 1 || nx < ChunkLen(0)
      modifies dst
      ensures dst[..] == RowSpec(Config(), old(dst[..]), src[..], dAt, sAt, 0, nx)
    {
      var x: nat := 0;
      for b := 0 to 3
        invariant x <= nx
        invariant dst[..] == RowSpec(Config(), old(dst[..]), src[..], dAt, sAt, 0, x)
        invariant b > 0 ==> nx - x < ChunkLen(b - 1)
      {
        ghost var cur := dst[..];
        var x1 := LoopBranch(dst, dAt, src, sAt, nx, b, x);
        ChunkStep(Config(), old(dst[..]), cur, dst[..], src[..], dAt, sAt, x, x1 - x);
        x := x1;
      }
      ChunkLens();
    }

    /** Branch `b` of `loop_x`: while at least a chunk remains (the comparison is in bytes,
        on `nx` shifted left by two), reduce the next chunk of the row. */
    method LoopBranch(dst: array<Elem>, dAt: nat, src: array<Elem>, sAt: nat, nx: nat,
                      b: nat, x0: nat) returns (x: nat)
      requires dst != src && b < 3 && x0 <= nx
      requires dAt + nx <= dst.Length && SrcFits(Config(), src.Length, sAt, nx)
      requires b == 0 ==> nSrc >= 1 || nx - x0 < ChunkLen(0)
      modifies dst
      ensures x0 <= x <= nx && nx - x < ChunkLen(b)
      ensures dst[..] == RowSpec(Config(), old(dst[..]), src[..], dAt + x0, sAt + x0, 0, x - x0)
    {
      ChunkLens();
      var chunk := NLOADS[b] * LOAD_LEN[b] / TYPESIZE;
      x := x0;
      while (nx - x) * TYPESIZE >= NLOADS[b] * LOAD_LEN[b]
        invariant x0 <= x <= nx
        invariant dst[..] == RowSpec(Config(), old(dst[..]), src[..], dAt + x0, sAt + x0, 0, x - x0)
        decreases nx - x
      {
        assert chunk == ChunkLen(b) && x + chunk <= nx;
        ghost var cur := dst[..];
        Chunk(dst, dAt + x, src, sAt + x, chunk);
        ChunkStep(Config(), old(dst[..]), cur, dst[..], src[..], dAt + x0, sAt + x0, x - x0, chunk);
        x := x + chunk;
      }
    }

    /** `drv(dst, srcs, ny, nx)`: the row loop counts `ny` down to zero after each row, so
        it runs at least once. */
    method Run(dst: array<Elem>, dOff: nat, src: array<Elem>, sOff: nat, ny: nat, nx: nat)
      requires dst != src
      requires ny >= 1
      requires RowsFit(Config(), dst.Length, src.Length, dOff, sOff, ny, nx)
      requires nSrc >= 1 || nx < ChunkLen(0)
      modifies dst
      ensures dst[..] == DriveSpec(Config(), old(dst[..]), src[..], dOff, sOff, ny, nx)
    {
      var y: nat := 0;
      var dAt: nat := dOff;
      var sAt: nat := sOff;
      while y < ny
        invariant y <= ny
        invariant RowsFit(Config(), dst.Length, src.Length, dAt, sAt, ny - y, nx)
        invariant DriveSpec(Config(), dst[..], src[..], dAt, sAt, ny - y, nx)
                  == DriveSpec(Config(), old(dst[..]), src[..], dOff, sOff, ny, nx)
      {
        LoopX(dst, dAt, src, sAt, nx);
        dAt := dAt + dstStep;
        sAt := sAt + srcStep;
        y := y + 1;
      }
    }
  }

  /** `cpu_accumulator_1d_t`: a driver with one source, adding `src` into `dst`. */
  class Accumulator {
    const drv: Driver

    constructor ()
      ensures drv.Config() == DriverConfig(1, 0, 0, 0, false)
    {
      drv := new Driver(1, 0, 0, 0, false);
    }

    /** `accumulate(dst, src, size)`: `dst[i] += src[i]` for `i < size`, nothing else. */
    method Accumulate(dst: array<Elem>, src: array<Elem>, size: nat)
      requires drv.Config() == DriverConfig(1, 0, 0, 0, false)
      requires dst != src && size <= dst.Length && size <= src.Length
      modifies dst
      ensures forall i :: 0 <= i < size ==> dst[i] == Add(old(dst[i]), src[i])
      ensures forall i :: size <= i < dst.Length ==> dst[i] == old(dst[i])
    {
      ChunkLens();
      drv.Run(dst, 0, src, 0, 1, size);
      forall i | 0 <= i < size
        ensures dst[i] == Add(old(dst[i]), src[i])
      {
        DrivePointwise(drv.Config(), old(dst[..]), src[..], 0, 0, 1, size, 0, i);
      }
    }
  }
}
