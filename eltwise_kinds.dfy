/** The closed enumerations the eltwise injector switches on: the algorithm kinds, the
    per-register routine `compute_body` dispatches to, the scratch-register counts, the
    constant groups `register_table_entries` pulls in (`need_t`) and the compare
    predicates `compute_cmp_mask` accepts. */
module EltwiseKinds {
  import opened Options

  /** The instruction sets the injector branches on (`cpu_isa_t`). The file instantiates
      the injector for `sve_512` only. */
  datatype Isa = Asimd | Sve256 | Sve512

  /** `alg_kind_t` values the injector handles. */
  datatype Alg =
    | Relu | ReluUseDstForBwd | Elu | EluUseDstForBwd | Tanh | TanhUseDstForBwd
    | Square | Abs | Sqrt | SqrtUseDstForBwd | Swish | Linear | BoundedRelu | SoftRelu
    | Logistic | LogisticUseDstForBwd | Exp | ExpUseDstForBwd | GeluTanh | Log | Clip
    | Pow | GeluErf | Round
  {
    /** The algorithm a `*_use_dst_for_bwd` kind is a variant of (itself otherwise). */
    function Base(): Alg
    {
      match this
      case ReluUseDstForBwd => Relu
      case EluUseDstForBwd => Elu
      case TanhUseDstForBwd => Tanh
      case SqrtUseDstForBwd => Sqrt
      case LogisticUseDstForBwd => Logistic
      case ExpUseDstForBwd => Exp
      case _ => this
    }
  }

  /** The per-register routines (`*_compute_vector_fwd` / `*_compute_vector_bwd`). */
  datatype Routine =
    | ReluZeroNsFwd | ReluFwd | EluFwd | TanhFwd | SquareFwd | AbsFwd | SqrtFwd | SwishFwd
    | LinearFwd | BoundedReluFwd | SoftReluFwd | LogisticFwd | ExpFwd | GeluTanhFwd | LogFwd
    | ClipFwd | PowFwd | GeluErfFwd | RoundFwd
    | ReluBwd | EluBwd | TanhBwd | SquareBwd | AbsBwd | SqrtBwd | LinearBwd | BoundedReluBwd
    | SoftReluBwd | LogisticBwd | ExpBwd | GeluTanhBwd | SwishBwd | LogBwd | ClipBwd | PowBwd
    | GeluErfBwd
  {
    predicate Forward()
    {
      this in {ReluZeroNsFwd, ReluFwd, EluFwd, TanhFwd, SquareFwd, AbsFwd, SqrtFwd, SwishFwd,
               LinearFwd, BoundedReluFwd, SoftReluFwd, LogisticFwd, ExpFwd, GeluTanhFwd,
               LogFwd, ClipFwd, PowFwd, GeluErfFwd, RoundFwd}
    }
  }

  /** The forward switch of `compute_body`; `relu` with `alpha == 0` takes the
      zero-negative-slope routine. */
  function ForwardRoutine(alg: Alg, alphaIsZero: bool): Routine
  {
    match alg
    case Relu | ReluUseDstForBwd => if alphaIsZero then ReluZeroNsFwd else ReluFwd
    case Elu | EluUseDstForBwd => EluFwd
    case Tanh | TanhUseDstForBwd => TanhFwd
    case Square => SquareFwd
    case Abs => AbsFwd
    case Sqrt | SqrtUseDstForBwd => SqrtFwd
    case Swish => SwishFwd
    case Linear => LinearFwd
    case BoundedRelu => BoundedReluFwd
    case SoftRelu => SoftReluFwd
    case Logistic | LogisticUseDstForBwd => LogisticFwd
    case Exp | ExpUseDstForBwd => ExpFwd
    case GeluTanh => GeluTanhFwd
    case Log => LogFwd
    case Clip => ClipFwd
    case Pow => PowFwd
    case GeluErf => GeluErfFwd
    case Round => RoundFwd
  }

  /** The backward switch of `compute_body`; `round` has no backward routine and lands on
      the `unsupported eltwise algorithm` default. */
  function BackwardRoutine(alg: Alg): Option<Routine>
  {
    match alg
    case Relu | ReluUseDstForBwd => Some(ReluBwd)
    case Elu | EluUseDstForBwd => Some(EluBwd)
    case Tanh | TanhUseDstForBwd => Some(TanhBwd)
    case Square => Some(SquareBwd)
    case Abs => Some(AbsBwd)
    case Sqrt | SqrtUseDstForBwd => Some(SqrtBwd)
    case Linear => Some(LinearBwd)
    case BoundedRelu => Some(BoundedReluBwd)
    case SoftRelu => Some(SoftReluBwd)
    case Logistic | LogisticUseDstForBwd => Some(LogisticBwd)
    case Exp | ExpUseDstForBwd => Some(ExpBwd)
    case GeluTanh => Some(GeluTanhBwd)
    case Swish => Some(SwishBwd)
    case Log => Some(LogBwd)
    case Clip => Some(ClipBwd)
    case Pow => Some(PowBwd)
    case GeluErf => Some(GeluErfBwd)
    case Round => None
  }

  /** The routine `compute_body` runs on each register, or `None` where it asserts. */
  function Dispatch(isFwd: bool, alg: Alg, alphaIsZero: bool): Option<Routine>
  {
    if isFwd then Some(ForwardRoutine(alg, alphaIsZero)) else BackwardRoutine(alg)
  }

  /** Every algorithm has a routine in each direction except backward `round`; the
      routine runs in the requested direction; a `*_use_dst_for_bwd` kind runs its base
      algorithm's routine; and the zero-slope `relu` routine is chosen exactly for forward
      `relu` with `alpha == 0`. */
  lemma DispatchProperties(isFwd: bool, alg: Alg, alphaIsZero: bool)
    ensures Dispatch(isFwd, alg, alphaIsZero).None? <==> !isFwd && alg == Round
    ensures Dispatch(isFwd, alg, alphaIsZero).Some? ==>
              Dispatch(isFwd, alg, alphaIsZero).value.Forward() == isFwd
    ensures Dispatch(isFwd, alg, alphaIsZero) == Dispatch(isFwd, alg.Base(), alphaIsZero)
    ensures Dispatch(isFwd, alg, alphaIsZero) == Some(ReluZeroNsFwd)
            <==> isFwd && alg.Base() == Relu && alphaIsZero
  {
  }

  /** Distinct base algorithms run distinct routines in each direction: the dispatch
      loses no algorithm. */
  lemma DispatchInjective(isFwd: bool, a: Alg, b: Alg, alphaIsZero: bool)
    requires a.Base() == a && b.Base() == b && a != b
    requires Dispatch(isFwd, a, alphaIsZero).Some?
    ensures Dispatch(isFwd, a, alphaIsZero) != Dispatch(isFwd, b, alphaIsZero)
  {
  }

  /** `aux_gprs_count()`: scratch general-purpose registers, needed only by the tanh
      family on `asimd`. */
  function AuxGprsCount(alg: Alg, isa: Isa): nat
  {
    match alg
    case TanhUseDstForBwd | Tanh | GeluTanh => if isa == Asimd then 4 else 0
    case _ => 0
  }

  /** Four scratch registers exactly for the tanh family on `asimd`, none otherwise; in
      particular none for the `sve_512` instantiation. */
  lemma AuxGprsCountCases(alg: Alg, isa: Isa)
    ensures AuxGprsCount(alg, isa) == 4 <==> isa == Asimd && alg.Base() in {Tanh, GeluTanh}
    ensures AuxGprsCount(alg, isa) != 4 ==> AuxGprsCount(alg, isa) == 0
    ensures isa == Sve512 ==> AuxGprsCount(alg, isa) == 0
  {
  }

  /** `aux_vecs_count()`: nine scratch vector registers for every algorithm and
      direction (the per-algorithm table is compiled out). */
  const AuxVecsCount: nat := 9

  /** The flags `need_t` sets from the algorithm kind. */
  datatype Need = Need(expAlg: bool, tanhAlg: bool, softReluAlg: bool, geluTanhAlg: bool,
                       geluErfAlg: bool, logAlg: bool)
  {
    predicate Exp() { expAlg || softReluAlg || geluErfAlg }
    predicate Tanh() { tanhAlg || geluTanhAlg }
    predicate SoftRelu() { softReluAlg }
    predicate GeluTanh() { geluTanhAlg }
    predicate GeluErf() { geluErfAlg }
    predicate Log() { logAlg }
  }

  /** The `need_t` constructor. */
  function NeedOf(alg: Alg): Need
  {
    var none := Need(false, false, false, false, false, false);
    match alg
    case EluUseDstForBwd | Elu | ExpUseDstForBwd | Exp | LogisticUseDstForBwd | Logistic
         | Swish => none.(expAlg := true)
    case GeluErf => none.(geluErfAlg := true)
    case GeluTanh => none.(geluTanhAlg := true)
    case Log => none.(logAlg := true)
    case SoftRelu => none.(softReluAlg := true)
    case TanhUseDstForBwd | Tanh => none.(tanhAlg := true)
    case _ => none
  }

  /** The constant groups `register_table_entries` may push (`scale`, `alpha` and `beta`
      come first and are not a group). */
  datatype TableGroup =
    | CommonValues | ExpConsts | ExpPolynomial | TanhConsts | TanhPolynomialTable
    | SoftReluConsts | SoftReluPolynomial | GeluTanhConsts | GeluErfConsts
    | GeluErfPolynomial | LogConsts | LogPolynomial | LogPredefinedValues

  /** The order of the `push_entries_of` calls. */
  const GroupOrder: seq<TableGroup> :=
    [CommonValues, ExpConsts, ExpPolynomial, TanhConsts, TanhPolynomialTable,
     SoftReluConsts, SoftReluPolynomial, GeluTanhConsts, GeluErfConsts, GeluErfPolynomial,
     LogConsts, LogPolynomial, LogPredefinedValues]

  /** The `need` test guarding the push of group `g`. */
  predicate Needed(n: Need, g: TableGroup)
  {
    match g
    case CommonValues => true
    case ExpConsts | ExpPolynomial => n.Exp()
    case TanhConsts | TanhPolynomialTable => n.Tanh()
    case SoftReluConsts | SoftReluPolynomial => n.SoftRelu()
    case GeluTanhConsts => n.GeluTanh()
    case GeluErfConsts | GeluErfPolynomial => n.GeluErf()
    case LogConsts | LogPolynomial | LogPredefinedValues => n.Log()
  }

  /** The groups a run of guarded pushes over `order` pushes, in order. */
  function Pushes(n: Need, order: seq<TableGroup>): seq<TableGroup>
  {
    if order == [] then []
    else (if Needed(n, order[0]) then [order[0]] else []) + Pushes(n, order[1..])
  }

  /** The groups pushed for `alg`, in push order. */
  function PushedGroups(alg: Alg): seq<TableGroup>
  {
    Pushes(NeedOf(alg), GroupOrder)
  }

  /** A guarded push sequence pushes exactly the needed groups of `order`, and pushes
      none twice when `order` names each once. */
  lemma {:induction false} PushesMembership(n: Need, order: seq<TableGroup>)
    ensures forall g :: g in Pushes(n, order) <==> g in order && Needed(n, g)
    ensures (forall i, j :: 0 <= i < j < |order| ==> order[i] != order[j]) ==>
            forall i, j :: 0 <= i < j < |Pushes(n, order)| ==> Pushes(n, order)[i] != Pushes(n, order)[j]
  {
    if order != [] {
      PushesMembership(n, order[1..]);
      var head := if Needed(n, order[0]) then [order[0]] else [];
      var rest := Pushes(n, order[1..]);
      assert Pushes(n, order) == head + rest;
      forall g ensures g in Pushes(n, order) <==> g in order && Needed(n, g) {
        assert g in order <==> g == order[0] || g in order[1..];
      }
      if forall i, j :: 0 <= i < j < |order| ==> order[i] != order[j] {
        assert forall i, j :: 0 <= i < j < |order[1..]| ==> order[1..][i] != order[1..][j] by {
          forall i, j | 0 <= i < j < |order[1..]| ensures order[1..][i] != order[1..][j] {
            assert order[1..][i] == order[i + 1] && order[1..][j] == order[j + 1];
          }
        }
        assert order[0] !in rest;
        forall i, j | 0 <= i < j < |head + rest|
          ensures (head + rest)[i] != (head + rest)[j]
        {
          if i < |head| {
            assert (head + rest)[j] == rest[j - |head|];
          } else {
            assert (head + rest)[i] == rest[i - |head|] && (head + rest)[j] == rest[j - |head|];
          }
        }
      }
    }
  }

  /** `need_t`'s flags by algorithm: the exp group for elu, exp, logistic, swish,
      soft_relu and gelu_erf (and their `use_dst_for_bwd` variants), the tanh group for
      tanh and gelu_tanh, and each of the others for its own algorithm only. */
  lemma NeedOfRules(alg: Alg)
    ensures NeedOf(alg).Exp() <==> alg.Base() in {Elu, Exp, Logistic, Swish, SoftRelu, GeluErf}
    ensures NeedOf(alg).Tanh() <==> alg.Base() in {Tanh, GeluTanh}
    ensures NeedOf(alg).SoftRelu() <==> alg == SoftRelu
    ensures NeedOf(alg).GeluTanh() <==> alg == GeluTanh
    ensures NeedOf(alg).GeluErf() <==> alg == GeluErf
    ensures NeedOf(alg).Log() <==> alg == Log
  {
  }

  /** The inclusion rules by algorithm: the exp constants and polynomial exactly for elu,
      exp, logistic, swish, soft_relu and gelu_erf (and their `use_dst_for_bwd`
      variants); the tanh tables exactly for tanh and gelu_tanh; the log tables exactly
      for log; the other groups exactly for their own algorithm. */
  lemma PushedGroupsRules(alg: Alg)
    ensures ExpConsts in PushedGroups(alg) <==> ExpPolynomial in PushedGroups(alg)
    ensures ExpConsts in PushedGroups(alg)
            <==> alg.Base() in {Elu, Exp, Logistic, Swish, SoftRelu, GeluErf}
    ensures TanhConsts in PushedGroups(alg) <==> TanhPolynomialTable in PushedGroups(alg)
    ensures TanhConsts in PushedGroups(alg) <==> alg.Base() in {Tanh, GeluTanh}
    ensures LogConsts in PushedGroups(alg) <==> LogPredefinedValues in PushedGroups(alg)
    ensures LogConsts in PushedGroups(alg) <==> alg == Log
    ensures GeluErfConsts in PushedGroups(alg) <==> alg == GeluErf
    ensures SoftReluConsts in PushedGroups(alg) <==> alg == SoftRelu
    ensures GeluTanhConsts in PushedGroups(alg) <==> alg == GeluTanh
  {
    PushedExactly(alg);
    InclusionRules(NeedOf(alg), PushedGroups(alg));
    NeedOfRules(alg);
  }

  /** The groups pushed for `alg` are exactly the ones its `need_t` asks for. */
  lemma PushedExactly(alg: Alg)
    ensures forall g :: g in PushedGroups(alg) <==> Needed(NeedOf(alg), g)
  {
    GroupOrderFacts();
    PushesMembership(NeedOf(alg), GroupOrder);
  }

  /** Any sequence that holds exactly the groups `n` asks for holds each group exactly
      when its `need` flag is set. */
  lemma InclusionRules(n: Need, pushed: seq<TableGroup>)
    requires forall g :: g in pushed <==> Needed(n, g)
    ensures ExpConsts in pushed <==> n.Exp()
    ensures ExpPolynomial in pushed <==> n.Exp()
    ensures TanhConsts in pushed <==> n.Tanh()
    ensures TanhPolynomialTable in pushed <==> n.Tanh()
    ensures LogConsts in pushed <==> n.Log()
    ensures LogPredefinedValues in pushed <==> n.Log()
    ensures GeluErfConsts in pushed <==> n.GeluErf()
    ensures SoftReluConsts in pushed <==> n.SoftRelu()
    ensures GeluTanhConsts in pushed <==> n.GeluTanh()
  {
  }

  /** The common values are pushed first, and no group is pushed twice. */
  lemma PushedGroupsOrder(alg: Alg)
    ensures |PushedGroups(alg)| > 0 && PushedGroups(alg)[0] == CommonValues
    ensures forall i, j :: 0 <= i < j < |PushedGroups(alg)| ==>
              PushedGroups(alg)[i] != PushedGroups(alg)[j]
  {
    var n := NeedOf(alg);
    GroupOrderFacts();
    PushesMembership(n, GroupOrder);
    assert Pushes(n, GroupOrder) == [CommonValues] + Pushes(n, GroupOrder[1..]);
  }

  /** Each group appears once in the push order, the common values first. */
  lemma GroupOrderFacts()
    ensures GroupOrder[0] == CommonValues
    ensures forall g :: g in GroupOrder
    ensures forall i, j :: 0 <= i < j < |GroupOrder| ==> GroupOrder[i] != GroupOrder[j]
  {
    forall g ensures g in GroupOrder {
      assert GroupOrder[GroupRank(g)] == g;
    }
    forall i, j | 0 <= i < j < |GroupOrder| ensures GroupOrder[i] != GroupOrder[j] {
      assert GroupRank(GroupOrder[i]) == i && GroupRank(GroupOrder[j]) == j;
    }
  }

  /** The position of a group in the push order. */
  function GroupRank(g: TableGroup): nat
  {
    match g
    case CommonValues => 0
    case ExpConsts => 1
    case ExpPolynomial => 2
    case TanhConsts => 3
    case TanhPolynomialTable => 4
    case SoftReluConsts => 5
    case SoftReluPolynomial => 6
    case GeluTanhConsts => 7
    case GeluErfConsts => 8
    case GeluErfPolynomial => 9
    case LogConsts => 10
    case LogPolynomial => 11
    case LogPredefinedValues => 12
  }

  /** The compares SVE offers (`fcmeq`, `fcmlt`, `fcmle`, `fcmne`, `fcmge`, `fcmgt`). */
  datatype Compare = Eq | Lt | Le | Ne | Ge | Gt

  /** The switch of `compute_cmp_mask` over the 32 `_cmp_*` predicate codes; the
      unordered, ordered, true and false codes (and any other value) are rejected. */
  function CmpMask(code: int): Option<Compare>
  {
    match code
    case 0 => Some(Eq)   // EQ_OQ
    case 1 => Some(Lt)   // LT_OS
    case 2 => Some(Le)   // LE_OS
    case 4 => Some(Ne)   // NEQ_UQ
    case 5 => Some(Ge)   // NLT_US
    case 6 => Some(Gt)   // NLE_US
    case 8 => Some(Eq)   // EQ_UQ
    case 9 => Some(Lt)   // NGE_US
    case 10 => Some(Le)  // NGT_US
    case 12 => Some(Ne)  // NEQ_OQ
    case 13 => Some(Ge)  // GE_OS
    case 14 => Some(Gt)  // GT_OS
    case 16 => Some(Eq)  // EQ_OS
    case 17 => Some(Lt)  // LT_OQ
    case 18 => Some(Le)  // LE_OQ
    case 20 => Some(Ne)  // NEQ_US
    case 21 => Some(Ge)  // NLT_UQ
    case 22 => Some(Gt)  // NLE_UQ
    case 24 => Some(Eq)  // EQ_US
    case 25 => Some(Lt)  // NGE_UQ
    case 26 => Some(Le)  // NGT_UQ
    case 28 => Some(Ne)  // NEQ_OS
    case 29 => Some(Ge)  // GE_OQ
    case 30 => Some(Gt)  // GT_OQ
    case _ => None       // UNORD_*, ORD_*, FALSE_*, TRUE_* and anything else
  }

  /** The compare a predicate code names by its three low bits: bit 3 (signalling or
      quiet, ordered or unordered) and bit 4 (the `_S`/`_Q` half of the table) do not
      change the compare chosen. */
  function CompareOfLowBits(low: int): Option<Compare>
  {
    match low
    case 0 => Some(Eq)
    case 1 => Some(Lt)
    case 2 => Some(Le)
    case 4 => Some(Ne)
    case 5 => Some(Ge)
    case 6 => Some(Gt)
    case _ => None
  }

  /** The 32-way switch agrees with the three-low-bit reference for every code; hence the
      rejected codes are exactly those `≡ 3 (mod 4)` and codes outside `[0, 32)`, and 24
      codes are accepted. */
  lemma CmpMaskByLowBits(code: int)
    ensures 0 <= code < 32 ==> CmpMask(code) == CompareOfLowBits(code % 8)
    ensures CmpMask(code).None? <==> code < 0 || code >= 32 || code % 4 == 3
  {
  }
}
