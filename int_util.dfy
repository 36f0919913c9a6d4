/** Integer helpers shared by the reducer model: rounding-up division, min/max and
    the contiguous work split `balance211` that the reducer uses to divide `n` work
    items between the `team` members of a thread group. */
module IntUtil {

  function Min(a: int, b: int): (r: int)
    ensures r <= a && r <= b && (r == a || r == b)
  {
    if a < b then a else b
  }

  function Max(a: int, b: int): (r: int)
    ensures r >= a && r >= b && (r == a || r == b)
  {
    if a < b then b else a
  }

  /** Truncating division and its remainder, for natural operands. */
  function Quotient(a: nat, b: nat): nat
    requires b > 0
  {
    a / b
  }

  function Remainder(a: nat, b: nat): (r: nat)
    requires b > 0
    ensures r < b
  {
    a % b
  }

  /** `utils::div_up`: the quotient rounded towards +infinity. */
  function DivUp(a: nat, b: nat): (q: nat)
    requires b > 0
    ensures q * b >= a
    ensures q == 0 || (q - 1) * b < a
    ensures a > 0 ==> q > 0
  {
    var q := (a + b - 1) / b;
    assert q * b + (a + b - 1) % b == a + b - 1;
    q
  }

  /** `balance211(n, team, tid, start, end)`: thread `tid` of `team` gets the slice
      `[start, end)` of `[0, n)`; the first `T1` threads get one item more than the others. */
  function Balance211(n: nat, team: nat, tid: nat): (r: (nat, nat))
    requires tid < team
  {
    if team <= 1 || n == 0 then (0, n)
    else
      var n1 := DivUp(n, team);
      var n2 := n1 - 1;
      var t1 := n - n2 * team;
      var start := if tid <= t1 then tid * n1 else t1 * n1 + (tid - t1) * n2;
      var len := if tid < t1 then n1 else n2;
      (start, start + len)
  }

  lemma MulLe(a: int, b: int, c: nat)
    requires a <= b
    ensures a * c <= b * c
  {
    assert b * c - a * c == (b - a) * c;
  }

  /** Truncating division never overshoots: `(a / b) * b <= a`, and `a / b <= a`. */
  lemma DivMulLe(a: nat, b: nat)
    requires b > 0
    ensures (a / b) * b <= a
    ensures a / b <= a
  {
    assert a == (a / b) * b + a % b;
    MulLe(1, b, a / b);
  }

  /** `a / q` is at least `k` whenever `k` copies of `q` fit in `a`. */
  lemma DivLowerBound(a: nat, q: nat, k: nat)
    requires q > 0 && q * k <= a
    ensures a / q >= k
  {
    if a / q < k {
      assert a == q * (a / q) + a % q;
      MulLe(a / q + 1, k, q);
      assert false;
    }
  }

  /** Division and remainder recover the quotient and remainder they were built from. */
  lemma DivModOf(q: nat, k: nat, r: nat)
    requires k > 0 && r < k
    ensures (q * k + r) / k == q
    ensures (q * k + r) % k == r
  {
    var a := q * k + r;
    assert a == (a / k) * k + a % k;
    if a / k > q {
      MulLe(q + 1, a / k, k);
      assert false;
    } else if a / k < q {
      MulLe(a / k + 1, q, k);
      assert false;
    }
  }

  /** Rounding up gives the truncated quotient, plus one when there is a remainder. */
  lemma DivUpVsDiv(a: nat, b: nat)
    requires b > 0
    ensures a / b <= DivUp(a, b)
    ensures a % b != 0 ==> a / b < DivUp(a, b)
  {
    var u := DivUp(a, b);
    assert a == (a / b) * b + a % b;
    if u < a / b {
      MulLe(u + 1, a / b, b);
    }
  }

  /** The number of threads that receive the larger share lies in `[1, team]`. */
  lemma Balance211Split(n: nat, team: nat)
    requires team > 1 && n > 0
    ensures var n1 := DivUp(n, team);
            var t1 := n - (n1 - 1) * team;
            n1 >= 1 && 1 <= t1 <= team
  {
    var n1 := DivUp(n, team);
    assert (n1 - 1) * team == n1 * team - team;
  }

  /** The slices are well formed, contiguous from one thread to the next, start at 0 and
      end at `n`. */
  lemma {:induction false} Balance211Contract(n: nat, team: nat, tid: nat)
    requires tid < team
    ensures Balance211(n, team, tid).0 <= Balance211(n, team, tid).1 <= n
    ensures tid == 0 ==> Balance211(n, team, tid).0 == 0
    ensures tid == team - 1 ==> Balance211(n, team, tid).1 == n
    ensures tid + 1 < team ==> Balance211(n, team, tid).1 == Balance211(n, team, tid + 1).0
  {
    if team <= 1 || n == 0 {
    } else {
      var n1 := DivUp(n, team);
      var n2 := n1 - 1;
      var t1 := n - n2 * team;
      Balance211Split(n, team);
      var r := Balance211(n, team, tid);
      if tid < t1 {
        assert r.0 == tid * n1 && r.1 == tid * n1 + n1;
        assert r.1 == (tid + 1) * n1;
        if tid + 1 < team {
          assert Balance211(n, team, tid + 1).0 == (tid + 1) * n1;
        }
        MulLe(tid + 1, t1, n1);
        assert t1 * n1 == t1 * n2 + t1;
        assert t1 * n2 + t1 <= n by {
          MulLe(t1, team, n2);
        }
      } else {
        assert r.0 == t1 * n1 + (tid - t1) * n2;
        assert r.1 == t1 * n1 + (tid + 1 - t1) * n2;
        if tid + 1 < team {
          assert Balance211(n, team, tid + 1).0 == t1 * n1 + (tid + 1 - t1) * n2;
        }
        assert t1 * n1 == t1 * n2 + t1;
        assert r.1 == t1 + (tid + 1) * n2;
        MulLe(tid + 1, team, n2);
        assert (tid + 1) * n2 <= team * n2;
        if tid == team - 1 {
          assert r.1 == t1 + team * n2;
        }
        if tid == t1 {
          assert r.0 == t1 * n1;
        }
      }
    }
  }

  /** Slices of different threads never overlap: an earlier thread's slice ends before
      a later thread's slice starts. */
  lemma {:induction false} Balance211Ordered(n: nat, team: nat, t: nat, u: nat)
    requires t < u < team
    ensures Balance211(n, team, t).1 <= Balance211(n, team, u).0
    decreases u - t
  {
    Balance211Contract(n, team, t);
    if t + 1 < u {
      Balance211Contract(n, team, t + 1);
      Balance211Ordered(n, team, t + 1, u);
    }
  }

  /** Every item of `[0, n)` belongs to the slice of some thread of the team. */
  lemma {:induction false} Balance211Owner(n: nat, team: nat, i: nat) returns (tid: nat)
    requires team > 0 && i < n
    ensures tid < team
    ensures Balance211(n, team, tid).0 <= i < Balance211(n, team, tid).1
  {
    tid := team - 1;
    Balance211Contract(n, team, tid);
    while i < Balance211(n, team, tid).0
      invariant tid < team
      invariant i < Balance211(n, team, tid).1
      decreases tid
    {
      Balance211Contract(n, team, tid);
      if tid == 0 {
        assert false;
      }
      Balance211Contract(n, team, tid - 1);
      tid := tid - 1;
    }
  }
}
