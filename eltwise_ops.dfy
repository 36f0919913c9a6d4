/** The code the eltwise injector emits around and inside `compute_vector_range`,
    abstracted to the operations whose order matters: stores and loads of general-purpose
    registers on the stack, the moves of the stack pointer around the vector save area,
    stores and loads of vector registers to the slots of that area, the table-address
    load, the per-register routine and the `scale` multiplication. Two small machines
    give the stack operations and the vector stores/loads their meaning. */
module EltwiseOps {
  import opened Options
  import opened EltwiseKinds
  import opened EltwiseRegs

  datatype Op =
      /** `str Xr, [sp, #-8]!`: lower the stack pointer by a word, then store. */
    | PushGpr(reg: nat)
      /** `ldr Xr, [sp, #8]!`: raise the stack pointer by a word, then load. */
    | LoadGprPre(reg: nat)
      /** `ldr Xr, [sp], #8`: load, then raise the stack pointer by a word. */
    | PopGpr(reg: nat)
      /** `sub_imm` / `add_imm` of the stack pointer. */
    | SubSp(bytes: nat)
    | AddSp(bytes: nat)
    | SaveVec(vreg: nat, slot: nat)
    | RestoreVec(vreg: nat, slot: nat)
    | LoadTableAddr
    | Apply(routine: Routine, target: nat)
    | ScaleBy(target: nat)

  function PushAll(regs: seq<nat>): seq<Op>
  {
    seq(|regs|, i requires 0 <= i < |regs| => PushGpr(regs[i]))
  }

  /** A load of `r` from the stack: pre-indexed or post-indexed. */
  function LoadOp(r: nat, preIndexed: bool): Op
  {
    if preIndexed then LoadGprPre(r) else PopGpr(r)
  }

  /** Loads of `regs` from the stack, one after the other. */
  function LoadRun(regs: seq<nat>, preIndexed: bool): seq<Op>
  {
    seq(|regs|, i requires 0 <= i < |regs| => LoadOp(regs[i], preIndexed))
  }

  /** Store `regs[i]` into slot `off + i`. */
  function SaveAll(regs: seq<nat>, off: nat): seq<Op>
  {
    seq(|regs|, i requires 0 <= i < |regs| => SaveVec(regs[i], off + i))
  }

  /** Load `regs[i]` from slot `off + i`. */
  function RestoreAll(regs: seq<nat>, off: nat): seq<Op>
  {
    seq(|regs|, i requires 0 <= i < |regs| => RestoreVec(regs[i], off + i))
  }

  function Reverse(s: seq<nat>): seq<nat>
  {
    seq(|s|, i requires 0 <= i < |s| => s[|s| - 1 - i])
  }

  /** Each sequence grows by one operation per register, in order. */
  lemma EmitSnoc(regs: seq<nat>, r: nat, off: nat)
    ensures PushAll(regs + [r]) == PushAll(regs) + [PushGpr(r)]
    ensures forall pre :: LoadRun(regs + [r], pre) == LoadRun(regs, pre) + [LoadOp(r, pre)]
    ensures SaveAll(regs + [r], off) == SaveAll(regs, off) + [SaveVec(r, off + |regs|)]
    ensures RestoreAll(regs + [r], off) == RestoreAll(regs, off) + [RestoreVec(r, off + |regs|)]
  {
    assert PushAll(regs + [r]) == PushAll(regs) + [PushGpr(r)];
    forall pre ensures LoadRun(regs + [r], pre) == LoadRun(regs, pre) + [LoadOp(r, pre)] {
      assert LoadRun(regs + [r], pre) == LoadRun(regs, pre) + [LoadOp(r, pre)];
    }
    assert SaveAll(regs + [r], off) == SaveAll(regs, off) + [SaveVec(r, off + |regs|)];
    assert RestoreAll(regs + [r], off) == RestoreAll(regs, off) + [RestoreVec(r, off + |regs|)];
  }

  lemma ConcatFour(o: seq<Op>, a: seq<Op>, b: seq<Op>, c: seq<Op>, d: seq<Op>)
    ensures o + (a + b + c + d) == o + a + b + c + d
  {
  }

  lemma ConcatFive(o: seq<Op>, a: seq<Op>, b: seq<Op>, c: seq<Op>, d: seq<Op>, e: seq<Op>)
    ensures o + (a + b + c + d + e) == o + a + b + c + d + e
  {
  }

  /** The explicit and the open-ended slices agree. */
  lemma WholeSlices(s: seq<nat>, t: nat)
    requires t <= |s|
    ensures s[t..|s|] == s[t..] && s[0..t] == s[..t]
  {
  }

  /** Reversing a suffix that starts one place earlier appends that place. */
  lemma ReverseSnoc(s: seq<nat>, j: nat)
    requires 0 < j <= |s|
    ensures Reverse(s[j - 1..]) == Reverse(s[j..]) + [s[j - 1]]
  {
    assert Reverse(s[j - 1..]) == Reverse(s[j..]) + [s[j - 1]];
  }

  // ---------------------------------------------------------------------------------
  // The stack of the general-purpose registers

  /** General-purpose register contents, the stack pointer (a byte address) and the
      64-bit words of memory by address. The vector save area lies below the words the
      preamble pushes, so the vector stores and loads do not touch them and are left to
      the second machine. */
  datatype Machine = Machine(gpr: map<nat, int>, sp: int, mem: map<int, int>)

  function ValueOf(f: map<nat, int>, r: nat): int
  {
    if r in f then f[r] else 0
  }

  function Word(mem: map<int, int>, a: int): int
  {
    if a in mem then mem[a] else 0
  }

  /** One operation on the machine, with the addressing of the instruction it stands
      for; the vector and arithmetic operations leave the machine alone. */
  function Step(m: Machine, op: Op): Machine
  {
    match op
    case PushGpr(r) => Machine(m.gpr, m.sp - 8, m.mem[m.sp - 8 := ValueOf(m.gpr, r)])
    case LoadGprPre(r) => Machine(m.gpr[r := Word(m.mem, m.sp + 8)], m.sp + 8, m.mem)
    case PopGpr(r) => Machine(m.gpr[r := Word(m.mem, m.sp)], m.sp + 8, m.mem)
    case SubSp(n) => Machine(m.gpr, m.sp - n, m.mem)
    case AddSp(n) => Machine(m.gpr, m.sp + n, m.mem)
    case _ => m
  }

  function Exec(m: Machine, ops: seq<Op>): Machine
    decreases |ops|
  {
    if ops == [] then m else Exec(Step(m, ops[0]), ops[1..])
  }

  lemma {:induction false} ExecAppend(m: Machine, a: seq<Op>, b: seq<Op>)
    ensures Exec(m, a + b) == Exec(Exec(m, a), b)
    decreases |a|
  {
    if a != [] {
      assert (a + b)[1..] == a[1..] + b;
      assert (a + b)[0] == a[0];
      ExecAppend(Step(m, a[0]), a[1..], b);
    } else {
      assert a + b == b;
    }
  }

  lemma ExecOne(m: Machine, op: Op)
    ensures Exec(m, [op]) == Step(m, op)
  {
    assert [op][1..] == [];
  }

  /** Operations that neither move the stack pointer nor touch the general-purpose
      registers or the stack. */
  predicate Inert(op: Op)
  {
    op.SaveVec? || op.RestoreVec? || op.LoadTableAddr? || op.Apply? || op.ScaleBy?
  }

  lemma {:induction false} ExecInert(m: Machine, ops: seq<Op>)
    requires forall i :: 0 <= i < |ops| ==> Inert(ops[i])
    ensures Exec(m, ops) == m
    decreases |ops|
  {
    if ops != [] {
      assert Inert(ops[0]);
      assert forall i :: 0 <= i < |ops[1..]| ==> ops[1..][i] == ops[i + 1];
      ExecInert(m, ops[1..]);
    }
  }

  /** Pushing `regs` stores the value of `regs[i]` in the word `8 * (i + 1)` bytes below
      the starting stack pointer and leaves the stack pointer below the last of them;
      the registers, and the memory at and above the starting stack pointer, are left
      alone. */
  lemma {:induction false} PushesLayout(m: Machine, regs: seq<nat>)
    ensures var p := Exec(m, PushAll(regs));
            && p.gpr == m.gpr && p.sp == m.sp - 8 * |regs|
            && (forall i :: 0 <= i < |regs| ==> Word(p.mem, m.sp - 8 * (i + 1)) == ValueOf(m.gpr, regs[i]))
            && (forall a :: a >= m.sp ==> Word(p.mem, a) == Word(m.mem, a))
  {
    if regs != [] {
      var init, last := regs[..|regs| - 1], regs[|regs| - 1];
      assert init + [last] == regs;
      PushesLayout(m, init);
      EmitSnoc(init, last, 0);
      var q := Exec(m, PushAll(init));
      ExecAppend(m, PushAll(init), [PushGpr(last)]);
      ExecOne(q, PushGpr(last));
      var p := Exec(m, PushAll(regs));
      assert p == Step(q, PushGpr(last));
      forall i | 0 <= i < |regs| ensures Word(p.mem, m.sp - 8 * (i + 1)) == ValueOf(m.gpr, regs[i]) {
        if i < |init| {
          assert regs[i] == init[i];
        }
      }
    }
  }

  /** Loading the distinct registers `rs` one after the other: `rs[i]` gets the word
      `8 * i` bytes above the starting stack pointer when each load reads before it
      moves the pointer, `8 * (i + 1)` bytes above when it moves the pointer first; the
      stack pointer rises by a word per load, the memory is unchanged, and the other
      registers keep their values. */
  lemma {:induction false} LoadsRead(q: Machine, rs: seq<nat>, preIndexed: bool)
    requires Distinct(rs)
    ensures var e := Exec(q, LoadRun(rs, preIndexed));
            && e.sp == q.sp + 8 * |rs| && e.mem == q.mem
            && (forall i :: 0 <= i < |rs| ==>
                  rs[i] in e.gpr && e.gpr[rs[i]] == Word(q.mem, q.sp + 8 * i + (if preIndexed then 8 else 0)))
            && (forall r :: r in q.gpr && r !in rs ==> r in e.gpr && e.gpr[r] == q.gpr[r])
  {
    if rs != [] {
      var init, last := rs[..|rs| - 1], rs[|rs| - 1];
      assert init + [last] == rs;
      assert Distinct(init) by {
        forall i, j | 0 <= i < j < |init| ensures init[i] != init[j] {
          assert init[i] == rs[i] && init[j] == rs[j];
        }
      }
      LoadsRead(q, init, preIndexed);
      EmitSnoc(init, last, 0);
      var e0 := Exec(q, LoadRun(init, preIndexed));
      ExecAppend(q, LoadRun(init, preIndexed), [LoadOp(last, preIndexed)]);
      ExecOne(e0, LoadOp(last, preIndexed));
      var e := Exec(q, LoadRun(rs, preIndexed));
      assert e == Step(e0, LoadOp(last, preIndexed));
      forall i | 0 <= i < |rs|
        ensures rs[i] in e.gpr && e.gpr[rs[i]] == Word(q.mem, q.sp + 8 * i + (if preIndexed then 8 else 0))
      {
        if i < |init| {
          assert rs[i] == init[i] && rs[i] != last;
        }
      }
    }
  }

  lemma ReverseDistinct(s: seq<nat>)
    requires Distinct(s)
    ensures Distinct(Reverse(s)) && |Reverse(s)| == |s|
    ensures forall x :: x in Reverse(s) <==> x in s
  {
    forall x | x in s ensures x in Reverse(s) {
      var k :| 0 <= k < |s| && s[k] == x;
      assert Reverse(s)[|s| - 1 - k] == x;
    }
  }

  /** Reloading pushed distinct registers in reverse: register `regs[k]` is reloaded
      from the word it was pushed to, or, with pre-indexed loads, from the word above
      it; the stack pointer returns to where it was before the pushes and registers
      that were not pushed keep their current values. */
  lemma ReloadedFrom(m: Machine, regs: seq<nat>, current: map<nat, int>, preIndexed: bool)
    requires Distinct(regs)
    ensures var pushed := Exec(m, PushAll(regs));
            var loaded := Exec(Machine(current, pushed.sp, pushed.mem), LoadRun(Reverse(regs), preIndexed));
            && loaded.sp == m.sp
            && (forall k :: 0 <= k < |regs| ==>
                  regs[k] in loaded.gpr
                  && loaded.gpr[regs[k]] == Word(pushed.mem, m.sp - 8 * (k + 1) + (if preIndexed then 8 else 0)))
            && (forall r :: r in current && r !in regs ==> r in loaded.gpr && loaded.gpr[r] == current[r])
  {
    var n := |regs|;
    PushesLayout(m, regs);
    var pushed := Exec(m, PushAll(regs));
    var q := Machine(current, pushed.sp, pushed.mem);
    ReverseDistinct(regs);
    LoadsRead(q, Reverse(regs), preIndexed);
    var loaded := Exec(q, LoadRun(Reverse(regs), preIndexed));
    forall k | 0 <= k < n
      ensures regs[k] in loaded.gpr
              && loaded.gpr[regs[k]] == Word(pushed.mem, m.sp - 8 * (k + 1) + (if preIndexed then 8 else 0))
    {
      var i := n - 1 - k;
      assert Reverse(regs)[i] == regs[k];
      assert q.sp + 8 * i == m.sp - 8 * (k + 1);
    }
  }

  /** Popping (post-indexed) distinct registers in the reverse of the order they were
      pushed, whatever happened to the registers in between, returns the stack pointer
      to where it was before the pushes and gives every pushed register its value from
      before the pushes; the other registers keep their current values. */
  lemma StackRoundTrip(m: Machine, regs: seq<nat>, current: map<nat, int>)
    requires Distinct(regs)
    ensures var pushed := Exec(m, PushAll(regs));
            var popped := Exec(Machine(current, pushed.sp, pushed.mem), LoadRun(Reverse(regs), false));
            && popped.sp == m.sp
            && (forall r :: r in regs ==> r in popped.gpr && popped.gpr[r] == ValueOf(m.gpr, r))
            && (forall r :: r in current && r !in regs ==> r in popped.gpr && popped.gpr[r] == current[r])
  {
    PushesLayout(m, regs);
    ReloadedFrom(m, regs, current, false);
    forall r | r in regs
      ensures var pushed := Exec(m, PushAll(regs));
              var popped := Exec(Machine(current, pushed.sp, pushed.mem), LoadRun(Reverse(regs), false));
              r in popped.gpr && popped.gpr[r] == ValueOf(m.gpr, r)
    {
      var k :| 0 <= k < |regs| && regs[k] == r;
    }
  }

  /** The same round trip with pre-indexed loads: each register gets the word above
      the one it was pushed to. The first register pushed gets the word at the
      starting stack pointer, which the pushes did not write; every later one gets the
      value of the register pushed just before it. */
  lemma StackLoadsShifted(m: Machine, regs: seq<nat>, current: map<nat, int>)
    requires Distinct(regs) && |regs| > 0
    ensures var pushed := Exec(m, PushAll(regs));
            var loaded := Exec(Machine(current, pushed.sp, pushed.mem), LoadRun(Reverse(regs), true));
            && loaded.sp == m.sp
            && regs[0] in loaded.gpr && loaded.gpr[regs[0]] == Word(m.mem, m.sp)
            && (forall k :: 1 <= k < |regs| ==>
                  regs[k] in loaded.gpr && loaded.gpr[regs[k]] == ValueOf(m.gpr, regs[k - 1]))
  {
    PushesLayout(m, regs);
    ReloadedFrom(m, regs, current, true);
    var pushed := Exec(m, PushAll(regs));
    var loaded := Exec(Machine(current, pushed.sp, pushed.mem), LoadRun(Reverse(regs), true));
    assert loaded.gpr[regs[0]] == Word(pushed.mem, m.sp - 8 * (0 + 1) + 8);
    assert Word(pushed.mem, m.sp) == Word(m.mem, m.sp);
    forall k | 1 <= k < |regs|
      ensures regs[k] in loaded.gpr && loaded.gpr[regs[k]] == ValueOf(m.gpr, regs[k - 1])
    {
      assert loaded.gpr[regs[k]] == Word(pushed.mem, m.sp - 8 * (k + 1) + 8);
      assert m.sp - 8 * (k + 1) + 8 == m.sp - 8 * ((k - 1) + 1);
    }
  }

  // ---------------------------------------------------------------------------------
  // Vector registers and the save area

  /** The register the last store into `slot` saved, if any. */
  function LastSaved(ops: seq<Op>, slot: nat): Option<nat>
  {
    if ops == [] then None
    else if ops[|ops| - 1].SaveVec? && ops[|ops| - 1].slot == slot then Some(ops[|ops| - 1].vreg)
    else LastSaved(ops[..|ops| - 1], slot)
  }

  predicate NoSaves(ops: seq<Op>)
  {
    forall i :: 0 <= i < |ops| ==> !ops[i].SaveVec?
  }

  predicate NoRestores(ops: seq<Op>)
  {
    forall i :: 0 <= i < |ops| ==> !ops[i].RestoreVec?
  }

  /** Every load from the save area reads back the register that was last stored into
      that slot: no register is reloaded with another register's saved contents. Loads
      in `ops` are checked against the stores in `prefix` and earlier in `ops`. */
  predicate RestoresMatchSaves(prefix: seq<Op>, ops: seq<Op>)
  {
    forall j :: 0 <= j < |ops| && ops[j].RestoreVec? ==>
      LastSaved(prefix + ops[..j], ops[j].slot) == Some(ops[j].vreg)
  }

  lemma {:induction false} LastSavedNoSaves(p: seq<Op>, q: seq<Op>, slot: nat)
    requires NoSaves(q)
    ensures LastSaved(p + q, slot) == LastSaved(p, slot)
  {
    if q != [] {
      var init := q[..|q| - 1];
      assert (p + q)[..|p + q| - 1] == p + init;
      assert (p + q)[|p + q| - 1] == q[|q| - 1];
      assert !q[|q| - 1].SaveVec?;
      assert NoSaves(init) by {
        forall i | 0 <= i < |init| ensures !init[i].SaveVec? {
          assert init[i] == q[i];
        }
      }
      LastSavedNoSaves(p, init, slot);
    } else {
      assert p + q == p;
    }
  }

  /** After a run of stores, a slot it wrote holds the register stored there; the others
      hold what they held before. */
  lemma {:induction false} LastSavedSaveAll(p: seq<Op>, regs: seq<nat>, off: nat, slot: nat)
    ensures LastSaved(p + SaveAll(regs, off), slot)
            == if off <= slot < off + |regs| then Some(regs[slot - off]) else LastSaved(p, slot)
  {
    if regs != [] {
      var init := regs[..|regs| - 1];
      assert SaveAll(regs, off) == SaveAll(init, off) + [SaveVec(regs[|regs| - 1], off + |init|)];
      var all := p + SaveAll(regs, off);
      assert all[..|all| - 1] == p + SaveAll(init, off);
      assert all[|all| - 1] == SaveVec(regs[|regs| - 1], off + |init|);
      LastSavedSaveAll(p, init, off, slot);
    } else {
      assert p + SaveAll(regs, off) == p;
    }
  }

  lemma RestoresMatchAppend(p: seq<Op>, a: seq<Op>, b: seq<Op>)
    requires RestoresMatchSaves(p, a) && RestoresMatchSaves(p + a, b)
    ensures RestoresMatchSaves(p, a + b)
  {
    forall j | 0 <= j < |a + b| && (a + b)[j].RestoreVec?
      ensures LastSaved(p + (a + b)[..j], (a + b)[j].slot) == Some((a + b)[j].vreg)
    {
      if j < |a| {
        assert (a + b)[..j] == a[..j];
      } else {
        assert p + (a + b)[..j] == (p + a) + b[..j - |a|];
      }
    }
  }

  lemma RestoresMatchFromStart(a: seq<Op>, b: seq<Op>)
    requires RestoresMatchSaves([], a) && RestoresMatchSaves(a, b)
    ensures RestoresMatchSaves([], a + b)
  {
    assert [] + a == a;
    RestoresMatchAppend([], a, b);
  }

  /** Stores load nothing, so they never reload a wrong register. */
  lemma StoresMatch(p: seq<Op>, regs: seq<nat>, off: nat)
    ensures RestoresMatchSaves(p, SaveAll(regs, off))
  {
  }

  /** A run of loads from slots `off ..` reads back the registers stored there. */
  lemma RestoreAllMatches(p: seq<Op>, regs: seq<nat>, off: nat)
    requires forall i :: 0 <= i < |regs| ==> LastSaved(p, off + i) == Some(regs[i])
    ensures RestoresMatchSaves(p, RestoreAll(regs, off))
  {
    var q := RestoreAll(regs, off);
    forall j | 0 <= j < |q| && q[j].RestoreVec?
      ensures LastSaved(p + q[..j], q[j].slot) == Some(q[j].vreg)
    {
      LastSavedNoSaves(p, q[..j], q[j].slot);
    }
  }

  // ---------------------------------------------------------------------------------
  // The bodies

  /** What `compute_body` emits for one register: the routine, then the multiplication by
      `scale` unless it is 1. */
  function PerRegister(r: Routine, scaleIsOne: bool, reg: nat): seq<Op>
  {
    [Apply(r, reg)] + (if scaleIsOne then [] else [ScaleBy(reg)])
  }

  /** What `compute_body` emits for the registers `regs`, in order. */
  function BodyOps(r: Routine, scaleIsOne: bool, regs: seq<nat>): seq<Op>
  {
    if regs == [] then []
    else BodyOps(r, scaleIsOne, regs[..|regs| - 1]) + PerRegister(r, scaleIsOne, regs[|regs| - 1])
  }

  /** The registers the routine is applied to, in emission order. */
  function Applied(ops: seq<Op>): seq<nat>
  {
    if ops == [] then []
    else Applied(ops[..|ops| - 1]) + (if ops[|ops| - 1].Apply? then [ops[|ops| - 1].target] else [])
  }

  lemma {:induction false} AppliedAppend(a: seq<Op>, b: seq<Op>)
    ensures Applied(a + b) == Applied(a) + Applied(b)
  {
    if b != [] {
      assert (a + b)[..|a + b| - 1] == a + b[..|b| - 1];
      assert (a + b)[|a + b| - 1] == b[|b| - 1];
      AppliedAppend(a, b[..|b| - 1]);
    } else {
      assert a + b == a;
    }
  }

  lemma {:induction false} AppliedNone(ops: seq<Op>)
    requires forall i :: 0 <= i < |ops| ==> !ops[i].Apply?
    ensures Applied(ops) == []
  {
    if ops != [] {
      AppliedNone(ops[..|ops| - 1]);
    }
  }

  /** The stack and save-area sequences apply no routine. */
  lemma StoresApplyNothing(regs: seq<nat>, off: nat)
    ensures Applied(PushAll(regs)) == [] && forall pre :: Applied(LoadRun(regs, pre)) == []
    ensures Applied(SaveAll(regs, off)) == [] && Applied(RestoreAll(regs, off)) == []
  {
    AppliedNone(PushAll(regs));
    forall pre ensures Applied(LoadRun(regs, pre)) == [] {
      AppliedNone(LoadRun(regs, pre));
    }
    AppliedNone(SaveAll(regs, off));
    AppliedNone(RestoreAll(regs, off));
  }

  lemma PerRegisterApplies(r: Routine, scaleIsOne: bool, reg: nat)
    ensures Applied(PerRegister(r, scaleIsOne, reg)) == [reg]
  {
    var scale: seq<Op> := if scaleIsOne then [] else [ScaleBy(reg)];
    assert PerRegister(r, scaleIsOne, reg) == [Apply(r, reg)] + scale;
    AppliedAppend([Apply(r, reg)], scale);
    AppliedNone(scale);
    assert Applied([Apply(r, reg)]) == [reg] by {
      assert [Apply(r, reg)][..0] == [];
    }
  }

  /** A body applies the routine to each of its registers once, in order. */
  lemma {:induction false} BodyApplies(r: Routine, scaleIsOne: bool, regs: seq<nat>)
    ensures Applied(BodyOps(r, scaleIsOne, regs)) == regs
  {
    if regs != [] {
      var init, last := regs[..|regs| - 1], regs[|regs| - 1];
      BodyApplies(r, scaleIsOne, init);
      PerRegisterApplies(r, scaleIsOne, last);
      AppliedAppend(BodyOps(r, scaleIsOne, init), PerRegister(r, scaleIsOne, last));
      assert init + [last] == regs;
    }
  }

  /** A body emits only routines and scale multiplications: it neither stores nor loads
      a vector register, nor touches the stack. */
  lemma {:induction false} BodyOpsKinds(r: Routine, scaleIsOne: bool, regs: seq<nat>)
    ensures forall i :: 0 <= i < |BodyOps(r, scaleIsOne, regs)| ==>
              BodyOps(r, scaleIsOne, regs)[i].Apply? || BodyOps(r, scaleIsOne, regs)[i].ScaleBy?
  {
    if regs != [] {
      BodyOpsKinds(r, scaleIsOne, regs[..|regs| - 1]);
    }
  }

  lemma BodyNoSaves(r: Routine, scaleIsOne: bool, regs: seq<nat>)
    ensures NoSaves(BodyOps(r, scaleIsOne, regs)) && NoRestores(BodyOps(r, scaleIsOne, regs))
  {
    BodyOpsKinds(r, scaleIsOne, regs);
  }
}
