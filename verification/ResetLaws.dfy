/** What running a generated Reset does to memory, whatever the list of fields and
    whatever points where (cmd/reset/main.go). */
module ResetLaws {
  import opened Model
  import opened GoMemory
  import opened ResetGen

  // ---------- Emptier memory keeps its types and loses some of its pointers ----------

  lemma CellStaysTyped(t: Var, m: Mem, m': Mem)
    requires Milder(m, m')
    ensures Emptier(Cell(m, t), Cell(m', t))
  {
  }

  lemma FitsStays(f: FieldInfo, x: Var, m: Mem, m': Mem)
    requires Milder(m, m') && FieldFits(f, x, m)
    ensures FieldFits(f, x, m')
  {
    CellStaysTyped(x, m, m');
    if PointeeOf(x, m).Some? {
      CellStaysTyped(PointeeOf(x, m).value, m, m');
    }
  }

  ghost predicate Within(e: Effect, f: Effect) {
    e.zeroed <= f.zeroed && e.cut <= f.cut && e.cleared <= f.cleared
  }

  lemma EffectShrinks(f: FieldInfo, x: Var, m: Mem, m': Mem)
    requires Milder(m, m')
    ensures Within(LocalEffect(f, x, m'), LocalEffect(f, x, m))
    ensures Nested(f, x, m').None? || Nested(f, x, m') == Nested(f, x, m)
  {
    CellStaysTyped(x, m, m');
    if PointeeOf(x, m).Some? {
      CellStaysTyped(PointeeOf(x, m).value, m, m');
    }
  }

  lemma LessOfNothing(m: Mem, e: Effect, f: Effect)
    requires Within(e, f) && Touch(m, f) == m
    ensures Touch(m, e) == m
  {
    forall a | a in m.cells
      ensures Touch(m, e).cells[a] == m.cells[a]
    {
      assert Touch(m, f).cells[a] == m.cells[a];
    }
    forall o | o in m.maps
      ensures Touch(m, e).maps[o] == m.maps[o]
    {
      assert Touch(m, f).maps[o] == m.maps[o];
    }
  }

  lemma {:induction false} FieldsMakeMilder(prog: Program, fuel: nat, v: Var, k: nat, m: Mem)
    requires Shaped(prog, v) && k <= |v.fields| && ActFields(prog, fuel, v, k, m).Done?
    ensures Milder(m, ActFields(prog, fuel, v, k, m).mem)
    decreases fuel, k
  {
    if k > 0 {
      FieldsMakeMilder(prog, fuel, v, k - 1, m);
      var before := ActFields(prog, fuel, v, k - 1, m).mem;
      var f, x := prog[v.name][k - 1], v.fields[k - 1];
      FieldMakesMilder(prog, fuel, f, x, before);
      MilderTransitive(m, before, ActFields(prog, fuel, v, k, m).mem);
    }
  }

  lemma {:induction false} FieldMakesMilder(prog: Program, fuel: nat, f: FieldInfo, x: Var, m: Mem)
    requires ActField(prog, fuel, f, x, m).Done?
    ensures Milder(m, ActField(prog, fuel, f, x, m).mem)
    decreases fuel, 0
  {
    var t := Nested(f, x, m);
    if t.Some? {
      FieldsMakeMilder(prog, fuel - 1, t.value, |t.value.fields|, m);
    } else {
      TouchIsMilder(m, LocalEffect(f, x, m));
    }
  }

  // ---------- A reset that changes nothing goes on changing nothing ----------

  lemma {:induction false} FieldStaysSettled(prog: Program, fuel: nat, f: FieldInfo, x: Var, m: Mem, m': Mem)
    requires ActField(prog, fuel, f, x, m) == Done(m) && Milder(m, m')
    ensures ActField(prog, fuel, f, x, m') == Done(m')
    decreases fuel, 0
  {
    FitsStays(f, x, m, m');
    EffectShrinks(f, x, m, m');
    var t := Nested(f, x, m);
    if t.Some? && Nested(f, x, m').Some? {
      FieldsStaySettled(prog, fuel - 1, t.value, |t.value.fields|, m, m');
    } else if t.Some? {
      TouchNothing(m');
    } else {
      NoOpStaysNoOp(m, m', LocalEffect(f, x, m));
      LessOfNothing(m', LocalEffect(f, x, m'), LocalEffect(f, x, m));
    }
  }

  lemma {:induction false} FieldsStaySettled(prog: Program, fuel: nat, v: Var, k: nat, m: Mem, m': Mem)
    requires Shaped(prog, v) && k <= |v.fields| && ActFields(prog, fuel, v, k, m) == Done(m) && Milder(m, m')
    ensures ActFields(prog, fuel, v, k, m') == Done(m')
    decreases fuel, k
  {
    if k > 0 {
      var before := ActFields(prog, fuel, v, k - 1, m).mem;
      var f, x := prog[v.name][k - 1], v.fields[k - 1];
      FieldsMakeMilder(prog, fuel, v, k - 1, m);
      FieldMakesMilder(prog, fuel, f, x, before);
      MilderAntisymmetric(m, before);
      FieldsStaySettled(prog, fuel, v, k - 1, m, m');
      FieldStaysSettled(prog, fuel, f, x, m, m');
    }
  }

  // ---------- Idempotence ----------

  lemma {:induction false} FieldSettles(prog: Program, fuel: nat, f: FieldInfo, x: Var, m: Mem)
    requires ActField(prog, fuel, f, x, m).Done?
    ensures var m' := ActField(prog, fuel, f, x, m).mem; ActField(prog, fuel, f, x, m') == Done(m')
    decreases fuel, 0
  {
    var m' := ActField(prog, fuel, f, x, m).mem;
    FieldMakesMilder(prog, fuel, f, x, m);
    FitsStays(f, x, m, m');
    EffectShrinks(f, x, m, m');
    var t := Nested(f, x, m);
    if t.Some? {
      FieldsSettle(prog, fuel - 1, t.value, |t.value.fields|, m);
      TouchNothing(m');
    } else {
      var e := LocalEffect(f, x, m);
      TouchTwice(m, e, e);
      assert Both(e, e) == e;
      LessOfNothing(m', LocalEffect(f, x, m'), e);
    }
  }

  lemma {:induction false} FieldsSettle(prog: Program, fuel: nat, v: Var, k: nat, m: Mem)
    requires Shaped(prog, v) && k <= |v.fields| && ActFields(prog, fuel, v, k, m).Done?
    ensures var m' := ActFields(prog, fuel, v, k, m).mem; ActFields(prog, fuel, v, k, m') == Done(m')
    decreases fuel, k
  {
    if k > 0 {
      var before := ActFields(prog, fuel, v, k - 1, m).mem;
      var f, x := prog[v.name][k - 1], v.fields[k - 1];
      FieldsSettle(prog, fuel, v, k - 1, m);
      FieldSettles(prog, fuel, f, x, before);
      FieldMakesMilder(prog, fuel, f, x, before);
      FieldsStaySettled(prog, fuel, v, k - 1, before, ActFields(prog, fuel, v, k, m).mem);
    }
  }

  /** Running a generated Reset again changes nothing, even on receivers whose pointers
      lead into one another or back into the receiver. */
  lemma ResetIsIdempotent(prog: Program, fuel: nat, recv: Option<Var>, m: Mem)
    requires recv.Some? ==> ResetVar(prog, fuel, recv.value, m) != Stuck
    requires CallOn(prog, fuel, recv, m).Done?
    ensures var m' := CallOn(prog, fuel, recv, m).mem;
      Milder(m, m') && CallOn(prog, fuel, recv, m') == Done(m')
  {
    if recv.Some? {
      var v := recv.value;
      GeneratedResetIsCorrect(prog, fuel, v, m);
      FieldsMakeMilder(prog, fuel - 1, v, |v.fields|, m);
      FieldsSettle(prog, fuel - 1, v, |v.fields|, m);
      GeneratedResetIsCorrect(prog, fuel, v, CallOn(prog, fuel, recv, m).mem);
    }
  }

  // ---------- The state of each field afterwards ----------

  ghost predicate Zeroed(t: Var, m: Mem) {
    forall a :: a in Leaves(t) && a in m.cells ==> m.cells[a] == ZeroOf(m.cells[a])
  }

  /** What a reader of the field's description expects after a Reset. */
  ghost predicate KindIsReset(kind: Kind, t: Var, m: Mem) {
    match kind
    case KindSlice => Cell(m, t).SliceV? && Cell(m, t).len == 0
    case KindMap => Cell(m, t).MapV? && forall o :: o in Objects(m, t) && o in m.maps ==> m.maps[o] == map[]
    case KindChan | KindUnknown | KindPointer => true
    case _ => Zeroed(t, m)
  }

  /** A field with a Reset of its own, or a pointer to one, is reset field by field in turn;
      n bounds how deep that goes. */
  ghost predicate FieldIsReset(prog: Program, n: nat, f: FieldInfo, x: Var, m: Mem)
    decreases n, 1
  {
    if f.name == "" then true
    else if Nested(f, x, m).Some? then VarIsReset(prog, n, Nested(f, x, m).value, m)
    else if f.kind != KindPointer then KindIsReset(f.kind, x, m)
    else PointeeOf(x, m).Some? ==> KindIsReset(f.elemKind, PointeeOf(x, m).value, m)
  }

  ghost predicate VarIsReset(prog: Program, n: nat, v: Var, m: Mem)
    decreases n, 0
  {
    n > 0 && Shaped(prog, v) &&
    forall i :: 0 <= i < |v.fields| ==> FieldIsReset(prog, n - 1, prog[v.name][i], v.fields[i], m)
  }

  lemma NoOpMeansReset(kind: Kind, typeName: string, t: Var, m: Mem)
    requires KindFits(kind, typeName, t, m) && Touch(m, KindEffect(kind, t, m)) == m
    ensures KindIsReset(kind, t, m)
  {
    var e := KindEffect(kind, t, m);
    assert forall a :: a in m.cells ==> Touch(m, e).cells[a] == m.cells[a];
    assert forall o :: o in m.maps ==> Touch(m, e).maps[o] == m.maps[o];
  }

  lemma {:induction false} EachFieldSettled(prog: Program, fuel: nat, v: Var, k: nat, i: nat, m: Mem)
    requires Shaped(prog, v) && i < k <= |v.fields| && ActFields(prog, fuel, v, k, m) == Done(m)
    ensures ActField(prog, fuel, prog[v.name][i], v.fields[i], m) == Done(m)
    decreases k
  {
    var before := ActFields(prog, fuel, v, k - 1, m).mem;
    FieldsMakeMilder(prog, fuel, v, k - 1, m);
    FieldMakesMilder(prog, fuel, prog[v.name][k - 1], v.fields[k - 1], before);
    MilderAntisymmetric(m, before);
    if i < k - 1 {
      EachFieldSettled(prog, fuel, v, k - 1, i, m);
    }
  }

  lemma {:induction false} SettledFieldIsReset(prog: Program, fuel: nat, f: FieldInfo, x: Var, m: Mem)
    requires ActField(prog, fuel, f, x, m) == Done(m)
    ensures FieldIsReset(prog, fuel, f, x, m)
    decreases fuel, 1
  {
    if f.name != "" {
      if Nested(f, x, m).Some? {
        SettledVarIsReset(prog, fuel, Nested(f, x, m).value, m);
      } else if f.kind != KindPointer {
        NoOpMeansReset(f.kind, f.typeString, x, m);
      } else if PointeeOf(x, m).Some? {
        NoOpMeansReset(f.elemKind, f.elemType, PointeeOf(x, m).value, m);
      }
    }
  }

  /** What a further Reset leaves as it is has been reset, all the way down. */
  lemma {:induction false} SettledVarIsReset(prog: Program, fuel: nat, v: Var, m: Mem)
    requires ResetVar(prog, fuel, v, m) == Done(m)
    ensures VarIsReset(prog, fuel, v, m)
    decreases fuel, 0
  {
    forall i | 0 <= i < |v.fields|
      ensures FieldIsReset(prog, fuel - 1, prog[v.name][i], v.fields[i], m)
    {
      EachFieldSettled(prog, fuel - 1, v, |v.fields|, i, m);
      SettledFieldIsReset(prog, fuel - 1, prog[v.name][i], v.fields[i], m);
    }
  }

  /** After a Reset every field is in its reset state, whatever points where: scalars, arrays,
      plain structs, interfaces and funcs are zero, slices have length 0, maps are nil or empty,
      and so is what non-nil pointers lead to; and so are the fields of whatever has been
      reset by a call of its own, to any depth. */
  lemma FieldsAreReset(prog: Program, fuel: nat, v: Var, m: Mem)
    requires ResetVar(prog, fuel, v, m).Done?
    ensures RunReset(prog, fuel, v, m).Done?
    ensures VarIsReset(prog, fuel, v, RunReset(prog, fuel, v, m).mem)
  {
    GeneratedResetIsCorrect(prog, fuel, v, m);
    FieldsSettle(prog, fuel - 1, v, |v.fields|, m);
    SettledVarIsReset(prog, fuel, v, RunReset(prog, fuel, v, m).mem);
  }

  // ---------- Termination ----------

  /** Chains of nested Reset calls that start at v are shorter than n. */
  ghost predicate Depth(prog: Program, n: nat, v: Var, m: Mem)
    decreases n
  {
    n > 0 && Shaped(prog, v) &&
    forall i :: 0 <= i < |v.fields| ==>
      var t := Nested(prog[v.name][i], v.fields[i], m);
      t.Some? ==> Depth(prog, n - 1, t.value, m)
  }

  lemma {:induction false} DepthStays(prog: Program, n: nat, v: Var, m: Mem, m': Mem)
    requires Depth(prog, n, v, m) && Milder(m, m')
    ensures Depth(prog, n, v, m')
    decreases n
  {
    forall i | 0 <= i < |v.fields|
      ensures var t := Nested(prog[v.name][i], v.fields[i], m'); t.Some? ==> Depth(prog, n - 1, t.value, m')
    {
      var f, x := prog[v.name][i], v.fields[i];
      EffectShrinks(f, x, m, m');
      if Nested(f, x, m').Some? {
        DepthStays(prog, n - 1, Nested(f, x, m).value, m, m');
      }
    }
  }

  lemma {:induction false} FieldsTerminate(prog: Program, n: nat, v: Var, k: nat, m: Mem)
    requires Depth(prog, n + 1, v, m) && k <= |v.fields|
    ensures ActFields(prog, n, v, k, m) != OutOfFuel
    decreases n, k
  {
    if k > 0 {
      FieldsTerminate(prog, n, v, k - 1, m);
      if ActFields(prog, n, v, k - 1, m).Done? {
        var before := ActFields(prog, n, v, k - 1, m).mem;
        var t := Nested(prog[v.name][k - 1], v.fields[k - 1], before);
        FieldsMakeMilder(prog, n, v, k - 1, m);
        DepthStays(prog, n + 1, v, m, before);
        if t.Some? {
          assert Depth(prog, n, t.value, before);
          FieldsTerminate(prog, n - 1, t.value, |t.value.fields|, before);
          assert ResetVar(prog, n, t.value, before) != OutOfFuel;
        }
        assert ActField(prog, n, prog[v.name][k - 1], v.fields[k - 1], before) != OutOfFuel;
      }
    }
  }

  /** On pointer graphs without cycles of nested Reset calls the calls come to an end. */
  lemma ResetTerminates(prog: Program, n: nat, v: Var, m: Mem)
    requires Depth(prog, n, v, m)
    ensures ResetVar(prog, n, v, m) != OutOfFuel
  {
    FieldsTerminate(prog, n - 1, v, |v.fields|, m);
  }

  // ---------- Well-typed memory ----------

  /** Nested calls from the structs in `us` stay in `us`, and each field is of its described type. */
  ghost predicate WellTyped(prog: Program, us: set<Var>, m: Mem) {
    && (forall v :: v in us ==> Shaped(prog, v))
    && (forall v, i :: v in us && 0 <= i < |v.fields| ==> FieldTyped(us, prog[v.name][i], v.fields[i], m))
  }

  ghost predicate FieldTyped(us: set<Var>, f: FieldInfo, x: Var, m: Mem) {
    FieldFits(f, x, m) && (Nested(f, x, m).Some? ==> Nested(f, x, m).value in us)
  }

  lemma WellTypedStays(prog: Program, us: set<Var>, m: Mem, m': Mem)
    requires WellTyped(prog, us, m) && Milder(m, m')
    ensures WellTyped(prog, us, m')
  {
    forall v, i | v in us && 0 <= i < |v.fields|
      ensures FieldTyped(us, prog[v.name][i], v.fields[i], m')
    {
      assert FieldTyped(us, prog[v.name][i], v.fields[i], m);
      FitsStays(prog[v.name][i], v.fields[i], m, m');
      EffectShrinks(prog[v.name][i], v.fields[i], m, m');
    }
  }

  lemma {:induction false} FieldsNeverStuck(prog: Program, us: set<Var>, fuel: nat, v: Var, k: nat, m: Mem)
    requires WellTyped(prog, us, m) && v in us && k <= |v.fields|
    ensures ActFields(prog, fuel, v, k, m) != Stuck
    decreases fuel, k
  {
    if k > 0 {
      FieldsNeverStuck(prog, us, fuel, v, k - 1, m);
      if ActFields(prog, fuel, v, k - 1, m).Done? {
        var before := ActFields(prog, fuel, v, k - 1, m).mem;
        FieldsMakeMilder(prog, fuel, v, k - 1, m);
        WellTypedStays(prog, us, m, before);
        assert FieldTyped(us, prog[v.name][k - 1], v.fields[k - 1], before);
        var t := Nested(prog[v.name][k - 1], v.fields[k - 1], before);
        assert t.Some? ==> Shaped(prog, t.value);
        if t.Some? {
          if fuel > 0 {
            FieldsNeverStuck(prog, us, fuel - 1, t.value, |t.value.fields|, before);
          }
          assert ResetVar(prog, fuel, t.value, before) != Stuck;
        }
        assert ActField(prog, fuel, prog[v.name][k - 1], v.fields[k - 1], before) != Stuck;
      }
    }
  }

  /** On well-typed memory without cycles of nested calls the emitted code runs to its end. */
  lemma ResetRuns(prog: Program, us: set<Var>, n: nat, v: Var, m: Mem)
    requires WellTyped(prog, us, m) && v in us && Depth(prog, n, v, m)
    ensures ResetVar(prog, n, v, m).Done? && RunReset(prog, n, v, m) == ResetVar(prog, n, v, m)
  {
    FieldsNeverStuck(prog, us, n - 1, v, |v.fields|, m);
    ResetTerminates(prog, n, v, m);
    GeneratedResetIsCorrect(prog, n, v, m);
  }
}
