/** The exact effect of a generated Reset: which leaves and map objects it touches, that it
    touches nothing else, and when its nested calls come to an end (cmd/reset/main.go). */
module ResetEffect {
  import opened Model
  import opened GoMemory
  import opened ResetGen
  import opened ResetLaws

  // ---------- What will be touched, read off the memory before the call ----------

  /** `guides` are the leaves whose content decides where the reset goes next. */
  datatype Plan = Plan(effect: Effect, guides: set<nat>)

  const NO_PLAN := Plan(NOTHING, {})

  function Join(p: Plan, q: Plan): Plan {
    Plan(Both(p.effect, q.effect), p.guides + q.guides)
  }

  function FieldGuides(f: FieldInfo, x: Var, m: Mem): set<nat> {
    if f.name == "" then {}
    else if f.kind == KindMap then Leaves(x)
    else if f.kind != KindPointer then {}
    else if f.elemKind == KindMap && PointeeOf(x, m).Some? then Leaves(x) + Leaves(PointeeOf(x, m).value)
    else Leaves(x)
  }

  function PlanField(prog: Program, n: nat, f: FieldInfo, x: Var, m: Mem): Plan
    decreases n, 1
  {
    var local := Plan(LocalEffect(f, x, m), FieldGuides(f, x, m));
    if Nested(f, x, m).Some? then Join(local, PlanVar(prog, n, Nested(f, x, m).value, m)) else local
  }

  function PlanFields(prog: Program, n: nat, v: Var, k: nat, m: Mem): Plan
    requires Shaped(prog, v) && k <= |v.fields|
    decreases n, 2, k
  {
    if k == 0 then NO_PLAN
    else Join(PlanFields(prog, n, v, k - 1, m), PlanField(prog, n, prog[v.name][k - 1], v.fields[k - 1], m))
  }

  function PlanVar(prog: Program, n: nat, v: Var, m: Mem): Plan
    decreases n, 0
  {
    if !Shaped(prog, v) || n == 0 then NO_PLAN else PlanFields(prog, n - 1, v, |v.fields|, m)
  }

  lemma {:induction false} PlanFieldShrinks(prog: Program, n: nat, f: FieldInfo, x: Var, m: Mem, m': Mem)
    requires Milder(m, m')
    ensures Within(PlanField(prog, n, f, x, m').effect, PlanField(prog, n, f, x, m).effect)
    decreases n, 0
  {
    EffectShrinks(f, x, m, m');
    var t := Nested(f, x, m');
    if t.Some? && n > 0 && Shaped(prog, t.value) {
      PlanShrinks(prog, n - 1, t.value, |t.value.fields|, m, m');
    }
  }

  lemma {:induction false} PlanShrinks(prog: Program, n: nat, v: Var, k: nat, m: Mem, m': Mem)
    requires Shaped(prog, v) && k <= |v.fields| && Milder(m, m')
    ensures Within(PlanFields(prog, n, v, k, m').effect, PlanFields(prog, n, v, k, m).effect)
    decreases n, k
  {
    if k > 0 {
      PlanShrinks(prog, n, v, k - 1, m, m');
      PlanFieldShrinks(prog, n, prog[v.name][k - 1], v.fields[k - 1], m, m');
    }
  }

  // ---------- Nothing else changes ----------

  ghost predicate OnlyWithin(e: Effect, m: Mem, m': Mem) {
    && (forall a :: a in m.cells && a !in e.zeroed && a !in e.cut ==> a in m'.cells && m'.cells[a] == m.cells[a])
    && (forall o :: o in m.maps && o !in e.cleared ==> o in m'.maps && m'.maps[o] == m.maps[o])
  }

  lemma {:induction false} FieldFrame(prog: Program, fuel: nat, f: FieldInfo, x: Var, m: Mem)
    requires ActField(prog, fuel, f, x, m).Done?
    ensures OnlyWithin(PlanField(prog, fuel, f, x, m).effect, m, ActField(prog, fuel, f, x, m).mem)
    decreases fuel, 0
  {
    var t := Nested(f, x, m);
    if t.Some? {
      FieldsFrame(prog, fuel - 1, t.value, |t.value.fields|, m);
    }
  }

  lemma {:induction false} FieldsFrame(prog: Program, fuel: nat, v: Var, k: nat, m: Mem)
    requires Shaped(prog, v) && k <= |v.fields| && ActFields(prog, fuel, v, k, m).Done?
    ensures OnlyWithin(PlanFields(prog, fuel, v, k, m).effect, m, ActFields(prog, fuel, v, k, m).mem)
    decreases fuel, k
  {
    if k > 0 {
      var before := ActFields(prog, fuel, v, k - 1, m).mem;
      var f, x := prog[v.name][k - 1], v.fields[k - 1];
      FieldsFrame(prog, fuel, v, k - 1, m);
      FieldsMakeMilder(prog, fuel, v, k - 1, m);
      FieldFrame(prog, fuel, f, x, before);
      PlanFieldShrinks(prog, fuel, f, x, m, before);
    }
  }

  /** Whatever points where, a Reset changes only leaves and map objects that its plan,
      read off the memory before the call, names. */
  lemma ResetFrame(prog: Program, fuel: nat, v: Var, m: Mem)
    requires ResetVar(prog, fuel, v, m).Done?
    ensures RunReset(prog, fuel, v, m).Done?
    ensures OnlyWithin(PlanVar(prog, fuel, v, m).effect, m, RunReset(prog, fuel, v, m).mem)
  {
    GeneratedResetIsCorrect(prog, fuel, v, m);
    FieldsFrame(prog, fuel - 1, v, |v.fields|, m);
  }

  // ---------- The exact effect ----------

  /** The reset does not overwrite a leaf that decides where it goes next. */
  ghost predicate Steady(p: Plan) {
    p.guides !! (p.effect.zeroed + p.effect.cut)
  }

  ghost predicate SameAt(guides: set<nat>, m: Mem, m': Mem) {
    && m'.cells.Keys == m.cells.Keys
    && forall a :: a in guides && a in m.cells ==> m'.cells[a] == m.cells[a]
  }

  lemma LocalPlanFollows(f: FieldInfo, x: Var, m: Mem, m': Mem)
    requires SameAt(FieldGuides(f, x, m), m, m')
    ensures Nested(f, x, m') == Nested(f, x, m)
    ensures LocalEffect(f, x, m') == LocalEffect(f, x, m)
    ensures FieldGuides(f, x, m') == FieldGuides(f, x, m)
  {
    if f.name != "" && f.kind == KindPointer {
      assert x.Leaf? ==> x.addr in Leaves(x);
      assert PointeeOf(x, m') == PointeeOf(x, m);
    }
  }

  lemma {:induction false} PlanFieldFollows(prog: Program, n: nat, f: FieldInfo, x: Var, m: Mem, m': Mem)
    requires SameAt(PlanField(prog, n, f, x, m).guides, m, m')
    ensures PlanField(prog, n, f, x, m') == PlanField(prog, n, f, x, m)
    ensures Nested(f, x, m') == Nested(f, x, m)
    decreases n, 0
  {
    LocalPlanFollows(f, x, m, m');
    var t := Nested(f, x, m);
    if t.Some? && n > 0 && Shaped(prog, t.value) {
      assert PlanVar(prog, n, t.value, m).guides <= PlanField(prog, n, f, x, m).guides;
      PlanFollows(prog, n - 1, t.value, |t.value.fields|, m, m');
    }
  }

  lemma {:induction false} PlanFollows(prog: Program, n: nat, v: Var, k: nat, m: Mem, m': Mem)
    requires Shaped(prog, v) && k <= |v.fields| && SameAt(PlanFields(prog, n, v, k, m).guides, m, m')
    ensures PlanFields(prog, n, v, k, m') == PlanFields(prog, n, v, k, m)
    decreases n, k
  {
    if k > 0 {
      PlanFollows(prog, n, v, k - 1, m, m');
      PlanFieldFollows(prog, n, prog[v.name][k - 1], v.fields[k - 1], m, m');
    }
  }

  lemma {:induction false} FieldEffect(prog: Program, fuel: nat, f: FieldInfo, x: Var, m: Mem)
    requires ActField(prog, fuel, f, x, m).Done? && Steady(PlanField(prog, fuel, f, x, m))
    ensures ActField(prog, fuel, f, x, m) == Done(Touch(m, PlanField(prog, fuel, f, x, m).effect))
    decreases fuel, 0
  {
    var t := Nested(f, x, m);
    if t.Some? {
      assert PlanField(prog, fuel, f, x, m)
        == Join(Plan(NOTHING, FieldGuides(f, x, m)), PlanVar(prog, fuel, t.value, m));
      FieldsEffect(prog, fuel - 1, t.value, |t.value.fields|, m);
      assert PlanField(prog, fuel, f, x, m).effect == PlanVar(prog, fuel, t.value, m).effect;
    }
  }

  lemma {:induction false} FieldsEffect(prog: Program, fuel: nat, v: Var, k: nat, m: Mem)
    requires Shaped(prog, v) && k <= |v.fields| && ActFields(prog, fuel, v, k, m).Done?
    requires Steady(PlanFields(prog, fuel, v, k, m))
    ensures ActFields(prog, fuel, v, k, m) == Done(Touch(m, PlanFields(prog, fuel, v, k, m).effect))
    decreases fuel, k
  {
    if k == 0 {
      TouchNothing(m);
    } else {
      var f, x := prog[v.name][k - 1], v.fields[k - 1];
      FieldsEffect(prog, fuel, v, k - 1, m);
      var before := PrefixIsSteady(prog, fuel, v, k, m);
      FieldEffect(prog, fuel, f, x, before);
      TouchTwice(m, PlanFields(prog, fuel, v, k - 1, m).effect, PlanField(prog, fuel, f, x, m).effect);
    }
  }

  /** What the first k - 1 fields do leaves the plan of the k-th as it was. */
  lemma PrefixIsSteady(prog: Program, n: nat, v: Var, k: nat, m: Mem) returns (before: Mem)
    requires Shaped(prog, v) && 0 < k <= |v.fields| && Steady(PlanFields(prog, n, v, k, m))
    ensures before == Touch(m, PlanFields(prog, n, v, k - 1, m).effect)
    ensures var f, x := prog[v.name][k - 1], v.fields[k - 1];
      && SameAt(PlanField(prog, n, f, x, m).guides, m, before)
      && PlanField(prog, n, f, x, before) == PlanField(prog, n, f, x, m)
      && Nested(f, x, before) == Nested(f, x, m)
      && Steady(PlanField(prog, n, f, x, m))
  {
    var f, x := prog[v.name][k - 1], v.fields[k - 1];
    before := Touch(m, PlanFields(prog, n, v, k - 1, m).effect);
    assert SameAt(PlanField(prog, n, f, x, m).guides, m, before);
    PlanFieldFollows(prog, n, f, x, m, before);
  }

  /** Unless it overwrites a leaf that steers it, a Reset does exactly what its plan says. */
  lemma ResetEffectIsExact(prog: Program, fuel: nat, v: Var, m: Mem)
    requires ResetVar(prog, fuel, v, m).Done? && Steady(PlanVar(prog, fuel, v, m))
    ensures RunReset(prog, fuel, v, m) == Done(Touch(m, PlanVar(prog, fuel, v, m).effect))
  {
    GeneratedResetIsCorrect(prog, fuel, v, m);
    FieldsEffect(prog, fuel - 1, v, |v.fields|, m);
  }

  lemma {:induction false} FieldPlanIsPart(prog: Program, n: nat, v: Var, k: nat, i: nat, m: Mem)
    requires Shaped(prog, v) && i < k <= |v.fields|
    ensures Within(LocalEffect(prog[v.name][i], v.fields[i], m), PlanFields(prog, n, v, k, m).effect)
    ensures FieldGuides(prog[v.name][i], v.fields[i], m) <= PlanFields(prog, n, v, k, m).guides
    decreases k
  {
    if i < k - 1 {
      FieldPlanIsPart(prog, n, v, k - 1, i, m);
    }
  }

  /** Slices keep backing array and capacity and lose their length; maps keep their identity
      and lose their entries; pointers keep their identity; channels and fields of unknown
      type keep everything, as long as no other field's reset reaches them. */
  lemma ReferencesKeepTheirIdentity(prog: Program, fuel: nat, v: Var, m: Mem, i: nat)
    requires ResetVar(prog, fuel, v, m).Done? && i < |v.fields| && Steady(PlanVar(prog, fuel, v, m))
    requires prog[v.name][i].name != "" && v.fields[i].Leaf? && v.fields[i].addr in m.cells
    ensures RunReset(prog, fuel, v, m).Done?
    ensures var f, a := prog[v.name][i], v.fields[i].addr;
      var e, m' := PlanVar(prog, fuel, v, m).effect, RunReset(prog, fuel, v, m).mem;
      && a in m'.cells && m'.maps.Keys == m.maps.Keys
      && (f.kind == KindSlice && m.cells[a].SliceV? && a !in e.zeroed ==>
            m'.cells[a] == SliceV(m.cells[a].backing, 0, m.cells[a].cap))
      && (f.kind == KindMap ==>
            m'.cells[a] == m.cells[a] && forall o :: o in Objects(m, v.fields[i]) && o in m.maps ==> m'.maps[o] == map[])
      && (f.kind == KindPointer ==> m'.cells[a] == m.cells[a])
      && (f.kind in {KindChan, KindUnknown} && a !in e.zeroed && a !in e.cut ==> m'.cells[a] == m.cells[a])
  {
    ResetEffectIsExact(prog, fuel, v, m);
    FieldPlanIsPart(prog, fuel - 1, v, |v.fields|, i, m);
    assert v.fields[i].addr in Leaves(v.fields[i]);
  }

  // ---------- Termination, both ways ----------

  lemma {:induction false} DepthFollows(prog: Program, n: nat, v: Var, m: Mem, m': Mem)
    requires SameAt(PlanVar(prog, n, v, m).guides, m, m')
    ensures Depth(prog, n, v, m') <==> Depth(prog, n, v, m)
    decreases n
  {
    if n > 0 && Shaped(prog, v) {
      forall i | 0 <= i < |v.fields|
        ensures Nested(prog[v.name][i], v.fields[i], m') == Nested(prog[v.name][i], v.fields[i], m)
        ensures var t := Nested(prog[v.name][i], v.fields[i], m);
          t.Some? ==> (Depth(prog, n - 1, t.value, m') <==> Depth(prog, n - 1, t.value, m))
      {
        FieldPlanIsPart(prog, n - 1, v, |v.fields|, i, m);
        LocalPlanFollows(prog[v.name][i], v.fields[i], m, m');
        var t := Nested(prog[v.name][i], v.fields[i], m);
        if t.Some? {
          NestedPlanIsPart(prog, n - 1, v, |v.fields|, i, m);
          DepthFollows(prog, n - 1, t.value, m, m');
        }
      }
    }
  }

  lemma {:induction false} NestedPlanIsPart(prog: Program, n: nat, v: Var, k: nat, i: nat, m: Mem)
    requires Shaped(prog, v) && i < k <= |v.fields| && Nested(prog[v.name][i], v.fields[i], m).Some?
    ensures var p := PlanVar(prog, n, Nested(prog[v.name][i], v.fields[i], m).value, m);
      p.guides <= PlanFields(prog, n, v, k, m).guides && Within(p.effect, PlanFields(prog, n, v, k, m).effect)
    decreases k
  {
    if i < k - 1 {
      NestedPlanIsPart(prog, n, v, k - 1, i, m);
    }
  }

  lemma {:induction false} FinishedMeansShallow(prog: Program, n: nat, v: Var, k: nat, i: nat, m: Mem)
    requires Shaped(prog, v) && i < k <= |v.fields| && ActFields(prog, n, v, k, m).Done?
    requires Steady(PlanFields(prog, n, v, k, m))
    ensures var t := Nested(prog[v.name][i], v.fields[i], m); t.Some? ==> Depth(prog, n, t.value, m)
    decreases n, 1, k
  {
    var f, x := prog[v.name][k - 1], v.fields[k - 1];
    if i < k - 1 {
      FinishedMeansShallow(prog, n, v, k - 1, i, m);
    } else {
      FieldsEffect(prog, n, v, k - 1, m);
      var before := PrefixIsSteady(prog, n, v, k, m);
      FinishedFieldIsShallow(prog, n, f, x, before);
      NestedDepthFollows(prog, n, f, x, m, before);
    }
  }

  lemma NestedDepthFollows(prog: Program, n: nat, f: FieldInfo, x: Var, m: Mem, m': Mem)
    requires SameAt(PlanField(prog, n, f, x, m).guides, m, m') && Nested(f, x, m') == Nested(f, x, m)
    ensures var t := Nested(f, x, m);
      t.Some? ==> (Depth(prog, n, t.value, m') <==> Depth(prog, n, t.value, m))
  {
    var t := Nested(f, x, m);
    if t.Some? {
      assert PlanVar(prog, n, t.value, m).guides <= PlanField(prog, n, f, x, m).guides;
      DepthFollows(prog, n, t.value, m, m');
    }
  }

  lemma {:induction false} FinishedFieldIsShallow(prog: Program, n: nat, f: FieldInfo, x: Var, m: Mem)
    requires ActField(prog, n, f, x, m).Done? && Steady(PlanField(prog, n, f, x, m))
    ensures var t := Nested(f, x, m); t.Some? ==> Depth(prog, n, t.value, m)
    decreases n, 0, 1
  {
    var t := Nested(f, x, m);
    if t.Some? {
      assert PlanField(prog, n, f, x, m)
        == Join(Plan(NOTHING, FieldGuides(f, x, m)), PlanVar(prog, n, t.value, m));
      FinishedVarIsShallow(prog, n, t.value, m);
    }
  }

  lemma {:induction false} FinishedVarIsShallow(prog: Program, n: nat, v: Var, m: Mem)
    requires ResetVar(prog, n, v, m).Done? && Steady(PlanVar(prog, n, v, m))
    ensures Depth(prog, n, v, m)
    decreases n, 0, 0
  {
    forall i | 0 <= i < |v.fields|
      ensures var t := Nested(prog[v.name][i], v.fields[i], m); t.Some? ==> Depth(prog, n - 1, t.value, m)
    {
      FinishedMeansShallow(prog, n - 1, v, |v.fields|, i, m);
    }
  }

  ghost predicate CallsEnd(prog: Program, v: Var, m: Mem) {
    exists n: nat :: RunReset(prog, n, v, m).Done?
  }

  ghost predicate CallsAcyclic(prog: Program, v: Var, m: Mem) {
    exists n: nat :: Depth(prog, n, v, m)
  }

  /** On well-typed memory a Reset that does not overwrite what steers it ends exactly when
      chains of nested Reset calls from its receiver are bounded. */
  lemma ResetEndsExactlyWhenAcyclic(prog: Program, us: set<Var>, v: Var, m: Mem)
    requires WellTyped(prog, us, m) && v in us
    requires forall n: nat :: Steady(PlanVar(prog, n, v, m))
    ensures CallsEnd(prog, v, m) <==> CallsAcyclic(prog, v, m)
  {
    if CallsAcyclic(prog, v, m) {
      var n: nat :| Depth(prog, n, v, m);
      ResetRuns(prog, us, n, v, m);
    }
    if CallsEnd(prog, v, m) {
      var n: nat :| RunReset(prog, n, v, m).Done?;
      assert n > 0;
      FieldsNeverStuck(prog, us, n - 1, v, |v.fields|, m);
      GeneratedResetIsCorrect(prog, n, v, m);
      assert Steady(PlanVar(prog, n, v, m));
      FinishedVarIsShallow(prog, n, v, m);
    }
  }
}
