/** cmd/reset as a compiler: what the generator emits for a list of fields, how the
    emitted statements run, and what running them does (cmd/reset/main.go). */
module ResetGen {
  import opened Model
  import opened GoMemory

  // ---------- Fields ----------

  datatype Kind =
    | KindUnknown | KindInt | KindFloat | KindComplex | KindBool | KindString | KindSlice | KindMap
    | KindStruct | KindInterface | KindFunc | KindChan | KindPointer | KindArray

  datatype FieldInfo = FieldInfo(name: string, typeString: string, kind: Kind, elemKind: Kind, elemType: string, hasReset: bool)

  /** The structs that have a generated Reset method. */
  type Program = map<string, seq<FieldInfo>>

  // ---------- The emitted code ----------

  /** recv.f, or *recv.f. */
  datatype Place = Field(i: nat) | Deref(i: nat)

  datatype Literal = Zero | False | EmptyString | Composite(typeName: string) | Nil

  datatype Stmt =
    | Assign(p: Place, lit: Literal)      // p = lit
    | Truncate(p: Place)                  // p = p[:0]
    | Clear(p: Place)                     // clear(p)
    | CallReset(p: Place)                 // p.Reset()
    | Comment(p: Place)
    | IfNotNil(i: nat, body: Stmt)        // if recv.f != nil { body }

  function GenerateFieldReset(i: nat, f: FieldInfo): seq<Stmt> {
    if f.name == "" then []
    else
      match f.kind
      case KindInt | KindFloat | KindComplex => [Assign(Field(i), Zero)]
      case KindBool => [Assign(Field(i), False)]
      case KindString => [Assign(Field(i), EmptyString)]
      case KindSlice => [Truncate(Field(i))]
      case KindMap => [Clear(Field(i))]
      case KindArray => [Assign(Field(i), Composite(f.typeString))]
      case KindStruct => if f.hasReset then [CallReset(Field(i))] else [Assign(Field(i), Composite(f.typeString))]
      case KindInterface | KindFunc => [Assign(Field(i), Nil)]
      case KindChan => [Comment(Field(i))]
      case KindPointer => [GeneratePointerFieldReset(i, f)]
      case KindUnknown => [Comment(Field(i))]
  }

  function GeneratePointerFieldReset(i: nat, f: FieldInfo): Stmt {
    IfNotNil(i,
      match f.elemKind
      case KindInt | KindFloat | KindComplex => Assign(Deref(i), Zero)
      case KindBool => Assign(Deref(i), False)
      case KindString => Assign(Deref(i), EmptyString)
      case KindSlice => Truncate(Deref(i))
      case KindMap => Clear(Deref(i))
      case KindArray => Assign(Deref(i), Composite(f.elemType))
      case KindStruct => if f.hasReset then CallReset(Deref(i)) else Assign(Deref(i), Composite(f.elemType))
      case KindInterface | KindFunc => Assign(Deref(i), Nil)
      case KindChan => Comment(Deref(i))
      case KindPointer | KindUnknown => Comment(Deref(i)))
  }

  function Body(fields: seq<FieldInfo>): seq<Stmt> {
    if fields == [] then []
    else Body(fields[..|fields| - 1]) + GenerateFieldReset(|fields| - 1, fields[|fields| - 1])
  }

  /** The loop of generateResetCode. */
  method GenerateResetCode(fields: seq<FieldInfo>) returns (code: seq<Stmt>)
    ensures code == Body(fields)
  {
    code := [];
    for i := 0 to |fields|
      invariant code == Body(fields[..i])
    {
      assert fields[..i + 1][..i] == fields[..i];
      var field := GenerateFieldReset(i, fields[i]);
      if field != [] {
        code := code + field;
      }
    }
    assert fields[..|fields|] == fields;
  }

  // ---------- Running emitted code ----------

  /** Stuck: the code would not compile or would panic. OutOfFuel: too many nested Reset calls. */
  datatype Outcome = Done(mem: Mem) | Stuck | OutOfFuel

  /** What a leaf holds; RawV(0) if the variable is not a leaf of this memory. */
  function Cell(mem: Mem, t: Var): Content {
    if t.Leaf? && t.addr in mem.cells then mem.cells[t.addr] else RawV(0)
  }

  function PointeeOf(x: Var, mem: Mem): Option<Var> {
    var c := Cell(mem, x);
    if c.PtrV? then c.to else None
  }

  function Find(v: Var, p: Place, mem: Mem): Option<Var> {
    if !v.Struct? || p.i >= |v.fields| then None
    else if p.Field? then Some(v.fields[p.i])
    else PointeeOf(v.fields[p.i], mem)
  }

  /** The literal has the variable's type, so that storing it stores the zero value. */
  predicate LiteralFits(lit: Literal, mem: Mem, t: Var) {
    match lit
    case Composite(typeName) => t.Array? || (t.Struct? && t.name == typeName)
    case Zero => Cell(mem, t).Num?
    case False => Cell(mem, t).BoolV?
    case EmptyString => Cell(mem, t).StrV?
    case Nil => Cell(mem, t).IfaceV? || Cell(mem, t).FuncV?
  }

  function Objects(mem: Mem, t: Var): set<nat> {
    var c := Cell(mem, t);
    if c.MapV? && c.obj.Some? then {c.obj.value} else {}
  }

  predicate Shaped(prog: Program, v: Var) {
    v.Struct? && v.name in prog && |v.fields| == |prog[v.name]|
  }

  function Exec(prog: Program, fuel: nat, s: Stmt, v: Var, mem: Mem): Outcome
    decreases fuel, 1, s
  {
    match s
    case Comment(_) => Done(mem)
    case IfNotNil(i, body) =>
      if !v.Struct? || i >= |v.fields| || !Cell(mem, v.fields[i]).PtrV? then Stuck
      else if PointeeOf(v.fields[i], mem).None? then Done(mem)
      else Exec(prog, fuel, body, v, mem)
    case Assign(p, lit) =>
      var t := Find(v, p, mem);
      if t.Some? && LiteralFits(lit, mem, t.value) then Done(Touch(mem, Effect(Leaves(t.value), {}, {}))) else Stuck
    case Truncate(p) =>
      var t := Find(v, p, mem);
      if t.Some? && Cell(mem, t.value).SliceV? then Done(Touch(mem, Effect({}, Leaves(t.value), {}))) else Stuck
    case Clear(p) =>
      var t := Find(v, p, mem);
      if t.Some? && Cell(mem, t.value).MapV? then Done(Touch(mem, Effect({}, {}, Objects(mem, t.value)))) else Stuck
    case CallReset(p) =>
      var t := Find(v, p, mem);
      if t.Some? then RunReset(prog, fuel, t.value, mem) else Stuck
  }

  function ExecAll(prog: Program, fuel: nat, code: seq<Stmt>, v: Var, mem: Mem): Outcome
    decreases fuel, 2, |code|
  {
    if code == [] then Done(mem)
    else
      var before := ExecAll(prog, fuel, code[..|code| - 1], v, mem);
      if before.Done? then Exec(prog, fuel, code[|code| - 1], v, before.mem) else before
  }

  /** Calls the generated Reset of v's type; `fuel` bounds the depth of nested calls. */
  function RunReset(prog: Program, fuel: nat, v: Var, mem: Mem): Outcome
    decreases fuel, 0
  {
    if !Shaped(prog, v) then Stuck
    else if fuel == 0 then OutOfFuel
    else ExecAll(prog, fuel - 1, Body(prog[v.name]), v, mem)
  }

  /** The receiver is a pointer; the emitted method starts with a nil check. */
  function CallOn(prog: Program, fuel: nat, recv: Option<Var>, mem: Mem): Outcome {
    if recv.None? then Done(mem) else RunReset(prog, fuel, recv.value, mem)
  }

  // ---------- What a Reset is meant to do, field by field ----------

  /** The variable whose own Reset takes care of the field, if there is one. */
  function Nested(f: FieldInfo, x: Var, mem: Mem): Option<Var> {
    if f.name == "" || !f.hasReset then None
    else if f.kind == KindStruct then Some(x)
    else if f.kind == KindPointer && f.elemKind == KindStruct then PointeeOf(x, mem)
    else None
  }

  function KindEffect(kind: Kind, t: Var, mem: Mem): Effect {
    match kind
    case KindSlice => Effect({}, Leaves(t), {})
    case KindMap => Effect({}, {}, Objects(mem, t))
    case KindChan | KindUnknown | KindPointer => NOTHING
    case _ => Effect(Leaves(t), {}, {})
  }

  /** What happens to the field, or behind it, without a nested Reset. */
  function LocalEffect(f: FieldInfo, x: Var, mem: Mem): Effect {
    if f.name == "" || Nested(f, x, mem).Some? then NOTHING
    else if f.kind != KindPointer then KindEffect(f.kind, x, mem)
    else if PointeeOf(x, mem).None? then NOTHING
    else KindEffect(f.elemKind, PointeeOf(x, mem).value, mem)
  }

  predicate KindFits(kind: Kind, typeName: string, t: Var, mem: Mem) {
    match kind
    case KindInt | KindFloat | KindComplex => Cell(mem, t).Num?
    case KindBool => Cell(mem, t).BoolV?
    case KindString => Cell(mem, t).StrV?
    case KindSlice => Cell(mem, t).SliceV?
    case KindMap => Cell(mem, t).MapV?
    case KindInterface => Cell(mem, t).IfaceV?
    case KindFunc => Cell(mem, t).FuncV?
    case KindStruct => t.Struct? && t.name == typeName
    case KindArray => t.Array?
    case KindChan | KindUnknown | KindPointer => true
  }

  /** The variable has the type the field's description says. */
  predicate FieldFits(f: FieldInfo, x: Var, mem: Mem) {
    if f.name == "" then true
    else if f.kind != KindPointer then KindFits(f.kind, f.typeString, x, mem)
    else
      && Cell(mem, x).PtrV?
      && (PointeeOf(x, mem).Some? ==> KindFits(f.elemKind, f.elemType, PointeeOf(x, mem).value, mem))
  }

  function ActField(prog: Program, fuel: nat, f: FieldInfo, x: Var, mem: Mem): Outcome
    decreases fuel, 1
  {
    if !FieldFits(f, x, mem) then Stuck
    else if Nested(f, x, mem).Some? then ResetVar(prog, fuel, Nested(f, x, mem).value, mem)
    else Done(Touch(mem, LocalEffect(f, x, mem)))
  }

  /** The first k fields of v, in order. */
  function ActFields(prog: Program, fuel: nat, v: Var, k: nat, mem: Mem): Outcome
    requires Shaped(prog, v) && k <= |v.fields|
    decreases fuel, 2, k
  {
    if k == 0 then Done(mem)
    else
      var before := ActFields(prog, fuel, v, k - 1, mem);
      if before.Done? then ActField(prog, fuel, prog[v.name][k - 1], v.fields[k - 1], before.mem) else before
  }

  function ResetVar(prog: Program, fuel: nat, v: Var, mem: Mem): Outcome
    decreases fuel, 0
  {
    if !Shaped(prog, v) then Stuck
    else if fuel == 0 then OutOfFuel
    else ActFields(prog, fuel - 1, v, |v.fields|, mem)
  }

  // ---------- The generator implements that meaning ----------

  lemma {:induction false} ExecAllConcat(prog: Program, fuel: nat, a: seq<Stmt>, b: seq<Stmt>, v: Var, mem: Mem)
    ensures var before := ExecAll(prog, fuel, a, v, mem);
      ExecAll(prog, fuel, a + b, v, mem) == if before.Done? then ExecAll(prog, fuel, b, v, before.mem) else before
    decreases |b|
  {
    if b == [] {
      assert a + b == a;
    } else {
      ExecAllConcat(prog, fuel, a, b[..|b| - 1], v, mem);
      assert (a + b)[..|a + b| - 1] == a + b[..|b| - 1];
    }
  }

  lemma OneStatement(prog: Program, fuel: nat, s: Stmt, v: Var, mem: Mem)
    ensures ExecAll(prog, fuel, [s], v, mem) == Exec(prog, fuel, s, v, mem)
  {
    assert [s][..0] == [];
    assert ExecAll(prog, fuel, [s][..0], v, mem) == Done(mem);
  }

  lemma LocalCode(prog: Program, fuel: nat, f: FieldInfo, i: nat, v: Var, mem: Mem)
    requires v.Struct? && i < |v.fields| && f.name != "" && FieldFits(f, v.fields[i], mem)
    requires Nested(f, v.fields[i], mem).None?
    ensures |GenerateFieldReset(i, f)| == 1
    ensures Exec(prog, fuel, GenerateFieldReset(i, f)[0], v, mem) == Done(Touch(mem, LocalEffect(f, v.fields[i], mem)))
  {
    TouchNothing(mem);
    if f.kind == KindPointer && PointeeOf(v.fields[i], mem).Some? {
      var body := GeneratePointerFieldReset(i, f).body;
      assert Find(v, Deref(i), mem) == PointeeOf(v.fields[i], mem);
      assert Exec(prog, fuel, body, v, mem) == Done(Touch(mem, LocalEffect(f, v.fields[i], mem)));
    } else {
      assert Find(v, Field(i), mem) == Some(v.fields[i]);
    }
  }

  lemma NestedCode(prog: Program, fuel: nat, f: FieldInfo, i: nat, v: Var, mem: Mem)
    requires v.Struct? && i < |v.fields| && Nested(f, v.fields[i], mem).Some?
    ensures |GenerateFieldReset(i, f)| == 1
    ensures Exec(prog, fuel, GenerateFieldReset(i, f)[0], v, mem)
         == RunReset(prog, fuel, Nested(f, v.fields[i], mem).value, mem)
  {
    if f.kind == KindPointer {
      assert Find(v, Deref(i), mem) == PointeeOf(v.fields[i], mem);
      assert Exec(prog, fuel, CallReset(Deref(i)), v, mem)
          == RunReset(prog, fuel, Nested(f, v.fields[i], mem).value, mem);
    } else {
      assert Find(v, Field(i), mem) == Some(v.fields[i]);
    }
  }

  /** The code of one field, once nested calls are known to be right. */
  lemma FieldCode(prog: Program, fuel: nat, f: FieldInfo, i: nat, v: Var, mem: Mem)
    requires v.Struct? && i < |v.fields| && ActField(prog, fuel, f, v.fields[i], mem) != Stuck
    requires var t := Nested(f, v.fields[i], mem);
      t.Some? ==> RunReset(prog, fuel, t.value, mem) == ResetVar(prog, fuel, t.value, mem)
    ensures ExecAll(prog, fuel, GenerateFieldReset(i, f), v, mem) == ActField(prog, fuel, f, v.fields[i], mem)
  {
    if f.name == "" {
      TouchNothing(mem);
    } else {
      if Nested(f, v.fields[i], mem).Some? {
        NestedCode(prog, fuel, f, i, v, mem);
      } else {
        LocalCode(prog, fuel, f, i, v, mem);
      }
      OneStatement(prog, fuel, GenerateFieldReset(i, f)[0], v, mem);
      assert GenerateFieldReset(i, f) == [GenerateFieldReset(i, f)[0]];
    }
  }

  lemma {:induction false} FieldsCode(prog: Program, fuel: nat, v: Var, k: nat, mem: Mem)
    requires Shaped(prog, v) && k <= |v.fields| && ActFields(prog, fuel, v, k, mem) != Stuck
    ensures ExecAll(prog, fuel, Body(prog[v.name][..k]), v, mem) == ActFields(prog, fuel, v, k, mem)
    decreases fuel, 1, k
  {
    var fields := prog[v.name];
    if k > 0 {
      FieldsCode(prog, fuel, v, k - 1, mem);
      assert fields[..k][..k - 1] == fields[..k - 1];
      var before := ActFields(prog, fuel, v, k - 1, mem);
      var f, x := fields[k - 1], v.fields[k - 1];
      if before.Done? {
        if Nested(f, x, before.mem).Some? {
          ResetCode(prog, fuel, Nested(f, x, before.mem).value, before.mem);
        }
        FieldCode(prog, fuel, f, k - 1, v, before.mem);
      }
      ExecAllConcat(prog, fuel, Body(fields[..k - 1]), GenerateFieldReset(k - 1, f), v, mem);
    }
  }

  lemma {:induction false} ResetCode(prog: Program, fuel: nat, v: Var, mem: Mem)
    requires ResetVar(prog, fuel, v, mem) != Stuck
    ensures RunReset(prog, fuel, v, mem) == ResetVar(prog, fuel, v, mem)
    decreases fuel, 0
  {
    if fuel > 0 {
      FieldsCode(prog, fuel - 1, v, |v.fields|, mem);
      assert prog[v.name][..|v.fields|] == prog[v.name];
    }
  }

  /** For every list of fields the emitted body, run on a receiver of that type, does what
      Reset is meant to do; on a nil receiver it does nothing. */
  lemma GeneratedResetIsCorrect(prog: Program, fuel: nat, v: Var, mem: Mem)
    requires ResetVar(prog, fuel, v, mem) != Stuck
    ensures CallOn(prog, fuel, Some(v), mem) == ResetVar(prog, fuel, v, mem)
    ensures CallOn(prog, fuel, None, mem) == Done(mem)
  {
    ResetCode(prog, fuel, v, mem);
  }
}
