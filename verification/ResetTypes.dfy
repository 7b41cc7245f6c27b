/** From Go types to field descriptions: what the generator learns about a field, and
    where it learns too little (classifyType and analyzeField in cmd/reset/main.go). */
module ResetTypes {
  import opened Model
  import opened GoMemory
  import opened ResetGen
  import opened ResetLaws

  datatype BasicKind =
    | BoolType | IntType | FloatType | ComplexType | StringType | UnsafePointerType

  /** Struct types go by name; any type may be given a further name, which is then the one its
      variables go by. */
  datatype GoType =
    | Basic(basic: BasicKind)
    | SliceOf(elem: GoType)
    | MapOf(key: GoType, elem: GoType)
    | StructType(name: string)
    | InterfaceType
    | SignatureType
    | ChanOf(elem: GoType)
    | PointerTo(elem: GoType)
    | ArrayOf(len: nat, elem: GoType)
    | Named(name: string, underlying: GoType)

  function Underlying(t: GoType): GoType {
    if t.Named? then Underlying(t.underlying) else t
  }

  function ClassifyType(t: GoType): Kind {
    match Underlying(t)
    case Basic(BoolType) => KindBool
    case Basic(IntType) => KindInt
    case Basic(FloatType) => KindFloat
    case Basic(ComplexType) => KindComplex
    case Basic(StringType) => KindString
    case Basic(UnsafePointerType) => KindUnknown
    case SliceOf(_) => KindSlice
    case MapOf(_, _) => KindMap
    case StructType(_) => KindStruct
    case InterfaceType => KindInterface
    case SignatureType => KindFunc
    case ChanOf(_) => KindChan
    case PointerTo(_) => KindPointer
    case ArrayOf(_, _) => KindArray
    case Named(_, _) => KindUnknown
  }

  /** The name a composite literal of the type starts with. */
  function TypeString(t: GoType): string {
    if t.StructType? || t.Named? then t.name else ""
  }

  /** `resettable` holds the names of the types with a Reset method. */
  predicate HasReset(t: GoType, resettable: set<string>) {
    (t.StructType? || t.Named?) && t.name in resettable
  }

  /** The element is looked at only if the type is a pointer as it stands, not if its name
      hides one. */
  function AnalyzeField(name: string, t: GoType, resettable: set<string>): FieldInfo {
    if t.PointerTo? then
      FieldInfo(name, "", ClassifyType(t), ClassifyType(t.elem), TypeString(t.elem), HasReset(t.elem, resettable))
    else FieldInfo(name, TypeString(t), ClassifyType(t), KindUnknown, "", HasReset(t, resettable))
  }

  /** A variable of the type, with well-typed variables behind its pointers one level down. */
  ghost predicate HasType(t: GoType, x: Var, m: Mem, depth: nat)
    decreases depth
  {
    match Underlying(t)
    case Basic(BoolType) => Cell(m, x).BoolV?
    case Basic(StringType) => Cell(m, x).StrV?
    case Basic(UnsafePointerType) => Cell(m, x).RawV?
    case Basic(_) => Cell(m, x).Num?
    case SliceOf(_) => Cell(m, x).SliceV?
    case MapOf(_, _) => Cell(m, x).MapV?
    case StructType(_) => x.Struct? && (t.StructType? || t.Named? ==> x.name == t.name)
    case InterfaceType => Cell(m, x).IfaceV?
    case SignatureType => Cell(m, x).FuncV?
    case ChanOf(_) => Cell(m, x).ChanV?
    case PointerTo(elem) =>
      Cell(m, x).PtrV? && (depth > 0 && PointeeOf(x, m).Some? ==> HasType(elem, PointeeOf(x, m).value, m, depth - 1))
    case ArrayOf(_, _) => x.Array?
    case Named(_, _) => false
  }

  /** The description of a field fits every variable of the field's type, so the emitted
      statements are well typed. */
  lemma AnalyzedFieldFits(name: string, t: GoType, resettable: set<string>, x: Var, m: Mem)
    requires HasType(t, x, m, 1)
    ensures FieldFits(AnalyzeField(name, t, resettable), x, m)
  {
    var f := AnalyzeField(name, t, resettable);
    if f.kind == KindPointer && PointeeOf(x, m).Some? {
      assert HasType(Underlying(t).elem, PointeeOf(x, m).value, m, 0);
    }
  }

  /** The emitted statement of a pointer field, run while the field is not nil: behind a type
      written as a pointer it calls the Reset of the element's type, if it has one and is a
      struct, and else resets what the pointer leads to according to its kind. Behind a type
      whose name hides the pointer it does nothing at all. */
  lemma NamedPointersAreNotFollowed(prog: Program, fuel: nat, name: string, t: GoType, resettable: set<string>,
                                    i: nat, v: Var, m: Mem)
    requires name != "" && Underlying(t).PointerTo?
    requires v.Struct? && i < |v.fields| && HasType(t, v.fields[i], m, 1) && PointeeOf(v.fields[i], m).Some?
    ensures var code, p := GenerateFieldReset(i, AnalyzeField(name, t, resettable)), PointeeOf(v.fields[i], m).value;
      ExecAll(prog, fuel, code, v, m) ==
        if !t.PointerTo? then Done(m)
        else if ClassifyType(t.elem) == KindStruct && HasReset(t.elem, resettable) then RunReset(prog, fuel, p, m)
        else Done(Touch(m, KindEffect(ClassifyType(t.elem), p, m)))
  {
    var f, x := AnalyzeField(name, t, resettable), v.fields[i];
    AnalyzedFieldFits(name, t, resettable, x, m);
    OneStatement(prog, fuel, GenerateFieldReset(i, f)[0], v, m);
    if Nested(f, x, m).Some? {
      NestedCode(prog, fuel, f, i, v, m);
    } else {
      LocalCode(prog, fuel, f, i, v, m);
      TouchNothing(m);
    }
  }

  // ---------- What a Reset means for a variable of a Go type ----------

  predicate IsZero(c: Content) {
    match c
    case Num(n) => n == 0
    case BoolV(b) => !b
    case StrV(s) => s == ""
    case SliceV(backing, len, cap) => backing == None && len == 0 && cap == 0
    case MapV(obj) => obj == None
    case IfaceV(dynamic) => dynamic == None
    case FuncV(code) => code == None
    case ChanV(chan) => chan == None
    case PtrV(to) => to == None
    case RawV(bits) => bits == 0
  }

  /** The variable and all its parts are zero. */
  ghost predicate AllZero(x: Var, m: Mem) {
    match x
    case Leaf(a) => a in m.cells ==> IsZero(m.cells[a])
    case Struct(_, fields) => forall i :: 0 <= i < |fields| ==> AllZero(fields[i], m)
    case Array(elems) => forall i :: 0 <= i < |elems| ==> AllZero(elems[i], m)
  }

  /** A struct type with a Reset method. */
  predicate ResetsItself(t: GoType, resettable: set<string>) {
    Underlying(t).StructType? && (t.StructType? || t.Named?) && t.name in resettable
  }

  /** What the program's text promises of a variable that has no Reset of its own. */
  ghost predicate ValueIsReset(t: GoType, x: Var, m: Mem) {
    match Underlying(t)
    case Basic(BoolType) => Cell(m, x) == BoolV(false)
    case Basic(StringType) => Cell(m, x) == StrV("")
    case Basic(UnsafePointerType) => true
    case Basic(_) => Cell(m, x) == Num(0)
    case SliceOf(_) => Cell(m, x).SliceV? && Cell(m, x).len == 0
    case MapOf(_, _) =>
      Cell(m, x).MapV? && (Cell(m, x).obj.Some? && Cell(m, x).obj.value in m.maps ==> m.maps[Cell(m, x).obj.value] == map[])
    case StructType(_) => AllZero(x, m)
    case ArrayOf(_, _) => AllZero(x, m)
    case InterfaceType => Cell(m, x) == IfaceV(None)
    case SignatureType => Cell(m, x) == FuncV(None)
    case _ => true
  }

  // ---------- One emitted statement ----------

  /** m' is m with just this variable reset. */
  ghost predicate Becomes(t: GoType, x: Var, m: Mem, m': Mem) {
    match Underlying(t)
    case Basic(UnsafePointerType) => m' == m
    case Basic(_) => x.Leaf? && Only(x.addr, m, m') && ValueIsReset(t, x, m')
    case SliceOf(_) =>
      Cell(m, x).SliceV? && Only(x.addr, m, m') && Cell(m', x) == SliceV(Cell(m, x).backing, 0, Cell(m, x).cap)
    case MapOf(_, _) =>
      && Cell(m, x).MapV? && m'.cells == m.cells && m'.maps.Keys == m.maps.Keys
      && forall o :: o in m.maps ==> m'.maps[o] == if Cell(m, x).obj == Some(o) then map[] else m.maps[o]
    case InterfaceType => x.Leaf? && Only(x.addr, m, m') && Cell(m', x) == IfaceV(None)
    case SignatureType => x.Leaf? && Only(x.addr, m, m') && Cell(m', x) == FuncV(None)
    case StructType(_) => OnlyParts(x, m, m') && AllZero(x, m')
    case ArrayOf(_, _) => OnlyParts(x, m, m') && AllZero(x, m')
    case _ => m' == m
  }

  ghost predicate Only(addr: nat, m: Mem, m': Mem) {
    && m'.maps == m.maps && m'.cells.Keys == m.cells.Keys
    && forall a :: a in m.cells && a != addr ==> m'.cells[a] == m.cells[a]
  }

  predicate PartOf(a: nat, x: Var) {
    match x
    case Leaf(addr) => a == addr
    case Struct(_, fields) => exists i :: 0 <= i < |fields| && PartOf(a, fields[i])
    case Array(elems) => exists i :: 0 <= i < |elems| && PartOf(a, elems[i])
  }

  ghost predicate OnlyParts(x: Var, m: Mem, m': Mem) {
    && m'.maps == m.maps && m'.cells.Keys == m.cells.Keys
    && (forall a :: a in m.cells && !PartOf(a, x) ==> m'.cells[a] == m.cells[a])
    && (forall a :: a in m.cells ==> SameSort(m.cells[a], m'.cells[a]))
  }

  predicate SameSort(c: Content, c': Content) {
    || (c.Num? && c'.Num?) || (c.BoolV? && c'.BoolV?) || (c.StrV? && c'.StrV?) || (c.SliceV? && c'.SliceV?)
    || (c.MapV? && c'.MapV?) || (c.IfaceV? && c'.IfaceV?) || (c.FuncV? && c'.FuncV?) || (c.ChanV? && c'.ChanV?)
    || (c.PtrV? && c'.PtrV?) || (c.RawV? && c'.RawV?)
  }

  lemma {:induction false} LeavesOfAllAre(a: nat, vs: seq<Var>)
    ensures a in LeavesOfAll(vs) <==> exists i :: 0 <= i < |vs| && a in Leaves(vs[i])
    decreases |vs|
  {
    if vs != [] {
      LeavesOfAllAre(a, vs[1..]);
      assert vs == [vs[0]] + vs[1..];
    }
  }

  lemma {:induction false} LeavesAreParts(a: nat, x: Var)
    ensures a in Leaves(x) <==> PartOf(a, x)
    decreases x
  {
    match x
    case Leaf(_) =>
    case Struct(_, fields) =>
      LeavesOfAllAre(a, fields);
      forall i | 0 <= i < |fields|
        ensures a in Leaves(fields[i]) <==> PartOf(a, fields[i])
      {
        LeavesAreParts(a, fields[i]);
      }
    case Array(elems) =>
      LeavesOfAllAre(a, elems);
      forall i | 0 <= i < |elems|
        ensures a in Leaves(elems[i]) <==> PartOf(a, elems[i])
      {
        LeavesAreParts(a, elems[i]);
      }
  }

  lemma {:induction false} ZeroLeavesAreZero(x: Var, m: Mem)
    requires forall a :: a in Leaves(x) && a in m.cells ==> IsZero(m.cells[a])
    ensures AllZero(x, m)
    decreases x
  {
    match x
    case Leaf(_) =>
    case Struct(_, fields) => ZeroPartsAreZero(x, fields, m);
    case Array(elems) => ZeroPartsAreZero(x, elems, m);
  }

  lemma {:induction false} ZeroPartsAreZero(x: Var, parts: seq<Var>, m: Mem)
    requires (x.Struct? && parts == x.fields) || (x.Array? && parts == x.elems)
    requires forall a :: a in LeavesOfAll(parts) && a in m.cells ==> IsZero(m.cells[a])
    ensures forall i :: 0 <= i < |parts| ==> AllZero(parts[i], m)
    decreases x, 0
  {
    forall i | 0 <= i < |parts|
      ensures AllZero(parts[i], m)
    {
      forall a | a in Leaves(parts[i]) && a in m.cells
        ensures IsZero(m.cells[a])
      {
        LeavesOfAllAre(a, parts);
      }
      ZeroLeavesAreZero(parts[i], m);
    }
  }

  lemma ZeroIsZero(c: Content)
    ensures IsZero(ZeroOf(c)) && SameSort(c, ZeroOf(c)) && SameSort(c, c)
  {
  }

  lemma ZeroingMakesZero(x: Var, m: Mem)
    ensures AllZero(x, Touch(m, Effect(Leaves(x), {}, {})))
  {
    var m' := Touch(m, Effect(Leaves(x), {}, {}));
    forall a | a in Leaves(x) && a in m'.cells
      ensures IsZero(m'.cells[a])
    {
      ZeroIsZero(m.cells[a]);
    }
    ZeroLeavesAreZero(x, m');
  }

  lemma ZeroingBecomes(x: Var, m: Mem)
    ensures var m' := Touch(m, Effect(Leaves(x), {}, {})); OnlyParts(x, m, m') && AllZero(x, m')
  {
    var m' := Touch(m, Effect(Leaves(x), {}, {}));
    ZeroingMakesZero(x, m);
    assert m'.maps == m.maps;
    forall a | a in m.cells
      ensures !PartOf(a, x) ==> m'.cells[a] == m.cells[a]
      ensures SameSort(m.cells[a], m'.cells[a])
    {
      LeavesAreParts(a, x);
      ZeroIsZero(m.cells[a]);
    }
  }

  /** The effect meant for a kind is what resetting a variable of such a type means. */
  lemma KindEffectBecomes(t: GoType, typeName: string, x: Var, m: Mem)
    requires KindFits(ClassifyType(t), typeName, x, m)
    ensures Becomes(t, x, m, Touch(m, KindEffect(ClassifyType(t), x, m)))
  {
    var m' := Touch(m, KindEffect(ClassifyType(t), x, m));
    TouchNothing(m);
    assert m'.cells.Keys == m.cells.Keys && m'.maps.Keys == m.maps.Keys;
    if x.Leaf? && x.addr in m.cells {
      assert Leaves(x) == {x.addr};
      assert m'.cells[x.addr] == Touched(m.cells[x.addr], x.addr, KindEffect(ClassifyType(t), x, m));
    }
    if Underlying(t).StructType? || Underlying(t).ArrayOf? {
      ZeroingBecomes(x, m);
    }
  }

  /** The statement emitted for a field of a Go type, run on a variable of that type, resets the
      field, or what a pointer written as such leads to, as the type says and touches nothing
      else; where a struct type has a Reset method it calls that. */
  lemma StatementResetsByType(prog: Program, fuel: nat, name: string, t: GoType, resettable: set<string>,
                              i: nat, v: Var, m: Mem)
    requires name != "" && v.Struct? && i < |v.fields| && HasType(t, v.fields[i], m, 1)
    ensures var x, r := v.fields[i], ExecAll(prog, fuel, GenerateFieldReset(i, AnalyzeField(name, t, resettable)), v, m);
      if ResetsItself(t, resettable) then r == RunReset(prog, fuel, x, m)
      else if t.PointerTo? && Cell(m, x).to == None then r == Done(m)
      else if t.PointerTo? && ResetsItself(t.elem, resettable) then r == RunReset(prog, fuel, Cell(m, x).to.value, m)
      else if t.PointerTo? then r.Done? && Becomes(t.elem, Cell(m, x).to.value, m, r.mem)
      else r.Done? && Becomes(t, x, m, r.mem)
  {
    var f, x := AnalyzeField(name, t, resettable), v.fields[i];
    AnalyzedFieldFits(name, t, resettable, x, m);
    OneStatement(prog, fuel, GenerateFieldReset(i, f)[0], v, m);
    if Nested(f, x, m).Some? {
      NestedCode(prog, fuel, f, i, v, m);
    } else {
      LocalCode(prog, fuel, f, i, v, m);
      TouchNothing(m);
      if t.PointerTo? && PointeeOf(x, m).Some? {
        KindEffectBecomes(t.elem, TypeString(t.elem), PointeeOf(x, m).value, m);
      } else if !t.PointerTo? && f.kind != KindPointer {
        KindEffectBecomes(t, TypeString(t), x, m);
      }
    }
  }

  // ---------- A whole Reset ----------

  datatype Decl = Decl(name: string, t: GoType)

  /** The struct types that have a generated Reset, with their fields. */
  type Decls = map<string, seq<Decl>>

  ghost predicate Compiled(prog: Program, decls: Decls, resettable: set<string>) {
    && prog.Keys == decls.Keys
    && (forall name :: name in prog ==> |prog[name]| == |decls[name]|)
    && (forall name, i :: name in prog && 0 <= i < |prog[name]| ==>
          prog[name][i] == AnalyzeField(decls[name][i].name, decls[name][i].t, resettable))
  }

  /** Structs of declared types, each field a variable of its type, and what is reset by a call
      again among them. */
  ghost predicate TypedMemory(decls: Decls, resettable: set<string>, us: set<Var>, m: Mem) {
    && (forall v :: v in us ==> v.Struct? && v.name in decls && |v.fields| == |decls[v.name]|)
    && (forall v, i :: v in us && 0 <= i < |v.fields| ==> TypedField(resettable, us, decls[v.name][i].t, v.fields[i], m))
  }

  ghost predicate TypedField(resettable: set<string>, us: set<Var>, t: GoType, x: Var, m: Mem) {
    && HasType(t, x, m, 1)
    && (ResetsItself(t, resettable) ==> x in us)
    && (t.PointerTo? && Cell(m, x).to.Some? && ResetsItself(t.elem, resettable) ==> Cell(m, x).to.value in us)
  }

  lemma TypedIsWellTyped(prog: Program, decls: Decls, resettable: set<string>, us: set<Var>, m: Mem)
    requires Compiled(prog, decls, resettable) && TypedMemory(decls, resettable, us, m)
    ensures WellTyped(prog, us, m)
  {
    forall v, i | v in us && 0 <= i < |v.fields|
      ensures FieldTyped(us, prog[v.name][i], v.fields[i], m)
    {
      var d := decls[v.name][i];
      assert TypedField(resettable, us, d.t, v.fields[i], m);
      AnalyzedFieldFits(d.name, d.t, resettable, v.fields[i], m);
    }
  }

  /** All fields of the struct are as their types say, those with a Reset of their own in turn;
      n bounds how deep that goes. */
  ghost predicate StructIsReset(decls: Decls, resettable: set<string>, n: nat, v: Var, m: Mem)
    decreases n, 0
  {
    && n > 0 && v.Struct? && v.name in decls && |v.fields| == |decls[v.name]|
    && forall i :: 0 <= i < |v.fields| ==>
         decls[v.name][i].name != "" ==> FieldIsResetByType(decls, resettable, n - 1, decls[v.name][i].t, v.fields[i], m)
  }

  ghost predicate FieldIsResetByType(decls: Decls, resettable: set<string>, n: nat, t: GoType, x: Var, m: Mem)
    decreases n, 1
  {
    if ResetsItself(t, resettable) then StructIsReset(decls, resettable, n, x, m)
    else if !t.PointerTo? then ValueIsReset(t, x, m)
    else
      Cell(m, x).PtrV? &&
      (Cell(m, x).to.Some? ==>
         if ResetsItself(t.elem, resettable) then StructIsReset(decls, resettable, n, Cell(m, x).to.value, m)
         else ValueIsReset(t.elem, Cell(m, x).to.value, m))
  }

  lemma KindIsResetMeansType(t: GoType, typeName: string, x: Var, m: Mem)
    requires KindFits(ClassifyType(t), typeName, x, m) && KindIsReset(ClassifyType(t), x, m)
    ensures ValueIsReset(t, x, m)
  {
    if x.Leaf? {
      assert x.addr in Leaves(x);
    }
    if Underlying(t).StructType? || Underlying(t).ArrayOf? {
      ZeroLeavesAreZero(x, m);
    }
  }

  lemma {:induction false} SettledFieldByType(prog: Program, decls: Decls, resettable: set<string>, fuel: nat, name: string, t: GoType,
                                              x: Var, m: Mem)
    requires Compiled(prog, decls, resettable) && name != ""
    requires ActField(prog, fuel, AnalyzeField(name, t, resettable), x, m) == Done(m)
    ensures FieldIsResetByType(decls, resettable, fuel, t, x, m)
    decreases fuel, 1
  {
    var f := AnalyzeField(name, t, resettable);
    if Nested(f, x, m).Some? {
      SettledStructByType(prog, decls, resettable, fuel, Nested(f, x, m).value, m);
    } else if f.kind != KindPointer {
      NoOpMeansReset(f.kind, f.typeString, x, m);
      KindIsResetMeansType(t, f.typeString, x, m);
    } else if t.PointerTo? && PointeeOf(x, m).Some? {
      NoOpMeansReset(f.elemKind, f.elemType, PointeeOf(x, m).value, m);
      KindIsResetMeansType(t.elem, f.elemType, PointeeOf(x, m).value, m);
    }
  }

  lemma {:induction false} SettledStructByType(prog: Program, decls: Decls, resettable: set<string>, fuel: nat, v: Var, m: Mem)
    requires Compiled(prog, decls, resettable) && ResetVar(prog, fuel, v, m) == Done(m)
    ensures StructIsReset(decls, resettable, fuel, v, m)
    decreases fuel, 0
  {
    forall i | 0 <= i < |v.fields| && decls[v.name][i].name != ""
      ensures FieldIsResetByType(decls, resettable, fuel - 1, decls[v.name][i].t, v.fields[i], m)
    {
      EachFieldSettled(prog, fuel - 1, v, |v.fields|, i, m);
      SettledFieldByType(prog, decls, resettable, fuel - 1, decls[v.name][i].name, decls[v.name][i].t, v.fields[i], m);
    }
  }

  /** From the types of the fields to the memory after the call: once the emitted Reset of a
      declared struct has run, every field is as its Go type says: numbers 0, bools false,
      strings empty, slices of length 0, maps empty, arrays and plain structs zero, interfaces
      and funcs nil, and so behind pointers written as such; structs with a Reset likewise, to
      any depth. */
  lemma ResetByType(prog: Program, decls: Decls, resettable: set<string>, us: set<Var>, fuel: nat, v: Var, m: Mem)
    requires Compiled(prog, decls, resettable) && TypedMemory(decls, resettable, us, m) && v in us
    requires RunReset(prog, fuel, v, m).Done?
    ensures StructIsReset(decls, resettable, fuel, v, RunReset(prog, fuel, v, m).mem)
  {
    TypedIsWellTyped(prog, decls, resettable, us, m);
    FieldsNeverStuck(prog, us, fuel - 1, v, |v.fields|, m);
    GeneratedResetIsCorrect(prog, fuel, v, m);
    FieldsSettle(prog, fuel - 1, v, |v.fields|, m);
    SettledStructByType(prog, decls, resettable, fuel, v, RunReset(prog, fuel, v, m).mem);
  }
}
