/** The part of Go's memory a Reset method works on: variables made of leaves, what the
    leaves hold, and map objects. */
module GoMemory {
  import opened Model

  /** A variable. Struct and array variables are made of their parts, each with its own
      address, so pointers may lead to any variable, inside another one or not. */
  datatype Var =
    | Leaf(addr: nat)
    | Struct(name: string, fields: seq<Var>)
    | Array(elems: seq<Var>)

  datatype Content =
    | Num(n: int)                                            // integer, float, complex
    | BoolV(b: bool)
    | StrV(s: string)
    | SliceV(backing: Option<nat>, len: nat, cap: nat)
    | MapV(obj: Option<nat>)
    | IfaceV(dynamic: Option<int>)
    | FuncV(code: Option<int>)
    | ChanV(chan: Option<int>)
    | PtrV(to: Option<Var>)
    | RawV(bits: int)                                        // what the generator does not know

  datatype Mem = Mem(cells: map<nat, Content>, maps: map<nat, map<int, int>>)

  function ZeroOf(c: Content): Content {
    match c
    case Num(_) => Num(0)
    case BoolV(_) => BoolV(false)
    case StrV(_) => StrV("")
    case SliceV(_, _, _) => SliceV(None, 0, 0)
    case MapV(_) => MapV(None)
    case IfaceV(_) => IfaceV(None)
    case FuncV(_) => FuncV(None)
    case ChanV(_) => ChanV(None)
    case PtrV(_) => PtrV(None)
    case RawV(_) => RawV(0)
  }

  /** s[:0] keeps the backing array and the capacity. */
  function CutOf(c: Content): Content {
    if c.SliceV? then SliceV(c.backing, 0, c.cap) else c
  }

  function Leaves(v: Var): set<nat> {
    match v
    case Leaf(a) => {a}
    case Struct(_, fields) => LeavesOfAll(fields)
    case Array(elems) => LeavesOfAll(elems)
  }

  function LeavesOfAll(vs: seq<Var>): set<nat> {
    if vs == [] then {} else Leaves(vs[0]) + LeavesOfAll(vs[1..])
  }

  /** Leaves to zero, leaves to cut to length 0, map objects to empty. */
  datatype Effect = Effect(zeroed: set<nat>, cut: set<nat>, cleared: set<nat>)

  const NOTHING := Effect({}, {}, {})

  function Both(e: Effect, f: Effect): Effect {
    Effect(e.zeroed + f.zeroed, e.cut + f.cut, e.cleared + f.cleared)
  }

  function Touched(c: Content, a: nat, e: Effect): Content {
    if a in e.zeroed then ZeroOf(c) else if a in e.cut then CutOf(c) else c
  }

  function Touch(m: Mem, e: Effect): Mem {
    Mem(map a | a in m.cells :: Touched(m.cells[a], a, e),
        map o | o in m.maps :: if o in e.cleared then map[] else m.maps[o])
  }

  lemma TouchTwice(m: Mem, e: Effect, f: Effect)
    ensures Touch(Touch(m, e), f) == Touch(m, Both(e, f))
  {
  }

  lemma TouchNothing(m: Mem)
    ensures Touch(m, NOTHING) == m
  {
  }

  // ---------- Memory only ever gets emptier ----------

  predicate Emptier(c: Content, c': Content) {
    c' == c || c' == ZeroOf(c) || c' == CutOf(c)
  }

  /** m' is m with some leaves zeroed or cut and some map objects emptied. */
  ghost predicate Milder(m: Mem, m': Mem) {
    && m'.cells.Keys == m.cells.Keys && m'.maps.Keys == m.maps.Keys
    && (forall a :: a in m.cells ==> Emptier(m.cells[a], m'.cells[a]))
    && (forall o :: o in m.maps ==> m'.maps[o] == m.maps[o] || m'.maps[o] == map[])
  }

  lemma TouchIsMilder(m: Mem, e: Effect)
    ensures Milder(m, Touch(m, e))
  {
  }

  lemma MilderTransitive(m: Mem, n: Mem, p: Mem)
    requires Milder(m, n) && Milder(n, p)
    ensures Milder(m, p)
  {
  }

  lemma MilderAntisymmetric(m: Mem, n: Mem)
    requires Milder(m, n) && Milder(n, m)
    ensures m == n
  {
    assert m.cells.Keys == n.cells.Keys && m.maps.Keys == n.maps.Keys;
  }

  /** Doing something that changes nothing still changes nothing in emptier memory. */
  lemma NoOpStaysNoOp(m: Mem, m': Mem, e: Effect)
    requires Milder(m, m') && Touch(m, e) == m
    ensures Touch(m', e) == m'
  {
    forall a | a in m'.cells
      ensures Touch(m', e).cells[a] == m'.cells[a]
    {
      assert Touch(m, e).cells[a] == m.cells[a];
    }
    forall o | o in m'.maps
      ensures Touch(m', e).maps[o] == m'.maps[o]
    {
      assert Touch(m, e).maps[o] == m.maps[o];
    }
  }
}
