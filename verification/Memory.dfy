/**
 The memory a generated Reset() method runs on: typed leaves at locations, so
 that pointers may aim inside structs and arrays and may alias, plus map objects.
 */
module GoMemory {
  import opened Wrappers

  datatype Step = Fld(name: string) | Idx(i: nat)

  /** A location is an object and a path of fields and array indices inside it. */
  datatype Loc = Loc(obj: nat, path: seq<Step>) {
    function Dot(name: string): Loc {
      Loc(obj, path + [Fld(name)])
    }
  }

  /** Ref stands for interface, channel and function values. */
  datatype Leaf =
    | Num(bits: int)
    | Bool(b: bool)
    | Str(s: string)
    | Ptr(target: Option<Loc>)
    | SliceHdr(back: Option<nat>, len: nat, cap: nat)
    | MapRef(id: Option<nat>)
    | Ref(ref: Option<nat>)

  /** Map entries are opaque key and value tokens. */
  datatype Mem = Mem(leaves: map<Loc, Leaf>, maps: map<nat, map<nat, nat>>)

  datatype Cell = LeafAt(loc: Loc) | MapAt(id: nat)

  function ZeroLeaf(v: Leaf): Leaf {
    match v
    case Num(_) => Num(0)
    case Bool(_) => Bool(false)
    case Str(_) => Str("")
    case Ptr(_) => Ptr(None)
    case SliceHdr(_, _, _) => SliceHdr(None, 0, 0)
    case MapRef(_) => MapRef(None)
    case Ref(_) => Ref(None)
  }

  predicate Under(l: Loc, root: Loc) {
    l.obj == root.obj && root.path <= l.path
  }

  function Store(mem: Mem, l: Loc, v: Leaf): Mem {
    mem.(leaves := mem.leaves[l := v])
  }

  /** Assigning the zero value of any type to the variable at `root`. */
  function ZeroRegion(mem: Mem, root: Loc): Mem {
    mem.(leaves := map l | l in mem.leaves :: if Under(l, root) then ZeroLeaf(mem.leaves[l]) else mem.leaves[l])
  }

  predicate AllZero(mem: Mem, root: Loc) {
    forall l :: l in mem.leaves && Under(l, root) ==> mem.leaves[l] == ZeroLeaf(mem.leaves[l])
  }

  /** `l` holds a leaf and nothing lies inside it. */
  predicate Lone(mem: Mem, l: Loc) {
    l in mem.leaves && forall m :: m in mem.leaves && Under(m, l) ==> m == l
  }

  function Trunc(v: Leaf): Leaf
    requires v.SliceHdr?
  {
    v.(len := 0)
  }

  predicate Same(mem: Mem, after: Mem, c: Cell) {
    match c
    case LeafAt(l) => l in mem.leaves && l in after.leaves ==> after.leaves[l] == mem.leaves[l]
    case MapAt(id) => id in mem.maps && id in after.maps ==> after.maps[id] == mem.maps[id]
  }

  /** The only ways resetting code may change a leaf. */
  predicate LeafShrinks(v: Leaf, after: Leaf) {
    after == v || after == ZeroLeaf(v) || (v.SliceHdr? && after == Trunc(v))
  }

  /** A memory effect in which every leaf stays, is zeroed or is cut to length 0, and maps stay or are emptied. */
  predicate Shrinks(mem: Mem, after: Mem) {
    && after.leaves.Keys == mem.leaves.Keys
    && after.maps.Keys == mem.maps.Keys
    && (forall l :: l in mem.leaves ==> LeafShrinks(mem.leaves[l], after.leaves[l]))
    && (forall id :: id in mem.maps ==> after.maps[id] == mem.maps[id] || after.maps[id] == map[])
  }

  lemma ShrinksTransitive(a: Mem, b: Mem, c: Mem)
    requires Shrinks(a, b) && Shrinks(b, c)
    ensures Shrinks(a, c)
  {
  }

  lemma AllZeroStays(mem: Mem, after: Mem, root: Loc)
    requires Shrinks(mem, after) && AllZero(mem, root)
    ensures AllZero(after, root)
  {
  }

}
