/**
 The Reset() generator (cmd/reset/main.go) as a compiler: Go type expressions are
 translated to statements, the statements have a text and a meaning, and running
 them resets the receiver.
 */
module Generator {
  import opened Wrappers
  import opened GoTypes
  import opened GoMemory

  /** An addressable operand: a receiver field, or what a pointer operand points to. */
  datatype Place = Field(recv: string, name: string) | Deref(ptr: Place)

  datatype Rhs = Zero | False | Empty | Nil | Composite(name: string) | New(ty: Ty)

  datatype Stmt =
    | Assign(place: Place, rhs: Rhs)
    | Truncate(place: Place)
    | Clear(place: Place)
    | CallReset(place: Place, typeName: string)   // place.Reset(), receiver taken by address
    | CallThrough(ptr: Place, typeName: string)   // ptr.Reset(), receiver is the pointer
    | IfNotNil(place: Place, body: Stmt)

  // ---- Text of statements ----

  function Operand(p: Place): string {
    match p
    case Field(recv, name) => recv + "." + name
    case Deref(ptr) => "(*" + Operand(ptr) + ")"
  }

  function Lhs(p: Place): string {
    match p
    case Field(_, _) => Operand(p)
    case Deref(ptr) => "*" + Operand(ptr)
  }

  function ZeroValue(typeName: string): string {
    "*new(" + typeName + ")"
  }

  function RhsText(r: Rhs): string {
    match r
    case Zero => "0"
    case False => "false"
    case Empty => "\"\""
    case Nil => "nil"
    case Composite(name) => name + "{}"
    case New(ty) => ZeroValue(TypeString(ty))
  }

  function AssignLine(indent: string, lhs: string, rhs: string): string {
    indent + lhs + " = " + rhs + "\n"
  }

  function ClearLine(indent: string, lhs: string): string {
    indent + "clear(" + lhs + ")\n"
  }

  function CallLine(indent: string, operand: string): string {
    indent + operand + ".Reset()\n"
  }

  function GuardLine(indent: string, cond: string): string {
    indent + "if " + cond + " != nil {\n"
  }

  /** The lines a statement is written as. */
  function Render(s: Stmt, indent: string): seq<string> {
    match s
    case Assign(p, rhs) => [AssignLine(indent, Lhs(p), RhsText(rhs))]
    case Truncate(p) => [AssignLine(indent, Lhs(p), Operand(p) + "[:0]")]
    case Clear(p) => [ClearLine(indent, Lhs(p))]
    case CallReset(p, _) => [CallLine(indent, Operand(p))]
    case CallThrough(p, _) => [CallLine(indent, Operand(p))]
    case IfNotNil(p, body) => [GuardLine(indent, Lhs(p))] + Render(body, "\t\t") + [indent + "}\n"]
  }

  // ---- The translation ----

  datatype FieldDecl = FieldDecl(names: seq<string>, ty: Ty)

  /** What collectPackage learns about a package. */
  datatype PkgInfo = PkgInfo(
    structDefs: set<string>, hasReset: set<string>, targets: map<string, seq<FieldDecl>>,
    lower: char -> char)   // unicode.ToLower
  {
    /** Targets have a Reset, and the package does not redeclare the predeclared type names. */
    ghost predicate Valid() {
      && targets.Keys <= hasReset
      && (forall name :: name in hasReset ==> !IsPredeclared(name))
      && (forall name :: name in structDefs ==> !IsPredeclared(name))
    }
  }

  predicate IsBuiltinNumeric(name: string) {
    name in {"int", "int8", "int16", "int32", "int64",
             "uint", "uint8", "uint16", "uint32", "uint64", "uintptr",
             "float32", "float64", "complex64", "complex128"}
  }

  predicate IsNumeric(name: string) {
    IsBuiltinNumeric(name) || name == "byte" || name == "rune"
  }

  predicate IsPredeclared(name: string) {
    IsNumeric(name) || name in {"bool", "string", "any", "error"}
  }

  function ZeroOf(info: PkgInfo, name: string): Rhs {
    if name in info.structDefs then Composite(name) else New(Ident(name))
  }

  function CompileIdent(info: PkgInfo, place: Place, name: string): Stmt {
    if IsNumeric(name) then Assign(place, Zero)
    else if name == "bool" then Assign(place, False)
    else if name == "string" then Assign(place, Empty)
    else if name == "any" || name == "error" then Assign(place, Nil)
    else if name in info.hasReset then CallReset(place, name)
    else Assign(place, ZeroOf(info, name))
  }

  function CompileField(info: PkgInfo, place: Place, ty: Ty): Stmt {
    match ty
    case Ident(name) => CompileIdent(info, place, name)
    case Star(elem) => IfNotNil(place, CompileElem(info, place, elem))
    case Slice(_) => Truncate(place)
    case Map(_, _) => Clear(place)
    case Interface(_) => Assign(place, Nil)
    case Chan(_) => Assign(place, Nil)
    case Func(_) => Assign(place, Nil)
    case _ => Assign(place, New(ty))
  }

  function CompileElem(info: PkgInfo, ptr: Place, elem: Ty): Stmt
    decreases elem
  {
    match elem
    case Ident(name) =>
      if name in info.hasReset then CallThrough(ptr, name)
      else if IsNumeric(name) then Assign(Deref(ptr), Zero)
      else if name == "bool" then Assign(Deref(ptr), False)
      else if name == "string" then Assign(Deref(ptr), Empty)
      else Assign(Deref(ptr), ZeroOf(info, name))
    case Slice(_) => Truncate(Deref(ptr))
    case Map(_, _) => Clear(Deref(ptr))
    case Star(inner) => IfNotNil(Deref(ptr), CompileElem(info, Deref(ptr), inner))
    case _ => Assign(Deref(ptr), New(elem))
  }

  function NotBlank(names: seq<string>): seq<string> {
    if names == [] then [] else (if names[0] == "_" then [] else [names[0]]) + NotBlank(names[1..])
  }

  /** Names a field declaration contributes; an embedded `*pkg.T` contributes none. */
  function FieldNames(f: FieldDecl): seq<string> {
    if |f.names| > 0 then NotBlank(f.names)
    else match f.ty
      case Ident(name) => [name]
      case Star(Ident(name)) => [name]
      case Selector(_, name) => [name]
      case _ => []
  }

  /** The names under which a declaration's fields are reset: its own but for blanks, or an embedded type's. */
  ghost predicate Declares(f: FieldDecl, name: string) {
    if f.names != [] then name in f.names && name != "_"
    else f.ty == Ident(name) || f.ty == Star(Ident(name)) || exists pkg :: f.ty == Selector(pkg, name)
  }

  lemma {:induction false} NotBlankIs(names: seq<string>, name: string)
    ensures name in NotBlank(names) <==> name in names && name != "_"
  {
    if names != [] {
      NotBlankIs(names[1..], name);
      assert name in names <==> name == names[0] || name in names[1..];
    }
  }

  lemma FieldNamesAre(f: FieldDecl, name: string)
    ensures name in FieldNames(f) <==> Declares(f, name)
  {
    NotBlankIs(f.names, name);
  }

  /** A resettable variable of a struct: its field name and type. */
  datatype Entry = Entry(name: string, ty: Ty)

  function Named(names: seq<string>, ty: Ty): seq<Entry> {
    seq(|names|, i requires 0 <= i < |names| => Entry(names[i], ty))
  }

  function Entries(fields: seq<FieldDecl>): seq<Entry> {
    if fields == [] then [] else Named(FieldNames(fields[0]), fields[0].ty) + Entries(fields[1..])
  }

  function Body(info: PkgInfo, recv: string, es: seq<Entry>): seq<Stmt> {
    seq(|es|, i requires 0 <= i < |es| => CompileField(info, Field(recv, es[i].name), es[i].ty))
  }

  // ---- Meaning of statements ----

  /** Hand-written Reset methods: effect, postcondition, and the cells each call may leave alone. */
  datatype Custom = Custom(
    run: (string, Mem, Loc) -> Mem,
    done: (string, Mem, Loc) -> bool,
    keeps: (string, Mem, Loc, Cell) -> bool)
  {
    /** A hand-written Reset only shrinks, reaches its postcondition, stays there, and respects its frame. */
    ghost predicate Lawful() {
      && (forall t, m, l :: Shrinks(m, run(t, m, l)) && done(t, run(t, m, l), l))
      && (forall t, m, m', l :: Shrinks(m, m') && done(t, m, l) ==> done(t, m', l))
      && (forall t, m, l :: done(t, m, l) ==> run(t, m, l) == m)
      && (forall t, m, l, c :: keeps(t, m, l, c) ==> Same(m, run(t, m, l), c))
      && (forall t, m, m', l, c :: Shrinks(m, m') && keeps(t, m, l, c) ==> keeps(t, m', l, c))
    }
  }

  /** What else Go's type checker knows of the package. */
  datatype Scope = Scope(
    declared: set<string>,         // its package-level names
    noMethods: set<string>,        // generic structs and aliases of struct types
    handWritten: set<string>,      // types with a Reset method in the source
    needArguments: set<string>)    // of these, the ones whose Reset cannot be called without arguments
  {
    /** All that a file without imports can name. */
    function Visible(): set<string> {
      declared + UNIVERSE
    }
  }

  const UNIVERSE := {
    "any", "bool", "byte", "comparable", "complex64", "complex128", "error", "float32", "float64",
    "int", "int8", "int16", "int32", "int64", "rune", "string",
    "uint", "uint8", "uint16", "uint32", "uint64", "uintptr",
    "true", "false", "iota", "nil",
    "append", "cap", "clear", "close", "complex", "copy", "delete", "imag", "len", "make", "max", "min",
    "new", "panic", "print", "println", "real", "recover"}

  /** The names the emitted text takes to be the predeclared ones. */
  predicate IsAssumed(name: string) {
    IsPredeclared(name) || name in {"nil", "false", "clear", "new"}
  }

  datatype Program = Program(info: PkgInfo, scope: Scope, custom: Custom) {
    ghost predicate Valid() {
      && info.Valid() && custom.Lawful()
      && info.hasReset + info.structDefs <= scope.declared
      && forall name :: name in scope.declared ==> !IsAssumed(name)
    }

    function EntriesOf(t: string): seq<Entry>
      requires t in info.targets
    {
      Entries(info.targets[t])
    }
  }

  // ---- What Go's type checker accepts ----

  function Root(p: Place): string {
    match p
    case Field(recv, _) => recv
    case Deref(ptr) => Root(ptr)
  }

  /** Inside a method with receiver `recv`, in a file without imports, the printed text names `ty` itself. */
  predicate Names(scope: Scope, recv: string, ty: Ty) {
    Faithful(ty) && !Foreign(ty) && Uses(ty) <= scope.Visible() && recv !in Uses(ty)
  }

  predicate RhsChecks(scope: Scope, recv: string, rhs: Rhs) {
    match rhs
    case Composite(name) => Names(scope, recv, Ident(name))
    case New(ty) => Names(scope, recv, ty)
    case _ => true
  }

  predicate StmtChecks(scope: Scope, s: Stmt) {
    match s
    case Assign(place, rhs) => Root(place) != "_" && RhsChecks(scope, Root(place), rhs)
    case Truncate(place) => Root(place) != "_"
    case Clear(place) => Root(place) != "_"
    case CallReset(place, t) => Root(place) != "_" && t !in scope.needArguments
    case CallThrough(ptr, t) => Root(ptr) != "_" && t !in scope.needArguments
    case IfNotNil(place, body) => Root(place) != "_" && StmtChecks(scope, body)
  }

  /** The name Go gives an embedded field; an instantiated generic type is outside the model. */
  function GoNames(f: FieldDecl): seq<string> {
    if |f.names| > 0 then f.names
    else match f.ty
      case Star(Selector(_, name)) => [name]
      case _ => FieldNames(f)
  }

  predicate HasField(fields: seq<FieldDecl>, name: string) {
    exists f :: f in fields && name in GoNames(f)
  }

  /** The receiver is tested for nil first; the type may take the method and has no member of that name yet. */
  predicate MethodChecks(p: Program, t: string)
    requires t in p.info.targets
  {
    var r := ReceiverName(p.info, t);
    && r != "_" && t !in p.scope.noMethods
    && t !in p.scope.handWritten && !HasField(p.info.targets[t], "Reset")
    && forall s :: s in Body(p.info, r, p.EntriesOf(t)) ==> StmtChecks(p.scope, s)
  }

  predicate FileChecks(p: Program) {
    forall t :: t in p.info.targets ==> MethodChecks(p, t)
  }

  /**
   Stuck is an ill-typed memory or a nil dereference; TooDeep means the call budget ran out;
   Rejected that the emitted file does not compile.
   */
  datatype Outcome = Done(mem: Mem) | Stuck | TooDeep | Rejected

  function Addr(mem: Mem, recv: Loc, p: Place): Option<Loc> {
    match p
    case Field(_, name) => Some(recv.Dot(name))
    case Deref(ptr) =>
      var l := Addr(mem, recv, ptr);
      if l.Some? && l.value in mem.leaves && mem.leaves[l.value].Ptr? then mem.leaves[l.value].target else None
  }

  function StoreZero(mem: Mem, l: Loc, rhs: Rhs): Outcome {
    match rhs
    case Zero => if l in mem.leaves && mem.leaves[l].Num? then Done(Store(mem, l, Num(0))) else Stuck
    case False => if l in mem.leaves && mem.leaves[l].Bool? then Done(Store(mem, l, Bool(false))) else Stuck
    case Empty => if l in mem.leaves && mem.leaves[l].Str? then Done(Store(mem, l, Str(""))) else Stuck
    case Nil => if l in mem.leaves && mem.leaves[l].Ref? then Done(Store(mem, l, Ref(None))) else Stuck
    case Composite(_) => Done(ZeroRegion(mem, l))
    case New(_) => Done(ZeroRegion(mem, l))
  }

  function ClearMap(mem: Mem, v: Leaf): Outcome {
    if !v.MapRef? then Stuck
    else if v.id.None? then Done(mem)
    else if v.id.value in mem.maps then Done(mem.(maps := mem.maps[v.id.value := map[]]))
    else Stuck
  }

  function Exec(p: Program, mem: Mem, recv: Loc, s: Stmt, depth: nat): Outcome
    decreases depth, 1, s
  {
    match s
    case Assign(place, rhs) =>
      var l := Addr(mem, recv, place);
      if l.None? then Stuck else StoreZero(mem, l.value, rhs)
    case Truncate(place) =>
      var l := Addr(mem, recv, place);
      if l.Some? && l.value in mem.leaves && mem.leaves[l.value].SliceHdr?
      then Done(Store(mem, l.value, Trunc(mem.leaves[l.value]))) else Stuck
    case Clear(place) =>
      var l := Addr(mem, recv, place);
      if l.Some? && l.value in mem.leaves then ClearMap(mem, mem.leaves[l.value]) else Stuck
    case CallReset(place, t) =>
      var l := Addr(mem, recv, place);
      if l.None? then Stuck else Call(p, mem, t, l.value, depth)
    case CallThrough(ptr, t) =>
      var l := Addr(mem, recv, Deref(ptr));
      if l.None? then Stuck else Call(p, mem, t, l.value, depth)
    case IfNotNil(place, body) =>
      var l := Addr(mem, recv, place);
      if l.None? || l.value !in mem.leaves || !mem.leaves[l.value].Ptr? then Stuck
      else if mem.leaves[l.value].target.None? then Done(mem)
      else Exec(p, mem, recv, body, depth)
  }

  function ExecSeq(p: Program, mem: Mem, recv: Loc, ss: seq<Stmt>, depth: nat): Outcome
    decreases depth, 2, |ss|
  {
    if ss == [] then Done(mem)
    else
      var o := Exec(p, mem, recv, ss[0], depth);
      if o.Done? then ExecSeq(p, o.mem, recv, ss[1..], depth) else o
  }

  /** A call of T's Reset with at most `depth` generated Reset frames on the stack. */
  function Call(p: Program, mem: Mem, t: string, l: Loc, depth: nat): Outcome
    decreases depth, 0
  {
    if t in p.info.targets then
      if depth == 0 then TooDeep
      else ExecSeq(p, mem, l, Body(p.info, ReceiverName(p.info, t), p.EntriesOf(t)), depth - 1)
    else Done(p.custom.run(t, mem, l))
  }

  /** Calling the generated Reset of a target in the package with the emitted file added to it. */
  function RunReset(p: Program, mem: Mem, t: string, l: Loc, depth: nat): Outcome
    requires t in p.info.targets
  {
    if FileChecks(p) then Call(p, mem, t, l, depth) else Rejected
  }

  function ReceiverName(info: PkgInfo, t: string): string {
    if t == "" then "v" else [info.lower(t[0])]
  }

  // ---- Specification ----

  /** The variable at `l` has type `ty`, and the Reset calls it leads to nest at most `depth` deep. */
  ghost predicate Ready(p: Program, mem: Mem, ty: Ty, l: Loc, depth: nat)
    decreases depth, 1, ty
  {
    match ty
    case Ident(name) =>
      if IsNumeric(name) then Lone(mem, l) && mem.leaves[l].Num?
      else if name == "bool" then Lone(mem, l) && mem.leaves[l].Bool?
      else if name == "string" then Lone(mem, l) && mem.leaves[l].Str?
      else if name == "any" || name == "error" then Lone(mem, l) && mem.leaves[l].Ref?
      else if name in p.info.hasReset then ReadyCall(p, mem, name, l, depth)
      else true
    case Star(elem) =>
      && l in mem.leaves && mem.leaves[l].Ptr?
      && (mem.leaves[l].target.Some? ==> Ready(p, mem, elem, mem.leaves[l].target.value, depth))
    case Slice(_) => l in mem.leaves && mem.leaves[l].SliceHdr?
    case Map(_, _) =>
      && l in mem.leaves && mem.leaves[l].MapRef?
      && (mem.leaves[l].id.Some? ==> mem.leaves[l].id.value in mem.maps)
    case Interface(_) => Lone(mem, l) && mem.leaves[l].Ref?
    case Chan(_) => Lone(mem, l) && mem.leaves[l].Ref?
    case Func(_) => Lone(mem, l) && mem.leaves[l].Ref?
    case _ => true
  }

  ghost predicate ReadyCall(p: Program, mem: Mem, t: string, l: Loc, depth: nat)
    decreases depth, 0
  {
    t in p.info.targets ==>
      && depth > 0
      && forall i :: 0 <= i < |p.EntriesOf(t)| ==>
           Ready(p, mem, p.EntriesOf(t)[i].ty, l.Dot(p.EntriesOf(t)[i].name), depth - 1)
  }

  /** The variable at `l` is reset, through any number of pointers and nested Reset calls. */
  ghost predicate IsReset(p: Program, mem: Mem, ty: Ty, l: Loc, depth: nat)
    decreases depth, 1, ty
  {
    match ty
    case Ident(name) =>
      if !IsPredeclared(name) && name in p.info.hasReset then ResetDone(p, mem, name, l, depth)
      else AllZero(mem, l)
    case Star(elem) =>
      && l in mem.leaves && mem.leaves[l].Ptr?
      && (mem.leaves[l].target.Some? ==> IsReset(p, mem, elem, mem.leaves[l].target.value, depth))
    case Slice(_) => l in mem.leaves && mem.leaves[l].SliceHdr? && mem.leaves[l].len == 0
    case Map(_, _) =>
      && l in mem.leaves && mem.leaves[l].MapRef?
      && (mem.leaves[l].id.Some? ==> mem.leaves[l].id.value in mem.maps && mem.maps[mem.leaves[l].id.value] == map[])
    case _ => AllZero(mem, l)
  }

  ghost predicate ResetDone(p: Program, mem: Mem, t: string, l: Loc, depth: nat)
    decreases depth, 0
  {
    if t in p.info.targets then
      && depth > 0
      && forall i :: 0 <= i < |p.EntriesOf(t)| ==>
           IsReset(p, mem, p.EntriesOf(t)[i].ty, l.Dot(p.EntriesOf(t)[i].name), depth - 1)
    else p.custom.done(t, mem, l)
  }

  /** Cell `c` is outside everything resetting the variable at `l` may write. */
  ghost predicate Untouched(p: Program, mem: Mem, ty: Ty, l: Loc, depth: nat, c: Cell)
    decreases depth, 1, ty
  {
    match ty
    case Ident(name) =>
      if !IsPredeclared(name) && name in p.info.hasReset then CallUntouched(p, mem, name, l, depth, c)
      else !(c.LeafAt? && Under(c.loc, l))
    case Star(elem) =>
      l in mem.leaves && mem.leaves[l].Ptr? && mem.leaves[l].target.Some? ==>
        Untouched(p, mem, elem, mem.leaves[l].target.value, depth, c)
    case Slice(_) => c != LeafAt(l)
    case Map(_, _) =>
      l in mem.leaves && mem.leaves[l].MapRef? && mem.leaves[l].id.Some? ==> c != MapAt(mem.leaves[l].id.value)
    case _ => !(c.LeafAt? && Under(c.loc, l))
  }

  ghost predicate CallUntouched(p: Program, mem: Mem, t: string, l: Loc, depth: nat, c: Cell)
    decreases depth, 0
  {
    if t in p.info.targets then
      depth > 0 ==> forall i :: 0 <= i < |p.EntriesOf(t)| ==>
        Untouched(p, mem, p.EntriesOf(t)[i].ty, l.Dot(p.EntriesOf(t)[i].name), depth - 1, c)
    else p.custom.keeps(t, mem, l, c)
  }
}
