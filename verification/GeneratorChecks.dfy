/**
 Exactly which structs the generator serves: the emitted file compiles when each target meets a condition on its
 source.
 */
module GeneratorChecks {
  import opened Wrappers
  import opened GoTypes
  import opened GoMemory
  import opened Generator

  // ---- The condition, read off the declarations ----

  /** The type a field's reset spells out, if any. */
  function Printed(info: PkgInfo, ty: Ty): Option<Ty> {
    match ty
    case Ident(name) => if IsPredeclared(name) || name in info.hasReset then None else Some(ty)
    case Star(elem) => PrintedElem(info, elem)
    case Slice(_) => None
    case Map(_, _) => None
    case Interface(_) => None
    case Chan(_) => None
    case Func(_) => None
    case _ => Some(ty)
  }

  /** The same for what a pointer field reaches, behind any number of pointers. */
  function PrintedElem(info: PkgInfo, elem: Ty): Option<Ty> {
    match elem
    case Ident(name) =>
      if name in info.hasReset || IsNumeric(name) || name == "bool" || name == "string" then None else Some(elem)
    case Star(inner) => PrintedElem(info, inner)
    case Slice(_) => None
    case Map(_, _) => None
    case _ => Some(elem)
  }

  function Pointee(ty: Ty): Ty {
    if ty.Star? then Pointee(ty.elem) else ty
  }

  /** The field, or what it points to, is reset by calling a Reset that wants arguments. */
  predicate WantsArguments(p: Program, ty: Ty) {
    && Pointee(ty).Ident? && Pointee(ty).name in p.info.hasReset
    && Pointee(ty).name in p.scope.needArguments
  }

  predicate FieldServed(p: Program, recv: string, ty: Ty) {
    && !WantsArguments(p, ty)
    && (Printed(p.info, ty).Some? ==> Names(p.scope, recv, Printed(p.info, ty).value))
  }

  /**
   The generator serves target `t`: its receiver is not blank; `t` is neither generic nor an alias,
   has no Reset method or field yet; no field's Reset wants arguments; and every type that has to be
   spelled out uses only names a file without imports sees, none of them the receiver's, and no
   interface literal with methods.
   */
  predicate Served(p: Program, t: string)
    requires t in p.info.targets
  {
    var r := ReceiverName(p.info, t);
    && r != "_" && t !in p.scope.noMethods
    && t !in p.scope.handWritten && !HasField(p.info.targets[t], "Reset")
    && forall e :: e in p.EntriesOf(t) ==> FieldServed(p, r, e.ty)
  }

  // ---- It is exact ----

  lemma {:induction false} ElemChecksExactlyWhen(p: Program, ptr: Place, elem: Ty)
    requires p.Valid()
    ensures StmtChecks(p.scope, CompileElem(p.info, ptr, elem)) <==>
      && Root(ptr) != "_" && !WantsArguments(p, elem)
      && (PrintedElem(p.info, elem).Some? ==> Names(p.scope, Root(ptr), PrintedElem(p.info, elem).value))
    decreases elem
  {
    if elem.Star? {
      ElemChecksExactlyWhen(p, Deref(ptr), elem.elem);
    }
  }

  /** The statement emitted for a field passes Go's type checker exactly when the field is served. */
  lemma FieldChecksExactlyWhen(p: Program, recv: string, name: string, ty: Ty)
    requires p.Valid()
    ensures StmtChecks(p.scope, CompileField(p.info, Field(recv, name), ty)) <==>
        recv != "_" && FieldServed(p, recv, ty)
  {
    if ty.Star? {
      ElemChecksExactlyWhen(p, Field(recv, name), ty.elem);
    }
  }

  /** The emitted method passes Go's type checker exactly when its target is served. */
  lemma MethodChecksExactlyWhen(p: Program, t: string)
    requires p.Valid() && t in p.info.targets
    ensures MethodChecks(p, t) <==> Served(p, t)
  {
    var r, es := ReceiverName(p.info, t), p.EntriesOf(t);
    var body := Body(p.info, r, es);
    forall i | 0 <= i < |es| ensures StmtChecks(p.scope, body[i]) <==> r != "_" && FieldServed(p, r, es[i].ty) {
      FieldChecksExactlyWhen(p, r, es[i].name, es[i].ty);
    }
    if MethodChecks(p, t) {
      forall e | e in es ensures FieldServed(p, r, e.ty) {
        var i :| 0 <= i < |es| && es[i] == e;
        assert body[i] in body;
      }
    }
    if Served(p, t) {
      forall s | s in body ensures StmtChecks(p.scope, s) {
        var i :| 0 <= i < |body| && body[i] == s;
        assert es[i] in es;
      }
    }
  }

  ghost predicate AllServed(p: Program) {
    forall t :: t in p.info.targets ==> Served(p, t)
  }

  /** One target that is not served keeps the whole file from compiling, and so every Reset in it from running. */
  lemma RejectedExactlyWhen(p: Program, mem: Mem, t: string, l: Loc, depth: nat)
    requires p.Valid() && t in p.info.targets
    ensures RunReset(p, mem, t, l, depth) == (if AllServed(p) then Call(p, mem, t, l, depth) else Rejected)
  {
    forall u | u in p.info.targets ensures MethodChecks(p, u) <==> Served(p, u) {
      MethodChecksExactlyWhen(p, u);
    }
  }

  // ---- Structs that are not served ----

  /** A field of a type from another package: the emitted file imports nothing, so `*new(pkg.Name)` names nothing. */
  lemma ForeignFieldRejected(p: Program, t: string, k: nat, f: string, pkg: string, name: string)
    requires p.Valid() && t in p.info.targets && k < |p.info.targets[t]|
    requires p.info.targets[t][k] == FieldDecl([f], Selector(pkg, name)) && f != "_"
    ensures !Served(p, t)
  {
    var i := EntriesCover(p.info.targets[t], k, f);
    assert p.EntriesOf(t)[i] in p.EntriesOf(t);
  }

  /** A receiver that is spelled like a type, a constant or anything else a field's reset has to name. */
  lemma CapturedNameRejected(p: Program, t: string, k: nat, f: string)
    requires p.Valid() && t in p.info.targets && k < |p.info.targets[t]| && f in FieldNames(p.info.targets[t][k])
    requires Printed(p.info, p.info.targets[t][k].ty).Some?
    requires ReceiverName(p.info, t) in Uses(Printed(p.info, p.info.targets[t][k].ty).value)
    ensures !Served(p, t)
  {
    var i := EntriesCover(p.info.targets[t], k, f);
    assert p.EntriesOf(t)[i] in p.EntriesOf(t);
  }

  /** For example a struct `S` with a field of type `s`: the field's reset spells `s`, which is the receiver there. */
  lemma ReceiverCapturesTypeName(p: Program, f: string)
    requires p.Valid() && p.info.lower('S') == 's' && "s" !in p.info.hasReset
    requires "S" in p.info.targets && p.info.targets["S"] == [FieldDecl([f], Ident("s"))] && f != "_"
    ensures ReceiverName(p.info, "S") == "s"
    ensures CompileField(p.info, Field("s", f), Ident("s")).rhs == ZeroOf(p.info, "s")
    ensures !Served(p, "S")
  {
    var n := "s";
    assert |n| == 1 && !IsPredeclared(n);
    assert p.info.targets["S"][0].names == [f];
    CapturedNameRejected(p, "S", 0, f);
  }

  /** A type name that begins with an underscore gives the blank receiver, which the nil test cannot use. */
  lemma UnderscoreRejected(p: Program, t: string)
    requires p.Valid() && t in p.info.targets && t != "" && t[0] == '_' && p.info.lower('_') == '_'
    ensures !Served(p, t)
  {
  }

  /** A field, or what it points to, whose Reset cannot be called without arguments. */
  lemma ArgumentsRejected(p: Program, t: string, k: nat, f: string, u: string)
    requires p.Valid() && t in p.info.targets && k < |p.info.targets[t]| && f in FieldNames(p.info.targets[t][k])
    requires p.info.targets[t][k].ty in {Ident(u), Star(Ident(u)), Star(Star(Ident(u)))}
    requires u in p.info.hasReset && u in p.scope.needArguments
    ensures !Served(p, t)
  {
    var i := EntriesCover(p.info.targets[t], k, f);
    assert p.EntriesOf(t)[i] in p.EntriesOf(t);
    assert Pointee(Star(Star(Ident(u)))) == Pointee(Star(Ident(u))) == Ident(u);
  }

  /** A generic struct or an alias cannot take the method, and a field of that name excludes it. */
  lemma UnmethodableRejected(p: Program, t: string, f: FieldDecl)
    requires t in p.info.targets
    requires t in p.scope.noMethods || (f in p.info.targets[t] && "Reset" in f.names)
    ensures !Served(p, t)
  {
  }

  /**
   An interface literal with methods prints as `any`, another type, at whatever place in the printed type it
   stands.
   */
  lemma MethodInterfaceRejected(p: Program, t: string, k: nat, f: string)
    requires p.Valid() && t in p.info.targets && k < |p.info.targets[t]| && f in FieldNames(p.info.targets[t][k])
    requires Printed(p.info, p.info.targets[t][k].ty).Some? && !Faithful(Printed(p.info, p.info.targets[t][k].ty).value)
    ensures !Served(p, t)
  {
    var i := EntriesCover(p.info.targets[t], k, f);
    assert p.EntriesOf(t)[i] in p.EntriesOf(t);
  }

  /** Every name that a declaration contributes is among the fields the method resets, with the declaration's type. */
  lemma {:induction false} EntriesCover(fields: seq<FieldDecl>, k: nat, name: string) returns (i: nat)
    requires k < |fields| && name in FieldNames(fields[k])
    ensures i < |Entries(fields)| && Entries(fields)[i] == Entry(name, fields[k].ty)
  {
    var first := Named(FieldNames(fields[0]), fields[0].ty);
    if k == 0 {
      i :| 0 <= i < |first| && FieldNames(fields[0])[i] == name;
    } else {
      var j := EntriesCover(fields[1..], k - 1, name);
      i := |first| + j;
    }
  }
}
