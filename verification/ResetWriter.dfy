/** The imperative half of the generator: collecting a package and appending the emitted text. */
module ResetWriter {
  import opened Wrappers
  import opened GoTypes
  import opened Generator
  import opened Seqs

  /** `marked` says that the declaration's or the spec's comment carries the generate:reset marker. */
  datatype Spec = StructSpec(name: string, form: Form, marked: bool, fields: seq<FieldDecl>) | OtherSpec(name: string)
  datatype Form = Plain | Generic | Alias

  /** `required` counts the arguments a call has to give. */
  datatype Decl = TypeDecl(specs: seq<Spec>) | FuncDecl(name: string, recv: seq<Ty>, required: nat) | OtherDecl
  datatype Target = Target(name: string, fields: seq<FieldDecl>)

  function Bare(t: Ty): Ty {
    if t.Star? then t.elem else t
  }

  predicate IsResetMethodOf(d: Decl, name: string) {
    d.FuncDecl? && d.name == "Reset" && |d.recv| == 1 && Bare(d.recv[0]) == Ident(name)
  }

  predicate Marks(s: Spec, name: string) {
    s.StructSpec? && s.marked && s.name == name
  }

  predicate GivesReset(d: Decl, name: string) {
    IsResetMethodOf(d, name) || (d.TypeDecl? && exists s :: s in d.specs && Marks(s, name))
  }

  predicate DefinesStruct(d: Decl, name: string) {
    d.TypeDecl? && exists s :: s in d.specs && s.StructSpec? && s.name == name
  }

  function StructNames(specs: seq<Spec>): set<string> {
    if specs == [] then {}
    else
      var s := specs[|specs| - 1];
      StructNames(specs[..|specs| - 1]) + (if s.StructSpec? then {s.name} else {})
  }

  function MarkedNames(specs: seq<Spec>): set<string> {
    if specs == [] then {}
    else
      var s := specs[|specs| - 1];
      MarkedNames(specs[..|specs| - 1]) + (if s.StructSpec? && s.marked then {s.name} else {})
  }

  lemma {:induction false} NamesAre(specs: seq<Spec>, name: string)
    ensures name in StructNames(specs) <==> exists s :: s in specs && s.StructSpec? && s.name == name
    ensures name in MarkedNames(specs) <==> exists s :: s in specs && Marks(s, name)
  {
    if specs != [] {
      var front, last := specs[..|specs| - 1], specs[|specs| - 1];
      NamesAre(front, name);
      assert forall s :: s in specs <==> s in front || s == last;
      assert name in MarkedNames(specs) <==> name in MarkedNames(front) || Marks(last, name);
    }
  }

  /** Some declaration gives `name` a Reset. */
  predicate Gives(decls: seq<Decl>, name: string) {
    exists d :: d in decls && GivesReset(d, name)
  }

  predicate Defines(decls: seq<Decl>, name: string) {
    exists d :: d in decls && DefinesStruct(d, name)
  }

  lemma OneMoreDecl(decls: seq<Decl>, i: nat, name: string)
    requires i < |decls|
    ensures Gives(decls[..i + 1], name) <==> Gives(decls[..i], name) || GivesReset(decls[i], name)
    ensures Defines(decls[..i + 1], name) <==> Defines(decls[..i], name) || DefinesStruct(decls[i], name)
  {
    assert decls[..i + 1] == decls[..i] + [decls[i]];
  }

  function SpecTargets(specs: seq<Spec>): seq<Target> {
    if specs == [] then []
    else
      var s := specs[|specs| - 1];
      SpecTargets(specs[..|specs| - 1]) + (if s.StructSpec? && s.marked then [Target(s.name, s.fields)] else [])
  }

  function DeclTargets(decls: seq<Decl>): seq<Target> {
    if decls == [] then []
    else
      var d := decls[|decls| - 1];
      DeclTargets(decls[..|decls| - 1]) + (if d.TypeDecl? then SpecTargets(d.specs) else [])
  }

  function AsMap(ts: seq<Target>): map<string, seq<FieldDecl>> {
    if ts == [] then map[]
    else AsMap(ts[..|ts| - 1])[ts[|ts| - 1].name := ts[|ts| - 1].fields]
  }

  function HeadLines(r: string, typeName: string): seq<string> {
    ["func (" + r + " *" + typeName + ") Reset() {\n", "\tif " + r + " == nil {\n\t\treturn\n\t}\n"]
  }

  /** The lines of one generated method. */
  function MethodLines(info: PkgInfo, t: Target): seq<string> {
    HeadLines(ReceiverName(info, t.name), t.name)
    + RenderAll(Body(info, ReceiverName(info, t.name), Entries(t.fields))) + ["}\n\n"]
  }

  function Rendered(ss: seq<Stmt>): seq<seq<string>> {
    seq(|ss|, i requires 0 <= i < |ss| => Render(ss[i], "\t"))
  }

  function RenderAll(ss: seq<Stmt>): seq<string> {
    Flatten(Rendered(ss))
  }

  function FileChunks(info: PkgInfo, ts: seq<Target>): seq<seq<string>> {
    seq(|ts|, i requires 0 <= i < |ts| => MethodLines(info, ts[i]))
  }

  class Package {
    var structDefs: set<string>
    var hasReset: set<string>
    var targets: seq<Target>

    constructor ()
      ensures structDefs == {} && hasReset == {} && targets == []
    {
      structDefs, hasReset, targets := {}, {}, [];
    }

    function Info(lower: char -> char): PkgInfo
      reads this
    {
      PkgInfo(structDefs, hasReset, AsMap(targets), lower)
    }

    method CollectSpecs(specs: seq<Spec>)
      modifies this
      ensures structDefs == old(structDefs) + StructNames(specs)
      ensures hasReset == old(hasReset) + MarkedNames(specs)
      ensures targets == old(targets) + SpecTargets(specs)
    {
      var i := 0;
      while i < |specs|
        invariant i <= |specs|
        invariant structDefs == old(structDefs) + StructNames(specs[..i])
        invariant hasReset == old(hasReset) + MarkedNames(specs[..i])
        invariant targets == old(targets) + SpecTargets(specs[..i])
      {
        var s := specs[i];
        assert specs[..i + 1][..i] == specs[..i];
        if s.StructSpec? {
          structDefs := structDefs + {s.name};
          if s.marked {
            hasReset := hasReset + {s.name};
            targets := targets + [Target(s.name, s.fields)];
          }
        }
        i := i + 1;
      }
      assert specs[..i] == specs;
    }

    /** A type has a Reset exactly when some declaration, in whatever file and order, marks it or defines the method. */
    method Collect(decls: seq<Decl>)
      requires structDefs == {} && hasReset == {} && targets == []
      modifies this
      ensures forall name :: name in hasReset <==> Gives(decls, name)
      ensures forall name :: name in structDefs <==> Defines(decls, name)
      ensures targets == DeclTargets(decls)
    {
      var i := 0;
      while i < |decls|
        invariant i <= |decls|
        invariant forall name :: name in hasReset <==> Gives(decls[..i], name)
        invariant forall name :: name in structDefs <==> Defines(decls[..i], name)
        invariant targets == DeclTargets(decls[..i])
      {
        var d := decls[i];
        assert decls[..i + 1][..i] == decls[..i];
        ghost var (before, defsBefore) := (hasReset, structDefs);
        match d {
          case TypeDecl(specs) =>
            CollectSpecs(specs);
            forall name ensures GivesReset(d, name) <==> name in MarkedNames(specs)
                        ensures DefinesStruct(d, name) <==> name in StructNames(specs) {
              NamesAre(specs, name);
            }
          case FuncDecl(name, recv, _) =>
            if name == "Reset" && |recv| == 1 && Bare(recv[0]).Ident? {
              hasReset := hasReset + {Bare(recv[0]).name};
            }
          case OtherDecl =>
        }
        forall name ensures name in hasReset <==> Gives(decls[..i + 1], name)
                    ensures name in structDefs <==> Defines(decls[..i + 1], name) {
          OneMoreDecl(decls, i, name);
          assert name in hasReset <==> name in before || GivesReset(d, name);
          assert name in structDefs <==> name in defsBefore || DefinesStruct(d, name);
        }
        i := i + 1;
      }
      assert decls[..i] == decls;
    }
  }

  class Writer {
    var buf: seq<string>
    const info: PkgInfo

    constructor (info: PkgInfo)
      ensures buf == [] && this.info == info
    {
      this.info := info;
      buf := [];
    }

    method WriteIdentReset(sel: string, place: Place, name: string)
      requires sel == Operand(place) == Lhs(place)
      modifies this`buf
      ensures buf == old(buf) + Render(CompileIdent(info, place, name), "\t")
    {
      if IsBuiltinNumeric(name) || name == "byte" || name == "rune" {
        buf := buf + [AssignLine("\t", sel, "0")];
        return;
      }
      match name {
        case "bool" => buf := buf + [AssignLine("\t", sel, "false")]; return;
        case "string" => buf := buf + [AssignLine("\t", sel, "\"\"")]; return;
        case "any" => buf := buf + [AssignLine("\t", sel, "nil")]; return;
        case "error" => buf := buf + [AssignLine("\t", sel, "nil")]; return;
        case _ =>
      }
      if name in info.hasReset {
        buf := buf + [CallLine("\t", sel)];
      } else if name in info.structDefs {
        buf := buf + [AssignLine("\t", sel, name + "{}")];
      } else {
        buf := buf + [AssignLine("\t", sel, ZeroValue(name))];
      }
    }

    /** Statements inside pointer guards are always indented twice, however deep the guards nest. */
    method WritePointerElemReset(ptrSel: string, ptr: Place, elem: Ty)
      requires ptrSel == Operand(ptr)
      modifies this`buf
      ensures buf == old(buf) + Render(CompileElem(info, ptr, elem), "\t\t")
      decreases elem
    {
      match elem {
        case Ident(name) =>
          if name in info.hasReset {
            buf := buf + [CallLine("\t\t", ptrSel)];
          } else if IsBuiltinNumeric(name) || name == "byte" || name == "rune" {
            buf := buf + [AssignLine("\t\t", "*" + ptrSel, "0")];
          } else if name == "bool" {
            buf := buf + [AssignLine("\t\t", "*" + ptrSel, "false")];
          } else if name == "string" {
            buf := buf + [AssignLine("\t\t", "*" + ptrSel, "\"\"")];
          } else if name in info.structDefs {
            buf := buf + [AssignLine("\t\t", "*" + ptrSel, name + "{}")];
          } else {
            buf := buf + [AssignLine("\t\t", "*" + ptrSel, ZeroValue(name))];
          }
        case Slice(_) =>
          buf := buf + [AssignLine("\t\t", "*" + ptrSel, "(*" + ptrSel + ")" + "[:0]")];
        case Map(_, _) =>
          buf := buf + [ClearLine("\t\t", "*" + ptrSel)];
        case Star(inner) =>
          var head := GuardLine("\t\t", "*" + ptrSel);
          buf := buf + [head];
          WritePointerElemReset("(*" + ptrSel + ")", Deref(ptr), inner);
          buf := buf + ["\t\t" + "}\n"];
          Regroup(old(buf), [head], Render(CompileElem(info, Deref(ptr), inner), "\t\t"), ["\t\t" + "}\n"]);
        case _ =>
          buf := buf + [AssignLine("\t\t", "*" + ptrSel, ZeroValue(TypeString(elem)))];
      }
    }

    method WriteExprReset(sel: string, place: Place, ty: Ty)
      requires place.Field? && sel == Operand(place)
      modifies this`buf
      ensures buf == old(buf) + Render(CompileField(info, place, ty), "\t")
    {
      match ty {
        case Ident(name) => WriteIdentReset(sel, place, name);
        case Star(elem) =>
          var head := GuardLine("\t", sel);
          buf := buf + [head];
          WritePointerElemReset(sel, place, elem);
          buf := buf + ["\t" + "}\n"];
          Regroup(old(buf), [head], Render(CompileElem(info, place, elem), "\t\t"), ["\t" + "}\n"]);
        case Slice(_) => buf := buf + [AssignLine("\t", sel, sel + "[:0]")];
        case Map(_, _) => buf := buf + [ClearLine("\t", sel)];
        case Interface(_) => buf := buf + [AssignLine("\t", sel, "nil")];
        case Chan(_) => buf := buf + [AssignLine("\t", sel, "nil")];
        case Func(_) => buf := buf + [AssignLine("\t", sel, "nil")];
        case _ => buf := buf + [AssignLine("\t", sel, ZeroValue(TypeString(ty)))];
      }
    }

    method NamesOf(f: FieldDecl) returns (names: seq<string>)
      ensures names == FieldNames(f)
    {
      names := [];
      if |f.names| > 0 {
        var i := 0;
        while i < |f.names|
          invariant i <= |f.names|
          invariant names + NotBlank(f.names[i..]) == NotBlank(f.names)
        {
          ghost var (before, rest) := (names, NotBlank(f.names[i + 1..]));
          assert f.names[i..][1..] == f.names[i + 1..];
          if f.names[i] != "_" {
            names := names + [f.names[i]];
            assert before + ([f.names[i]] + rest) == names + rest;
          }
          i := i + 1;
        }
        return;
      }
      match f.ty {
        case Ident(name) => names := [name];
        case Star(Ident(name)) => names := [name];
        case Selector(_, name) => names := [name];
        case _ =>
      }
    }

    method WriteFieldResets(r: string, f: FieldDecl)
      modifies this`buf
      ensures buf == old(buf) + RenderAll(Body(info, r, Named(FieldNames(f), f.ty)))
    {
      var names := NamesOf(f);
      ghost var body := Body(info, r, Named(names, f.ty));
      ghost var lines := Rendered(body);
      var i := 0;
      while i < |names|
        invariant i <= |names|
        invariant buf == old(buf) + Flatten(lines[..i])
      {
        WriteExprReset(r + "." + names[i], Field(r, names[i]), f.ty);
        AppendChunk(old(buf), lines, i);
        i := i + 1;
      }
      assert lines[..i] == lines;
    }

    method WriteFields(r: string, fields: seq<FieldDecl>)
      modifies this`buf
      ensures buf == old(buf) + RenderAll(Body(info, r, Entries(fields)))
    {
      ghost var chunks := FieldChunks(info, r, fields);
      var i := 0;
      while i < |fields|
        invariant i <= |fields|
        invariant buf == old(buf) + Flatten(chunks[..i])
      {
        WriteFieldResets(r, fields[i]);
        AppendChunk(old(buf), chunks, i);
        i := i + 1;
      }
      assert chunks[..i] == chunks;
      ChunksAreBody(info, r, fields);
    }

    /** One whole generated method, appended to the buffer. */
    method WriteTarget(t: Target)
      modifies this`buf
      ensures buf == old(buf) + MethodLines(info, t)
    {
      var r := ReceiverName(info, t.name);
      var head := HeadLines(r, t.name);
      buf := buf + head;
      WriteFields(r, t.fields);
      buf := buf + ["}\n\n"];
      Regroup(old(buf), head, RenderAll(Body(info, r, Entries(t.fields))), ["}\n\n"]);
    }

    method WriteAll(ts: seq<Target>)
      modifies this`buf
      ensures buf == old(buf) + Flatten(FileChunks(info, ts))
    {
      ghost var chunks := FileChunks(info, ts);
      var i := 0;
      while i < |ts|
        invariant i <= |ts|
        invariant buf == old(buf) + Flatten(chunks[..i])
      {
        WriteTarget(ts[i]);
        AppendChunk(old(buf), chunks, i);
        i := i + 1;
      }
      assert chunks[..i] == chunks;
    }
  }

  ghost function FieldChunks(info: PkgInfo, r: string, fs: seq<FieldDecl>): seq<seq<string>> {
    seq(|fs|, i requires 0 <= i < |fs| => RenderAll(Body(info, r, Named(FieldNames(fs[i]), fs[i].ty))))
  }

  lemma BodyConcat(info: PkgInfo, r: string, a: seq<Entry>, b: seq<Entry>)
    ensures RenderAll(Body(info, r, a + b)) == RenderAll(Body(info, r, a)) + RenderAll(Body(info, r, b))
  {
    var (x, y) := (Body(info, r, a), Body(info, r, b));
    BodyParts(info, r, a, b);
    RenderedConcat(x, y);
    FlattenConcat(Rendered(x), Rendered(y));
  }

  lemma BodyParts(info: PkgInfo, r: string, a: seq<Entry>, b: seq<Entry>)
    ensures Body(info, r, a + b) == Body(info, r, a) + Body(info, r, b)
  {
  }

  lemma RenderedConcat(a: seq<Stmt>, b: seq<Stmt>)
    ensures Rendered(a + b) == Rendered(a) + Rendered(b)
  {
  }

  lemma {:induction false} ChunksAreBody(info: PkgInfo, r: string, fs: seq<FieldDecl>)
    ensures Flatten(FieldChunks(info, r, fs)) == RenderAll(Body(info, r, Entries(fs)))
  {
    if fs != [] {
      ChunksAreBody(info, r, fs[1..]);
      assert FieldChunks(info, r, fs)[1..] == FieldChunks(info, r, fs[1..]);
      BodyConcat(info, r, Named(FieldNames(fs[0]), fs[0].ty), Entries(fs[1..]));
    }
  }

  /** The method generated for models.Metrics: fields cleared, and what Delta and Value point to zeroed. */
  lemma MetricsBody(info: PkgInfo)
    requires "MetricType" !in info.hasReset && "MetricType" !in info.structDefs
    requires forall name :: name in info.hasReset ==> !IsPredeclared(name)
    ensures info.lower('M') == 'm' ==> ReceiverName(info, "Metrics") == "m"
    ensures Body(info, "m", [Entry("ID", Ident("string")), Entry("MType", Ident("MetricType")),
                             Entry("Delta", Star(Ident("int64"))), Entry("Value", Star(Ident("float64")))])
         == [Assign(Field("m", "ID"), Empty),
             Assign(Field("m", "MType"), New(Ident("MetricType"))),
             IfNotNil(Field("m", "Delta"), Assign(Deref(Field("m", "Delta")), Zero)),
             IfNotNil(Field("m", "Value"), Assign(Deref(Field("m", "Value")), Zero))]
  {
  }
}
