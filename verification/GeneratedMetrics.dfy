/** The generator at work on models.Metrics: the committed text, line by line, and a run of it. */
module GeneratedMetrics {
  import opened Wrappers
  import opened GoTypes
  import opened GoMemory
  import opened Generator
  import opened GeneratorChecks
  import opened GeneratorCorrect
  import opened ResetWriter
  import opened Seqs

  const FIELDS: seq<FieldDecl> := [
    FieldDecl(["ID"], Ident("string")), FieldDecl(["MType"], Ident("MetricType")),
    FieldDecl(["Delta"], Star(Ident("int64"))), FieldDecl(["Value"], Star(Ident("float64")))]

  /** What a package with Metrics looks like to the generator. */
  predicate MetricsPackage(info: PkgInfo) {
    && info.lower('M') == 'm' && "MetricType" !in info.hasReset && "MetricType" !in info.structDefs
    && forall name :: name in info.hasReset ==> !IsPredeclared(name)
  }

  lemma OneField(name: string, ty: Ty, rest: seq<FieldDecl>)
    requires name != "_"
    ensures Entries([FieldDecl([name], ty)] + rest) == [Entry(name, ty)] + Entries(rest)
  {
    var f := FieldDecl([name], ty);
    assert NotBlank([name][1..]) == [];
    assert FieldNames(f) == [name];
    assert ([f] + rest)[1..] == rest;
  }

  lemma FourFields(a: string, s: Ty, b: string, t: Ty, c: string, u: Ty, d: string, v: Ty)
    requires a != "_" && b != "_" && c != "_" && d != "_"
    ensures Entries([FieldDecl([a], s), FieldDecl([b], t), FieldDecl([c], u), FieldDecl([d], v)])
         == [Entry(a, s), Entry(b, t), Entry(c, u), Entry(d, v)]
  {
    var w, x, y, z := FieldDecl([a], s), FieldDecl([b], t), FieldDecl([c], u), FieldDecl([d], v);
    OneField(d, v, []);
    OneField(c, u, [z]);
    OneField(b, t, [y, z]);
    OneField(a, s, [x, y, z]);
    assert [w, x, y, z] == [w] + [x, y, z] && [x, y, z] == [x] + [y, z] && [y, z] == [y] + [z] && [z] == [z] + [];
  }

  lemma MetricsEntries()
    ensures Entries(FIELDS) == [
      Entry("ID", Ident("string")), Entry("MType", Ident("MetricType")),
      Entry("Delta", Star(Ident("int64"))), Entry("Value", Star(Ident("float64")))]
  {
    assert |"ID"| == 2 && |"MType"| == 5 && |"Delta"| == 5 && |"Value"| == 5;
    FourFields("ID", Ident("string"), "MType", Ident("MetricType"), "Delta", Star(Ident("int64")), "Value",
        Star(Ident("float64")));
  }

  // ---- The text ----

  lemma IdText()
    ensures Render(Assign(Field("m", "ID"), Empty), "\t") == ["\tm.ID = \"\"\n"]
  {
    assert Lhs(Field("m", "ID")) == "m.ID";
    assert AssignLine("\t", "m.ID", "\"\"") == "\tm.ID = \"\"\n";
  }

  lemma TypeText()
    ensures Render(Assign(Field("m", "MType"), New(Ident("MetricType"))), "\t") == ["\tm.MType = *new(MetricType)\n"]
  {
    assert Lhs(Field("m", "MType")) == "m.MType" && RhsText(New(Ident("MetricType"))) == "*new(MetricType)";
    assert AssignLine("\t", "m.MType", "*new(MetricType)") == "\tm.MType = *new(MetricType)\n";
  }

  lemma DeltaText()
    ensures Render(IfNotNil(Field("m", "Delta"), Assign(Deref(Field("m", "Delta")), Zero)), "\t")
         == ["\tif m.Delta != nil {\n", "\t\t*m.Delta = 0\n", "\t}\n"]
  {
    assert Lhs(Field("m", "Delta")) == "m.Delta" && Lhs(Deref(Field("m", "Delta"))) == "*m.Delta";
    assert GuardLine("\t", "m.Delta") == "\tif m.Delta != nil {\n";
    assert AssignLine("\t\t", "*m.Delta", "0") == "\t\t*m.Delta = 0\n";
    assert "\t" + "}\n" == "\t}\n";
  }

  lemma ValueText()
    ensures Render(IfNotNil(Field("m", "Value"), Assign(Deref(Field("m", "Value")), Zero)), "\t")
         == ["\tif m.Value != nil {\n", "\t\t*m.Value = 0\n", "\t}\n"]
  {
    assert Lhs(Field("m", "Value")) == "m.Value" && Lhs(Deref(Field("m", "Value"))) == "*m.Value";
    assert GuardLine("\t", "m.Value") == "\tif m.Value != nil {\n";
    assert AssignLine("\t\t", "*m.Value", "0") == "\t\t*m.Value = 0\n";
    assert "\t" + "}\n" == "\t}\n";
  }

  lemma HeadText()
    ensures HeadLines("m", "Metrics") == ["func (m *Metrics) Reset() {\n", "\tif m == nil {\n\t\treturn\n\t}\n"]
  {
    assert "func (" + "m" + " *" + "Metrics" + ") Reset() {\n" == "func (m *Metrics) Reset() {\n";
    assert "\tif " + "m" + " == nil {\n\t\treturn\n\t}\n" == "\tif m == nil {\n\t\treturn\n\t}\n";
  }

  lemma TwoStatements(x: Stmt, y: Stmt)
    ensures RenderAll([x, y]) == Render(x, "\t") + Render(y, "\t")
  {
    var lines := Rendered([x, y]);
    assert lines == [Render(x, "\t"), Render(y, "\t")];
    assert Flatten(lines[1..]) == lines[1] + Flatten(lines[1..][1..]);
  }

  lemma FourStatements(w: Stmt, x: Stmt, y: Stmt, z: Stmt)
    ensures RenderAll([w, x] + [y, z]) == Render(w, "\t") + Render(x, "\t") + (Render(y, "\t") + Render(z, "\t"))
  {
    TwoStatements(w, x);
    TwoStatements(y, z);
    RenderedConcat([w, x], [y, z]);
    FlattenConcat(Rendered([w, x]), Rendered([y, z]));
  }

  /** The method written for Metrics is the committed one. */
  lemma MetricsText(info: PkgInfo)
    requires MetricsPackage(info)
    ensures MethodLines(info, Target("Metrics", FIELDS)) == [
      "func (m *Metrics) Reset() {\n",
      "\tif m == nil {\n\t\treturn\n\t}\n",
      "\tm.ID = \"\"\n",
      "\tm.MType = *new(MetricType)\n",
      "\tif m.Delta != nil {\n",
      "\t\t*m.Delta = 0\n",
      "\t}\n",
      "\tif m.Value != nil {\n",
      "\t\t*m.Value = 0\n",
      "\t}\n",
      "}\n\n"]
  {
    MetricsEntries();
    MetricsBody(info);
    var w := Assign(Field("m", "ID"), Empty);
    var x := Assign(Field("m", "MType"), New(Ident("MetricType")));
    var y := IfNotNil(Field("m", "Delta"), Assign(Deref(Field("m", "Delta")), Zero));
    var z := IfNotNil(Field("m", "Value"), Assign(Deref(Field("m", "Value")), Zero));
    assert Body(info, "m", Entries(FIELDS)) == [w, x] + [y, z];
    FourStatements(w, x, y, z);
    HeadText();
    IdText();
    TypeText();
    DeltaText();
    ValueText();
  }

  // ---- A run ----

  /** A package with Metrics, which compiles without the emitted file. */
  ghost predicate HasMetrics(p: Program) {
    && p.Valid() && MetricsPackage(p.info) && "Metrics" in p.info.targets && p.info.targets["Metrics"] == FIELDS
    && "MetricType" in p.scope.declared && "Metrics" !in p.scope.noMethods && "Metrics" !in p.scope.handWritten
  }

  /** The generator serves it. */
  lemma MetricsServed(p: Program)
    requires HasMetrics(p)
    ensures Served(p, "Metrics")
  {
    MetricsEntries();
    assert |"MetricType"| == 10 && |"Metrics"| == 7 && |"m"| == 1 && |"Reset"| == 5;
    assert ReceiverName(p.info, "Metrics") == "m";
    assert !IsPredeclared("MetricType");
    assert Printed(p.info, Star(Ident("int64"))) == None && Printed(p.info, Star(Ident("float64"))) == None by {
      assert IsNumeric("int64") && IsNumeric("float64");
    }
    forall f | f in FIELDS ensures "Reset" !in GoNames(f) {
      assert |f.names| == 1 && f.names[0][0] != 'R';
    }
    forall e | e in p.EntriesOf("Metrics") ensures FieldServed(p, "m", e.ty) {
      assert Pointee(Star(Ident("int64"))) == Ident("int64") && Pointee(Star(Ident("float64"))) == Ident("float64");
    }
  }

  function At(name: string): Loc {
    Loc(0, [Fld(name)])
  }

  /** Object 0 is a Metrics whose Delta points to object 1 and whose Value is nil. */
  function Memory(id: string, mtype: string, delta: int): Mem {
    Mem(map[At("ID") := Str(id), At("MType") := Str(mtype), At("Delta") := Ptr(Some(Loc(1, []))),
            At("Value") := Ptr(None), Loc(1, []) := Num(delta)], map[])
  }

  lemma ZeroOne(mem: Mem, l: Loc)
    requires l in mem.leaves
    requires forall k :: k in mem.leaves && k.obj == l.obj ==> |k.path| == |l.path|
    ensures Lone(mem, l) && ZeroRegion(mem, l) == Store(mem, l, ZeroLeaf(mem.leaves[l]))
  {
    forall k | k in mem.leaves && Under(k, l) ensures k == l {
      assert k.path == l.path;
    }
    assert ZeroRegion(mem, l).leaves == Store(mem, l, ZeroLeaf(mem.leaves[l])).leaves;
  }

  lemma NamesDiffer()
    ensures At("ID") != At("MType") && At("ID") != At("Delta") && At("ID") != At("Value")
    ensures At("MType") != At("Delta") && At("MType") != At("Value") && At("Delta") != At("Value")
  {
    assert |"ID"| == 2 && |"MType"| == 5 && "Delta"[0] == 'D' && "Value"[0] == 'V' && "MType"[0] == 'M';
    assert At("MType").path[0].name[0] == 'M' && At("Delta").path[0].name[0] == 'D';
    assert At("Value").path[0].name[0] == 'V' && |At("ID").path[0].name| == 2;
  }

  lemma MemoryCells(id: string, mtype: string, delta: int)
    ensures
      var leaves := Memory(id, mtype, delta).leaves;
      && leaves.Keys == {At("ID"), At("MType"), At("Delta"), At("Value"), Loc(1, [])}
      && leaves[At("ID")] == Str(id) && leaves[At("MType")] == Str(mtype)
      && leaves[At("Delta")] == Ptr(Some(Loc(1, []))) && leaves[At("Value")] == Ptr(None) &&
          leaves[Loc(1, [])] == Num(delta)
  {
    NamesDiffer();
  }

  lemma MemoryUpdates(id: string, mtype: string, delta: int)
    ensures Store(Memory(id, mtype, delta), At("ID"), Str("")) == Memory("", mtype, delta)
    ensures Store(Memory(id, mtype, delta), At("MType"), Str("")) == Memory(id, "", delta)
    ensures Store(Memory(id, mtype, delta), Loc(1, []), Num(0)) == Memory(id, mtype, 0)
  {
    NamesDiffer();
  }

  lemma TextStep(p: Program, mem: Mem, f: string)
    requires At(f) in mem.leaves && mem.leaves[At(f)].Str?
    ensures Exec(p, mem, Loc(0, []), Assign(Field("m", f), Empty), 0) == Done(Store(mem, At(f), Str("")))
  {
    assert Loc(0, []).Dot(f) == At(f);
  }

  lemma NewStep(p: Program, mem: Mem, f: string, ty: Ty)
    requires At(f) in mem.leaves && mem.leaves[At(f)].Str?
    requires forall k :: k in mem.leaves && k.obj == 0 ==> |k.path| == 1
    ensures Exec(p, mem, Loc(0, []), Assign(Field("m", f), New(ty)), 0) == Done(Store(mem, At(f), Str("")))
  {
    assert Loc(0, []).Dot(f) == At(f);
    ZeroOne(mem, At(f));
  }

  lemma PointerStep(p: Program, mem: Mem, f: string)
    requires At(f) in mem.leaves && mem.leaves[At(f)].Ptr?
    requires mem.leaves[At(f)].target.Some? ==>
      mem.leaves[At(f)].target.value in mem.leaves && mem.leaves[mem.leaves[At(f)].target.value].Num?
    ensures Exec(p, mem, Loc(0, []), IfNotNil(Field("m", f), Assign(Deref(Field("m", f)), Zero)), 0) ==
      Done(if mem.leaves[At(f)].target.None? then mem else Store(mem, mem.leaves[At(f)].target.value, Num(0)))
  {
    assert Loc(0, []).Dot(f) == At(f);
    assert Addr(mem, Loc(0, []), Deref(Field("m", f))) == mem.leaves[At(f)].target;
  }

  lemma Steps(p: Program, id: string, mtype: string, delta: int)
    ensures
      var (m, mem) := (Loc(0, []), Memory(id, mtype, delta));
      && Exec(p, mem, m, Assign(Field("m", "ID"), Empty), 0) == Done(Memory("", mtype, delta))
      && Exec(p, mem, m, Assign(Field("m", "MType"), New(Ident("MetricType"))), 0) == Done(Memory(id, "", delta))
      && Exec(p, mem, m, IfNotNil(Field("m", "Delta"), Assign(Deref(Field("m", "Delta")), Zero)), 0) ==
           Done(Memory(id, mtype, 0))
      && Exec(p, mem, m, IfNotNil(Field("m", "Value"), Assign(Deref(Field("m", "Value")), Zero)), 0) == Done(mem)
  {
    var mem := Memory(id, mtype, delta);
    MemoryCells(id, mtype, delta);
    MemoryUpdates(id, mtype, delta);
    TextStep(p, mem, "ID");
    NewStep(p, mem, "MType", Ident("MetricType"));
    PointerStep(p, mem, "Delta");
    PointerStep(p, mem, "Value");
  }

  lemma FourSteps(p: Program, m: Loc, w: Stmt, x: Stmt, y: Stmt, z: Stmt, m0: Mem, m1: Mem, m2: Mem, m3: Mem, m4: Mem)
    requires Exec(p, m0, m, w, 0) == Done(m1) && Exec(p, m1, m, x, 0) == Done(m2)
    requires Exec(p, m2, m, y, 0) == Done(m3) && Exec(p, m3, m, z, 0) == Done(m4)
    ensures ExecSeq(p, m0, m, [w, x, y, z], 0) == Done(m4)
  {
    assert [w, x, y, z][1..] == [x, y, z] && [x, y, z][1..] == [y, z] && [y, z][1..] == [z] && [z][1..] == [];
    assert ExecSeq(p, m3, m, [z], 0) == Done(m4);
    assert ExecSeq(p, m2, m, [y, z], 0) == Done(m4);
    assert ExecSeq(p, m1, m, [x, y, z], 0) == Done(m4);
  }

  /** Run on it, the method empties both texts, zeroes what Delta points to, and leaves both pointers as they are. */
  lemma MetricsRun(p: Program, id: string, mtype: string, delta: int)
    requires HasMetrics(p) && AllServed(p)
    ensures RunReset(p, Memory(id, mtype, delta), "Metrics", Loc(0, []), 1) == Done(Memory("", "", 0))
  {
    var m, mem := Loc(0, []), Memory(id, mtype, delta);
    MetricsEntries();
    MetricsBody(p.info);
    RejectedExactlyWhen(p, mem, "Metrics", m, 1);
    var w := Assign(Field("m", "ID"), Empty);
    var x := Assign(Field("m", "MType"), New(Ident("MetricType")));
    var y := IfNotNil(Field("m", "Delta"), Assign(Deref(Field("m", "Delta")), Zero));
    var z := IfNotNil(Field("m", "Value"), Assign(Deref(Field("m", "Value")), Zero));
    Steps(p, id, mtype, delta);
    Steps(p, "", mtype, delta);
    Steps(p, "", "", delta);
    Steps(p, "", "", 0);
    FourSteps(p, m, w, x, y, z, mem, Memory("", mtype, delta), Memory("", "", delta), Memory("", "", 0), Memory("",
        "", 0));
  }
}
