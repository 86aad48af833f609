/** The generator from end to end: a package's declarations, the text emitted for them, and what that text does. */
module Generation {
  import opened Wrappers
  import opened GoTypes
  import opened GoMemory
  import opened Generator
  import opened GeneratorChecks
  import opened GeneratorCorrect
  import opened ResetWriter
  import opened GoReader
  import opened GeneratedText
  import opened Seqs

  /** What collecting the declarations yields. */
  ghost predicate Collected(info: PkgInfo, decls: seq<Decl>) {
    && (forall name :: name in info.hasReset <==> Gives(decls, name))
    && (forall name :: name in info.structDefs <==> Defines(decls, name))
    && info.targets == AsMap(DeclTargets(decls))
  }

  predicate IsUnmethodable(s: Spec, name: string) {
    s.StructSpec? && s.form != Plain && s.name == name
  }

  predicate DeclaresUnmethodable(d: Decl, name: string) {
    d.TypeDecl? && exists s :: s in d.specs && IsUnmethodable(s, name)
  }

  predicate WantsArgumentsFor(d: Decl, name: string) {
    IsResetMethodOf(d, name) && d.required > 0
  }

  /**
   The type checker's view of the same declarations, which compile without the emitted file. It may know of
   Reset methods that the collector does not recognise, declared through an alias or with a receiver in parentheses.
   */
  ghost predicate Describes(scope: Scope, decls: seq<Decl>) {
    && (forall name :: Gives(decls, name) || Defines(decls, name) ==> name in scope.declared)
    && (forall name :: name in scope.declared ==> !IsAssumed(name))
    && (forall name :: name in scope.noMethods <==> exists d :: d in decls && DeclaresUnmethodable(d, name))
    && (forall d, name :: d in decls && IsResetMethodOf(d, name) ==> name in scope.handWritten)
    && (forall name :: name in scope.needArguments <==> exists d :: d in decls && WantsArgumentsFor(d, name))
    && Distinct(DeclTargets(decls))
    && (forall p: (nat, nat) :: MarkedAt(decls, p) ==> Identifiers(decls[p.0].specs[p.1]))
  }

  /** The names in a struct's declaration are identifiers. */
  ghost predicate Identifiers(s: Spec)
    requires s.StructSpec?
  {
    IsWord(s.name) && forall f, name :: f in s.fields && Declares(f, name) ==> IsWord(name)
  }

  /** Lower-casing a character of an identifier gives one. */
  ghost predicate KeepsLetters(lower: char -> char) {
    forall c :: IsWordChar(c) ==> IsWordChar(lower(c))
  }

  /** No two declarations of one name. */
  ghost predicate Distinct(ts: seq<Target>) {
    forall i, j :: 0 <= i < j < |ts| ==> ts[i].name != ts[j].name
  }

  /** collectPackage and the loop of writeResetFile. */
  method GenerateFile(decls: seq<Decl>, lower: char -> char) returns (info: PkgInfo, text: seq<string>)
    ensures Collected(info, decls) && info.lower == lower
    ensures text == Flatten(FileChunks(info, DeclTargets(decls)))
    ensures |FileChunks(info, DeclTargets(decls))| == |DeclTargets(decls)|
  {
    var package := new Package();
    package.Collect(decls);
    info := package.Info(lower);
    var writer := new Writer(info);
    writer.WriteAll(package.targets);
    text := writer.buf;
  }

  lemma {:induction false} SpecTargetMarks(specs: seq<Spec>, t: Target)
    requires t in SpecTargets(specs)
    ensures exists s :: s in specs && Marks(s, t.name)
  {
    var front, s := specs[..|specs| - 1], specs[|specs| - 1];
    assert specs == front + [s];
    if t in SpecTargets(front) {
      SpecTargetMarks(front, t);
      var s' :| s' in front && Marks(s', t.name);
      assert s' in specs;
    } else {
      assert s in specs && Marks(s, t.name);
    }
  }

  /** Every target has a Reset by the time text is emitted, whatever file declares it. */
  lemma {:induction false} TargetsGiven(decls: seq<Decl>, t: Target)
    requires t in DeclTargets(decls)
    ensures Gives(decls, t.name)
  {
    var front, d := decls[..|decls| - 1], decls[|decls| - 1];
    assert decls == front + [d];
    if t in DeclTargets(front) {
      TargetsGiven(front, t);
      var d' :| d' in front && GivesReset(d', t.name);
      assert d' in decls;
    } else {
      SpecTargetMarks(d.specs, t);
      assert d in decls && GivesReset(d, t.name);
    }
  }

  lemma {:induction false} TargetOf(ts: seq<Target>, name: string) returns (k: nat)
    requires name in AsMap(ts)
    ensures k < |ts| && ts[k].name == name
  {
    k := |ts| - 1;
    if ts[k].name != name {
      k := TargetOf(ts[..k], name);
    }
  }

  lemma {:induction false} FieldsOf(ts: seq<Target>, k: nat)
    requires k < |ts| && Distinct(ts)
    ensures ts[k].name in AsMap(ts) && AsMap(ts)[ts[k].name] == ts[k].fields
  {
    if k < |ts| - 1 {
      FieldsOf(ts[..|ts| - 1], k);
    }
  }

  lemma CollectedValid(info: PkgInfo, scope: Scope, custom: Custom, decls: seq<Decl>)
    requires Collected(info, decls) && Describes(scope, decls) && custom.Lawful()
    ensures Program(info, scope, custom).Valid()
  {
    forall name | name in info.targets ensures name in info.hasReset {
      var k := TargetOf(DeclTargets(decls), name);
      TargetsGiven(decls, DeclTargets(decls)[k]);
    }
  }

  lemma {:induction false} EntryDeclared(fields: seq<FieldDecl>, e: Entry)
    requires e in Entries(fields)
    ensures exists f :: f in fields && Declares(f, e.name)
  {
    var names := FieldNames(fields[0]);
    if e in Named(names, fields[0].ty) {
      var i :| 0 <= i < |names| && Named(names, fields[0].ty)[i] == e;
      assert e.name in names;
      FieldNamesAre(fields[0], e.name);
    } else {
      EntryDeclared(fields[1..], e);
      var f :| f in fields[1..] && Declares(f, e.name);
      assert f in fields;
    }
  }

  lemma SpecWorded(info: PkgInfo, s: Spec)
    requires s.StructSpec? && Identifiers(s) && KeepsLetters(info.lower)
    ensures WordedTarget(info, AsTarget(s))
  {
    forall e | e in Entries(s.fields) ensures IsWord(e.name) {
      EntryDeclared(s.fields, e);
    }
  }

  /**
   From declarations to meaning. The text emitted for a struct marked at some place of the declarations reads
   as one method of that struct, whose body is what running its Reset executes; in a package that the generator
   serves it resets every field the struct declares, and in any other the file does not compile.
   */
  lemma GeneratedFileMeans(
      decls: seq<Decl>, info: PkgInfo, scope: Scope, custom: Custom, at: (nat, nat), mem: Mem, l: Loc, depth: nat)
      returns (k: nat)
    requires Collected(info, decls) && Describes(scope, decls) && custom.Lawful() && KeepsLetters(info.lower)
    requires MarkedAt(decls, at)
    requires ReadyCall(Program(info, scope, custom), mem, decls[at.0].specs[at.1].name, l, depth)
    ensures k < |DeclTargets(decls)|
    ensures
      var (p, s) := (Program(info, scope, custom), decls[at.0].specs[at.1]);
      var (r, body) := (ReceiverName(info, s.name), Body(info, ReceiverName(info, s.name), Entries(s.fields)));
      && s.name in info.targets && depth > 0
      && ReadMethod(FileChunks(info, DeclTargets(decls))[k]) == Some(Method(r, s.name, Meanings(body)))
      && (RunReset(p, mem, s.name, l, depth).Rejected? <==> !AllServed(p))
      && (AllServed(p) ==>
            var o := RunReset(p, mem, s.name, l, depth);
            && o.Done? && o == ExecSeq(p, mem, l, body, depth - 1)
            && forall f, name :: f in s.fields && Declares(f, name) ==>
                 IsReset(p, o.mem, f.ty, l.Dot(name), depth - 1))
  {
    var p, s := Program(info, scope, custom), decls[at.0].specs[at.1];
    k := PlaceCover(decls, at);
    PlaceTarget(decls, k);
    PlaceCount(decls);
    CollectedValid(info, scope, custom, decls);
    FieldsOf(DeclTargets(decls), k);
    SpecWorded(info, s);
    MethodReads(info, AsTarget(s));
    RunMeans(p, s, mem, l, depth);
  }

  lemma RunMeans(p: Program, s: Spec, mem: Mem, l: Loc, depth: nat)
    requires p.Valid() && s.StructSpec? && s.name in p.info.targets && p.info.targets[s.name] == s.fields
    requires ReadyCall(p, mem, s.name, l, depth)
    ensures depth > 0 && (RunReset(p, mem, s.name, l, depth).Rejected? <==> !AllServed(p))
    ensures AllServed(p) ==>
      var o := RunReset(p, mem, s.name, l, depth);
      && o.Done?
      && o == ExecSeq(p, mem, l, Body(p.info, ReceiverName(p.info, s.name), Entries(s.fields)), depth - 1)
      && forall f, name :: f in s.fields && Declares(f, name) ==> IsReset(p, o.mem, f.ty, l.Dot(name), depth - 1)
  {
    GeneratedResetCorrect(p, mem, s.name, l, depth);
    RejectedExactlyWhen(p, mem, s.name, l, depth);
    forall f, name | AllServed(p) && f in s.fields && Declares(f, name)
      ensures IsReset(p, RunReset(p, mem, s.name, l, depth).mem, f.ty, l.Dot(name), depth - 1)
    {
      var j :| 0 <= j < |s.fields| && s.fields[j] == f;
    }
  }

  /** A marked struct that already has a Reset, however declared and with or without arguments, gets a second one. */
  lemma TwiceDefinedRejected(decls: seq<Decl>, info: PkgInfo, scope: Scope, custom: Custom, k: nat)
    requires Collected(info, decls) && Describes(scope, decls) && k < |DeclTargets(decls)|
    requires
      || DeclTargets(decls)[k].name in scope.handWritten
      || exists d :: d in decls && IsResetMethodOf(d, DeclTargets(decls)[k].name)
    ensures !AllServed(Program(info, scope, custom))
  {
    FieldsOf(DeclTargets(decls), k);
    assert DeclTargets(decls)[k].name in info.targets;
    assert !Served(Program(info, scope, custom), DeclTargets(decls)[k].name);
  }
}
