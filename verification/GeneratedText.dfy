/** What the emitted text says: it reads back as the statements it was printed for, method by method. */
module GeneratedText {
  import opened Wrappers
  import opened GoTypes
  import opened Generator
  import opened GoReader
  import opened ResetWriter
  import opened Seqs

  /** A method `func (recv *typeName) Reset()` that returns at once on a nil receiver. */
  datatype Method = Method(recv: string, typeName: string, body: seq<Reading>)

  function ReadHead(s: string): Option<(string, string)> {
    if "func (" <= s then
      var k := Find(s[6..], ' ') + 6;
      if k + 1 < |s| && s[k + 1] == '*' then
        var m := Find(s[k + 2..], ')') + k + 2;
        if s[m..] == ") Reset() {\n" then Some((s[6..k], s[k + 2..m])) else None
      else None
    else None
  }

  function ReadMethod(lines: seq<string>): Option<Method> {
    if |lines| < 3 || lines[|lines| - 1] != "}\n\n" || ReadHead(lines[0]).None? then None
    else
      var (recv, typeName) := ReadHead(lines[0]).value;
      var body := ReadBody(lines[2..|lines| - 1]);
      if lines[1] == "\tif " + recv + " == nil {\n\t\treturn\n\t}\n" && body.Some?
      then Some(Method(recv, typeName, body.value)) else None
  }

  // ---- Bodies ----

  lemma {:induction false} ElemWorded(info: PkgInfo, ptr: Place, elem: Ty)
    requires Worded(ptr)
    ensures WordedStmt(CompileElem(info, ptr, elem))
    decreases elem
  {
    if elem.Star? {
      ElemWorded(info, Deref(ptr), elem.elem);
    }
  }

  lemma FieldWorded(info: PkgInfo, place: Place, ty: Ty)
    requires Worded(place)
    ensures WordedStmt(CompileField(info, place, ty))
  {
    if ty.Star? {
      ElemWorded(info, place, ty.elem);
    }
  }

  lemma {:induction false} BodyReads(ss: seq<Stmt>)
    requires forall i :: 0 <= i < |ss| ==> WordedStmt(ss[i])
    ensures ReadBody(RenderAll(ss)) == Some(Meanings(ss))
  {
    if ss != [] {
      BodyReads(ss[1..]);
      RenderReads(ss[0], "\t", RenderAll(ss[1..]));
      RenderAllSplit(ss);
      BodyStep(RenderAll(ss), Meaning(ss[0]), RenderAll(ss[1..]), Meanings(ss[1..]));
      assert Meanings(ss) == [Meaning(ss[0])] + Meanings(ss[1..]);
    }
  }

  lemma BodyStep(lines: seq<string>, first: Reading, rest: seq<string>, others: seq<Reading>)
    requires lines != [] && ReadStmt(lines) == Some((first, rest)) && ReadBody(rest) == Some(others)
    ensures ReadBody(lines) == Some([first] + others)
  {
  }

  lemma RenderAllSplit(ss: seq<Stmt>)
    requires ss != []
    ensures RenderAll(ss) == Render(ss[0], "\t") + RenderAll(ss[1..]) && RenderAll(ss) != []
  {
    assert Rendered(ss)[1..] == Rendered(ss[1..]);
  }

  // ---- Methods ----

  lemma HeadReads(r: string, t: string)
    requires IsWord(r) && IsWord(t)
    ensures ReadHead("func (" + r + " *" + t + ") Reset() {\n") == Some((r, t))
  {
    var e := ") Reset() {\n";
    var s := "func (" + r + " *" + t + e;
    var k := |r| + 6;
    assert s[6..] == r + (" *" + t + e);
    FindIs(r, ' ', " *" + t + e);
    assert s[k] == ' ' && s[k + 1] == '*' && s[k + 2..] == t + e;
    FindIs(t, ')', e);
    assert s[6..k] == r && s[k + 2..k + 2 + |t|] == t && s[k + 2 + |t|..] == e;
  }

  predicate WordedTarget(info: PkgInfo, t: Target) {
    && IsWord(ReceiverName(info, t.name)) && IsWord(t.name)
    && forall e :: e in Entries(t.fields) ==> IsWord(e.name)
  }

  /** The text written for a target reads as one method: its receiver, its type and its compiled body. */
  lemma MethodReads(info: PkgInfo, t: Target)
    requires WordedTarget(info, t)
    ensures
      var r := ReceiverName(info, t.name);
      ReadMethod(MethodLines(info, t)) == Some(Method(r, t.name, Meanings(Body(info, r, Entries(t.fields)))))
  {
    var r, es := ReceiverName(info, t.name), Entries(t.fields);
    var body := Body(info, r, es);
    forall i | 0 <= i < |body| ensures WordedStmt(body[i]) {
      assert es[i] in es;
      FieldWorded(info, Field(r, es[i].name), es[i].ty);
    }
    BodyReads(body);
    HeadReads(r, t.name);
    var lines := MethodLines(info, t);
    assert lines == HeadLines(r, t.name) + RenderAll(body) + ["}\n\n"];
    assert lines[2..|lines| - 1] == RenderAll(body);
  }

  // ---- Targets ----

  predicate IsMarked(s: Spec) {
    s.StructSpec? && s.marked
  }

  function AsTarget(s: Spec): Target
    requires s.StructSpec?
  {
    Target(s.name, s.fields)
  }

  /** The places of the marked structs in one declaration. */
  function SpecPlaces(specs: seq<Spec>): seq<nat> {
    if specs == [] then []
    else SpecPlaces(specs[..|specs| - 1]) + if IsMarked(specs[|specs| - 1]) then [|specs| - 1] else []
  }

  /** The same in all declarations: the declaration's number and the struct's in it. */
  function Places(decls: seq<Decl>): seq<(nat, nat)> {
    if decls == [] then []
    else
      var n := |decls| - 1;
      Places(decls[..n]) + if decls[n].TypeDecl? then Paired(n, SpecPlaces(decls[n].specs)) else []
  }

  function Paired(n: nat, js: seq<nat>): seq<(nat, nat)> {
    seq(|js|, k requires 0 <= k < |js| => (n, js[k]))
  }

  /** A marked struct stands at place p. */
  predicate MarkedAt(decls: seq<Decl>, p: (nat, nat)) {
    p.0 < |decls| && decls[p.0].TypeDecl? && p.1 < |decls[p.0].specs| && IsMarked(decls[p.0].specs[p.1])
  }

  predicate Before(p: (nat, nat), q: (nat, nat)) {
    p.0 < q.0 || (p.0 == q.0 && p.1 < q.1)
  }

  lemma {:induction false} SpecPlace(specs: seq<Spec>, k: nat)
    requires k < |SpecPlaces(specs)|
    ensures var j := SpecPlaces(specs)[k];
            && k < |SpecTargets(specs)| && j < |specs| && IsMarked(specs[j])
            && SpecTargets(specs)[k] == AsTarget(specs[j])
    ensures |SpecTargets(specs)| == |SpecPlaces(specs)|
  {
    SpecCount(specs);
    var front := specs[..|specs| - 1];
    SpecCount(front);
    if k < |SpecPlaces(front)| {
      SpecPlace(front, k);
    }
  }

  lemma {:induction false} SpecCount(specs: seq<Spec>)
    ensures |SpecTargets(specs)| == |SpecPlaces(specs)|
  {
    if specs != [] {
      SpecCount(specs[..|specs| - 1]);
    }
  }

  lemma {:induction false} SpecOrder(specs: seq<Spec>, k: nat, m: nat)
    requires k < m < |SpecPlaces(specs)|
    ensures SpecPlaces(specs)[k] < SpecPlaces(specs)[m]
  {
    var front := specs[..|specs| - 1];
    if m < |SpecPlaces(front)| {
      SpecOrder(front, k, m);
    } else {
      SpecPlace(front, k);
    }
  }

  lemma {:induction false} SpecCover(specs: seq<Spec>, j: nat) returns (k: nat)
    requires j < |specs| && IsMarked(specs[j])
    ensures k < |SpecPlaces(specs)| && SpecPlaces(specs)[k] == j
  {
    var front := specs[..|specs| - 1];
    if j == |front| {
      k := |SpecPlaces(front)|;
    } else {
      k := SpecCover(front, j);
    }
  }

  lemma {:induction false} PlaceCount(decls: seq<Decl>)
    ensures |DeclTargets(decls)| == |Places(decls)|
  {
    if decls != [] {
      var d := decls[|decls| - 1];
      PlaceCount(decls[..|decls| - 1]);
      if d.TypeDecl? {
        SpecCount(d.specs);
      }
    }
  }

  lemma {:induction false} PlaceTarget(decls: seq<Decl>, k: nat)
    requires k < |Places(decls)|
    ensures var p := Places(decls)[k];
            && k < |DeclTargets(decls)| && MarkedAt(decls, p)
            && DeclTargets(decls)[k] == AsTarget(decls[p.0].specs[p.1])
  {
    var front, d := decls[..|decls| - 1], decls[|decls| - 1];
    PlaceCount(front);
    PlaceCount(decls);
    var n := |Places(front)|;
    if k < n {
      PlaceTarget(front, k);
    } else {
      SpecPlace(d.specs, k - n);
    }
  }

  lemma {:induction false} PlaceOrder(decls: seq<Decl>, k: nat, m: nat)
    requires k < m < |Places(decls)|
    ensures Before(Places(decls)[k], Places(decls)[m])
  {
    var front, d := decls[..|decls| - 1], decls[|decls| - 1];
    var n := |Places(front)|;
    if m < n {
      PlaceOrder(front, k, m);
    } else if k < n {
      PlaceTarget(front, k);
    } else {
      SpecOrder(d.specs, k - n, m - n);
    }
  }

  lemma {:induction false} PlaceCover(decls: seq<Decl>, p: (nat, nat)) returns (k: nat)
    requires MarkedAt(decls, p)
    ensures k < |Places(decls)| && Places(decls)[k] == p
  {
    var front, d := decls[..|decls| - 1], decls[|decls| - 1];
    if p.0 == |front| {
      var j := SpecCover(d.specs, p.1);
      k := |Places(front)| + j;
    } else {
      k := PlaceCover(front, p);
    }
  }

  /**
   The targets are the marked structs of all declarations, each once, in order, with the names and the fields
   they are declared with: `ps` lists the places of the marked structs.
   */
  lemma TargetsAre(decls: seq<Decl>) returns (ps: seq<(nat, nat)>)
    ensures |ps| == |DeclTargets(decls)|
    ensures forall k :: 0 <= k < |ps| ==>
      MarkedAt(decls, ps[k]) && DeclTargets(decls)[k] == AsTarget(decls[ps[k].0].specs[ps[k].1])
    ensures forall k, m :: 0 <= k < m < |ps| ==> Before(ps[k], ps[m])
    ensures forall p: (nat, nat) :: MarkedAt(decls, p) ==> p in ps
  {
    ps := Places(decls);
    PlaceCount(decls);
    forall k | 0 <= k < |ps|
      ensures MarkedAt(decls, ps[k]) && DeclTargets(decls)[k] == AsTarget(decls[ps[k].0].specs[ps[k].1])
    {
      PlaceTarget(decls, k);
    }
    forall k, m | 0 <= k < m < |ps| ensures Before(ps[k], ps[m]) {
      PlaceOrder(decls, k, m);
    }
    forall p: (nat, nat) | MarkedAt(decls, p) ensures p in ps {
      var k := PlaceCover(decls, p);
    }
  }
}
