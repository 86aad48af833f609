/** Running generated Reset methods: correctness, frame, idempotence and termination. */
module GeneratorCorrect {
  import opened Wrappers
  import opened GoTypes
  import opened GoMemory
  import opened Generator
  import opened GeneratorChecks

  // ---- What other code that only shrinks memory cannot undo ----

  lemma {:induction false} ReadyStays(p: Program, a: Mem, b: Mem, ty: Ty, l: Loc, depth: nat)
    requires Shrinks(a, b) && Ready(p, a, ty, l, depth)
    ensures Ready(p, b, ty, l, depth)
    decreases depth, 1, ty
  {
    match ty
    case Ident(name) =>
      if !IsPredeclared(name) && name in p.info.hasReset {
        ReadyCallStays(p, a, b, name, l, depth);
      }
    case Star(elem) =>
      if b.leaves[l].target.Some? {
        ReadyStays(p, a, b, elem, a.leaves[l].target.value, depth);
      }
    case _ =>
  }

  lemma {:induction false} ReadyCallStays(p: Program, a: Mem, b: Mem, t: string, l: Loc, depth: nat)
    requires Shrinks(a, b) && ReadyCall(p, a, t, l, depth)
    ensures ReadyCall(p, b, t, l, depth)
    decreases depth, 0
  {
    if t in p.info.targets {
      var es := p.EntriesOf(t);
      forall i | 0 <= i < |es|
        ensures Ready(p, b, es[i].ty, l.Dot(es[i].name), depth - 1)
      {
        ReadyStays(p, a, b, es[i].ty, l.Dot(es[i].name), depth - 1);
      }
    }
  }

  lemma {:induction false} ResetStays(p: Program, a: Mem, b: Mem, ty: Ty, l: Loc, depth: nat)
    requires p.Valid() && Shrinks(a, b) && IsReset(p, a, ty, l, depth)
    ensures IsReset(p, b, ty, l, depth)
    decreases depth, 1, ty
  {
    match ty
    case Ident(name) =>
      if !IsPredeclared(name) && name in p.info.hasReset {
        ResetDoneStays(p, a, b, name, l, depth);
      } else {
        AllZeroStays(a, b, l);
      }
    case Star(elem) =>
      if b.leaves[l].target.Some? {
        ResetStays(p, a, b, elem, a.leaves[l].target.value, depth);
      }
    case Slice(_) =>
    case Map(_, _) =>
    case _ => AllZeroStays(a, b, l);
  }

  lemma {:induction false} ResetDoneStays(p: Program, a: Mem, b: Mem, t: string, l: Loc, depth: nat)
    requires p.Valid() && Shrinks(a, b) && ResetDone(p, a, t, l, depth)
    ensures ResetDone(p, b, t, l, depth)
    decreases depth, 0
  {
    if t in p.info.targets {
      var es := p.EntriesOf(t);
      forall i | 0 <= i < |es|
        ensures IsReset(p, b, es[i].ty, l.Dot(es[i].name), depth - 1)
      {
        ResetStays(p, a, b, es[i].ty, l.Dot(es[i].name), depth - 1);
      }
    }
  }

  lemma {:induction false} UntouchedStays(p: Program, a: Mem, b: Mem, ty: Ty, l: Loc, depth: nat, c: Cell)
    requires p.Valid() && Shrinks(a, b) && Untouched(p, a, ty, l, depth, c)
    ensures Untouched(p, b, ty, l, depth, c)
    decreases depth, 1, ty
  {
    match ty
    case Ident(name) =>
      if !IsPredeclared(name) && name in p.info.hasReset {
        CallUntouchedStays(p, a, b, name, l, depth, c);
      }
    case Star(elem) =>
      if l in b.leaves && b.leaves[l].Ptr? && b.leaves[l].target.Some? {
        assert LeafShrinks(a.leaves[l], b.leaves[l]);
        UntouchedStays(p, a, b, elem, a.leaves[l].target.value, depth, c);
      }
    case Slice(_) =>
    case Map(_, _) =>
      if l in b.leaves { assert LeafShrinks(a.leaves[l], b.leaves[l]); }
    case _ =>
  }

  lemma {:induction false} CallUntouchedStays(p: Program, a: Mem, b: Mem, t: string, l: Loc, depth: nat, c: Cell)
    requires p.Valid() && Shrinks(a, b) && CallUntouched(p, a, t, l, depth, c)
    ensures CallUntouched(p, b, t, l, depth, c)
    decreases depth, 0
  {
    if t in p.info.targets && depth > 0 {
      var es := p.EntriesOf(t);
      forall i | 0 <= i < |es|
        ensures Untouched(p, b, es[i].ty, l.Dot(es[i].name), depth - 1, c)
      {
        UntouchedStays(p, a, b, es[i].ty, l.Dot(es[i].name), depth - 1, c);
      }
    }
  }

  // ---- One statement ----

  /** `o` is a finished run that reset the variable at `l`. */
  ghost predicate Resets(p: Program, mem: Mem, o: Outcome, ty: Ty, l: Loc, depth: nat) {
    && o.Done?
    && Shrinks(mem, o.mem)
    && IsReset(p, o.mem, ty, l, depth)
    && (IsReset(p, mem, ty, l, depth) ==> o.mem == mem)
  }

  lemma StoreZeroCorrect(mem: Mem, l: Loc, rhs: Rhs)
    requires !rhs.New? && !rhs.Composite? ==> Lone(mem, l)
    requires rhs.Zero? ==> mem.leaves[l].Num?
    requires rhs.False? ==> mem.leaves[l].Bool?
    requires rhs.Empty? ==> mem.leaves[l].Str?
    requires rhs.Nil? ==> mem.leaves[l].Ref?
    ensures var o := StoreZero(mem, l, rhs); o == Done(ZeroRegion(mem, l))
  {
  }

  lemma ZeroRegionFrame(mem: Mem, l: Loc, c: Cell)
    requires !(c.LeafAt? && Under(c.loc, l))
    ensures Same(mem, ZeroRegion(mem, l), c)
  {
  }

  lemma ZeroRegionResets(p: Program, mem: Mem, ty: Ty, l: Loc, depth: nat)
    requires !ty.Star? && !ty.Slice? && !ty.Map?
    requires ty.Ident? ==> IsPredeclared(ty.name) || ty.name !in p.info.hasReset
    ensures Resets(p, mem, Done(ZeroRegion(mem, l)), ty, l, depth)
  {
  }

  lemma TruncateResets(p: Program, mem: Mem, ty: Ty, l: Loc, depth: nat)
    requires ty.Slice? && l in mem.leaves && mem.leaves[l].SliceHdr?
    ensures Resets(p, mem, Done(Store(mem, l, Trunc(mem.leaves[l]))), ty, l, depth)
  {
  }

  lemma ClearResets(p: Program, mem: Mem, ty: Ty, l: Loc, depth: nat)
    requires ty.Map? && Ready(p, mem, ty, l, depth)
    ensures Resets(p, mem, ClearMap(mem, mem.leaves[l]), ty, l, depth)
  {
  }

  /** The statement for what a non-nil pointer operand points to. */
  lemma {:induction false} ElemCorrect(p: Program, mem: Mem, recv: Loc, ptr: Place, elem: Ty, l: Loc, depth: nat)
    requires p.Valid() && Addr(mem, recv, Deref(ptr)) == Some(l)
    requires Ready(p, mem, elem, l, depth)
    ensures Resets(p, mem, Exec(p, mem, recv, CompileElem(p.info, ptr, elem), depth), elem, l, depth)
    decreases depth, 1, elem
  {
    match elem
    case Ident(name) =>
      if name in p.info.hasReset {
        CallCorrect(p, mem, name, l, depth);
      } else {
        var stmt := CompileElem(p.info, ptr, elem);
        StoreZeroCorrect(mem, l, stmt.rhs);
        ZeroRegionResets(p, mem, elem, l, depth);
      }
    case Slice(_) => TruncateResets(p, mem, elem, l, depth);
    case Map(_, _) => ClearResets(p, mem, elem, l, depth);
    case Star(inner) =>
      if mem.leaves[l].target.Some? {
        ElemCorrect(p, mem, recv, Deref(ptr), inner, mem.leaves[l].target.value, depth);
      }
    case _ => ZeroRegionResets(p, mem, elem, l, depth);
  }

  lemma {:induction false} CallCorrect(p: Program, mem: Mem, t: string, l: Loc, depth: nat)
    requires p.Valid() && ReadyCall(p, mem, t, l, depth)
    ensures var o := Call(p, mem, t, l, depth);
            && o.Done? && Shrinks(mem, o.mem) && ResetDone(p, o.mem, t, l, depth)
            && (ResetDone(p, mem, t, l, depth) ==> o.mem == mem)
    decreases depth, 0
  {
    if t in p.info.targets {
      BodyCorrect(p, mem, l, ReceiverName(p.info, t), p.EntriesOf(t), depth - 1);
    }
  }

  /** The statement for a receiver field. */
  lemma {:induction false} FieldCorrect(p: Program, mem: Mem, recv: Loc, r: string, e: Entry, depth: nat)
    requires p.Valid() && Ready(p, mem, e.ty, recv.Dot(e.name), depth)
    ensures Resets(p, mem, Exec(p, mem, recv, CompileField(p.info, Field(r, e.name), e.ty), depth),
                   e.ty, recv.Dot(e.name), depth)
    decreases depth, 2
  {
    var place, l := Field(r, e.name), recv.Dot(e.name);
    var stmt := CompileField(p.info, place, e.ty);
    match e.ty
    case Star(elem) =>
      if mem.leaves[l].target.Some? {
        ElemCorrect(p, mem, recv, place, elem, mem.leaves[l].target.value, depth);
      }
    case Slice(_) => TruncateResets(p, mem, e.ty, l, depth);
    case Map(_, _) => ClearResets(p, mem, e.ty, l, depth);
    case Ident(name) =>
      if name in p.info.hasReset {
        CallCorrect(p, mem, name, l, depth);
      } else {
        StoreZeroCorrect(mem, l, stmt.rhs);
        ZeroRegionResets(p, mem, e.ty, l, depth);
      }
    case _ =>
      StoreZeroCorrect(mem, l, stmt.rhs);
      ZeroRegionResets(p, mem, e.ty, l, depth);
  }

  ghost predicate AllReady(p: Program, mem: Mem, l: Loc, es: seq<Entry>, depth: nat) {
    forall i :: 0 <= i < |es| ==> Ready(p, mem, es[i].ty, l.Dot(es[i].name), depth)
  }

  ghost predicate AllReset(p: Program, mem: Mem, l: Loc, es: seq<Entry>, depth: nat) {
    forall i :: 0 <= i < |es| ==> IsReset(p, mem, es[i].ty, l.Dot(es[i].name), depth)
  }

  /** A method body resets every field, whatever pointers the fields share. */
  lemma {:induction false} BodyCorrect(p: Program, mem: Mem, l: Loc, r: string, es: seq<Entry>, depth: nat)
    requires p.Valid() && AllReady(p, mem, l, es, depth)
    ensures var o := ExecSeq(p, mem, l, Body(p.info, r, es), depth);
            && o.Done? && Shrinks(mem, o.mem) && AllReset(p, o.mem, l, es, depth)
            && (AllReset(p, mem, l, es, depth) ==> o.mem == mem)
    decreases depth, 3, |es|
  {
    if es != [] {
      var e, rest := es[0], es[1..];
      FieldCorrect(p, mem, l, r, e, depth);
      var o := Exec(p, mem, l, CompileField(p.info, Field(r, e.name), e.ty), depth);
      assert Body(p.info, r, es)[1..] == Body(p.info, r, rest);
      forall i | 0 <= i < |rest|
        ensures Ready(p, o.mem, rest[i].ty, l.Dot(rest[i].name), depth)
      {
        ReadyStays(p, mem, o.mem, es[i + 1].ty, l.Dot(es[i + 1].name), depth);
      }
      BodyCorrect(p, o.mem, l, r, rest, depth);
      var after := ExecSeq(p, o.mem, l, Body(p.info, r, rest), depth).mem;
      ShrinksTransitive(mem, o.mem, after);
      ResetStays(p, o.mem, after, e.ty, l.Dot(e.name), depth);
      forall i | 0 <= i < |es|
        ensures IsReset(p, after, es[i].ty, l.Dot(es[i].name), depth)
      {
        assert i > 0 ==> es[i] == rest[i - 1];
      }
      if AllReset(p, mem, l, es, depth) {
        forall i | 0 <= i < |rest|
          ensures IsReset(p, mem, rest[i].ty, l.Dot(rest[i].name), depth)
        {
          assert rest[i] == es[i + 1];
        }
      }
    }
  }

  // ---- Frame: nothing outside the reset region is written ----

  lemma {:induction false} ElemFrame(p: Program, mem: Mem, recv: Loc, ptr: Place, elem: Ty, l: Loc, depth: nat, c: Cell)
    requires p.Valid() && Addr(mem, recv, Deref(ptr)) == Some(l)
    requires Ready(p, mem, elem, l, depth)
    requires Untouched(p, mem, elem, l, depth, c)
    ensures var o := Exec(p, mem, recv, CompileElem(p.info, ptr, elem), depth);
            o.Done? && Same(mem, o.mem, c)
    decreases depth, 1, elem
  {
    if elem.Star? {
      if mem.leaves[l].target.Some? {
        ElemFrame(p, mem, recv, Deref(ptr), elem.elem, mem.leaves[l].target.value, depth, c);
      }
    } else if elem.Ident? && elem.name in p.info.hasReset {
      CallFrame(p, mem, elem.name, l, depth, c);
    } else {
      ElemLeafFrame(p, mem, recv, ptr, elem, l, depth, c);
    }
  }

  lemma ElemLeafFrame(p: Program, mem: Mem, recv: Loc, ptr: Place, elem: Ty, l: Loc, depth: nat, c: Cell)
    requires p.Valid() && Addr(mem, recv, Deref(ptr)) == Some(l)
    requires Ready(p, mem, elem, l, depth)
    requires Untouched(p, mem, elem, l, depth, c) && !elem.Star? && !(elem.Ident? && elem.name in p.info.hasReset)
    ensures var o := Exec(p, mem, recv, CompileElem(p.info, ptr, elem), depth);
            o.Done? && Same(mem, o.mem, c)
  {
    if !elem.Slice? && !elem.Map? {
      StoreZeroCorrect(mem, l, CompileElem(p.info, ptr, elem).rhs);
      ZeroRegionFrame(mem, l, c);
    }
  }

  lemma {:induction false} CallFrame(p: Program, mem: Mem, t: string, l: Loc, depth: nat, c: Cell)
    requires p.Valid() && ReadyCall(p, mem, t, l, depth) && CallUntouched(p, mem, t, l, depth, c)
    ensures Call(p, mem, t, l, depth).Done? && Same(mem, Call(p, mem, t, l, depth).mem, c)
    decreases depth, 0
  {
    CallCorrect(p, mem, t, l, depth);
    if t in p.info.targets {
      BodyFrame(p, mem, l, ReceiverName(p.info, t), p.EntriesOf(t), depth - 1, c);
    }
  }

  lemma {:induction false} FieldFrame(p: Program, mem: Mem, recv: Loc, r: string, e: Entry, depth: nat, c: Cell)
    requires p.Valid() && Ready(p, mem, e.ty, recv.Dot(e.name), depth)
    requires Untouched(p, mem, e.ty, recv.Dot(e.name), depth, c)
    ensures var o := Exec(p, mem, recv, CompileField(p.info, Field(r, e.name), e.ty), depth);
            o.Done? && Same(mem, o.mem, c)
    decreases depth, 2
  {
    FieldCorrect(p, mem, recv, r, e, depth);
    var place, l := Field(r, e.name), recv.Dot(e.name);
    var stmt := CompileField(p.info, place, e.ty);
    match e.ty
    case Star(elem) =>
      if mem.leaves[l].target.Some? {
        ElemFrame(p, mem, recv, place, elem, mem.leaves[l].target.value, depth, c);
      }
    case Slice(_) =>
    case Map(_, _) =>
    case Ident(name) =>
      if name in p.info.hasReset {
        CallFrame(p, mem, name, l, depth, c);
      } else {
        StoreZeroCorrect(mem, l, stmt.rhs);
        ZeroRegionFrame(mem, l, c);
      }
    case _ =>
      StoreZeroCorrect(mem, l, stmt.rhs);
      ZeroRegionFrame(mem, l, c);
  }

  /** Running a body is running its first statement, which leaves the remaining fields ready, and then the rest. */
  lemma FirstThenRest(p: Program, mem: Mem, l: Loc, r: string, es: seq<Entry>, depth: nat) returns (mid: Mem)
    requires p.Valid() && AllReady(p, mem, l, es, depth) && es != []
    ensures Exec(p, mem, l, CompileField(p.info, Field(r, es[0].name), es[0].ty), depth) == Done(mid)
    ensures Shrinks(mem, mid) && AllReady(p, mid, l, es[1..], depth)
    ensures ExecSeq(p, mem, l, Body(p.info, r, es), depth) == ExecSeq(p, mid, l, Body(p.info, r, es[1..]), depth)
  {
    FieldCorrect(p, mem, l, r, es[0], depth);
    mid := Exec(p, mem, l, CompileField(p.info, Field(r, es[0].name), es[0].ty), depth).mem;
    assert Body(p.info, r, es)[1..] == Body(p.info, r, es[1..]);
    forall i | 0 <= i < |es| - 1 ensures Ready(p, mid, es[1..][i].ty, l.Dot(es[1..][i].name), depth) {
      ReadyStays(p, mem, mid, es[i + 1].ty, l.Dot(es[i + 1].name), depth);
    }
  }

  lemma {:induction false} BodyFrame(p: Program, mem: Mem, l: Loc, r: string, es: seq<Entry>, depth: nat, c: Cell)
    requires p.Valid() && AllReady(p, mem, l, es, depth)
    requires forall i :: 0 <= i < |es| ==> Untouched(p, mem, es[i].ty, l.Dot(es[i].name), depth, c)
    ensures var o := ExecSeq(p, mem, l, Body(p.info, r, es), depth);
            o.Done? && Same(mem, o.mem, c)
    decreases depth, 3, |es|
  {
    if es != [] {
      FieldFrame(p, mem, l, r, es[0], depth, c);
      var mid := FirstThenRest(p, mem, l, r, es, depth);
      forall i | 0 <= i < |es| - 1 ensures Untouched(p, mid, es[1..][i].ty, l.Dot(es[1..][i].name), depth, c) {
        UntouchedStays(p, mem, mid, es[i + 1].ty, l.Dot(es[i + 1].name), depth, c);
      }
      BodyFrame(p, mid, l, r, es[1..], depth, c);
      BodyCorrect(p, mid, l, r, es[1..], depth);
      assert mid.leaves.Keys == mem.leaves.Keys && mid.maps.Keys == mem.maps.Keys;
    }
  }

  lemma {:induction false} SliceInBody(p: Program, mem: Mem, l: Loc, r: string, es: seq<Entry>, depth: nat, i: nat)
    requires p.Valid() && AllReady(p, mem, l, es, depth) && i < |es| && es[i].ty.Slice?
    requires forall j :: 0 <= j < |es| && j != i ==>
      Untouched(p, mem, es[j].ty, l.Dot(es[j].name), depth, LeafAt(l.Dot(es[i].name)))
    ensures var (o, s) := (ExecSeq(p, mem, l, Body(p.info, r, es), depth), l.Dot(es[i].name));
            && s in mem.leaves && mem.leaves[s].SliceHdr?
            && o.Done? && s in o.mem.leaves && o.mem.leaves[s] == Trunc(mem.leaves[s])
    decreases |es|
  {
    var c := LeafAt(l.Dot(es[i].name));
    var mid := FirstThenRest(p, mem, l, r, es, depth);
    forall j | 0 <= j < |es| - 1 && j + 1 != i
      ensures Untouched(p, mid, es[1..][j].ty, l.Dot(es[1..][j].name), depth, c)
    {
      UntouchedStays(p, mem, mid, es[j + 1].ty, l.Dot(es[j + 1].name), depth, c);
    }
    if i == 0 {
      BodyFrame(p, mid, l, r, es[1..], depth, c);
      BodyCorrect(p, mid, l, r, es[1..], depth);
    } else {
      FieldFrame(p, mem, l, r, es[0], depth, c);
      SliceInBody(p, mid, l, r, es[1..], depth, i - 1);
    }
  }

  // ---- Main results ----

  /**
   The generated Reset of any target of a package that the generator serves, run on any well-typed
   memory however its pointers alias, finishes without a nil dereference and leaves every named field
   reset; it only shrinks memory, writes nothing outside its region, and a second run changes nothing.
   In any other package the emitted file does not compile.
   */
  lemma GeneratedResetCorrect(p: Program, mem: Mem, t: string, l: Loc, depth: nat)
    requires p.Valid() && t in p.info.targets && ReadyCall(p, mem, t, l, depth)
    ensures AllServed(p) ==>
      var o := RunReset(p, mem, t, l, depth);
      && o.Done? && Shrinks(mem, o.mem)
      && (forall k, name :: 0 <= k < |p.info.targets[t]| && Declares(p.info.targets[t][k], name) ==>
            IsReset(p, o.mem, p.info.targets[t][k].ty, l.Dot(name), depth - 1))
      && (forall c :: CallUntouched(p, mem, t, l, depth, c) ==> Same(mem, o.mem, c))
      && RunReset(p, o.mem, t, l, depth) == o
    ensures RunReset(p, mem, t, l, depth).Rejected? <==> !AllServed(p)
  {
    CallCorrect(p, mem, t, l, depth);
    var o := Call(p, mem, t, l, depth);
    forall k, name | 0 <= k < |p.info.targets[t]| && Declares(p.info.targets[t][k], name)
      ensures IsReset(p, o.mem, p.info.targets[t][k].ty, l.Dot(name), depth - 1)
    {
      FieldNamesAre(p.info.targets[t][k], name);
      var i := EntriesCover(p.info.targets[t], k, name);
      assert IsReset(p, o.mem, p.EntriesOf(t)[i].ty, l.Dot(p.EntriesOf(t)[i].name), depth - 1);
    }
    forall c | CallUntouched(p, mem, t, l, depth, c)
      ensures Same(mem, o.mem, c)
    {
      CallFrame(p, mem, t, l, depth, c);
    }
    ReadyCallStays(p, mem, o.mem, t, l, depth);
    CallCorrect(p, o.mem, t, l, depth);
    RejectedExactlyWhen(p, mem, t, l, depth);
    RejectedExactlyWhen(p, o.mem, t, l, depth);
  }

  /** What it means for a scalar or an interface, channel or function variable to be reset. */
  lemma ScalarShows(p: Program, before: Mem, mem: Mem, ty: Ty, l: Loc, depth: nat)
    requires p.Valid() && Ready(p, before, ty, l, depth) && Shrinks(before, mem) && IsReset(p, mem, ty, l, depth)
    ensures ty.Ident? && IsNumeric(ty.name) ==> l in mem.leaves && mem.leaves[l] == Num(0)
    ensures ty == Ident("bool") ==> l in mem.leaves && mem.leaves[l] == Bool(false)
    ensures ty == Ident("string") ==> l in mem.leaves && mem.leaves[l] == Str("")
    ensures ty == Ident("any") || ty == Ident("error") || ty.Interface? || ty.Chan? || ty.Func? ==>
      l in mem.leaves && mem.leaves[l] == Ref(None)
  {
    if !ty.Ident? || IsPredeclared(ty.name) {
      ZeroedLeaf(before, mem, l);
    }
  }

  lemma ZeroedLeaf(before: Mem, mem: Mem, l: Loc)
    requires Shrinks(before, mem)
    ensures l in before.leaves && AllZero(mem, l) && !before.leaves[l].SliceHdr? ==>
      l in mem.leaves && mem.leaves[l] == ZeroLeaf(before.leaves[l])
  {
    if l in before.leaves && AllZero(mem, l) {
      assert LeafShrinks(before.leaves[l], mem.leaves[l]) && Under(l, l);
    }
  }

  /** For a slice, map or pointer, and for an array, a struct or a type of another package. */
  lemma CompositeShows(p: Program, mem: Mem, ty: Ty, l: Loc, depth: nat)
    requires IsReset(p, mem, ty, l, depth)
    ensures ty.Slice? ==> l in mem.leaves && mem.leaves[l].SliceHdr? && mem.leaves[l].len == 0
    ensures ty.Map? ==>
      && l in mem.leaves && mem.leaves[l].MapRef?
      && (mem.leaves[l].id.Some? ==> mem.leaves[l].id.value in mem.maps && mem.maps[mem.leaves[l].id.value] == map[])
    ensures ty.Star? ==>
      && l in mem.leaves && mem.leaves[l].Ptr?
      && (mem.leaves[l].target.Some? ==> IsReset(p, mem, ty.elem, mem.leaves[l].target.value, depth))
    ensures ty.Array? || ty.Struct? || ty.Selector? || ty.Other? ==>
      forall k :: k in mem.leaves && Under(k, l) ==> IsZeroLeaf(mem.leaves[k])
  {
    if AllZero(mem, l) {
      forall k | k in mem.leaves && Under(k, l) ensures IsZeroLeaf(mem.leaves[k]) {
        assert mem.leaves[k] == ZeroLeaf(mem.leaves[k]);
      }
    }
  }

  predicate IsZeroLeaf(v: Leaf) {
    || v == Num(0) || v == Bool(false) || v == Str("") || v == Ptr(None)
    || v == SliceHdr(None, 0, 0) || v == MapRef(None) || v == Ref(None)
  }

  /** What a struct without pointers, maps and nested Resets can touch lies inside it: other objects are its frame. */
  lemma FlatFrame(p: Program, mem: Mem, t: string, l: Loc, depth: nat, c: Cell)
    requires t in p.info.targets && (c.LeafAt? ==> c.loc.obj != l.obj)
    requires forall e :: e in p.EntriesOf(t) ==>
      !e.ty.Star? && !e.ty.Map? && !(e.ty.Ident? && e.ty.name in p.info.hasReset)
    ensures CallUntouched(p, mem, t, l, depth, c)
  {
    var es := p.EntriesOf(t);
    forall i | 0 <= i < |es| && depth > 0 ensures Untouched(p, mem, es[i].ty, l.Dot(es[i].name), depth - 1, c) {
      assert es[i] in es;
    }
  }

  /** A slice field that nothing else reaches keeps its backing array and capacity; only its length becomes 0. */
  lemma SliceKeepsBacking(p: Program, mem: Mem, t: string, l: Loc, depth: nat, i: nat)
    requires p.Valid() && t in p.info.targets && ReadyCall(p, mem, t, l, depth)
    requires i < |p.EntriesOf(t)| && p.EntriesOf(t)[i].ty.Slice?
    requires forall j :: 0 <= j < |p.EntriesOf(t)| && j != i ==>
      Untouched(p, mem, p.EntriesOf(t)[j].ty, l.Dot(p.EntriesOf(t)[j].name), depth - 1,
          LeafAt(l.Dot(p.EntriesOf(t)[i].name)))
    ensures var (o, s) := (Call(p, mem, t, l, depth), l.Dot(p.EntriesOf(t)[i].name));
            && s in mem.leaves && mem.leaves[s].SliceHdr?
            && o.Done? && s in o.mem.leaves && o.mem.leaves[s] == mem.leaves[s].(len := 0)
  {
    SliceInBody(p, mem, l, ReceiverName(p.info, t), p.EntriesOf(t), depth - 1, i);
  }

  /** A pointer field that resetting the fields does not reach stays as it is: what it points to is reset, not it. */
  lemma PointerStays(p: Program, mem: Mem, t: string, l: Loc, depth: nat, i: nat)
    requires p.Valid() && t in p.info.targets && ReadyCall(p, mem, t, l, depth)
    requires i < |p.EntriesOf(t)| && p.EntriesOf(t)[i].ty.Star?
    requires CallUntouched(p, mem, t, l, depth, LeafAt(l.Dot(p.EntriesOf(t)[i].name)))
    ensures var (o, s) := (Call(p, mem, t, l, depth), l.Dot(p.EntriesOf(t)[i].name));
            && s in mem.leaves && mem.leaves[s].Ptr?
            && o.Done? && s in o.mem.leaves && o.mem.leaves[s] == mem.leaves[s]
            && (mem.leaves[s].target.Some? ==>
                  IsReset(p, o.mem, p.EntriesOf(t)[i].ty.elem, mem.leaves[s].target.value, depth - 1))
  {
    CallFrame(p, mem, t, l, depth, LeafAt(l.Dot(p.EntriesOf(t)[i].name)));
    CallCorrect(p, mem, t, l, depth);
  }

  /** The Reset calls that resetting the variable at `l` makes directly all rank below `bound`. */
  ghost predicate Ranked(p: Program, mem: Mem, rank: map<(string, Loc), nat>, ty: Ty, l: Loc, bound: nat) {
    match ty
    case Ident(name) =>
      if name in p.info.hasReset && !IsPredeclared(name)
      then name in p.info.targets ==> (name, l) in rank && rank[(name, l)] < bound
      else Ready(p, mem, ty, l, 0)
    case Star(elem) =>
      && l in mem.leaves && mem.leaves[l].Ptr?
      && (mem.leaves[l].target.Some? ==>
           
            && Ranked(p, mem, rank, elem, mem.leaves[l].target.value, bound))
    case _ => Ready(p, mem, ty, l, 0)
  }

  /** `rank` strictly decreases along every Reset call: the values reached through them form an acyclic graph. */
  ghost predicate Acyclic(p: Program, mem: Mem, rank: map<(string, Loc), nat>) {
    forall t, l :: (t, l) in rank ==>
      && t in p.info.targets
      && forall i :: 0 <= i < |p.EntriesOf(t)| ==>
           Ranked(p, mem, rank, p.EntriesOf(t)[i].ty, l.Dot(p.EntriesOf(t)[i].name), rank[(t, l)])
  }

  lemma {:induction false} RankedReady(p: Program, mem: Mem, rank: map<(string, Loc), nat>, ty: Ty, l: Loc, bound: nat)
    requires p.Valid() && Acyclic(p, mem, rank) && Ranked(p, mem, rank, ty, l, bound)
    ensures Ready(p, mem, ty, l, bound)
    decreases bound, 1, ty
  {
    match ty
    case Ident(name) =>
      if name in p.info.targets {
        AcyclicReady(p, mem, rank, name, l, bound);
      }
    case Star(elem) =>
      if mem.leaves[l].target.Some? {
        RankedReady(p, mem, rank, elem, mem.leaves[l].target.value, bound);
      }
    case _ =>
  }

  lemma {:induction false} AcyclicReady(p: Program, mem: Mem, rank: map<(string, Loc), nat>, t: string, l: Loc,
      bound: nat)
    requires p.Valid() && Acyclic(p, mem, rank) && (t, l) in rank && rank[(t, l)] < bound
    ensures ReadyCall(p, mem, t, l, bound)
    decreases bound, 0
  {
    var es := p.EntriesOf(t);
    forall i | 0 <= i < |es|
      ensures Ready(p, mem, es[i].ty, l.Dot(es[i].name), bound - 1)
    {
      RankedMonotone(p, mem, rank, es[i].ty, l.Dot(es[i].name), rank[(t, l)], bound - 1);
      RankedReady(p, mem, rank, es[i].ty, l.Dot(es[i].name), bound - 1);
    }
  }

  lemma {:induction false} RankedMonotone(p: Program, mem: Mem, rank: map<(string, Loc), nat>, ty: Ty, l: Loc,
      b: nat, b': nat)
    requires b <= b' && Ranked(p, mem, rank, ty, l, b)
    ensures Ranked(p, mem, rank, ty, l, b')
  {
    if ty.Star? && mem.leaves[l].target.Some? {
      RankedMonotone(p, mem, rank, ty.elem, mem.leaves[l].target.value, b, b');
    }
  }

  /** Generated Reset terminates on acyclic values, within one frame per rank. */
  lemma AcyclicTerminates(p: Program, mem: Mem, rank: map<(string, Loc), nat>, t: string, l: Loc, depth: nat)
    requires p.Valid() && Acyclic(p, mem, rank) && (t, l) in rank && rank[(t, l)] < depth
    ensures Call(p, mem, t, l, depth).Done? && ResetDone(p, Call(p, mem, t, l, depth).mem, t, l, depth)
  {
    AcyclicReady(p, mem, rank, t, l, depth);
    CallCorrect(p, mem, t, l, depth);
  }

  /** The acyclicity is needed: a node whose link points back to it exhausts every call budget. */
  lemma {:induction false} CycleNeverReturns(p: Program, mem: Mem, t: string, f: string, l: Loc, depth: nat)
    requires t in p.info.targets && t in p.info.hasReset
    requires p.info.targets[t] == [FieldDecl([f], Star(Ident(t)))] && f != "_"
    requires l.Dot(f) in mem.leaves && mem.leaves[l.Dot(f)] == Ptr(Some(l))
    ensures Call(p, mem, t, l, depth) == TooDeep
  {
    if depth > 0 {
      CycleNeverReturns(p, mem, t, f, l, depth - 1);
      assert FieldNames(p.info.targets[t][0]) == [f] by {
        assert NotBlank([f][1..]) == [];
      }
      assert Entries(p.info.targets[t][1..]) == [];
      assert p.EntriesOf(t) == [Entry(f, Star(Ident(t)))];
      var body := Body(p.info, ReceiverName(p.info, t), p.EntriesOf(t));
      var place := Field(ReceiverName(p.info, t), f);
      assert body[0] == IfNotNil(place, CallThrough(place, t));
      assert Addr(mem, l, Deref(place)) == Some(l);
      assert Exec(p, mem, l, CallThrough(place, t), depth - 1) == TooDeep;
      assert Exec(p, mem, l, body[0], depth - 1) == TooDeep;
      assert ExecSeq(p, mem, l, body, depth - 1) == TooDeep;
    }
  }

}
