/**
 A reader of the Go lines a generated method consists of. It knows nothing of the functions that print them,
 so reading back what was printed says what the text is.
 */
module GoReader {
  import opened Wrappers
  import opened GoTypes
  import opened Generator

  datatype Line =
    | Sets(lhs: string, rhs: string)
    | Guards(cond: string)
    | Clears(arg: string)
    | Calls(operand: string)
    | Ends

  datatype Value = IntZero | FalseValue | EmptyText | NilValue | ZeroStruct(name: string) | NewValue(typeText: string)

  /** What a statement's text says. Which type's Reset a call reaches is not in the text: Go finds it. */
  datatype Reading =
    | Assigned(place: Place, value: Value)
    | CutToZero(place: Place)
    | Emptied(place: Place)
    | Called(operand: Place)
    | IfNonNil(place: Place, body: Reading)

  // ---- Reading ----

  function DropTabs(s: string): string {
    if s != [] && s[0] == '\t' then DropTabs(s[1..]) else s
  }

  /** The first place of `c` in `s`, or its length. */
  function Find(s: string, c: char): (k: nat)
    ensures k <= |s|
  {
    if s == [] || s[0] == c then 0 else 1 + Find(s[1..], c)
  }

  predicate EndsIn(s: string, e: string) {
    |e| <= |s| && s[|s| - |e|..] == e
  }

  function ReadLine(line: string): Option<Line> {
    var s := DropTabs(line);
    var k := Find(s, ' ');
    if k + 3 < |s| && s[k..k + 3] == " = " && s[|s| - 1] == '\n' then Some(Sets(s[..k], s[k + 3..|s| - 1]))
    else if "if " <= s && EndsIn(s, " != nil {\n") && |s| > 13 then Some(Guards(s[3..|s| - 10]))
    else if s == "}\n" then Some(Ends)
    else if "clear(" <= s && EndsIn(s, ")\n") && |s| > 8 then Some(Clears(s[6..|s| - 2]))
    else if EndsIn(s, ".Reset()\n") then Some(Calls(s[..|s| - 9]))
    else None
  }

  /** `r.f`, or `(*p)` for an operand p. */
  function ReadOperand(s: string): Option<Place>
    decreases |s|
  {
    if |s| >= 4 && s[0] == '(' && s[1] == '*' && s[|s| - 1] == ')' then
      var p := ReadOperand(s[2..|s| - 1]);
      if p.Some? then Some(Deref(p.value)) else None
    else
      var k := Find(s, '.');
      if 0 < k < |s| then Some(Field(s[..k], s[k + 1..])) else None
  }

  /** The same, with `*p` in place of `(*p)` outermost. */
  function ReadVariable(s: string): Option<Place> {
    if s != [] && s[0] == '*' then
      var p := ReadOperand(s[1..]);
      if p.Some? then Some(Deref(p.value)) else None
    else ReadOperand(s)
  }

  function ReadValue(s: string): Option<Value> {
    if s == "0" then Some(IntZero)
    else if s == "false" then Some(FalseValue)
    else if s == "\"\"" then Some(EmptyText)
    else if s == "nil" then Some(NilValue)
    else if EndsIn(s, "{}") then Some(ZeroStruct(s[..|s| - 2]))
    else if "*new(" <= s && EndsIn(s, ")") && |s| > 5 then Some(NewValue(s[5..|s| - 1]))
    else None
  }

  function ReadSet(lhs: string, rhs: string): Option<Reading> {
    var place := ReadVariable(lhs);
    if place.None? then None
    else if EndsIn(rhs, "[:0]") then
      if ReadOperand(rhs[..|rhs| - 4]) == place then Some(CutToZero(place.value)) else None
    else
      var value := ReadValue(rhs);
      if value.Some? then Some(Assigned(place.value, value.value)) else None
  }

  function OnPlace(place: Option<Place>, make: Place -> Reading): Option<Reading> {
    if place.Some? then Some(make(place.value)) else None
  }

  /** One statement, and the lines after it. */
  function ReadStmt(lines: seq<string>): (r: Option<(Reading, seq<string>)>)
    ensures r.Some? ==> |r.value.1| < |lines|
  {
    if lines == [] || ReadLine(lines[0]).None? then None
    else
      match ReadLine(lines[0]).value
      case Sets(lhs, rhs) => With(ReadSet(lhs, rhs), lines[1..])
      case Clears(arg) => With(OnPlace(ReadVariable(arg), p => Emptied(p)), lines[1..])
      case Calls(operand) => With(OnPlace(ReadOperand(operand), p => Called(p)), lines[1..])
      case Ends => None
      case Guards(cond) =>
        var body := ReadStmt(lines[1..]);
        if body.Some? && body.value.1 != [] && ReadLine(body.value.1[0]) == Some(Ends)
        then With(OnPlace(ReadVariable(cond), p => IfNonNil(p, body.value.0)), body.value.1[1..])
        else None
  }

  function With(r: Option<Reading>, rest: seq<string>): Option<(Reading, seq<string>)> {
    if r.Some? then Some((r.value, rest)) else None
  }

  function ReadBody(lines: seq<string>): Option<seq<Reading>>
    decreases |lines|
  {
    if lines == [] then Some([])
    else
      var first := ReadStmt(lines);
      if first.None? then None
      else
        var rest := ReadBody(first.value.1);
        if rest.None? then None else Some([first.value.0] + rest.value)
  }

  // ---- What was printed ----

  function ValueOf(rhs: Rhs): Value {
    match rhs
    case Zero => IntZero
    case False => FalseValue
    case Empty => EmptyText
    case Nil => NilValue
    case Composite(name) => ZeroStruct(name)
    case New(ty) => NewValue(TypeString(ty))
  }

  function Meaning(s: Stmt): Reading {
    match s
    case Assign(place, rhs) => Assigned(place, ValueOf(rhs))
    case Truncate(place) => CutToZero(place)
    case Clear(place) => Emptied(place)
    case CallReset(place, _) => Called(place)
    case CallThrough(ptr, _) => Called(ptr)
    case IfNotNil(place, body) => IfNonNil(place, Meaning(body))
  }

  function Meanings(ss: seq<Stmt>): seq<Reading> {
    seq(|ss|, i requires 0 <= i < |ss| => Meaning(ss[i]))
  }

  /** The names in it are identifiers. */
  predicate Worded(p: Place) {
    match p
    case Field(recv, name) => IsWord(recv) && IsWord(name)
    case Deref(ptr) => Worded(ptr)
  }

  predicate WordedStmt(s: Stmt) {
    match s
    case Assign(place, _) => Worded(place)
    case Truncate(place) => Worded(place)
    case Clear(place) => Worded(place)
    case CallReset(place, _) => Worded(place)
    case CallThrough(ptr, _) => Worded(ptr)
    case IfNotNil(place, body) => Worded(place) && WordedStmt(body)
  }

  predicate IsOperandChar(c: char) {
    IsWordChar(c) || c == '.' || c == '(' || c == '*' || c == ')'
  }

  predicate Solid(x: string) {
    x != [] && forall i :: 0 <= i < |x| ==> IsOperandChar(x[i])
  }

  predicate AllTabs(s: string) {
    forall i :: 0 <= i < |s| ==> s[i] == '\t'
  }

  // ---- Cutting texts ----

  lemma {:induction false} DropTabsIs(tabs: string, s: string)
    requires AllTabs(tabs) && s != [] && s[0] != '\t'
    ensures DropTabs(tabs + s) == s
  {
    if tabs == [] {
      assert tabs + s == s;
    } else {
      assert (tabs + s)[1..] == tabs[1..] + s;
      DropTabsIs(tabs[1..], s);
    }
  }

  lemma {:induction false} FindIs(a: string, c: char, rest: string)
    requires forall i :: 0 <= i < |a| ==> a[i] != c
    requires rest == [] || rest[0] == c
    ensures Find(a + rest, c) == |a|
  {
    if a == [] {
      assert a + rest == rest;
    } else {
      assert (a + rest)[1..] == a[1..] + rest;
      FindIs(a[1..], c, rest);
    }
  }

  // ---- Lines read back ----

  lemma SetReads(tabs: string, x: string, v: string)
    requires AllTabs(tabs) && Solid(x)
    ensures ReadLine(tabs + x + " = " + v + "\n") == Some(Sets(x, v))
  {
    var s := x + (" = " + v + "\n");
    assert tabs + x + " = " + v + "\n" == tabs + s;
    DropTabsIs(tabs, s);
    FindIs(x, ' ', " = " + v + "\n");
    assert s[|x|..|x| + 3] == " = " && s[..|x|] == x && s[|x| + 3..|s| - 1] == v;
  }

  lemma GuardReads(tabs: string, x: string)
    requires AllTabs(tabs) && Solid(x)
    ensures ReadLine(tabs + "if " + x + " != nil {\n") == Some(Guards(x))
  {
    var e := " != nil {\n";
    var s := "if " + x + e;
    assert tabs + "if " + x + e == tabs + s;
    DropTabsIs(tabs, s);
    assert s == "if" + (" " + x + e);
    FindIs("if", ' ', " " + x + e);
    assert s[3] == x[0];
    assert s[3..|s| - 10] == x && s[|s| - 10..] == e;
  }

  lemma EndReads(tabs: string)
    requires AllTabs(tabs)
    ensures ReadLine(tabs + "}\n") == Some(Ends)
  {
    var s := "}\n";
    DropTabsIs(tabs, s);
    FindIs(s, ' ', "");
    assert s + "" == s;
  }

  lemma ClearReads(tabs: string, x: string)
    requires AllTabs(tabs) && Solid(x)
    ensures ReadLine(tabs + "clear(" + x + ")\n") == Some(Clears(x))
  {
    var s := "clear(" + x + ")\n";
    assert tabs + "clear(" + x + ")\n" == tabs + s;
    DropTabsIs(tabs, s);
    FindIs(s, ' ', "");
    assert s + "" == s && s[2] == 'e';
    assert s[6..|s| - 2] == x && s[|s| - 2..] == ")\n";
  }

  /** A called operand is `(*p)` or has no bracket at all. */
  lemma CallReads(tabs: string, x: string)
    requires AllTabs(tabs) && Solid(x) && Bracketed(x)
    ensures ReadLine(tabs + x + ".Reset()\n") == Some(Calls(x))
  {
    var e := ".Reset()\n";
    var s := x + e;
    assert tabs + x + e == tabs + s;
    DropTabsIs(tabs, s);
    FindIs(s, ' ', "");
    assert s + "" == s && s[2] != ' ' && s[0] == x[0];
    assert s[5] == if |x| > 5 then x[5] else e[5 - |x|];
    assert s[..|s| - 9] == x && s[|s| - 9..] == e;
  }

  // ---- Operands, variables and values read back ----

  predicate Bracketed(x: string) {
    x != [] && (x[0] == '(' || forall i :: 0 <= i < |x| ==> x[i] != '(')
  }

  lemma FieldReads(recv: string, name: string)
    requires IsWord(recv) && IsWord(name)
    ensures var s := recv + "." + name;
            ReadOperand(s) == Some(Field(recv, name)) && Solid(s) && Bracketed(s) && s[0] != '*'
  {
    var s := recv + "." + name;
    assert s == recv + ("." + name) && s[0] == recv[0];
    FindIs(recv, '.', "." + name);
    assert s[..|recv|] == recv && s[|recv| + 1..] == name;
  }

  lemma DerefReads(x: string, p: Place)
    requires Solid(x) && ReadOperand(x) == Some(p)
    ensures var s := "(*" + x + ")";
            ReadOperand(s) == Some(Deref(p)) && Solid(s) && Bracketed(s) && s[0] != '*'
  {
    var s := "(*" + x + ")";
    assert s[2..|s| - 1] == x && s[|s| - 1] == ')' && s[1] == '*';
  }

  lemma {:induction false} OperandReads(p: Place)
    requires Worded(p)
    ensures ReadOperand(Operand(p)) == Some(p)
    ensures Solid(Operand(p)) && Bracketed(Operand(p)) && Operand(p)[0] != '*'
  {
    match p
    case Field(recv, name) => FieldReads(recv, name);
    case Deref(ptr) =>
      OperandReads(ptr);
      DerefReads(Operand(ptr), ptr);
  }

  lemma VariableReads(p: Place)
    requires Worded(p)
    ensures ReadVariable(Lhs(p)) == Some(p) && Solid(Lhs(p))
  {
    match p
    case Field(_, _) => OperandReads(p);
    case Deref(ptr) =>
      OperandReads(ptr);
      var x := Operand(ptr);
      assert ("*" + x)[1..] == x;
  }

  lemma StructReads(name: string)
    ensures ReadValue(name + "{}") == Some(ZeroStruct(name)) && !EndsIn(name + "{}", "[:0]")
  {
    var s := name + "{}";
    assert s[|s| - 1] == '}' && s[|s| - 2] == '{' && s[|s| - 2..] == "{}" && s[..|s| - 2] == name;
  }

  lemma NewReads(t: string)
    ensures ReadValue("*new(" + t + ")") == Some(NewValue(t)) && !EndsIn("*new(" + t + ")", "[:0]")
  {
    var s := "*new(" + t + ")";
    assert s[|s| - 1] == ')' && s[|s| - 1..] == ")" && s[5..|s| - 1] == t && s[0] == '*';
    assert s[|s| - 2..][1] == ')';
  }

  lemma ValueReads(rhs: Rhs)
    ensures ReadValue(RhsText(rhs)) == Some(ValueOf(rhs)) && !EndsIn(RhsText(rhs), "[:0]")
  {
    match rhs
    case Composite(name) => StructReads(name);
    case New(ty) => NewReads(TypeString(ty));
    case _ =>
  }

  lemma TruncateReads(p: Place)
    requires Worded(p)
    ensures ReadSet(Lhs(p), Operand(p) + "[:0]") == Some(CutToZero(p))
  {
    VariableReads(p);
    OperandReads(p);
    var s := Operand(p) + "[:0]";
    assert s[|s| - 4..] == "[:0]" && s[..|s| - 4] == Operand(p);
  }

  // ---- Statements read back ----

  lemma AssignReads(p: Place, rhs: Rhs, tabs: string, rest: seq<string>)
    requires Worded(p) && AllTabs(tabs)
    ensures ReadStmt([AssignLine(tabs, Lhs(p), RhsText(rhs))] + rest) == Some((Assigned(p, ValueOf(rhs)), rest))
  {
    VariableReads(p);
    ValueReads(rhs);
    SetReads(tabs, Lhs(p), RhsText(rhs));
  }

  lemma CutReads(p: Place, tabs: string, rest: seq<string>)
    requires Worded(p) && AllTabs(tabs)
    ensures ReadStmt([AssignLine(tabs, Lhs(p), Operand(p) + "[:0]")] + rest) == Some((CutToZero(p), rest))
  {
    VariableReads(p);
    TruncateReads(p);
    SetReads(tabs, Lhs(p), Operand(p) + "[:0]");
  }

  lemma EmptyReads(p: Place, tabs: string, rest: seq<string>)
    requires Worded(p) && AllTabs(tabs)
    ensures ReadStmt([ClearLine(tabs, Lhs(p))] + rest) == Some((Emptied(p), rest))
  {
    VariableReads(p);
    ClearReads(tabs, Lhs(p));
    assert ClearLine(tabs, Lhs(p)) == tabs + "clear(" + Lhs(p) + ")\n";
  }

  lemma CalledReads(p: Place, tabs: string, rest: seq<string>)
    requires Worded(p) && AllTabs(tabs)
    ensures ReadStmt([CallLine(tabs, Operand(p))] + rest) == Some((Called(p), rest))
  {
    OperandReads(p);
    CallReads(tabs, Operand(p));
    CallStmt(CallLine(tabs, Operand(p)), Operand(p), p, rest);
  }

  lemma CallStmt(line: string, x: string, p: Place, rest: seq<string>)
    requires ReadLine(line) == Some(Calls(x)) && ReadOperand(x) == Some(p)
    ensures ReadStmt([line] + rest) == Some((Called(p), rest))
  {
    assert ([line] + rest)[1..] == rest;
  }

  lemma GuardedReads(p: Place, body: Reading, inner: seq<string>, tabs: string, rest: seq<string>)
    requires Worded(p) && AllTabs(tabs)
    requires ReadStmt(inner + ([tabs + "}\n"] + rest)) == Some((body, [tabs + "}\n"] + rest))
    ensures ReadStmt([GuardLine(tabs, Lhs(p))] + inner + [tabs + "}\n"] + rest) == Some((IfNonNil(p, body), rest))
  {
    VariableReads(p);
    GuardReads(tabs, Lhs(p));
    EndReads(tabs);
    var head, after := GuardLine(tabs, Lhs(p)), [tabs + "}\n"] + rest;
    assert head == tabs + "if " + Lhs(p) + " != nil {\n";
    var lines := [head] + inner + [tabs + "}\n"] + rest;
    assert lines == [head] + (inner + after);
    GuardStmt(head, Lhs(p), p, inner + after, body, after);
    assert after[1..] == rest;
  }

  lemma GuardStmt(head: string, x: string, p: Place, inner: seq<string>, body: Reading, after: seq<string>)
    requires ReadLine(head) == Some(Guards(x)) && ReadVariable(x) == Some(p)
    requires ReadStmt(inner) == Some((body, after)) && after != [] && ReadLine(after[0]) == Some(Ends)
    ensures ReadStmt([head] + inner) == Some((IfNonNil(p, body), after[1..]))
  {
    assert ([head] + inner)[1..] == inner;
  }

  /** Whatever is printed for a statement reads back as it, whatever follows. */
  lemma {:induction false} RenderReads(s: Stmt, tabs: string, rest: seq<string>)
    requires WordedStmt(s) && AllTabs(tabs)
    ensures ReadStmt(Render(s, tabs) + rest) == Some((Meaning(s), rest))
  {
    match s
    case Assign(p, rhs) => AssignReads(p, rhs, tabs, rest);
    case Truncate(p) => CutReads(p, tabs, rest);
    case Clear(p) => EmptyReads(p, tabs, rest);
    case CallReset(p, _) => CalledReads(p, tabs, rest);
    case CallThrough(p, _) => CalledReads(p, tabs, rest);
    case IfNotNil(p, body) =>
      RenderReads(body, "\t\t", [tabs + "}\n"] + rest);
      GuardedReads(p, Meaning(body), Render(body, "\t\t"), tabs, rest);
  }
}
