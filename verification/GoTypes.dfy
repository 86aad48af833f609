/**
 Go type expressions as the Reset() generator sees them, and the printer it uses
 to name a type in the text it emits (cmd/reset/main.go, typeString).
 */
module GoTypes {
  import opened Seqs

  /** Source text as go/format renders it, the names it uses, and whether any of it comes from an imported package. */
  datatype Expr = Expr(text: string, uses: set<string>, imported: bool)

  /** Forms the printer hands to go/format keep that rendering. */
  datatype Ty =
    | Ident(name: string)
    | Star(elem: Ty)
    | Slice(elem: Ty)
    | Array(len: Expr, elem: Ty)
    | Map(key: Ty, value: Ty)
    | Selector(pkg: string, name: string)
    | Interface(methods: seq<string>)
    | Struct(expr: Expr)
    | Chan(expr: Expr)
    | Func(expr: Expr)
    | Other(expr: Expr)

  function TypeString(t: Ty): string {
    match t
    case Ident(name) => name
    case Star(elem) => "*" + TypeString(elem)
    case Selector(pkg, name) => pkg + "." + name
    case Slice(elem) => "[]" + TypeString(elem)
    case Array(len, elem) => "[" + len.text + "]" + TypeString(elem)
    case Map(key, value) => "map[" + TypeString(key) + "]" + TypeString(value)
    case Interface(_) => "any"
    case Struct(e) => e.text
    case Chan(e) => e.text
    case Func(e) => e.text
    case Other(e) => e.text
  }

  /** The printed text denotes `t` itself: no interface literal with methods was flattened to "any". */
  predicate Faithful(t: Ty) {
    match t
    case Star(elem) => Faithful(elem)
    case Slice(elem) => Faithful(elem)
    case Array(_, elem) => Faithful(elem)
    case Map(key, value) => Faithful(key) && Faithful(value)
    case Interface(methods) => methods == []
    case _ => true
  }

  /** The names a printed type refers to. */
  function Uses(t: Ty): set<string> {
    match t
    case Ident(name) => {name}
    case Star(elem) => Uses(elem)
    case Selector(pkg, _) => {pkg}
    case Slice(elem) => Uses(elem)
    case Array(len, elem) => len.uses + Uses(elem)
    case Map(key, value) => Uses(key) + Uses(value)
    case Interface(_) => {"any"}
    case Struct(e) => e.uses
    case Chan(e) => e.uses
    case Func(e) => e.uses
    case Other(e) => e.uses
  }

  /** The printed type names something through an imported package. */
  predicate Foreign(t: Ty) {
    match t
    case Ident(_) => false
    case Star(elem) => Foreign(elem)
    case Selector(_, _) => true
    case Slice(elem) => Foreign(elem)
    case Array(len, elem) => len.imported || Foreign(elem)
    case Map(key, value) => Foreign(key) || Foreign(value)
    case Interface(_) => false
    case Struct(e) => e.imported
    case Chan(e) => e.imported
    case Func(e) => e.imported
    case Other(e) => e.imported
  }

  predicate IsWordChar(c: char) {
    'a' <= c <= 'z' || 'A' <= c <= 'Z' || '0' <= c <= '9' || c == '_' || 128 as char <= c
  }

  predicate IsWord(s: string) {
    s != [] && forall i :: 0 <= i < |s| ==> IsWordChar(s[i])
  }

  /** An identifier or a literal as an array length. */
  function Word(text: string): Expr {
    Expr(text, if text != "" && '0' <= text[0] <= '9' then {} else {text}, false)
  }

  /** The expressions for which printing is claimed injective; `map` is a keyword, so no identifier. */
  predicate Plain(t: Ty) {
    match t
    case Ident(name) => IsWord(name) && name != "map"
    case Star(elem) => Plain(elem)
    case Selector(pkg, name) => IsWord(pkg) && IsWord(name) && pkg != "map"
    case Slice(elem) => Plain(elem)
    case Array(len, elem) => IsWord(len.text) && len == Word(len.text) && Plain(elem)
    case Map(key, value) => Plain(key) && Plain(value)
    case _ => false
  }

  /** What may follow a printed type inside a larger one: nothing, or the bracket closing a map key. */
  predicate Stops(rest: string) {
    rest == [] || rest[0] == ']'
  }

  lemma PrintHead(t: Ty)
    requires Plain(t)
    ensures TypeString(t) != []
    ensures t.Star? <==> TypeString(t)[0] == '*'
    ensures t.Slice? || t.Array? <==> TypeString(t)[0] == '['
  {
  }

  function WordLength(s: string): (n: nat)
    ensures n <= |s|
  {
    if s == [] || !IsWordChar(s[0]) then 0 else 1 + WordLength(s[1..])
  }

  lemma {:induction false} WordLengthIs(a: string, x: string)
    requires IsWord(a) || a == []
    requires x == [] || !IsWordChar(x[0])
    ensures WordLength(a + x) == |a|
  {
    if a == [] {
      assert a + x == x;
    } else {
      WordLengthIs(a[1..], x);
      assert (a + x)[1..] == a[1..] + x;
    }
  }

  /** A word followed by a non-word character can be cut off a text in only one way. */
  lemma WordCut(a: string, x: string, b: string, y: string)
    requires (IsWord(a) || a == []) && (IsWord(b) || b == [])
    requires x == [] || !IsWordChar(x[0])
    requires y == [] || !IsWordChar(y[0])
    requires a + x == b + y
    ensures a == b && x == y
  {
    WordLengthIs(a, x);
    WordLengthIs(b, y);
    assert a == (a + x)[..|a|] && b == (b + y)[..|b|];
    DropPrefix(a, x, y);
  }

  lemma DropPrefix(p: string, x: string, y: string)
    requires p + x == p + y
    ensures x == y
  {
    assert x == (p + x)[|p|..];
    assert y == (p + y)[|p|..];
  }

  /** The word a text starts with, and what follows it. */
  ghost function FirstWord(t: Ty): (p: (string, string))
    requires Plain(t)
    requires t.Ident? || t.Selector? || t.Map?
    ensures IsWord(p.0) && p.0 + p.1 == TypeString(t)
    ensures p.1 == [] || !IsWordChar(p.1[0])
    ensures t.Map? <==> p.0 == "map"
  {
    match t
    case Ident(name) => (name, "")
    case Selector(pkg, name) => (pkg, "." + name)
    case Map(key, value) =>
      assert TypeString(t) == "map" + ("[" + TypeString(key) + "]" + TypeString(value));
      ("map", "[" + TypeString(key) + "]" + TypeString(value))
  }

  /** Two printed types followed by a stop are cut off a common text in only one way. */
  lemma {:induction false} PrintCut(a: Ty, x: string, b: Ty, y: string)
    requires Plain(a) && Plain(b) && Stops(x) && Stops(y)
    requires TypeString(a) + x == TypeString(b) + y
    ensures a == b && x == y
    decreases a, 2
  {
    PrintHead(a);
    PrintHead(b);
    assert (TypeString(a) + x)[0] == TypeString(a)[0];
    assert (TypeString(b) + y)[0] == TypeString(b)[0];
    if a.Star? {
      assert TypeString(a) + x == "*" + (TypeString(a.elem) + x);
      assert TypeString(b) + y == "*" + (TypeString(b.elem) + y);
      DropPrefix("*", TypeString(a.elem) + x, TypeString(b.elem) + y);
      PrintCut(a.elem, x, b.elem, y);
    } else if a.Slice? || a.Array? {
      BracketCut(a, x, b, y);
    } else {
      WordPrintCut(a, x, b, y);
    }
  }

  function LenText(t: Ty): string
    requires t.Slice? || t.Array?
  {
    if t.Slice? then "" else t.len.text
  }

  lemma BracketForm(t: Ty, x: string)
    requires t.Slice? || t.Array?
    ensures TypeString(t) + x == "[" + (LenText(t) + ("]" + (TypeString(t.elem) + x)))
  {
  }

  lemma {:induction false} BracketCut(a: Ty, x: string, b: Ty, y: string)
    requires Plain(a) && Plain(b) && Stops(x) && Stops(y)
    requires a.Slice? || a.Array?
    requires b.Slice? || b.Array?
    requires TypeString(a) + x == TypeString(b) + y
    ensures a == b && x == y
    decreases a, 0
  {
    var (ta, tb) := (TypeString(a.elem) + x, TypeString(b.elem) + y);
    BracketForm(a, x);
    BracketForm(b, y);
    DropPrefix("[", LenText(a) + ("]" + ta), LenText(b) + ("]" + tb));
    WordCut(LenText(a), "]" + ta, LenText(b), "]" + tb);
    DropPrefix("]", ta, tb);
    PrintCut(a.elem, x, b.elem, y);
  }

  lemma WordForm(t: Ty, x: string)
    requires Plain(t) && Stops(x)
    requires t.Ident? || t.Selector? || t.Map?
    ensures var (w, r) := FirstWord(t);
            && TypeString(t) + x == w + (r + x)
            && (r + x == [] || !IsWordChar((r + x)[0]))
            && (t.Ident? ==> r + x == x)
            && (t.Selector? ==> r + x == "." + (t.name + x))
            && (t.Map? ==> r + x == "[" + (TypeString(t.key) + ("]" + (TypeString(t.value) + x))))
  {
    var (w, r) := FirstWord(t);
    Associate(w, r, x);
    match t
    case Ident(_) => assert r + x == x;
    case Selector(_, name) => Associate(".", name, x);
    case Map(key, value) =>
      var tail := "]" + TypeString(value);
      assert r == "[" + TypeString(key) + tail;
      Associate("[" + TypeString(key), tail, x);
      Associate("[", TypeString(key), tail + x);
      Associate("]", TypeString(value), x);
  }

  lemma {:induction false} MapCut(a: Ty, x: string, b: Ty, y: string)
    requires Plain(a) && Plain(b) && Stops(x) && Stops(y)
    requires a.Map? && b.Map?
    requires FirstWord(a).1 + x == FirstWord(b).1 + y
    ensures a == b && x == y
    decreases a, 0
  {
    WordForm(a, x);
    WordForm(b, y);
    var ta, tb := "]" + (TypeString(a.value) + x), "]" + (TypeString(b.value) + y);
    DropPrefix("[", TypeString(a.key) + ta, TypeString(b.key) + tb);
    PrintCut(a.key, ta, b.key, tb);
    DropPrefix("]", TypeString(a.value) + x, TypeString(b.value) + y);
    PrintCut(a.value, x, b.value, y);
  }

  lemma {:induction false} WordPrintCut(a: Ty, x: string, b: Ty, y: string)
    requires Plain(a) && Plain(b) && Stops(x) && Stops(y)
    requires a.Ident? || a.Selector? || a.Map?
    requires b.Ident? || b.Selector? || b.Map?
    requires TypeString(a) + x == TypeString(b) + y
    ensures a == b && x == y
    decreases a, 1
  {
    WordForm(a, x);
    WordForm(b, y);
    var (ra, rb) := (FirstWord(a).1 + x, FirstWord(b).1 + y);
    WordCut(FirstWord(a).0, ra, FirstWord(b).0, rb);
    assert a.Map? <==> b.Map?;
    if a.Map? {
      MapCut(a, x, b, y);
    } else {
      assert a.Selector? <==> ra != [] && ra[0] == '.';
      assert b.Selector? <==> rb != [] && rb[0] == '.';
      if a.Selector? {
        DropPrefix(".", a.name + x, b.name + y);
        WordCut(a.name, x, b.name, y);
      }
    }
  }

  /** Distinct plain type expressions never share a printed form. */
  lemma TypeStringInjective(a: Ty, b: Ty)
    requires Plain(a) && Plain(b)
    requires TypeString(a) == TypeString(b)
    ensures a == b
  {
    assert TypeString(a) + "" == TypeString(b) + "";
    PrintCut(a, "", b, "");
  }

  /** Each form as Go writes it. */
  lemma TypeTexts()
    ensures TypeString(Star(Ident("T"))) == "*T" && TypeString(Slice(Ident("T"))) == "[]T"
    ensures TypeString(Selector("p", "T")) == "p.T" && TypeString(Interface([])) == "any"
  {
  }

  lemma ArrayText()
    ensures TypeString(Array(Word("4"), Ident("T"))) == "[4]T"
  {
  }

  lemma MapText()
    ensures TypeString(Map(Ident("K"), Ident("V"))) == "map[K]V"
  {
  }

  /** Outside the plain forms the claim fails: an interface literal prints as the identifier `any`. */
  lemma InterfaceLiteralsCollide(m: seq<string>)
    ensures TypeString(Interface(m)) == TypeString(Ident("any"))
    ensures Interface(m) != Ident("any") && Plain(Ident("any")) && !Plain(Interface(m))
    ensures Faithful(Interface(m)) <==> m == []
  {
  }
}
