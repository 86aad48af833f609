/** HTTP header maps and the string operations applied to header values. */
module Http {
  import opened Metrics

  type byte = x: int | 0 <= x < 256

  /** Header names are in canonical form. */
  type Headers = map<string, seq<string>>

  const CONTENT_ENCODING := "Content-Encoding"
  const CONTENT_TYPE := "Content-Type"
  const CONTENT_LENGTH := "Content-Length"
  const CONTENT_RANGE := "Content-Range"
  const VARY := "Vary"

  function Get(h: Headers, name: string): string {
    if name in h && h[name] != [] then h[name][0] else ""
  }

  function Set(h: Headers, name: string, value: string): Headers {
    h[name := [value]]
  }

  function Add(h: Headers, name: string, value: string): Headers {
    h[name := (if name in h then h[name] else []) + [value]]
  }

  function Del(h: Headers, name: string): Headers {
    h - {name}
  }

  /**
   strings.ToLower as far as ASCII texts can tell: besides A to Z only two letters, the dotted capital I
   and the Kelvin sign, become ASCII; all others are left alone.
   */
  function LowerChar(c: char): char {
    if 'A' <= c <= 'Z' then c - 'A' + 'a'
    else if c == 0x130 as char then 'i'
    else if c == 0x212A as char then 'k'
    else c
  }

  function Lower(s: string): string {
    seq(|s|, i requires 0 <= i < |s| => LowerChar(s[i]))
  }

  function TrimLeft(s: string): string {
    if s != [] && IsSpace(s[0]) then TrimLeft(s[1..]) else s
  }

  function TrimRight(s: string): string {
    if s != [] && IsSpace(s[|s| - 1]) then TrimRight(s[..|s| - 1]) else s
  }

  function Trim(s: string): string {
    TrimRight(TrimLeft(s))
  }

  // ---- What these mean for comparisons: letters up to case, blanks around ----

  predicate SameLetter(c: char, d: char) {
    || c == d
    || ('a' <= d <= 'z' && c == d - 'a' + 'A')
    || (d == 'i' && c == 0x130 as char)
    || (d == 'k' && c == 0x212A as char)
  }

  /** `w` stands in `s` at `i`, up to the case of its letters. */
  predicate SpelledAt(s: string, i: nat, w: string) {
    i + |w| <= |s| && forall k :: 0 <= k < |w| ==> SameLetter(s[i + k], w[k])
  }

  predicate SpelledAs(s: string, w: string) {
    |s| == |w| && SpelledAt(s, 0, w)
  }

  predicate Spaces(s: string, i: nat, j: nat) {
    i <= j <= |s| && forall k :: i <= k < j ==> IsSpace(s[k])
  }

  /** `s` is `w` up to case and blanks around it. */
  ghost predicate Says(s: string, w: string) {
    exists i: nat :: SpelledAt(s, i, w) && Spaces(s, 0, i) && Spaces(s, i + |w|, |s|)
  }

  /** `s` begins with `w` up to case and blanks before it. */
  ghost predicate Begins(s: string, w: string) {
    exists i: nat :: SpelledAt(s, i, w) && Spaces(s, 0, i)
  }

  predicate IsLower(w: string) {
    forall k :: 0 <= k < |w| ==> w[k] < 128 as char && !('A' <= w[k] <= 'Z')
  }

  /** A lower-case ASCII text without outer blanks. */
  predicate IsToken(w: string) {
    w != "" && IsLower(w) && !IsSpace(w[0]) && !IsSpace(w[|w| - 1])
  }

  lemma LowerCharIs(c: char, d: char)
    requires d < 128 as char && !('A' <= d <= 'Z')
    ensures LowerChar(c) == d <==> SameLetter(c, d)
    ensures IsSpace(LowerChar(c)) <==> IsSpace(c)
  {
  }

  lemma LowerAt(s: string, i: nat, w: string)
    requires IsLower(w) && i + |w| <= |s|
    ensures Lower(s)[i..i + |w|] == w <==> SpelledAt(s, i, w)
  {
    var l := Lower(s);
    forall k | 0 <= k < |w| ensures l[i + k] == w[k] <==> SameLetter(s[i + k], w[k]) {
      LowerCharIs(s[i + k], w[k]);
    }
    if SpelledAt(s, i, w) {
      assert forall k :: 0 <= k < |w| ==> l[i..i + |w|][k] == w[k];
    }
    if l[i..i + |w|] == w {
      forall k | 0 <= k < |w| ensures SameLetter(s[i + k], w[k]) {
        assert l[i..i + |w|][k] == w[k];
      }
    }
  }

  /** Lower-casing compares letters up to case. */
  lemma LowerIs(s: string, w: string)
    requires IsLower(w)
    ensures Lower(s) == w <==> SpelledAs(s, w)
  {
    if |s| == |w| {
      LowerAt(s, 0, w);
      assert Lower(s)[0..|w|] == Lower(s);
    }
  }

  lemma SpacesStay(s: string, i: nat, j: nat)
    ensures Spaces(Lower(s), i, j) <==> Spaces(s, i, j)
  {
    var l := Lower(s);
    forall k | 0 <= k < |s| ensures IsSpace(l[k]) <==> IsSpace(s[k]) {
      LowerCharIs(s[k], 'a');
    }
  }

  lemma {:induction false} TrimLeftIs(s: string) returns (i: nat)
    ensures Spaces(s, 0, i) && TrimLeft(s) == s[i..] && (i < |s| ==> !IsSpace(s[i]))
  {
    if s != [] && IsSpace(s[0]) {
      i := TrimLeftIs(s[1..]);
      assert s[1..][i..] == s[i + 1..];
      forall k | 1 <= k < i + 1 ensures IsSpace(s[k]) {
        assert s[k] == s[1..][k - 1];
      }
      i := i + 1;
    } else {
      i := 0;
    }
  }

  lemma {:induction false} TrimRightIs(s: string) returns (j: nat)
    ensures Spaces(s, j, |s|) && TrimRight(s) == s[..j] && (j > 0 ==> !IsSpace(s[j - 1]))
  {
    if s != [] && IsSpace(s[|s| - 1]) {
      var front := s[..|s| - 1];
      j := TrimRightIs(front);
      assert front[..j] == s[..j];
      assert forall k :: j <= k < |front| ==> s[k] == front[k];
    } else {
      j := |s|;
    }
  }

  /** Trimming cuts off exactly the outer blanks. */
  lemma TrimIs(s: string) returns (i: nat, j: nat)
    ensures i <= j <= |s| && Trim(s) == s[i..j] && Spaces(s, 0, i) && Spaces(s, j, |s|)
    ensures i < j ==> !IsSpace(s[i]) && !IsSpace(s[j - 1])
    ensures i == j ==> i == |s|
  {
    i := TrimLeftIs(s);
    var rest := s[i..];
    var k := TrimRightIs(rest);
    j := i + k;
    assert rest[..k] == s[i..j];
    forall m | j <= m < |s| ensures IsSpace(s[m]) {
      assert s[m] == rest[m - i];
    }
    assert k > 0 ==> rest[k - 1] == s[j - 1];
    assert rest != [] ==> rest[0] == s[i];
  }

  lemma FirstUnique(s: string, i: nat, j: nat)
    requires Spaces(s, 0, i) && Spaces(s, 0, j) && i < |s| && j < |s| && !IsSpace(s[i]) && !IsSpace(s[j])
    ensures i == j
  {
  }

  lemma LastUnique(s: string, i: nat, j: nat)
    requires Spaces(s, i, |s|) && Spaces(s, j, |s|) && i > 0 && j > 0 && !IsSpace(s[i - 1]) && !IsSpace(s[j - 1])
    ensures i == j
  {
  }

  /** A trimmed text is empty exactly if it was blank. */
  lemma BlankIs(s: string)
    ensures Trim(s) == "" <==> Blank(s)
    ensures Trim(Lower(s)) == "" <==> Blank(s)
  {
    var i, j := TrimIs(s);
    var a, b := TrimIs(Lower(s));
    SpacesStay(s, 0, |s|);
  }

  /** A trimmed, lower-cased text equals a token exactly if it says it. */
  lemma SaysIs(s: string, w: string)
    requires IsToken(w)
    ensures Trim(Lower(s)) == w <==> Says(s, w)
  {
    var l := Lower(s);
    var i, j := TrimIs(l);
    if l[i..j] == w {
      LowerAt(s, i, w);
      SpacesStay(s, 0, i);
      SpacesStay(s, j, |s|);
    }
    if Says(s, w) {
      var k: nat :| SpelledAt(s, k, w) && Spaces(s, 0, k) && Spaces(s, k + |w|, |s|);
      LowerAt(s, k, w);
      SpacesStay(s, 0, k);
      SpacesStay(s, k + |w|, |s|);
      TokenEdges(l, k, w);
      FirstUnique(l, i, k);
      LastUnique(l, j, k + |w|);
    }
  }

  lemma TokenEdges(l: string, k: nat, w: string)
    requires IsToken(w) && k + |w| <= |l| && l[k..k + |w|] == w
    ensures !IsSpace(l[k]) && !IsSpace(l[k + |w| - 1])
  {
    assert l[k] == w[0] && l[k + |w| - 1] == l[k..k + |w|][|w| - 1];
  }

  /** It begins with a token exactly if the original does. */
  lemma BeginsIs(s: string, w: string)
    requires IsToken(w)
    ensures w <= Trim(Lower(s)) <==> Begins(s, w)
  {
    var l := Lower(s);
    var i, j := TrimIs(l);
    if w <= l[i..j] {
      assert l[i..i + |w|] == l[i..j][..|w|];
      LowerAt(s, i, w);
      SpacesStay(s, 0, i);
    }
    if Begins(s, w) {
      var k: nat :| SpelledAt(s, k, w) && Spaces(s, 0, k);
      LowerAt(s, k, w);
      SpacesStay(s, 0, k);
      TokenEdges(l, k, w);
      FirstUnique(l, i, k);
      EndsLater(l, j, k + |w|);
      assert l[i..j][..|w|] == l[k..k + |w|];
    }
  }

  lemma EndsLater(s: string, j: nat, m: nat)
    requires Spaces(s, j, |s|) && 0 < m <= |s| && !IsSpace(s[m - 1])
    ensures m <= j
  {
  }
}
