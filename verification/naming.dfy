/** Bean identity keys: the simple name of a class with its first letter lower-cased. */
module Naming {

  predicate IsUpper(c: char) {
    'A' <= c <= 'Z'
  }

  /** Lower-cases one character (ASCII letters only; every other character is kept). */
  function ToLower(c: char): (r: char)
    ensures !IsUpper(r)
    ensures IsUpper(c) ==> r as int == c as int + 32
    ensures !IsUpper(c) ==> r == c
  {
    if IsUpper(c) then (c as int + 32) as char else c
  }

  /** The first character lower-cased, every other character unchanged; the empty string stays empty. */
  function Uncapitalize(s: string): string
  {
    if |s| == 0 then s else [ToLower(s[0])] + s[1..]
  }

  /** Uncapitalizing keeps the length and every character but the first, which becomes its lower-case form. */
  lemma UncapitalizeSpec(s: string)
    ensures |Uncapitalize(s)| == |s|
    ensures |s| > 0 ==> Uncapitalize(s)[0] == ToLower(s[0])
    ensures forall i :: 0 < i < |s| ==> Uncapitalize(s)[i] == s[i]
    ensures |s| > 0 ==> !IsUpper(Uncapitalize(s)[0]) && (!IsUpper(s[0]) ==> Uncapitalize(s) == s)
  {
  }

  /** Two class names collide on one key exactly when they are equal or differ only in the case of the first letter. */
  lemma UncapitalizeCollision(a: string, b: string)
    ensures Uncapitalize(a) == Uncapitalize(b)
        <==> a == b || (|a| == |b| > 0 && a[1..] == b[1..] && ToLower(a[0]) == ToLower(b[0]))
  {
    var ra, rb := Uncapitalize(a), Uncapitalize(b);
    UncapitalizeSpec(a);
    UncapitalizeSpec(b);
    if ra == rb && a != b {
      assert |a| == |b| > 0;
      assert ra[0] == ToLower(a[0]) && rb[0] == ToLower(b[0]);
      assert a[1..] == ra[1..] == rb[1..] == b[1..];
    }
    if |a| == |b| > 0 && a[1..] == b[1..] && ToLower(a[0]) == ToLower(b[0]) {
      assert ra == [ToLower(a[0])] + a[1..];
      assert rb == [ToLower(b[0])] + b[1..];
    }
  }

  /** The index of the last '.' in `q`, or -1 when there is none. */
  function LastDot(q: string): (r: int)
    ensures -1 <= r < |q|
    ensures r >= 0 ==> q[r] == '.'
    ensures forall j :: r < j < |q| ==> q[j] != '.'
    decreases |q|
  {
    if |q| == 0 then -1
    else if q[|q| - 1] == '.' then |q| - 1
    else LastDot(q[..|q| - 1])
  }

  /** The simple name of a class: the part of its qualified name after the last '.'. */
  function SimpleName(q: string): string
    decreases |q|
  {
    if |q| == 0 then []
    else if q[|q| - 1] == '.' then []
    else SimpleName(q[..|q| - 1]) + [q[|q| - 1]]
  }

  /** The simple name is what follows the last '.'. */
  lemma {:induction false} SimpleNameAfterLastDot(q: string)
    ensures SimpleName(q) == q[LastDot(q) + 1..]
    decreases |q|
  {
    if |q| > 0 && q[|q| - 1] != '.' {
      var p := q[..|q| - 1];
      SimpleNameAfterLastDot(p);
      var d := LastDot(p) + 1;
      assert LastDot(q) + 1 == d;
      assert q[d..] == p[d..] + [q[|q| - 1]];
    }
  }

  /** The simple name holds no '.' and ends the qualified name. */
  lemma SimpleNameSpec(q: string)
    ensures '.' !in SimpleName(q)
    ensures |SimpleName(q)| <= |q| && SimpleName(q) == q[|q| - |SimpleName(q)|..]
  {
    SimpleNameAfterLastDot(q);
    var d := LastDot(q) + 1;
    forall j | 0 <= j < |q| - d
      ensures q[d..][j] != '.'
    {
      assert q[d..][j] == q[d + j];
    }
  }

  /** A class declared as `s` in package `pkg` has simple name `s`. */
  lemma SimpleNameOfQualified(pkg: string, s: string)
    requires '.' !in s
    ensures SimpleName(pkg + "." + s) == s
  {
    var q := pkg + "." + s;
    assert q[|pkg|] == '.';
    assert forall j :: |pkg| < j < |q| ==> q[j] == s[j - |pkg| - 1];
    assert LastDot(q) == |pkg|;
    assert q[|pkg| + 1..] == s;
    SimpleNameAfterLastDot(q);
  }
}
