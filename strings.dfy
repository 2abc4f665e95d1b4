/** The parts of Go's `strings` package that the uploader relies on:
    `strings.FieldsFunc` with a one-character separator, and `strings.Join`. */
module Strings {
  import Seqs

  /** The string `s` with every occurrence of `sep` removed: a reference for what `Fields` keeps. */
  function Without(s: string, sep: char): string
    decreases |s|
  {
    if s == [] then [] else (if s[0] == sep then [] else [s[0]]) + Without(s[1..], sep)
  }

  /** The concatenation of all strings of `xs`. */
  function Concat(xs: seq<string>): string
    decreases |xs|
  {
    if xs == [] then [] else xs[0] + Concat(xs[1..])
  }

  /** `strings.Join(xs, sep)`: the elements of `xs` with `sep` between neighbours. */
  function JoinWith(xs: seq<string>, sep: string): string
    decreases |xs|
  {
    if xs == [] then "" else if |xs| == 1 then xs[0] else xs[0] + sep + JoinWith(xs[1..], sep)
  }

  /** The length of the leading run of `s` that contains no `sep`. */
  function FieldEnd(s: string, sep: char): (k: nat)
    ensures k <= |s|
    ensures forall i :: 0 <= i < k ==> s[i] != sep
    ensures k == |s| || s[k] == sep
    decreases |s|
  {
    if s == [] || s[0] == sep then 0 else 1 + FieldEnd(s[1..], sep)
  }

  /** `strings.FieldsFunc(s, func(r rune) bool { return r == sep })`: the maximal runs of
      `s` that contain no `sep`, in order; empty runs are dropped. */
  function Fields(s: string, sep: char): seq<string>
    decreases |s|
  {
    if s == [] then []
    else if s[0] == sep then Fields(s[1..], sep)
    else
      var k := FieldEnd(s, sep);
      [s[..k]] + Fields(s[k..], sep)
  }

  /** Every field is non-empty and free of the separator. */
  lemma {:induction false} FieldsAreClean(s: string, sep: char)
    ensures forall f :: f in Fields(s, sep) ==> f != [] && sep !in f
    decreases |s|
  {
    if s == [] {
    } else if s[0] == sep {
      FieldsAreClean(s[1..], sep);
    } else {
      var k := FieldEnd(s, sep);
      FieldsAreClean(s[k..], sep);
      assert Fields(s, sep) == [s[..k]] + Fields(s[k..], sep);
      assert s[..k][0] == s[0];
    }
  }

  /** `FieldEnd` is the only index with its three properties. */
  lemma FieldEndUnique(s: string, sep: char, k: nat)
    requires k <= |s|
    requires forall i :: 0 <= i < k ==> s[i] != sep
    requires k == |s| || s[k] == sep
    ensures FieldEnd(s, sep) == k
  {
  }

  /** Joining the fields back together gives `s` without its separators. */
  lemma {:induction false} FieldsDropOnlySeparators(s: string, sep: char)
    ensures Concat(Fields(s, sep)) == Without(s, sep)
    decreases |s|
  {
    if s == [] {
    } else if s[0] == sep {
      FieldsDropOnlySeparators(s[1..], sep);
    } else {
      var k := FieldEnd(s, sep);
      var fs := Fields(s, sep);
      assert fs == [s[..k]] + Fields(s[k..], sep);
      assert fs[1..] == Fields(s[k..], sep);
      FieldsDropOnlySeparators(s[k..], sep);
      WithoutAppend(s[..k], s[k..], sep);
      assert s[..k] + s[k..] == s;
      WithoutNone(s[..k], sep);
    }
  }

  lemma {:induction false} WithoutAppend(a: string, b: string, sep: char)
    ensures Without(a + b, sep) == Without(a, sep) + Without(b, sep)
    decreases |a|
  {
    if a == [] {
      assert a + b == b;
    } else {
      assert (a + b)[0] == a[0];
      assert (a + b)[1..] == a[1..] + b;
      WithoutAppend(a[1..], b, sep);
    }
  }

  lemma {:induction false} WithoutNone(a: string, sep: char)
    requires sep !in a
    ensures Without(a, sep) == a
    decreases |a|
  {
    if a != [] {
      WithoutNone(a[1..], sep);
    }
  }

  /** A separator splits the fields of what precedes it from those of what follows it. */
  lemma {:induction false} FieldsAppend(a: string, b: string, sep: char)
    ensures Fields(a + [sep] + b, sep) == Fields(a, sep) + Fields(b, sep)
    decreases |a|
  {
    var s := a + [sep] + b;
    if a == [] {
      assert s == [sep] + b;
      assert s[1..] == b;
    } else if a[0] == sep {
      assert s[0] == sep;
      assert s[1..] == a[1..] + [sep] + b;
      FieldsAppend(a[1..], b, sep);
    } else {
      var k := FieldEnd(a, sep);
      if k < |a| {
        FieldsAppend(a[k..], b, sep);
        FieldsAppendInner(a, b, sep, k);
      } else {
        FieldsAppendLast(a, b, sep);
      }
    }
  }

  lemma {:induction false} FieldsAppendInner(a: string, b: string, sep: char, k: nat)
    requires a != [] && a[0] != sep && k == FieldEnd(a, sep) && k < |a|
    requires Fields(a[k..] + [sep] + b, sep) == Fields(a[k..], sep) + Fields(b, sep)
    ensures Fields(a + [sep] + b, sep) == Fields(a, sep) + Fields(b, sep)
  {
    var s := a + [sep] + b;
    var t := a[k..] + [sep] + b;
    assert FieldEnd(s, sep) == k by {
      assert forall i :: 0 <= i <= k ==> s[i] == a[i];
      FieldEndUnique(s, sep, k);
    }
    assert Fields(s, sep) == [a[..k]] + Fields(t, sep) by {
      assert s[0] == a[0];
      assert s[..k] == a[..k] && s[k..] == t;
    }
    assert Fields(a, sep) == [a[..k]] + Fields(a[k..], sep);
    Seqs.AppendAssociative([a[..k]], Fields(a[k..], sep), Fields(b, sep));
  }

  lemma FieldsAppendLast(a: string, b: string, sep: char)
    requires a != [] && a[0] != sep && FieldEnd(a, sep) == |a|
    ensures Fields(a + [sep] + b, sep) == Fields(a, sep) + Fields(b, sep)
  {
    var s := a + [sep] + b;
    var k := |a|;
    assert s[0] == a[0];
    FieldEndUnique(s, sep, k);
    assert s[..k] == a;
    assert s[k..] == [sep] + b;
    assert s[k..][1..] == b;
    assert Fields(s, sep) == [a] + Fields(s[k..], sep);
    assert a[..k] == a && a[k..] == [];
    assert Fields(a, sep) == [a] + Fields(a[k..], sep);
  }

  /** A separator-free, non-empty string is its own single field. */
  lemma FieldsOfField(f: string, sep: char)
    requires f != [] && sep !in f
    ensures Fields(f, sep) == [f]
  {
    assert f[0] != sep;
    FieldEndUnique(f, sep, |f|);
    assert f[..|f|] == f;
    assert f[|f|..] == [];
  }

  /** A leading field is split off at the first separator. */
  lemma FieldsCons(a: string, rest: string, sep: char)
    requires a != [] && sep !in a
    ensures Fields(a + [sep] + rest, sep) == [a] + Fields(rest, sep)
  {
    FieldsAppend(a, rest, sep);
    FieldsOfField(a, sep);
  }

  /** Splitting undoes joining when no element is empty or holds the separator. */
  lemma {:induction false} FieldsOfJoin(xs: seq<string>, sep: char)
    requires forall i :: 0 <= i < |xs| ==> xs[i] != [] && sep !in xs[i]
    ensures Fields(JoinWith(xs, [sep]), sep) == xs
    decreases |xs|
  {
    if xs == [] {
    } else if |xs| == 1 {
      FieldsOfField(xs[0], sep);
    } else {
      FieldsOfJoin(xs[1..], sep);
      FieldsCons(xs[0], JoinWith(xs[1..], [sep]), sep);
      assert xs == [xs[0]] + xs[1..];
    }
  }

  /** Appending one more element to a non-empty list adds the separator and that element. */
  lemma {:induction false} JoinWithSnoc(xs: seq<string>, x: string, sep: string)
    ensures JoinWith(xs + [x], sep) == if xs == [] then x else JoinWith(xs, sep) + sep + x
    decreases |xs|
  {
    if xs == [] {
      assert xs + [x] == [x];
    } else if |xs| == 1 {
      assert (xs + [x])[1..] == [x];
    } else {
      assert (xs + [x])[1..] == xs[1..] + [x];
      JoinWithSnoc(xs[1..], x, sep);
    }
  }
}
