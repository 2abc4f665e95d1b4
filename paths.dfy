/** Slash-separated path handling as in Go's `path.Ext`, `filepath.Clean` and `filepath.Join`
    (the Unix behaviour, where the separator is '/'). */
module Paths {
  import Strings

  /** `path.Ext(p)`: the suffix of `p` from its last '.' in the final slash-separated
      element, or "" when that element has no dot. */
  function Ext(p: string): string
    decreases |p|
  {
    if p == [] then ""
    else
      var c := p[|p| - 1];
      if c == '/' then ""
      else if c == '.' then "."
      else
        var e := Ext(p[..|p| - 1]);
        if e == "" then "" else e + [c]
  }

  /** The extension is a suffix of the path that starts with its only dot and crosses no
      '/'; when there is none, the final element has no dot. */
  lemma {:induction false} ExtShape(p: string)
    ensures var e := Ext(p);
      |e| <= |p| && e == p[|p| - |e|..] &&
      (e != [] ==> e[0] == '.' && '/' !in e && '.' !in e[1..]) &&
      (e == [] ==> forall i :: 0 <= i < |p| && '/' !in p[i..] ==> p[i] != '.')
    decreases |p|
  {
    if p != [] {
      var c := p[|p| - 1];
      if c == '/' {
        assert forall i :: 0 <= i < |p| ==> p[i..][|p| - 1 - i] == '/';
      } else if c != '.' {
        var q := p[..|p| - 1];
        ExtShape(q);
        assert forall i :: 0 <= i < |p| - 1 ==> p[i..] == q[i..] + [c];
        var e := Ext(q);
        if e != "" {
          assert p[|p| - |e| - 1..] == q[|q| - |e|..] + [c];
          assert (e + [c])[1..] == e[1..] + [c];
        }
      }
    }
  }

  /** An extension is kept whatever comes before it. */
  lemma {:induction false} ExtOfDotted(a: string, e: string)
    requires e != [] && e[0] == '.' && '/' !in e && '.' !in e[1..]
    ensures Ext(a + e) == e
    decreases |e|
  {
    var p := a + e;
    assert p[|p| - 1] == e[|e| - 1];
    if |e| > 1 {
      var e' := e[..|e| - 1];
      assert p[..|p| - 1] == a + e';
      assert e'[1..] == e[1..|e| - 1];
      ExtOfDotted(a, e');
      assert e' + [e[|e| - 1]] == e;
    }
  }

  /** A string without dots has no extension. */
  lemma ExtOfDotless(a: string)
    requires '.' !in a
    ensures Ext(a) == ""
  {
  }

  /** A path element that stays a single element after cleaning. */
  predicate IsElement(name: string) {
    name != "" && '/' !in name && name != "." && name != ".."
  }

  /** The lexical resolution of `filepath.Clean`: "." elements vanish, ".." removes the
      element before it, or stays at the front of a relative path, or vanishes at the root. */
  function CleanElems(es: seq<string>, rooted: bool, acc: seq<string>): seq<string>
    decreases |es|
  {
    if es == [] then acc
    else
      var e := es[0];
      var next :=
        if e == "." then acc
        else if e == ".." then
          (if |acc| > 0 && acc[|acc| - 1] != ".." then acc[..|acc| - 1]
           else if rooted then acc
           else acc + [".."])
        else acc + [e];
      CleanElems(es[1..], rooted, next)
  }

  /** `filepath.Clean(p)` on Unix. */
  function Clean(p: string): string {
    if p == "" then "."
    else
      var rooted := p[0] == '/';
      var body := Strings.JoinWith(CleanElems(Strings.Fields(p, '/'), rooted, []), "/");
      if rooted then "/" + body
      else if body == "" then "."
      else body
  }

  /** `filepath.Join(elems...)`: the non-empty tail of `elems` joined by '/', then cleaned. */
  function Join(elems: seq<string>): string
    decreases |elems|
  {
    if elems == [] then ""
    else if elems[0] == "" then Join(elems[1..])
    else Clean(Strings.JoinWith(elems, "/"))
  }

  /** Where a file called `name` lands in the cleaned directory `dir`. */
  function InDir(dir: string, name: string): string {
    if dir == "." then name else if dir == "/" then "/" + name else dir + "/" + name
  }

  lemma {:induction false} CleanElemsSnoc(es: seq<string>, rooted: bool, acc: seq<string>, e: string)
    requires e != "." && e != ".."
    ensures CleanElems(es + [e], rooted, acc) == CleanElems(es, rooted, acc) + [e]
    decreases |es|
  {
    if es == [] {
      assert es + [e] == [e];
      assert [e][1..] == [];
    } else {
      assert (es + [e])[0] == es[0];
      assert (es + [e])[1..] == es[1..] + [e];
      var x := es[0];
      var next :=
        if x == "." then acc
        else if x == ".." then
          (if |acc| > 0 && acc[|acc| - 1] != ".." then acc[..|acc| - 1]
           else if rooted then acc
           else acc + [".."])
        else acc + [x];
      CleanElemsSnoc(es[1..], rooted, next, e);
    }
  }

  predicate Segments(xs: seq<string>) {
    forall i :: 0 <= i < |xs| ==> xs[i] != "" && '/' !in xs[i] && xs[i] != "."
  }

  lemma {:induction false} CleanElemsSegments(es: seq<string>, rooted: bool, acc: seq<string>)
    requires forall i :: 0 <= i < |es| ==> es[i] != "" && '/' !in es[i]
    requires Segments(acc)
    ensures Segments(CleanElems(es, rooted, acc))
    decreases |es|
  {
    if es != [] {
      var x := es[0];
      var next :=
        if x == "." then acc
        else if x == ".." then
          (if |acc| > 0 && acc[|acc| - 1] != ".." then acc[..|acc| - 1]
           else if rooted then acc
           else acc + [".."])
        else acc + [x];
      assert Segments(next);
      CleanElemsSegments(es[1..], rooted, next);
    }
  }

  lemma JoinedSegments(xs: seq<string>)
    requires xs != [] && Segments(xs)
    ensures Strings.JoinWith(xs, "/") != "" && Strings.JoinWith(xs, "/") != "." && Strings.JoinWith(xs, "/") != "/"
  {
    var j := Strings.JoinWith(xs, "/");
    if |xs| > 1 {
      assert j == xs[0] + "/" + Strings.JoinWith(xs[1..], "/");
      assert j[0] == xs[0][0];
      assert '/' != xs[0][0];
    }
  }

  /** The elements of `dir + "///" + name` are those of `dir`, then `name`. */
  lemma FieldsBelow(dir: string, name: string)
    requires IsElement(name)
    ensures Strings.Fields(Strings.JoinWith([dir, "/", name], "/"), '/') == Strings.Fields(dir, '/') + [name]
  {
    var elems := [dir, "/", name];
    assert elems[1..] == ["/", name] && elems[1..][1..] == [name];
    assert Strings.JoinWith(elems[1..][1..], "/") == name;
    assert Strings.JoinWith(elems[1..], "/") == "/" + "/" + name;
    assert Strings.JoinWith(elems, "/") == dir + ['/'] + ("//" + name);
    Strings.FieldsAppend(dir, "//" + name, '/');
    assert ("//" + name)[1..] == "/" + name && ("/" + name)[1..] == name;
    Strings.FieldsOfField(name, '/');
  }

  /** A generated file name joined below a non-empty save path names a file directly inside
      the cleaned save path. */
  lemma JoinInDir(dir: string, name: string)
    requires dir != "" && IsElement(name)
    ensures Join([dir, "/", name]) == InDir(Clean(dir), name)
  {
    var s := Strings.JoinWith([dir, "/", name], "/");
    assert Join([dir, "/", name]) == Clean(s);
    FieldsBelow(dir, name);
    var fs := Strings.Fields(dir, '/');
    Strings.FieldsAreClean(dir, '/');
    assert s[0] == dir[0] by {
      assert s == dir + "/" + Strings.JoinWith(["/", name], "/");
    }
    var rooted := dir[0] == '/';
    CleanElemsSnoc(fs, rooted, [], name);
    var es := CleanElems(fs, rooted, []);
    var body := Strings.JoinWith(es, "/");
    var joined := Strings.JoinWith(es + [name], "/");
    assert Clean(s) == if rooted then "/" + joined else if joined == "" then "." else joined;
    assert Clean(dir) == if rooted then "/" + body else if body == "" then "." else body;
    Strings.JoinWithSnoc(es, name, "/");
    if es == [] {
      assert joined == name && body == "";
    } else {
      assert forall i :: 0 <= i < |fs| ==> fs[i] in fs;
      CleanElemsSegments(fs, rooted, []);
      JoinedSegments(es);
      assert joined == body + "/" + name;
    }
  }
}
