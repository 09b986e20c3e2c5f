/** The first-wins keys of the capture log, and when two of them can coincide. */
module CaptureKeys {
  import opened FieldPaths
  import opened Captures

  function Join(parts: seq<string>, sep: char): string {
    if parts == [] then ""
    else if |parts| == 1 then parts[0]
    else parts[0] + [sep] + Join(parts[1..], sep)
  }

  /** The dotted paths of a field capture, separated by commas. */
  function FieldsKey(paths: seq<Path>): string {
    Join(seq(|paths|, i requires 0 <= i < |paths| => Join(paths[i], '.')), ',')
  }

  function RefKey(ref: Ref, rest: string): string {
    ref.apiVersion + "|" + (ref.kind + "|" + (ref.namespace + "|" + (ref.name + "|" + (ref.resource + rest))))
  }

  function ObjectKey(ref: Ref): string {
    "obj|" + RefKey(ref, "")
  }

  function FieldKey(ref: Ref, paths: seq<Path>): string {
    "fld|" + RefKey(ref, "|" + FieldsKey(paths))
  }

  // ------------------------------------------------------------------ injectivity

  lemma FirstSeparator(x: string, y: string, s: string, t: string, sep: char)
    requires sep !in x && sep !in y
    requires x + [sep] + s == y + [sep] + t
    ensures x == y && s == t
  {
    var l, r := x + [sep] + s, y + [sep] + t;
    assert l[|x|] == sep && r[|y|] == sep;
    assert forall i | 0 <= i < |x| :: l[i] == x[i] != sep;
    assert forall i | 0 <= i < |y| :: r[i] == y[i] != sep;
    assert |x| == |y|;
    assert x == l[..|x|] == r[..|y|] == y;
    assert s == l[|x| + 1..] == r[|y| + 1..] == t;
  }

  predicate Clean(s: string, sep: char) {
    s != "" && sep !in s
  }

  lemma JoinSeparated(a: seq<string>, sep: char)
    requires forall s | s in a :: Clean(s, sep)
    ensures sep in Join(a, sep) <==> |a| > 1
    ensures Join(a, sep) == "" <==> a == []
  {
    if |a| == 1 { assert a[0] in a; }
    if |a| > 1 { assert a[0] in a && Join(a, sep)[|a[0]|] == sep; }
  }

  lemma {:induction false} JoinInjective(a: seq<string>, b: seq<string>, sep: char)
    requires forall s | s in a :: Clean(s, sep)
    requires forall s | s in b :: Clean(s, sep)
    requires Join(a, sep) == Join(b, sep)
    ensures a == b
    decreases |a|
  {
    JoinSeparated(a, sep);
    JoinSeparated(b, sep);
    if |a| > 1 {
      assert a[0] in a && b[0] in b;
      FirstSeparator(a[0], b[0], Join(a[1..], sep), Join(b[1..], sep), sep);
      JoinInjective(a[1..], b[1..], sep);
      assert a == [a[0]] + a[1..] && b == [b[0]] + b[1..];
    }
  }

  /** A path whose segments the key can tell apart. */
  predicate CleanPath(p: Path) {
    p != [] && forall s | s in p :: Clean(s, '.') && ',' !in s
  }

  lemma {:induction false} CleanPathJoin(p: Path)
    requires CleanPath(p)
    ensures Clean(Join(p, '.'), ',')
    decreases |p|
  {
    assert p[0] in p;
    if |p| > 1 {
      assert forall s | s in p[1..] :: s in p;
      CleanPathJoin(p[1..]);
    }
  }

  lemma {:induction false} PathKeysInjective(p: seq<Path>, q: seq<Path>, i: nat)
    requires i < |p| == |q| && CleanPath(p[i]) && CleanPath(q[i])
    requires Join(p[i], '.') == Join(q[i], '.')
    ensures p[i] == q[i]
  {
    JoinInjective(p[i], q[i], '.');
  }

  /** Two lists of clean paths share a key only if they are the same list. */
  lemma FieldsKeyInjective(p: seq<Path>, q: seq<Path>)
    requires forall x | x in p :: CleanPath(x)
    requires forall x | x in q :: CleanPath(x)
    ensures FieldsKey(p) == FieldsKey(q) <==> p == q
  {
    if FieldsKey(p) == FieldsKey(q) {
      var a := seq(|p|, i requires 0 <= i < |p| => Join(p[i], '.'));
      var b := seq(|q|, i requires 0 <= i < |q| => Join(q[i], '.'));
      forall s | s in a ensures Clean(s, ',') {
        var i :| 0 <= i < |p| && a[i] == s;
        CleanPathJoin(p[i]);
      }
      forall s | s in b ensures Clean(s, ',') {
        var i :| 0 <= i < |q| && b[i] == s;
        CleanPathJoin(q[i]);
      }
      JoinInjective(a, b, ',');
      forall i | 0 <= i < |p| ensures p[i] == q[i] {
        assert a[i] == b[i];
        PathKeysInjective(p, q, i);
      }
    }
  }

  /** Without clean segments the key does not tell paths apart: a dot or a comma in a
      segment reads like the separators. */
  lemma FieldsKeyCollides()
    ensures FieldsKey([["a.b"]]) == FieldsKey([["a", "b"]])
    ensures FieldsKey([["data", "k"], ["data", "l"]]) == FieldsKey([["data", "k,data.l"]])
  {
    JoinTwo("a", "b", '.');
    JoinTwo("data", "k", '.');
    JoinTwo("data", "l", '.');
    JoinTwo("data", "k,data.l", '.');
    JoinTwo("data.k", "data.l", ',');
    KeyOfLists([["a.b"]], ["a.b"]);
    KeyOfLists([["a", "b"]], ["a.b"]);
    KeyOfLists([["data", "k"], ["data", "l"]], ["data.k", "data.l"]);
    KeyOfLists([["data", "k,data.l"]], ["data.k,data.l"]);
  }

  lemma JoinTwo(a: string, b: string, sep: char)
    ensures Join([a, b], sep) == a + [sep] + b
  {
    assert [a, b][1..] == [b];
  }

  lemma KeyOfLists(paths: seq<Path>, parts: seq<string>)
    requires |parts| == |paths| && forall i | 0 <= i < |parts| :: parts[i] == Join(paths[i], '.')
    ensures FieldsKey(paths) == Join(parts, ',')
  {
    assert seq(|paths|, i requires 0 <= i < |paths| => Join(paths[i], '.')) == parts;
  }

  // ------------------------------------------------------------------ whole keys

  predicate BarFree(ref: Ref) {
    '|' !in ref.apiVersion + ref.kind + ref.namespace + ref.name + ref.resource
  }

  lemma RefKeyInjective(r: Ref, r': Ref, rest: string, rest': string)
    requires BarFree(r) && BarFree(r') && RefKey(r, rest) == RefKey(r', rest')
    ensures r.apiVersion == r'.apiVersion && r.kind == r'.kind && r.namespace == r'.namespace && r.name == r'.name
    ensures r.resource + rest == r'.resource + rest'
  {
    var s1, s1' := r.name + "|" + (r.resource + rest), r'.name + "|" + (r'.resource + rest');
    var s2, s2' := r.namespace + "|" + s1, r'.namespace + "|" + s1';
    var s3, s3' := r.kind + "|" + s2, r'.kind + "|" + s2';
    FirstSeparator(r.apiVersion, r'.apiVersion, s3, s3', '|');
    FirstSeparator(r.kind, r'.kind, s2, s2', '|');
    FirstSeparator(r.namespace, r'.namespace, s1, s1', '|');
    FirstSeparator(r.name, r'.name, r.resource + rest, r'.resource + rest', '|');
  }

  lemma ObjectKeyInjective(r: Ref, r': Ref)
    requires BarFree(r) && BarFree(r') && ObjectKey(r) == ObjectKey(r')
    ensures r == r'
  {
    assert ObjectKey(r)[4..] == RefKey(r, "") && ObjectKey(r')[4..] == RefKey(r', "");
    RefKeyInjective(r, r', "", "");
    assert r.resource + "" == r.resource && r'.resource + "" == r'.resource;
  }

  lemma FieldKeyParts(r: Ref, r': Ref, p: seq<Path>, p': seq<Path>)
    requires BarFree(r) && BarFree(r') && FieldKey(r, p) == FieldKey(r', p')
    ensures r == r' && FieldsKey(p) == FieldsKey(p')
  {
    var s, s' := FieldsKey(p), FieldsKey(p');
    assert FieldKey(r, p)[4..] == RefKey(r, "|" + s) && FieldKey(r', p')[4..] == RefKey(r', "|" + s');
    RefKeyInjective(r, r', "|" + s, "|" + s');
    assert r.resource + "|" + s == r.resource + ("|" + s);
    assert r'.resource + "|" + s' == r'.resource + ("|" + s');
    FirstSeparator(r.resource, r'.resource, s, s', '|');
  }

  lemma FieldKeyInjective(r: Ref, r': Ref, p: seq<Path>, p': seq<Path>)
    requires BarFree(r) && BarFree(r') && FieldKey(r, p) == FieldKey(r', p')
    requires forall x | x in p :: CleanPath(x)
    requires forall x | x in p' :: CleanPath(x)
    ensures r == r' && p == p'
  {
    FieldKeyParts(r, r', p, p');
    FieldsKeyInjective(p, p');
  }

  /** The key of one data key of a ConfigMap tells it apart from every other. */
  lemma ConfigMapKeyInjective(k: string, k': string)
    ensures FieldsKey([["data", k]]) == FieldsKey([["data", k']]) <==> k == k'
  {
    JoinTwo("data", k, '.');
    JoinTwo("data", k', '.');
    KeyOfLists([["data", k]], [Join(["data", k], '.')]);
    KeyOfLists([["data", k']], [Join(["data", k'], '.')]);
    var l, r := "data" + ['.'] + k, "data" + ['.'] + k';
    assert l[5..] == k && r[5..] == k';
  }

  lemma ScopesNeverCollide(r: Ref, r': Ref, p: seq<Path>)
    ensures ObjectKey(r) != FieldKey(r', p)
  {
    assert ObjectKey(r)[0] == 'o' && FieldKey(r', p)[0] == 'f';
  }
}
