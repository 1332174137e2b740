// setAtPath of frontend/src/components/SnapshotEditor.tsx: every edit of a snapshot is a copy with one place changed.
module JsonPath {
  import opened Wrappers

  datatype Json = Scalar(text: string) | Object(fields: map<string, Json>) | Array(items: seq<Json>)

  datatype Key = Name(name: string) | Index(index: nat)

  type Path = seq<Key>

  function Child(root: Json, key: Key): Option<Json> {
    if root.Object? && key.Name? && key.name in root.fields then Some(root.fields[key.name])
    else if root.Array? && key.Index? && key.index < |root.items| then Some(root.items[key.index])
    else None
  }

  function GetAtPath(root: Json, path: Path): Option<Json> {
    if path == [] then Some(root)
    else if Child(root, path[0]).None? then None
    else GetAtPath(Child(root, path[0]).value, path[1..])
  }

  // A key under which the root can hold a value: any name of an object, an existing index of an array.
  predicate Fits(root: Json, key: Key) {
    (root.Object? && key.Name?) || (root.Array? && key.Index? && key.index < |root.items|)
  }

  // The paths the editor builds: they descend through what is there, and end in a field or an item.
  predicate CanSet(root: Json, path: Path) {
    && path != [] && Fits(root, path[0])
    && (|path| > 1 ==> Child(root, path[0]).Some? && CanSet(Child(root, path[0]).value, path[1..]))
  }

  // A shallow copy of the root with one entry replaced.
  function WithChild(root: Json, key: Key, value: Json): (r: Json)
    requires Fits(root, key)
    ensures Child(r, key) == Some(value)
    ensures forall other :: other != key ==> Child(r, other) == Child(root, other)
    ensures forall other :: Fits(r, other) <==> Fits(root, other)
  {
    if root.Object? then Object(root.fields[key.name := value]) else Array(root.items[key.index := value])
  }

  function SetAtPath(root: Json, path: Path, value: Json): Json
    requires CanSet(root, path)
  {
    if |path| == 1 then WithChild(root, path[0], value)
    else WithChild(root, path[0], SetAtPath(Child(root, path[0]).value, path[1..], value))
  }

  // Neither path runs through the place of the other.
  predicate Diverge(p: Path, q: Path) {
    p != [] && q != [] && (p[0] != q[0] || Diverge(p[1..], q[1..]))
  }

  /** What was set is what is read. */
  lemma {:induction false} SetThenGet(root: Json, path: Path, value: Json)
    requires CanSet(root, path)
    ensures GetAtPath(SetAtPath(root, path, value), path) == Some(value)
  {
    if |path| > 1 {
      SetThenGet(Child(root, path[0]).value, path[1..], value);
    }
  }

  lemma SameChild(root: Json, key: Key)
    requires Child(root, key).Some?
    ensures WithChild(root, key, Child(root, key).value) == root
  {
  }

  /** Setting what is there already changes nothing. */
  lemma {:induction false} GetThenSet(root: Json, path: Path, value: Json)
    requires CanSet(root, path) && GetAtPath(root, path) == Some(value)
    ensures SetAtPath(root, path, value) == root
  {
    if |path| > 1 {
      GetThenSet(Child(root, path[0]).value, path[1..], value);
    }
    SameChild(root, path[0]);
  }

  lemma ChildTwice(root: Json, key: Key, v: Json, w: Json)
    requires Fits(root, key)
    ensures WithChild(WithChild(root, key, v), key, w) == WithChild(root, key, w)
  {
  }

  /** The last of two edits of one place wins. */
  lemma {:induction false} SetTwice(root: Json, path: Path, v: Json, w: Json)
    requires CanSet(root, path)
    ensures CanSet(SetAtPath(root, path, v), path)
    ensures SetAtPath(SetAtPath(root, path, v), path, w) == SetAtPath(root, path, w)
  {
    var key := path[0];
    if |path| == 1 {
      ChildTwice(root, key, v, w);
    } else {
      var child := Child(root, key).value;
      SetTwice(child, path[1..], v, w);
      ChildTwice(root, key, SetAtPath(child, path[1..], v), SetAtPath(child, path[1..], w));
    }
  }

  /** An edit changes nothing outside its own place. */
  lemma {:induction false} SetElsewhere(root: Json, path: Path, other: Path, value: Json)
    requires CanSet(root, path) && Diverge(path, other)
    ensures GetAtPath(SetAtPath(root, path, value), other) == GetAtPath(root, other)
  {
    if path[0] == other[0] {
      SetElsewhere(Child(root, path[0]).value, path[1..], other[1..], value);
    }
  }

  lemma ChildrenCommute(root: Json, a: Key, b: Key, v: Json, w: Json)
    requires Fits(root, a) && Fits(root, b) && a != b
    ensures WithChild(WithChild(root, a, v), b, w) == WithChild(WithChild(root, b, w), a, v)
  {
    if root.Object? {
      assert root.fields[a.name := v][b.name := w] == root.fields[b.name := w][a.name := v];
    } else {
      assert root.items[a.index := v][b.index := w] == root.items[b.index := w][a.index := v];
    }
  }

  /** Edits of places that diverge can be made in either order. */
  lemma {:induction false} SetsCommute(root: Json, p: Path, q: Path, v: Json, w: Json)
    requires CanSet(root, p) && CanSet(root, q) && Diverge(p, q)
    ensures CanSet(SetAtPath(root, p, v), q) && CanSet(SetAtPath(root, q, w), p)
    ensures SetAtPath(SetAtPath(root, p, v), q, w) == SetAtPath(SetAtPath(root, q, w), p, v)
  {
    if p[0] != q[0] {
      ChildrenCommute(root, p[0], q[0], Child(SetAtPath(root, p, v), p[0]).value, Child(SetAtPath(root, q, w), q[0]).value);
    } else {
      var child := Child(root, p[0]).value;
      SetsCommute(child, p[1..], q[1..], v, w);
      var x, y := SetAtPath(child, p[1..], v), SetAtPath(child, q[1..], w);
      ChildTwice(root, p[0], x, SetAtPath(x, q[1..], w));
      ChildTwice(root, p[0], y, SetAtPath(y, p[1..], v));
    }
  }
}
