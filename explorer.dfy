/** The console's explorer: the tree of buttons it renders for the RESTCONF
    root, each carrying the path it selects, and the state of loading the
    root. */
module Explorer {
  import opened Text
  import opened Json
  import opened Fetch
  import Editor

  /** What `renderNode` returns: `null`, or a list with one entry per key. */
  datatype Rendered = Nothing | List(entries: seq<Entry>)

  /** One `<li>`: the key on its button, the path the button selects, and,
      when the value under the key has type "object", what `renderNode`
      renders for that value inside the nested `<div>`. */
  datatype Entry = Entry(key: string, path: string, nested: Option<Rendered>)

  /** `Object.keys(v)` for the values `renderNode` walks: an object's member
      names in order, an array's indices "0", "1", … */
  function Keys(v: Value): (keys: seq<string>)
    ensures v.Arr? ==> |keys| == |v.elems| && forall i :: 0 <= i < |keys| ==> keys[i] == NatToString(i)
    ensures v.Obj? ==> |keys| == |v.members| && forall i :: 0 <= i < |keys| ==> keys[i] == v.members[i].0
    ensures !v.Arr? && !v.Obj? ==> keys == []
  {
    match v
    case Arr(es) => seq(|es|, i requires 0 <= i < |es| => NatToString(i))
    case Obj(ms) => seq(|ms|, i requires 0 <= i < |ms| => ms[i].0)
    case _ => []
  }

  /** `renderNode(v, path)`: nothing for null and for values that are not
      objects; for an object or an array, one entry per key in key order. */
  function RenderNode(v: Value, path: string): (r: Rendered)
    ensures r.List? <==> v.Arr? || v.Obj?
    ensures r.List? ==> |r.entries| == |Keys(v)| && forall i :: 0 <= i < |r.entries| ==>
      r.entries[i].key == Keys(v)[i] && r.entries[i].path == path + "/" + Keys(v)[i]
    decreases v, 0
  {
    if !Truthy(v) || !IsObjectType(v) then Nothing
    else match v
      case Arr(es) => List(seq(|es|, i requires 0 <= i < |es| => RenderEntry(NatToString(i), es[i], path)))
      case Obj(ms) => List(seq(|ms|, i requires 0 <= i < |ms| => RenderEntry(ms[i].0, ms[i].1, path)))
  }

  /** The entry for `key`, whose value is `child`, under `path`. */
  function RenderEntry(key: string, child: Value, path: string): (e: Entry)
    ensures e.key == key && e.path == path + "/" + key
    ensures e.nested.Some? <==> IsObjectType(child)
    decreases child, 1
  {
    var newPath := path + "/" + key;
    Entry(key, newPath, if IsObjectType(child) then Some(RenderNode(child, newPath)) else None)
  }

  /** The guard on the object type alone decides: `!obj` only adds null,
      which has type "object" but renders nothing. */
  lemma RenderNodeIsList(v: Value, path: string)
    ensures RenderNode(v, path).List? <==> v.Arr? || v.Obj?
  {
  }

  /** One entry per key of `Object.keys`, in order, keyed and pathed by it. */
  lemma EntryPerKey(v: Value, path: string)
    requires v.Arr? || v.Obj?
    ensures |RenderNode(v, path).entries| == |Keys(v)|
    ensures forall i :: 0 <= i < |Keys(v)| ==>
      RenderNode(v, path).entries[i].key == Keys(v)[i]
      && RenderNode(v, path).entries[i].path == path + "/" + Keys(v)[i]
  {
  }

  /** The value under the `i`-th key, `obj[key]`. */
  function Child(v: Value, i: nat): Value
    requires v.Arr? || v.Obj?
    requires i < |Keys(v)|
  {
    if v.Arr? then v.elems[i] else v.members[i].1
  }

  /** Only values of type "object" get a nested part; a null value gets
      one with nothing in it, a scalar none at all. */
  lemma NestedOnlyForObjects(v: Value, path: string, i: nat)
    requires v.Arr? || v.Obj?
    requires i < |Keys(v)|
    ensures RenderNode(v, path).entries[i].nested.Some? <==> IsObjectType(Child(v, i))
    ensures Child(v, i).Null? ==> RenderNode(v, path).entries[i].nested == Some(Nothing)
  {
  }

  /** Every entry's path is its parent's path, a slash and its key, all the
      way down. */
  ghost predicate PathsExtend(r: Rendered, parent: string)
    decreases r
  {
    r.List? ==>
      forall i :: 0 <= i < |r.entries| ==>
        r.entries[i].path == parent + "/" + r.entries[i].key
        && (r.entries[i].nested.Some? ==> PathsExtend(r.entries[i].nested.value, r.entries[i].path))
  }

  lemma {:induction false} RenderNodePathsExtend(v: Value, path: string)
    ensures PathsExtend(RenderNode(v, path), path)
    decreases v, 0
  {
    var r := RenderNode(v, path);
    if r.List? {
      forall i | 0 <= i < |r.entries|
        ensures r.entries[i].nested.Some? ==> PathsExtend(r.entries[i].nested.value, r.entries[i].path)
      {
        var key := Keys(v)[i];
        var child := Child(v, i);
        assert r.entries[i] == RenderEntry(key, child, path);
        RenderEntryPathsExtend(key, child, path);
      }
    }
  }

  lemma {:induction false} RenderEntryPathsExtend(key: string, child: Value, path: string)
    ensures var e := RenderEntry(key, child, path);
      e.nested.Some? ==> PathsExtend(e.nested.value, e.path)
    decreases child, 1
  {
    if IsObjectType(child) {
      RenderNodePathsExtend(child, path + "/" + key);
    }
  }

  /** Every path below `parent` starts with `parent` and a slash. */
  ghost predicate PathsUnder(r: Rendered, parent: string)
    decreases r
  {
    r.List? ==>
      forall i :: 0 <= i < |r.entries| ==>
        HasPrefix(r.entries[i].path, parent + "/")
        && (r.entries[i].nested.Some? ==> PathsUnder(r.entries[i].nested.value, parent))
  }

  lemma {:induction false} PathsExtendUnder(r: Rendered, parent: string)
    requires PathsExtend(r, parent)
    ensures PathsUnder(r, parent)
    decreases r
  {
    if r.List? {
      forall i | 0 <= i < |r.entries|
        ensures HasPrefix(r.entries[i].path, parent + "/")
        ensures r.entries[i].nested.Some? ==> PathsUnder(r.entries[i].nested.value, parent)
      {
        var e := r.entries[i];
        assert (parent + "/" + e.key)[..|parent + "/"|] == parent + "/";
        if e.nested.Some? {
          PathsExtendUnder(e.nested.value, e.path);
          PathsUnderWiden(e.nested.value, e.path, parent);
        }
      }
    }
  }

  /** A path under `parent + "/" + key` is under `parent` too. */
  lemma {:induction false} PathsUnderWiden(r: Rendered, path: string, parent: string)
    requires PathsUnder(r, path) && HasPrefix(path, parent + "/")
    ensures PathsUnder(r, parent)
    decreases r
  {
    if r.List? {
      forall i | 0 <= i < |r.entries|
        ensures HasPrefix(r.entries[i].path, parent + "/")
        ensures r.entries[i].nested.Some? ==> PathsUnder(r.entries[i].nested.value, parent)
      {
        var p := r.entries[i].path;
        assert p[..|parent + "/"|] == p[..|path + "/"|][..|parent + "/"|];
        if r.entries[i].nested.Some? {
          PathsUnderWiden(r.entries[i].nested.value, path, parent);
        }
      }
    }
  }

  /** From the root "", every path the explorer renders starts with "/". */
  lemma RootPathsStartWithSlash(v: Value)
    ensures PathsUnder(RenderNode(v, ""), "")
  {
    RenderNodePathsExtend(v, "");
    PathsExtendUnder(RenderNode(v, ""), "");
  }

  /** No member name anywhere in `v` contains a slash. */
  ghost predicate SlashFreeKeys(v: Value)
    decreases v
  {
    match v
    case Arr(es) => forall i :: 0 <= i < |es| ==> SlashFreeKeys(es[i])
    case Obj(ms) => forall i :: 0 <= i < |ms| ==> '/' !in ms[i].0 && SlashFreeKeys(ms[i].1)
    case _ => true
  }

  /** Every path `depth` levels below the root has `depth` slashes, the
      entries of `r` being at level `depth`. */
  ghost predicate SlashesCountDepth(r: Rendered, depth: nat)
    decreases r
  {
    r.List? ==>
      forall i :: 0 <= i < |r.entries| ==>
        Count(r.entries[i].path, '/') == depth
        && (r.entries[i].nested.Some? ==> SlashesCountDepth(r.entries[i].nested.value, depth + 1))
  }

  /** When no key holds a slash, the number of slashes of a path is its
      nesting depth: the entries rendered below a path with `d` slashes
      have `d + 1`. Keys are inserted unescaped, so the condition is needed
      (see KeyWithSlashCollides). */
  lemma {:induction false} SlashDepth(v: Value, path: string)
    requires SlashFreeKeys(v)
    ensures SlashesCountDepth(RenderNode(v, path), Count(path, '/') + 1)
    decreases v, 0
  {
    var r := RenderNode(v, path);
    if r.List? {
      forall i | 0 <= i < |r.entries|
        ensures Count(r.entries[i].path, '/') == Count(path, '/') + 1
        ensures r.entries[i].nested.Some? ==>
          SlashesCountDepth(r.entries[i].nested.value, Count(path, '/') + 2)
      {
        var key := Keys(v)[i];
        var child := Child(v, i);
        assert r.entries[i] == RenderEntry(key, child, path);
        assert '/' !in key && SlashFreeKeys(child) by {
          if v.Arr? {
            NatToStringHasNoSlash(i);
          }
        }
        SlashDepthEntry(key, child, path);
      }
    }
  }

  lemma {:induction false} SlashDepthEntry(key: string, child: Value, path: string)
    requires '/' !in key && SlashFreeKeys(child)
    ensures Count(RenderEntry(key, child, path).path, '/') == Count(path, '/') + 1
    ensures var e := RenderEntry(key, child, path);
      e.nested.Some? ==> SlashesCountDepth(e.nested.value, Count(path, '/') + 2)
    decreases child, 1
  {
    var p := path + "/" + key;
    CountConcat(path + "/", key, '/');
    CountConcat(path, "/", '/');
    CountAbsent(key, '/');
    assert Count("/", '/') == 1;
    if IsObjectType(child) {
      SlashDepth(child, p);
    }
  }

  lemma NatToStringHasNoSlash(n: nat)
    ensures '/' !in NatToString(n)
  {
  }

  /** The members of an object are named differently, as in every object
      `JSON.parse` builds. */
  predicate DistinctKeys(ms: seq<(string, Value)>) {
    forall i, j :: 0 <= i < j < |ms| ==> ms[i].0 != ms[j].0
  }

  /** Siblings get different paths: array indices differ, and so do the
      names of an object's members. */
  lemma SiblingPathsDistinct(v: Value, path: string, i: nat, j: nat)
    requires v.Arr? || (v.Obj? && DistinctKeys(v.members))
    requires i < j < |Keys(v)|
    ensures RenderNode(v, path).entries[i].path != RenderNode(v, path).entries[j].path
  {
    EntryPerKey(v, path);
    var pi, pj := RenderNode(v, path).entries[i].path, RenderNode(v, path).entries[j].path;
    var pre := path + "/";
    assert pi == pre + Keys(v)[i] && pj == pre + Keys(v)[j];
    if pi == pj {
      assert pi[|pre|..] == Keys(v)[i];
      assert pj[|pre|..] == Keys(v)[j];
      if v.Arr? {
        NatToStringInjective(i, j);
      }
    }
  }

  /** The entry reached by following `route`: the `route[0]`-th entry,
      then the `route[1]`-th entry nested in it, and so on. */
  function EntryAt(r: Rendered, route: seq<nat>): Option<Entry>
    decreases |route|
  {
    if route == [] || !r.List? || route[0] >= |r.entries| then None
    else if |route| == 1 then Some(r.entries[route[0]])
    else match r.entries[route[0]].nested
      case None => None
      case Some(below) => EntryAt(below, route[1..])
  }

  /** The first step of EntryAt into a rendered object or array. */
  lemma EntryAtStep(v: Value, path: string, i: nat, route: seq<nat>)
    requires v.Arr? || v.Obj?
    requires i < |Keys(v)|
    ensures EntryAt(RenderNode(v, path), [i]) == Some(RenderEntry(Keys(v)[i], Child(v, i), path))
    ensures IsObjectType(Child(v, i)) && route != [] ==>
      EntryAt(RenderNode(v, path), [i] + route)
      == EntryAt(RenderNode(Child(v, i), path + "/" + Keys(v)[i]), route)
  {
    assert ([i] + route)[1..] == route;
  }

  /** Keys are not escaped: a member named "a/b" at the root and the member
      "b" of a member "a" are both reached by the path "/a/b". */
  lemma KeyWithSlashCollides(v: Value, a: Value)
    requires a == Obj([("b", Num(2.0))])
    requires v == Obj([("a/b", Num(1.0)), ("a", a)])
    ensures EntryAt(RenderNode(v, ""), [0]) == Some(Entry("a/b", "/a/b", None))
    ensures EntryAt(RenderNode(v, ""), [1, 0]) == Some(Entry("b", "/a/b", None))
  {
    EntryAtStep(v, "", 0, []);
    assert Keys(v)[0] == "a/b" && Child(v, 0) == Num(1.0);
    assert RenderEntry("a/b", Num(1.0), "") == Entry("a/b", "/a/b", None);
    EntryAtStep(v, "", 1, [0]);
    assert Keys(v)[1] == "a" && Child(v, 1) == a;
    EntryAtStep(a, "/a", 0, []);
    assert Keys(a)[0] == "b" && Child(a, 0) == Num(2.0);
    assert RenderEntry("b", Num(2.0), "/a") == Entry("b", "/a/b", None);
    assert "" + "/" + "a" == "/a";
    assert [1] + [0] == [1, 0];
  }

  /** A leaf in the first element of a list inside a container, as in
      `{"ietf-interfaces:interfaces": {"interface": [{"name": "eth0"}]}}`:
      the array index becomes a path segment of its own, here
      "/ietf-interfaces:interfaces/interface/0/name". */
  lemma ListLeafPath(container: string, list: string, leaf: string, value: Value,
                     v: Value, inner: Value, elems: Value, first: Value)
    requires !IsObjectType(value)
    requires first == Obj([(leaf, value)])
    requires elems == Arr([first])
    requires inner == Obj([(list, elems)])
    requires v == Obj([(container, inner)])
    ensures EntryAt(RenderNode(v, ""), [0, 0, 0, 0])
      == Some(Entry(leaf, "/" + container + "/" + list + "/0/" + leaf, None))
  {
    var p1 := "" + "/" + container;
    var p2 := p1 + "/" + list;
    var p3 := p2 + "/" + "0";
    assert p3 + "/" + leaf == "/" + container + "/" + list + "/0/" + leaf;
    assert NatToString(0) == "0";
    EntryAtStep(first, p3, 0, []);
    assert Keys(first)[0] == leaf && Child(first, 0) == value;
    EntryAtStep(elems, p2, 0, [0]);
    assert Keys(elems)[0] == "0" && Child(elems, 0) == first;
    EntryAtStep(inner, p1, 0, [0, 0]);
    assert Keys(inner)[0] == list && Child(inner, 0) == elems;
    EntryAtStep(v, "", 0, [0, 0, 0]);
    assert Keys(v)[0] == container && Child(v, 0) == inner;
    assert [0] + [0] == [0, 0] && [0] + [0, 0] == [0, 0, 0] && [0] + [0, 0, 0] == [0, 0, 0, 0];
  }

  /** The state of the explorer: the loaded tree (`null` until a load
      succeeds), whether a load is in flight, and the error line. */
  class ExplorerState {
    var tree: Value
    var loading: bool
    var error: string

    constructor ()
      ensures tree == Null && !loading && error == ""
    {
      tree := Null;
      loading := false;
      error := "";
    }

    /** What the explorer shows below its heading: the tree when it is
        truthy, nothing otherwise. */
    function View(): (r: Rendered)
      reads this
      ensures r.List? <==> tree.Arr? || tree.Obj?
      ensures r.List? ==> r == RenderNode(tree, "") && PathsUnder(r, "")
    {
      RootPathsStartWithSlash(tree);
      if Truthy(tree) then RenderNode(tree, "") else Nothing
    }

    /** The start of `loadRoot`, up to the `await` on the fetch of the data
        root: loading is on and the error line is cleared. */
    method BeginLoadRoot() returns (url: string)
      modifies this
      ensures loading && error == "" && tree == old(tree)
      ensures url == Editor.RestconfData
    {
      loading := true;
      error := "";
      url := Editor.RestconfData;
    }

    /** The rest of `loadRoot` once the fetch has settled: the tree is
        replaced on success, the error line is set on failure, and loading
        is off in either case. */
    method FinishLoadRoot(outcome: Outcome)
      modifies this
      ensures !loading
      ensures JsonOf(outcome).Success? ==> tree == JsonOf(outcome).value && error == old(error)
      ensures JsonOf(outcome).Failure? ==>
        tree == old(tree) && error == LoadRootFailed(JsonOf(outcome).message)
    {
      var json := JsonOf(outcome);
      match json {
        case Success(v) =>
          tree := v;
        case Failure(m) =>
          error := LoadRootFailed(m);
      }
      loading := false;
    }

    /** `loadRoot` as a whole. */
    method LoadRoot(outcome: Outcome) returns (url: string)
      modifies this
      ensures url == Editor.RestconfData && !loading
      ensures JsonOf(outcome).Success? ==> tree == JsonOf(outcome).value && error == ""
      ensures JsonOf(outcome).Failure? ==>
        tree == old(tree) && error == LoadRootFailed(JsonOf(outcome).message)
    {
      url := BeginLoadRoot();
      FinishLoadRoot(outcome);
    }
  }

  /** The error line after a failed load of the root. */
  function LoadRootFailed(message: string): string {
    "Failed to load RESTCONF root: " + message
  }
}
