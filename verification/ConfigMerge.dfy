/** Merging configuration files into one nested dictionary. */
module ConfigMerge {
  import opened Wrappers

  datatype Node = Scalar(text: string) | List(items: seq<Node>) | Dict(entries: Entries)

  type Entries = map<string, Node>

  /** What a value of the source becomes where the destination has `prev`. */
  function MergeNode(prev: Option<Node>, value: Node): Result<Node>
    decreases value, 1
  {
    match value
    case Scalar(_) => Ok(value)
    case List(items) =>
      if prev.None? then Ok(value)
      else if prev.value.List? then Ok(List(prev.value.items + items))
      else Err
    case Dict(entries) =>
      if prev.Some? && !prev.value.Dict? then (if entries == map[] then Ok(prev.value) else Err)
      else
        match MergeEntries(if prev.None? then map[] else prev.value.entries, value)
        case Err => Err
        case Ok(m) => Ok(Dict(m))
  }

  function Find(m: Entries, key: string): Option<Node> {
    if key in m then Some(m[key]) else None
  }

  /** `mergeConfigs` with the entries of `source` going into `destination`. */
  function MergeEntries(destination: Entries, source: Node): Result<Entries>
    requires source.Dict?
    decreases source, 0
  {
    if exists k :: k in source.entries && MergeNode(Find(destination, k), source.entries[k]).Err? then Err
    else
      Ok(map k | k in destination.Keys + source.entries.Keys ::
           if k in source.entries then MergeNode(Find(destination, k), source.entries[k]).value else destination[k])
  }

  /** All keys but `todo` have been merged into what was `destination`. */
  ghost predicate MergedBut(destination: Entries, source: Entries, todo: set<string>, merged: Entries) {
    && todo <= source.Keys
    && (forall k :: k in source.Keys - todo ==> MergeNode(Find(destination, k), source[k]).Ok?)
    && merged.Keys == destination.Keys + (source.Keys - todo)
    && forall k :: k in merged ==>
         merged[k] == if k in source.Keys - todo then MergeNode(Find(destination, k), source[k]).value
           else destination[k]
  }

  lemma MergedOneMore(destination: Entries, source: Entries, todo: set<string>, merged: Entries, key: string,
                      value: Node)
    requires MergedBut(destination, source, todo, merged) && key in todo
    requires MergeNode(Find(destination, key), source[key]) == Ok(value)
    ensures MergedBut(destination, source, todo - {key}, merged[key := value])
  {
  }

  lemma MergedAll(destination: Entries, source: Entries, merged: Entries)
    requires MergedBut(destination, source, {}, merged)
    ensures MergeEntries(destination, Dict(source)) == Ok(merged)
  {
    assert merged == MergeEntries(destination, Dict(source)).value;
  }

  /** The loop over the entries of the source; `merged` is the destination being filled. */
  method MergeConfigs(source: Entries, destination: Entries) returns (r: Result<Entries>)
    ensures r == MergeEntries(destination, Dict(source))
    decreases Dict(source)
  {
    var merged := destination;
    var todo := source.Keys;
    while todo != {}
      invariant MergedBut(destination, source, todo, merged)
      decreases todo
    {
      var key :| key in todo;
      var value := source[key];
      assert value < Dict(source);
      var prev := Find(merged, key);
      assert prev == Find(destination, key);
      var node: Node;
      match value {
        case Scalar(_) =>
          node := value;
        case List(items) =>
          node := if prev.Some? then prev.value else List([]);
          if !node.List? { return Err; }
          assert [] + items == items;
          node := List(node.items + items);
        case Dict(entries) =>
          node := if prev.Some? then prev.value else Dict(map[]);
          if node.Dict? {
            var inner := MergeConfigs(entries, node.entries);
            if inner.Err? { return Err; }
            node := Dict(inner.value);
          } else if entries != map[] {
            return Err;
          }
      }
      MergedOneMore(destination, source, todo, merged, key, node);
      merged := merged[key := node];
      todo := todo - {key};
    }
    r := Ok(merged);
    MergedAll(destination, source, merged);
  }

  // ---------------------------------------------------------------------------
  // Agreeing configurations
  // ---------------------------------------------------------------------------

  /** The kinds of value agree at every path that both have. */
  ghost predicate Agree(a: Node, b: Node)
    decreases a
  {
    match (a, b)
    case (Scalar(_), Scalar(_)) => true
    case (List(_), List(_)) => true
    case (Dict(m), Dict(n)) => forall k :: k in m && k in n ==> Agree(m[k], n[k])
    case _ => false
  }

  /** What two values at the same path come to; the second is from the later file. */
  function Combined(x: Option<Node>, y: Option<Node>): Option<Node> {
    if y.None? then x
    else if x.None? then y
    else match MergeNode(x, y.value) case Ok(v) => Some(v) case Err => None
  }

  /** Merging into nothing copies. */
  lemma {:induction false} CopyIsSame(v: Node)
    ensures MergeNode(None, v) == Ok(v)
    ensures v.Dict? ==> MergeEntries(map[], v) == Ok(v.entries)
    decreases v
  {
    if v.Dict? {
      forall k | k in v.entries ensures MergeNode(Find(map[], k), v.entries[k]) == Ok(v.entries[k]) {
        CopyIsSame(v.entries[k]);
      }
      assert MergeEntries(map[], v).value == v.entries;
    }
  }

  /** Agreeing values merge without error; dictionaries merge key by key. */
  lemma {:induction false} MergeAgreeing(a: Node, b: Node)
    requires Agree(a, b)
    ensures MergeNode(Some(a), b).Ok?
    ensures a.Dict? ==> MergeNode(Some(a), b).value.Dict?
    ensures a.Dict? ==> forall k ::
              Find(MergeNode(Some(a), b).value.entries, k) == Combined(Find(a.entries, k), Find(b.entries, k))
    decreases a
  {
    if a.Dict? {
      forall k | k in b.entries ensures MergeNode(Find(a.entries, k), b.entries[k]).Ok? {
        if k in a.entries { MergeAgreeing(a.entries[k], b.entries[k]); } else { CopyIsSame(b.entries[k]); }
      }
      var m := MergeEntries(a.entries, b).value;
      forall k ensures Find(m, k) == Combined(Find(a.entries, k), Find(b.entries, k)) {
        if k in b.entries && k !in a.entries { CopyIsSame(b.entries[k]); }
      }
    }
  }

  function Merged(a: Node, b: Node): Node {
    match MergeNode(Some(a), b) case Ok(v) => v case Err => a
  }

  lemma {:induction false} AgreeWithMerged(a: Node, b: Node, c: Node)
    requires Agree(a, b) && Agree(b, c) && Agree(a, c)
    ensures Agree(Merged(a, b), c) && Agree(a, Merged(b, c))
    decreases a
  {
    MergeAgreeing(a, b);
    MergeAgreeing(b, c);
    if a.Dict? {
      var ab, bc := Merged(a, b), Merged(b, c);
      forall k | k in ab.entries && k in c.entries ensures Agree(ab.entries[k], c.entries[k]) {
        assert Find(ab.entries, k) == Combined(Find(a.entries, k), Find(b.entries, k));
        if k in a.entries && k in b.entries {
          AgreeWithMerged(a.entries[k], b.entries[k], c.entries[k]);
        }
      }
      forall k | k in a.entries && k in bc.entries ensures Agree(a.entries[k], bc.entries[k]) {
        assert Find(bc.entries, k) == Combined(Find(b.entries, k), Find(c.entries, k));
        if k in b.entries && k in c.entries {
          AgreeWithMerged(a.entries[k], b.entries[k], c.entries[k]);
        }
      }
    }
  }

  /** Merging agreeing configurations does not depend on how they are grouped. */
  lemma {:induction false} MergeAssociative(a: Node, b: Node, c: Node)
    requires Agree(a, b) && Agree(b, c) && Agree(a, c)
    ensures Merged(Merged(a, b), c) == Merged(a, Merged(b, c))
    ensures MergeNode(Some(Merged(a, b)), c).Ok? && MergeNode(Some(a), Merged(b, c)).Ok?
    decreases a
  {
    MergeAgreeing(a, b);
    MergeAgreeing(b, c);
    AgreeWithMerged(a, b, c);
    MergeAgreeing(Merged(a, b), c);
    MergeAgreeing(a, Merged(b, c));
    match a
    case Scalar(_) =>
    case List(items) =>
      assert items + b.items + c.items == items + (b.items + c.items);
    case Dict(_) =>
      var l, r := Merged(Merged(a, b), c).entries, Merged(a, Merged(b, c)).entries;
      forall k ensures Find(l, k) == Find(r, k) {
        KeyAssociative(a, b, c, k);
      }
      SameEntries(l, r);
  }

  lemma SameEntries(l: Entries, r: Entries)
    requires forall k :: Find(l, k) == Find(r, k)
    ensures l == r
  {
    forall k ensures k in l <==> k in r { assert Find(l, k) == Find(r, k); }
    forall k | k in l ensures l[k] == r[k] { assert Find(l, k) == Find(r, k); }
  }

  lemma {:induction false} KeyAssociative(a: Node, b: Node, c: Node, k: string)
    requires a.Dict? && Agree(a, b) && Agree(b, c) && Agree(a, c)
    ensures var x, y, z := Find(a.entries, k), Find(b.entries, k), Find(c.entries, k);
            Combined(Combined(x, y), z) == Combined(x, Combined(y, z))
    decreases a, 0
  {
    if k in a.entries && k in b.entries {
      MergeAgreeing(a.entries[k], b.entries[k]);
    }
    if k in b.entries && k in c.entries {
      MergeAgreeing(b.entries[k], c.entries[k]);
    }
    if k in a.entries && k in b.entries && k in c.entries {
      MergeAssociative(a.entries[k], b.entries[k], c.entries[k]);
    }
  }

  // ---------------------------------------------------------------------------
  // What ends up at a path
  // ---------------------------------------------------------------------------

  function At(n: Node, path: seq<string>): Option<Node>
    decreases |path|
  {
    if path == [] then Some(n)
    else if n.Dict? && path[0] in n.entries then At(n.entries[path[0]], path[1..])
    else None
  }

  lemma {:induction false} MergedAt(a: Node, b: Node, path: seq<string>)
    requires Agree(a, b)
    ensures At(Merged(a, b), path) == Combined(At(a, path), At(b, path))
    decreases |path|
  {
    MergeAgreeing(a, b);
    if path != [] && a.Dict? {
      var k := path[0];
      assert Find(Merged(a, b).entries, k) == Combined(Find(a.entries, k), Find(b.entries, k));
      if k in a.entries && k in b.entries {
        MergedAt(a.entries[k], b.entries[k], path[1..]);
        MergeAgreeing(a.entries[k], b.entries[k]);
      }
    }
  }

  /** The configuration after loading the files in order. */
  function Load(files: seq<Node>): Node {
    if files == [] then Dict(map[]) else Merged(Load(files[..|files| - 1]), files[|files| - 1])
  }

  ghost predicate AllAgree(files: seq<Node>) {
    && (forall i :: 0 <= i < |files| ==> files[i].Dict?)
    && (forall i, j :: 0 <= i < j < |files| ==> Agree(files[i], files[j]))
  }

  lemma {:induction false} LoadAgrees(files: seq<Node>, n: nat, f: Node)
    requires n <= |files| && AllAgree(files) && f.Dict?
    requires forall i :: 0 <= i < n ==> Agree(files[i], f)
    ensures Agree(Load(files[..n]), f)
    decreases n
  {
    if n > 0 {
      assert files[..n][..n - 1] == files[..n - 1];
      LoadAgrees(files, n - 1, f);
      LoadAgrees(files, n - 1, files[n - 1]);
      AgreeWithMerged(Load(files[..n - 1]), files[n - 1], f);
    }
  }

  /** The values the files have at a path, combined in load order. */
  function CombinedAt(files: seq<Node>, path: seq<string>): Option<Node> {
    if files == [] then (if path == [] then Some(Dict(map[])) else None)
    else Combined(CombinedAt(files[..|files| - 1], path), At(files[|files| - 1], path))
  }

  lemma AgreePrefix(files: seq<Node>)
    requires AllAgree(files) && files != []
    ensures AllAgree(files[..|files| - 1])
    ensures Agree(Load(files[..|files| - 1]), files[|files| - 1])
  {
    LoadAgrees(files, |files| - 1, files[|files| - 1]);
  }

  /** Every path of every file is kept, and holds what the files have there, combined in load order. */
  lemma {:induction false} LoadedAt(files: seq<Node>, path: seq<string>)
    requires AllAgree(files)
    ensures At(Load(files), path) == CombinedAt(files, path)
  {
    if files != [] {
      AgreePrefix(files);
      LoadedAt(files[..|files| - 1], path);
      MergedAt(Load(files[..|files| - 1]), files[|files| - 1], path);
    }
  }

  function ItemsAt(n: Option<Node>): seq<Node> {
    if n.Some? && n.value.List? then n.value.items else []
  }

  function AllItems(files: seq<Node>, path: seq<string>): seq<Node> {
    if files == [] then [] else AllItems(files[..|files| - 1], path) + ItemsAt(At(files[|files| - 1], path))
  }

  /** Lists are concatenated in load order. */
  lemma {:induction false} ListsConcatenate(files: seq<Node>, path: seq<string>)
    requires AllAgree(files) && path != []
    requires forall i :: 0 <= i < |files| ==> At(files[i], path).None? || At(files[i], path).value.List?
    ensures ItemsAt(At(Load(files), path)) == AllItems(files, path)
    ensures At(Load(files), path).None? || At(Load(files), path).value.List?
  {
    LoadedAt(files, path);
    if files != [] {
      AgreePrefix(files);
      ListsConcatenate(files[..|files| - 1], path);
      LoadedAt(files[..|files| - 1], path);
    }
  }

  /** The last file that sets a scalar decides. */
  lemma {:induction false} LastScalarWins(files: seq<Node>, path: seq<string>, k: nat)
    requires AllAgree(files) && k < |files|
    requires At(files[k], path).Some? && At(files[k], path).value.Scalar?
    requires forall i :: k < i < |files| ==> At(files[i], path).None?
    ensures At(Load(files), path) == At(files[k], path)
    decreases |files|
  {
    LoadedAt(files, path);
    AgreePrefix(files);
    LoadedAt(files[..|files| - 1], path);
    if k < |files| - 1 {
      LastScalarWins(files[..|files| - 1], path, k);
    }
  }

  lemma LoadedGroup(first: seq<Node>, second: seq<Node>, f: Node)
    requires AllAgree(first + second) && f.Dict?
    requires forall i :: 0 <= i < |first + second| ==> Agree((first + second)[i], f)
    ensures AllAgree(first) && AllAgree(second)
    ensures Agree(Load(first), f) && Agree(Load(second), f)
  {
    assert forall i :: 0 <= i < |first| ==> (first + second)[i] == first[i];
    assert forall i :: 0 <= i < |second| ==> (first + second)[|first| + i] == second[i];
    LoadAgrees(first, |first|, f);
    LoadAgrees(second, |second|, f);
    assert first[..|first|] == first && second[..|second|] == second;
  }

  lemma EmptyGroup(first: seq<Node>)
    requires AllAgree(first)
    ensures Agree(Load(first), Load([])) && Merged(Load(first), Load([])) == Load(first)
  {
    assert first + [] == first;
    LoadedGroup(first, [], Dict(map[]));
    MergeAgreeing(Load(first), Dict(map[]));
    SameEntries(Merged(Load(first), Dict(map[])).entries, Load(first).entries);
  }

  /** Loading two groups of files one after the other is merging the two results. */
  lemma {:induction false} GroupingDoesNotMatter(first: seq<Node>, second: seq<Node>)
    requires AllAgree(first + second)
    ensures Load(first + second) == Merged(Load(first), Load(second))
    ensures Agree(Load(first), Load(second))
    decreases |second|
  {
    if second == [] {
      assert first + second == first;
      EmptyGroup(first);
    } else {
      var n := |second| - 1;
      var all, f := first + second, second[n];
      assert all[..|all| - 1] == first + second[..n] && all[|all| - 1] == f;
      AgreePrefix(all);
      GroupingDoesNotMatter(first, second[..n]);
      LoadedGroup(first, second[..n], f);
      AgreeWithMerged(Load(first), Load(second[..n]), f);
      MergeAssociative(Load(first), Load(second[..n]), f);
    }
  }

  // ---------------------------------------------------------------------------
  // Configurations that need not agree
  // ---------------------------------------------------------------------------

  /** `y` cannot be merged into `x`: a list into anything else, or a dictionary that is not empty into anything else. */
  ghost predicate Clash(x: Node, y: Node) {
    (y.List? && !x.List?) || (y.Dict? && y.entries != map[] && !x.Dict?)
  }

  ghost predicate ClashAt(a: Node, b: Node, path: seq<string>) {
    At(a, path).Some? && At(b, path).Some? && Clash(At(a, path).value, At(b, path).value)
  }

  /** A merge fails exactly when at some path a list or dictionary meets a value of another kind. */
  lemma {:induction false} MergeFailsIff(a: Node, b: Node)
    ensures MergeNode(Some(a), b).Err? <==> exists path :: ClashAt(a, b, path)
    decreases b
  {
    if MergeNode(Some(a), b).Err? {
      if Clash(a, b) {
        assert ClashAt(a, b, []);
      } else {
        assert a.Dict? && b.Dict? && MergeEntries(a.entries, b).Err?;
        var k :| k in b.entries && MergeNode(Find(a.entries, k), b.entries[k]).Err?;
        CopyIsSame(b.entries[k]);
        MergeFailsIff(a.entries[k], b.entries[k]);
        var path :| ClashAt(a.entries[k], b.entries[k], path);
        assert ([k] + path)[1..] == path;
        assert ClashAt(a, b, [k] + path);
      }
    }
    if path :| ClashAt(a, b, path) {
      if path != [] {
        var k := path[0];
        assert ClashAt(a.entries[k], b.entries[k], path[1..]);
        MergeFailsIff(a.entries[k], b.entries[k]);
        assert MergeNode(Find(a.entries, k), b.entries[k]).Err?;
      }
    }
  }

  function ListItems(x: Option<Node>): seq<Node> {
    if x.Some? && x.value.List? then x.value.items else []
  }

  /** `b` has nothing at the path, and no scalar or list on the way to it. */
  ghost predicate Silent(b: Node, path: seq<string>)
    decreases |path|
  {
    path != [] && b.Dict? && (path[0] in b.entries ==> Silent(b.entries[path[0]], path[1..]))
  }

  lemma MergedEntry(a: Node, b: Node, m: Node, k: string)
    requires b.Dict? && k in b.entries && MergeNode(Some(a), b) == Ok(m)
    ensures a.Dict? && m.Dict? && k in m.entries && MergeNode(Find(a.entries, k), b.entries[k]) == Ok(m.entries[k])
  {
  }

  lemma UntouchedEntry(a: Node, b: Node, m: Node, k: string)
    requires b.Dict? && k !in b.entries && MergeNode(Some(a), b) == Ok(m)
    ensures m.Dict? == a.Dict? && (a.Dict? ==> Find(m.entries, k) == Find(a.entries, k))
  {
  }

  /**
    Where a merge works, whatever the kinds: a scalar replaces whatever was there,
    a list is put behind the list that was there, and all else stays.
   */
  lemma {:induction false} MergedAnyKind(a: Node, b: Node, m: Node, path: seq<string>)
    requires MergeNode(Some(a), b) == Ok(m)
    ensures At(b, path).Some? && At(b, path).value.Scalar? ==> At(m, path) == At(b, path)
    ensures At(b, path).Some? && At(b, path).value.List? ==>
              At(m, path) == Some(List(ListItems(At(a, path)) + At(b, path).value.items))
    ensures Silent(b, path) ==> At(m, path) == At(a, path)
    decreases |path|
  {
    if path != [] && b.Dict? {
      var k := path[0];
      if k in b.entries {
        MergedEntry(a, b, m, k);
        if k in a.entries {
          MergedAnyKind(a.entries[k], b.entries[k], m.entries[k], path[1..]);
        } else {
          CopyIsSame(b.entries[k]);
          if Silent(b.entries[k], path[1..]) { SilentIsNone(b.entries[k], path[1..]); }
          assert forall s: seq<Node> :: [] + s == s;
        }
      } else {
        UntouchedEntry(a, b, m, k);
      }
    }
  }

  lemma {:induction false} SilentIsNone(b: Node, path: seq<string>)
    requires Silent(b, path)
    ensures At(b, path).None?
    decreases |path|
  {
    if path[0] in b.entries { SilentIsNone(b.entries[path[0]], path[1..]); }
  }
}
