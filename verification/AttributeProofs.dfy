/** What the signed attributes are: of each listed path the value in the header, and nothing else. */
module AttributeProofs {
  import opened Wrappers
  import opened Sequences
  import opened Utf8
  import opened Json
  import opened JsonProofs
  import opened HeaderFile
  import opened Signing

  /** What stands at a path, if anything does. */
  function At(d: Members, path: Path): Option<Json>
    requires path != []
    decreases |path|
  {
    var v := Get(d, path[0]);
    if v.None? || |path| == 1 then v else if v.value.Object? then At(v.value.members, path[1..]) else None
  }

  lemma {:induction false} PutSame(d: Members, key: Text, value: Json)
    requires Get(d, key) == Some(value)
    ensures Put(d, key, value) == d
  {
    if d[0].key == key {
      assert d == [Member(key, value)] + d[1..];
    } else {
      PutSame(d[1..], key, value);
    }
  }

  /** Copying what is there already changes nothing. */
  lemma {:induction false} CopySame(src: Members, path: Path)
    requires path != [] && At(src, path).Some?
    ensures CopyPath(src, src, path) == Ok(src)
    decreases |path|
  {
    var v := Get(src, path[0]).value;
    PutSame(src, path[0], v);
    if |path| > 1 { CopySame(v.members, path[1..]); }
  }

  /** The dictionary that a path of several keys goes on in. */
  function Inner(d: Members, key: Text): Members {
    var v := Get(d, key);
    if v.Some? && v.value.Object? then v.value.members else []
  }

  /** The first key of a copied path holds the value, or a dictionary into which the rest is copied. */
  lemma CopyFirst(src: Members, dst: Members, path: Path, d: Members)
    requires CopyPath(src, dst, path) == Ok(d)
    ensures path != [] && Get(src, path[0]).Some?
    ensures forall k :: k != path[0] ==> Get(d, k) == Get(dst, k)
    ensures |path| == 1 ==> Get(d, path[0]) == Get(src, path[0])
    ensures |path| > 1 ==>
              && Get(src, path[0]).value.Object? && (Get(dst, path[0]).Some? ==> Get(dst, path[0]).value.Object?)
              && CopyPath(Inner(src, path[0]), Inner(dst, path[0]), path[1..]).Ok?
              && Get(d, path[0]) == Some(Object(CopyPath(Inner(src, path[0]), Inner(dst, path[0]), path[1..]).value))
  {
    var v := Get(src, path[0]).value;
    var put := if |path| == 1 then v else Object(CopyPath(Inner(src, path[0]), Inner(dst, path[0]), path[1..]).value);
    assert d == Put(dst, path[0], put);
    forall k ensures Get(d, k) == if k == path[0] then Some(put) else Get(dst, k) { GetPut(dst, path[0], put, k); }
  }

  /** Neither path goes on from the other. */
  ghost predicate Apart(p: Path, q: Path) { !(p <= q) && !(q <= p) }

  lemma PrefixTail(p: Path, q: Path)
    requires p != [] && q != [] && p[0] == q[0]
    ensures p <= q <==> p[1..] <= q[1..]
    ensures p == q <==> p[1..] == q[1..]
  {
    assert p == [p[0]] + p[1..] && q == [q[0]] + q[1..];
  }

  /** Nothing stands anywhere in an empty dictionary. */
  lemma AtEmpty(r: Path)
    requires r != []
    ensures At([], r) == None
  {
  }

  /** What stands at any path once `q` has been copied. */
  lemma {:induction false} CopyAt(src: Members, dst: Members, q: Path, d: Members, r: Path)
    requires q != [] && r != [] && CopyPath(src, dst, q) == Ok(d)
    ensures q <= r ==> At(d, r) == At(src, r)
    ensures r <= q && r != q ==>
              At(d, r).Some? && At(d, r).value.Object? && At(src, r).Some? && At(src, r).value.Object?
    ensures Apart(q, r) ==> At(d, r) == At(dst, r)
    decreases |q|
  {
    CopyFirst(src, dst, q, d);
    if q[0] == r[0] {
      PrefixTail(q, r);
      PrefixTail(r, q);
      if |q| > 1 && |r| > 1 {
        var e := CopyPath(Inner(src, q[0]), Inner(dst, q[0]), q[1..]).value;
        CopyAt(Inner(src, q[0]), Inner(dst, q[0]), q[1..], e, r[1..]);
        if Get(dst, q[0]).None? { AtEmpty(r[1..]); }
      }
    }
  }

  /** At a path that is right already, copying another one leaves it right. */
  lemma {:induction false} CopyKeeps(src: Members, dst: Members, q: Path, d: Members, p: Path)
    requires q != [] && p != [] && CopyPath(src, dst, q) == Ok(d)
    requires At(dst, p).Some? && At(dst, p) == At(src, p)
    ensures At(d, p) == At(src, p)
    decreases |p|
  {
    CopyAt(src, dst, q, d, p);
    if p <= q && p != q {
      CopyFirst(src, dst, q, d);
      var e := Inner(src, q[0]);
      PrefixTail(p, q);
      assert At(src, q).Some? by { CopyAt(src, dst, q, d, q); CopyFound(src, dst, q); }
      if |p| == 1 {
        assert Inner(dst, q[0]) == e;
        CopySame(e, q[1..]);
      } else {
        CopyKeeps(e, Inner(dst, q[0]), q[1..], CopyPath(e, Inner(dst, q[0]), q[1..]).value, p[1..]);
      }
    }
  }

  /** Only what is there can be copied. */
  lemma {:induction false} CopyFound(src: Members, dst: Members, q: Path)
    requires q != [] && CopyPath(src, dst, q).Ok?
    ensures At(src, q).Some?
    decreases |q|
  {
    CopyFirst(src, dst, q, CopyPath(src, dst, q).value);
    if |q| > 1 { CopyFound(Inner(src, q[0]), Inner(dst, q[0]), q[1..]); }
  }

  /** Wherever `dst` has something, `src` has too, and `dst` has dictionaries where `src` has. */
  ghost predicate PartOf(dst: Members, src: Members) {
    forall r: Path {:trigger At(dst, r)} :: r != [] && At(dst, r).Some? ==>
      At(src, r).Some? && (At(src, r).value.Object? ==> At(dst, r).value.Object?)
  }

  lemma PartWithin(dst: Members, src: Members, key: Text)
    requires PartOf(dst, src) && Get(src, key).Some? && Get(src, key).value.Object?
    ensures Get(dst, key).Some? ==> Get(dst, key).value.Object?
    ensures PartOf(Inner(dst, key), Inner(src, key))
  {
    if Get(dst, key).Some? {
      assert At(dst, [key]) == Get(dst, key) && At(src, [key]) == Get(src, key);
      forall r: Path | r != [] && At(Inner(dst, key), r).Some?
        ensures At(Inner(src, key), r).Some?
        ensures At(Inner(src, key), r).value.Object? ==> At(Inner(dst, key), r).value.Object?
      {
        var s := [key] + r;
        assert s[1..] == r && At(dst, s) == At(Inner(dst, key), r) && At(src, s) == At(Inner(src, key), r);
      }
    } else {
      forall r: Path | r != [] ensures At([], r).None? { AtEmpty(r); }
    }
  }

  /** What is there can be copied. */
  lemma {:induction false} CopyWorks(src: Members, dst: Members, q: Path)
    requires q != [] && PartOf(dst, src) && At(src, q).Some?
    ensures CopyPath(src, dst, q).Ok?
    decreases |q|
  {
    if |q| > 1 {
      PartWithin(dst, src, q[0]);
      CopyWorks(Inner(src, q[0]), Inner(dst, q[0]), q[1..]);
    }
  }

  lemma CopyKeepsPart(src: Members, dst: Members, q: Path, d: Members)
    requires q != [] && PartOf(dst, src) && CopyPath(src, dst, q) == Ok(d)
    ensures PartOf(d, src)
  {
    forall r: Path | r != [] && At(d, r).Some?
      ensures At(src, r).Some? && (At(src, r).value.Object? ==> At(d, r).value.Object?)
    {
      CopyAt(src, dst, q, d, r);
      assert q <= r || (r <= q && r != q) || Apart(q, r);
    }
  }

  /** Every listed path is there in the header. */
  ghost predicate AllThere(header: Members, paths: seq<Path>)
    requires Nonempty(paths)
  {
    forall i :: 0 <= i < |paths| ==> At(header, paths[i]).Some?
  }

  /** What a path leads to in `d` is there in the header, on the way to a listed path or beyond it. */
  ghost predicate Listed(paths: seq<Path>, r: Path) {
    exists i :: 0 <= i < |paths| && (paths[i] <= r || r <= paths[i])
  }

  lemma ListedLater(paths: seq<Path>, r: Path)
    requires paths != [] && (Listed(paths[1..], r) || paths[0] <= r || r <= paths[0])
    ensures Listed(paths, r)
  {
    if i :| 0 <= i < |paths[1..]| && (paths[1..][i] <= r || r <= paths[1..][i]) {
      assert paths[i + 1] == paths[1..][i];
    }
  }

  lemma {:induction false} CopiesWork(src: Members, dst: Members, paths: seq<Path>)
    requires Nonempty(paths) && PartOf(dst, src)
    ensures CopyPaths(src, dst, paths).Ok? <==> AllThere(src, paths)
    decreases |paths|
  {
    if paths != [] {
      assert paths == [paths[0]] + paths[1..];
      if At(src, paths[0]).Some? {
        CopyWorks(src, dst, paths[0]);
        var d := CopyPath(src, dst, paths[0]).value;
        CopyKeepsPart(src, dst, paths[0], d);
        CopiesWork(src, d, paths[1..]);
        assert forall i :: 0 < i < |paths| ==> paths[i] == paths[1..][i - 1];
      } else if CopyPath(src, dst, paths[0]).Ok? {
        CopyFound(src, dst, paths[0]);
      }
    }
  }

  lemma {:induction false} CopiesKeep(src: Members, dst: Members, paths: seq<Path>, p: Path)
    requires Nonempty(paths) && p != [] && CopyPaths(src, dst, paths).Ok?
    requires At(dst, p).Some? && At(dst, p) == At(src, p)
    ensures At(CopyPaths(src, dst, paths).value, p) == At(src, p)
    decreases |paths|
  {
    if paths != [] {
      var d := CopyPath(src, dst, paths[0]).value;
      CopyKeeps(src, dst, paths[0], d, p);
      CopiesKeep(src, d, paths[1..], p);
    }
  }

  lemma {:induction false} CopiesFind(src: Members, dst: Members, paths: seq<Path>, i: nat)
    requires Nonempty(paths) && i < |paths| && CopyPaths(src, dst, paths).Ok?
    ensures At(src, paths[i]).Some? && At(CopyPaths(src, dst, paths).value, paths[i]) == At(src, paths[i])
    decreases |paths|
  {
    var d := CopyPath(src, dst, paths[0]).value;
    if i > 0 {
      CopiesFind(src, d, paths[1..], i - 1);
    } else {
      CopyFound(src, dst, paths[0]);
      CopyAt(src, dst, paths[0], d, paths[0]);
      CopiesKeep(src, d, paths[1..], paths[0]);
    }
  }

  lemma {:induction false} CopiesAddListed(src: Members, dst: Members, paths: seq<Path>, r: Path)
    requires Nonempty(paths) && r != [] && CopyPaths(src, dst, paths).Ok?
    requires At(CopyPaths(src, dst, paths).value, r).Some? && At(dst, r).None?
    ensures Listed(paths, r)
    decreases |paths|
  {
    if paths != [] {
      var d := CopyPath(src, dst, paths[0]).value;
      CopyAt(src, dst, paths[0], d, r);
      if At(d, r).None? {
        CopiesAddListed(src, d, paths[1..], r);
      }
      ListedLater(paths, r);
    }
  }

  /**
    Collecting works exactly when every listed path is there in the header. Then
    each listed path leads to the value that it leads to in the header, whatever
    other paths are listed; and whatever is in the result is on the way to a
    listed path or beyond one.
   */
  lemma CollectedExactly(header: Members, paths: seq<Path>)
    requires Nonempty(paths)
    ensures CopyPaths(header, [], paths).Ok? <==> AllThere(header, paths)
    ensures CopyPaths(header, [], paths).Ok? ==>
              var d := CopyPaths(header, [], paths).value;
              && (forall i :: 0 <= i < |paths| ==> At(d, paths[i]) == At(header, paths[i]))
              && (forall r: Path :: r != [] && At(d, r).Some? ==> Listed(paths, r))
  {
    assert PartOf([], header) by {
      forall r: Path | r != [] ensures At([], r).None? { AtEmpty(r); }
    }
    CopiesWork(header, [], paths);
    if CopyPaths(header, [], paths).Ok? {
      var d := CopyPaths(header, [], paths).value;
      forall i | 0 <= i < |paths| ensures At(d, paths[i]) == At(header, paths[i]) { CopiesFind(header, [], paths, i); }
      forall r: Path | r != [] && At(d, r).Some? ensures Listed(paths, r) {
        AtEmpty(r);
        CopiesAddListed(header, [], paths, r);
      }
    }
  }

  // ---------------------------------------------------------------------------
  // What a signature covers
  // ---------------------------------------------------------------------------

  lemma {:induction false} GetWithout(d: Members, key: Text, k: Text)
    ensures Get(Without(d, key), k) == if k == key then None else Get(d, k)
  {
    if d != [] {
      var n := |d| - 1;
      GetWithout(d[..n], key, k);
      GetAppend(d[..n], d[n], k);
      assert d == d[..n] + [d[n]];
      GetAppend(Without(d[..n], key), d[n], k);
    }
  }

  lemma {:induction false} GetAppend(d: Members, m: Member, k: Text)
    ensures Get(d + [m], k) == if Get(d, k).Some? then Get(d, k) else if m.key == k then Some(m.value) else None
  {
    if d == [] {
      assert d + [m] == [m];
    } else {
      assert (d + [m])[1..] == d[1..] + [m];
      GetAppend(d[1..], m, k);
    }
  }

  /**
    What is signed: with `*` every member but `signed`, else the listed paths, each
    with what it leads to in the header; nothing is signed if one leads nowhere.
   */
  lemma SignedAttributes(header: Members, paths: seq<Path>)
    requires Nonempty(paths)
    ensures paths == [[[42]]] ==>
              && SignerAttributes(header, paths).Ok?
              && forall k :: Get(SignerAttributes(header, paths).value, k) ==
                             if k == [115, 105, 103, 110, 101, 100] then None else Get(header, k)
    ensures paths != [[[42]]] ==> (SignerAttributes(header, paths).Ok? <==> AllThere(header, paths))
    ensures paths != [[[42]]] && AllThere(header, paths) ==>
              forall i :: 0 <= i < |paths| ==>
                At(SignerAttributes(header, paths).value, paths[i]) == At(header, paths[i])
  {
    CollectedExactly(header, paths);
    forall k ensures Get(Without(header, SIGNED), k) == if k == SIGNED then None else Get(header, k) {
      GetWithout(header, SIGNED, k);
    }
  }

  /** The payload is the data, then the attributes, then the date, with nothing left out. */
  lemma PayloadParts(dumps: Members -> Bytes, data: Bytes, header: Members, paths: seq<Path>, date: Text, p: Bytes)
    requires SignerPayload(dumps, data, header, paths, date) == Ok(p)
    ensures SignerAttributes(header, paths).Ok?
    ensures var d, n := dumps(SignerAttributes(header, paths).value), |Encode(date)|;
            |p| == |data| + |d| + n && data <= p && p[|data|..|p| - n] == d && p[|p| - n..] == Encode(date)
  {
  }

  /** A change of the data, of the attributes as they are written out, or of the date changes the signed bytes. */
  lemma ChangeShows(dumps: Members -> Bytes, data: Bytes, data': Bytes, header: Members, header': Members,
                    paths: seq<Path>, date: Text, date': Text)
    requires |data| == |data'| && |Encode(date)| == |Encode(date')|
    requires SignerPayload(dumps, data, header, paths, date).Ok?
    requires SignerPayload(dumps, data, header, paths, date) == SignerPayload(dumps, data', header', paths, date')
    ensures data == data' && Encode(date) == Encode(date')
    ensures dumps(SignerAttributes(header, paths).value) == dumps(SignerAttributes(header', paths).value)
  {
    var p := SignerPayload(dumps, data, header, paths, date).value;
    PayloadParts(dumps, data, header, paths, date, p);
    PayloadParts(dumps, data', header', paths, date', p);
  }
}
