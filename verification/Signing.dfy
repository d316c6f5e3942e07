/** Which bytes a file signature covers, on the signing side and on the verifying side. */
module Signing {
  import opened Wrappers
  import opened Sequences
  import opened Utf8
  import opened Json
  import opened JsonProofs
  import opened HeaderFile

  type Path = seq<Text>

  const SIGNED: Text := [115, 105, 103, 110, 101, 100]                            // signed
  const ATTRIBUTES: Text := [97, 116, 116, 114, 105, 98, 117, 116, 101, 115]      // attributes
  const DATE: Text := [100, 97, 116, 101]                                         // date
  const STAR: Text := [42]

  // ---------------------------------------------------------------------------
  // Dictionaries
  // ---------------------------------------------------------------------------

  function Get(d: Members, key: Text): Option<Json> {
    if d == [] then None else if d[0].key == key then Some(d[0].value) else Get(d[1..], key)
  }

  predicate HasKey(d: Members, key: Text) {
    exists i :: 0 <= i < |d| && d[i].key == key
  }

  function Without(d: Members, key: Text): Members {
    if d == [] then []
    else
      var rest := Without(d[..|d| - 1], key);
      if d[|d| - 1].key == key then rest else rest + [d[|d| - 1]]
  }

  lemma {:induction false} GetPut(d: Members, key: Text, value: Json, k: Text)
    ensures Get(Put(d, key, value), k) == if k == key then Some(value) else Get(d, k)
  {
    if d != [] && d[0].key != key { GetPut(d[1..], key, value, k); }
  }

  lemma {:induction false} GetAt(d: Members, i: nat)
    requires i < |d| && DistinctKeys(d)
    ensures Get(d, d[i].key) == Some(d[i].value)
  {
    if i > 0 { GetAt(d[1..], i - 1); }
  }

  lemma {:induction false} PutKeys(d: Members, key: Text, value: Json, k: Text)
    ensures HasKey(Put(d, key, value), k) <==> k == key || HasKey(d, k)
  {
    var p := Put(d, key, value);
    if d == [] {
      assert p[0].key == key;
    } else if d[0].key == key {
      assert p[0].key == key;
      assert forall i :: 0 < i < |d| ==> p[i] == d[i];
      if i :| 0 <= i < |d| && d[i].key == k { assert p[i].key == k; }
    } else {
      PutKeys(d[1..], key, value, k);
      var q := Put(d[1..], key, value);
      assert p == [d[0]] + q && d == [d[0]] + d[1..];
      if i :| 0 <= i < |q| && q[i].key == k { assert p[i + 1].key == k; }
      if i :| 0 <= i < |d[1..]| && d[1..][i].key == k { assert d[i + 1].key == k; }
      if i :| 0 <= i < |d| && d[i].key == k { assert i > 0 ==> d[1..][i - 1].key == k; assert p[0] == d[0]; }
      if i :| 0 <= i < |p| && p[i].key == k { assert i > 0 ==> q[i - 1].key == k; assert p[0] == d[0]; }
    }
  }

  // ---------------------------------------------------------------------------
  // Attribute names
  // ---------------------------------------------------------------------------

  predicate NoDot(t: Text) { 46 !in t }

  function Join(path: Path): Text
    requires path != []
  {
    if |path| == 1 then path[0] else path[0] + [DOT] + Join(path[1..])
  }

  /** The parts of `t` between dots; at least one. */
  function Split(t: Text): (r: Path)
    ensures r != []
  {
    if t == [] then [[]]
    else
      var rest := Split(t[1..]);
      if t[0] == DOT then [[]] + rest else [[t[0]] + rest[0]] + rest[1..]
  }

  lemma {:induction false} SplitPrefix(a: Text, rest: Text)
    requires NoDot(a)
    ensures Split(a + [DOT] + rest) == [a] + Split(rest)
  {
    var t := a + [DOT] + rest;
    if a == [] {
      assert t[1..] == rest;
    } else {
      assert t[1..] == a[1..] + [DOT] + rest;
      SplitPrefix(a[1..], rest);
      assert [a[0]] + a[1..] == a;
    }
  }

  lemma {:induction false} SplitNoDots(t: Text)
    ensures forall i :: 0 <= i < |Split(t)| ==> NoDot(Split(t)[i])
    ensures NoDot(t) ==> Split(t) == [t]
  {
    if t != [] {
      SplitNoDots(t[1..]);
      if NoDot(t) { assert NoDot(t[1..]); assert [t[0]] + t[1..] == t; }
    }
  }

  /** A recorded attribute name leads back to its path exactly when no key in it has a dot. */
  lemma {:induction false} NameRoundTrip(path: Path)
    requires path != []
    ensures Split(Join(path)) == path <==> forall i :: 0 <= i < |path| ==> NoDot(path[i])
  {
    SplitNoDots(Join(path));
    if forall i :: 0 <= i < |path| ==> NoDot(path[i]) {
      if |path| == 1 {
        assert path == [path[0]];
      } else {
        NameRoundTrip(path[1..]);
        SplitPrefix(path[0], Join(path[1..]));
        assert path == [path[0]] + path[1..];
      }
    }
  }

  // ---------------------------------------------------------------------------
  // Collecting the signed attributes
  // ---------------------------------------------------------------------------

  /**
    Copies what `path` leads to in `src` to the same place in `dst`. A missing key
    or a non-dictionary on the way is an error.
   */
  function CopyPath(src: Members, dst: Members, path: Path): Result<Members>
    decreases |path|
  {
    if path == [] then Err
    else
      match Get(src, path[0])
      case None => Err
      case Some(v) =>
        if |path| == 1 then Ok(Put(dst, path[0], v))
        else if !v.Object? then Err
        else
          var inner := Get(dst, path[0]);
          if inner.Some? && !inner.value.Object? then Err
          else
            match CopyPath(v.members, if inner.None? then [] else inner.value.members, path[1..])
            case Err => Err
            case Ok(d) => Ok(Put(dst, path[0], Object(d)))
  }

  function CopyPaths(src: Members, dst: Members, paths: seq<Path>): Result<Members>
    decreases |paths|
  {
    if paths == [] then Ok(dst)
    else
      match CopyPath(src, dst, paths[0])
      case Err => Err
      case Ok(d) => CopyPaths(src, d, paths[1..])
  }

  /** Fills the dictionary of signed attributes path by path. */
  method CollectAttributes(header: Members, paths: seq<Path>) returns (signed: Result<Members>)
    ensures signed == CopyPaths(header, [], paths)
  {
    var collected: Members := [];
    for k := 0 to |paths|
      invariant CopyPaths(header, collected, paths[k..]) == CopyPaths(header, [], paths)
    {
      assert paths[k..][1..] == paths[k + 1..];
      var copied := CopyPath(header, collected, paths[k]);
      if copied.Err? { return Err; }
      collected := copied.value;
    }
    signed := Ok(collected);
  }

  /** The signer's view. `[["*"]]` stands for everything but the signatures. */
  function SignerAttributes(header: Members, paths: seq<Path>): Result<Members> {
    if paths == [[STAR]] then Ok(Without(header, SIGNED)) else CopyPaths(header, [], paths)
  }

  function KeyPaths(d: Members): seq<Path> {
    seq(|d|, i requires 0 <= i < |d| => [d[i].key])
  }

  /** The attribute paths put on record with the signature. */
  function RecordedPaths(header: Members, paths: seq<Path>): seq<Path> {
    if paths == [[STAR]] then KeyPaths(Without(header, SIGNED)) else paths
  }

  function Names(paths: seq<Path>): seq<Json>
    requires forall i :: 0 <= i < |paths| ==> paths[i] != []
  {
    seq(|paths|, i requires 0 <= i < |paths| => String(Join(paths[i])))
  }

  /** The verifier's view: the paths are the recorded names split at dots. */
  function VerifierPaths(names: seq<Json>): Result<seq<Path>> {
    if exists i :: 0 <= i < |names| && !names[i].String? then Err
    else Ok(seq(|names|, i requires 0 <= i < |names| => Split(names[i].text)))
  }

  // ---------------------------------------------------------------------------
  // Signing and verifying
  // ---------------------------------------------------------------------------

  /** A signature record: what the crypto library gave, the date and the attribute names. */
  function SignatureRecord(crypto: Members, date: Text, names: seq<Json>): Members {
    Put(Put(crypto, DATE, String(date)), ATTRIBUTES, Array(names))
  }

  /** Appends a record to the list of signatures; fails when `signed` is not a list. */
  function AddSignature(header: Members, record: Members): Result<Members> {
    match Get(header, SIGNED)
    case None => Ok(Put(header, SIGNED, Array([Object(record)])))
    case Some(Array(items)) => Ok(Put(header, SIGNED, Array(items + [Object(record)])))
    case Some(_) => Err
  }

  /** `dumps` is the canonical serialisation (sorted keys) of a dictionary. */
  function SignerPayload(dumps: Members -> Bytes, data: Bytes, header: Members, paths: seq<Path>,
                         date: Text): Result<Bytes> {
    match SignerAttributes(header, paths)
    case Err => Err
    case Ok(d) => Ok(data + dumps(d) + Encode(date))
  }

  function VerifierPayload(dumps: Members -> Bytes, data: Bytes, header: Members, record: Members): Result<Bytes> {
    var names := match Get(record, ATTRIBUTES) case Some(Array(items)) => Ok(items) case Some(_) => Err
      case None => Ok([]);
    var date := match Get(record, DATE) case Some(String(t)) => Ok(t) case Some(_) => Err case None => Ok([]);
    if names.Err? || date.Err? || VerifierPaths(names.value).Err? then Err
    else
      match CopyPaths(header, [], VerifierPaths(names.value).value)
      case Err => Err
      case Ok(d) => Ok(data + dumps(d) + Encode(date.value))
  }

  // ---------------------------------------------------------------------------
  // Both sides see the same attributes
  // ---------------------------------------------------------------------------

  /** The header is the same outside the list of signatures. */
  ghost predicate SameOutsideSigned(a: Members, b: Members) {
    forall k :: k != SIGNED ==> Get(a, k) == Get(b, k)
  }

  ghost predicate OutsideSigned(paths: seq<Path>) {
    forall i :: 0 <= i < |paths| ==> paths[i] != [] && paths[i][0] != SIGNED
  }

  lemma {:induction false} SameAttributes(a: Members, b: Members, dst: Members, paths: seq<Path>)
    requires SameOutsideSigned(a, b) && OutsideSigned(paths)
    ensures CopyPaths(a, dst, paths) == CopyPaths(b, dst, paths)
    decreases |paths|
  {
    if paths != [] {
      assert Get(a, paths[0][0]) == Get(b, paths[0][0]);
      assert CopyPath(a, dst, paths[0]) == CopyPath(b, dst, paths[0]);
      if CopyPath(a, dst, paths[0]).Ok? {
        SameAttributes(a, b, CopyPath(a, dst, paths[0]).value, paths[1..]);
      }
    }
  }

  lemma {:induction false} WithoutHolds(d: Members, key: Text, m: Member)
    ensures m in Without(d, key) <==> m in d && m.key != key
  {
    if d != [] {
      var n := |d| - 1;
      WithoutHolds(d[..n], key, m);
      assert d == d[..n] + [d[n]];
    }
  }

  lemma {:induction false} WithoutDistinct(d: Members, key: Text)
    requires DistinctKeys(d)
    ensures DistinctKeys(Without(d, key))
  {
    if d != [] {
      var n := |d| - 1;
      WithoutDistinct(d[..n], key);
      var rest := Without(d[..n], key);
      forall i | 0 <= i < |rest| ensures rest[i].key != d[n].key {
        WithoutHolds(d[..n], key, rest[i]);
        assert rest[i] in rest;
        var j :| 0 <= j < n && d[..n][j] == rest[i];
      }
    }
  }

  lemma WithoutProperties(d: Members, key: Text)
    requires DistinctKeys(d)
    ensures DistinctKeys(Without(d, key))
    ensures forall i :: 0 <= i < |Without(d, key)| ==> Without(d, key)[i] in d && Without(d, key)[i].key != key
    ensures forall i :: 0 <= i < |d| && d[i].key != key ==> d[i] in Without(d, key)
  {
    WithoutDistinct(d, key);
    var rest := Without(d, key);
    forall i | 0 <= i < |rest| ensures rest[i] in d && rest[i].key != key {
      WithoutHolds(d, key, rest[i]);
      assert rest[i] in rest;
    }
    forall i | 0 <= i < |d| && d[i].key != key ensures d[i] in rest { WithoutHolds(d, key, d[i]); }
  }

  /** Copying the keys of `d` one by one from a header that has them gives `d`. */
  lemma {:induction false} CopyKeys(header: Members, d: Members, i: nat)
    requires DistinctKeys(d) && i <= |d|
    requires forall j :: 0 <= j < |d| ==> Get(header, d[j].key) == Some(d[j].value)
    ensures CopyPaths(header, d[..i], KeyPaths(d)[i..]) == Ok(d)
    decreases |d| - i
  {
    if i == |d| {
      assert d[..i] == d;
    } else {
      PutNew(d[..i], d[i].key, d[i].value);
      assert d[..i] + [d[i]] == d[..i + 1];
      assert KeyPaths(d)[i..][0] == [d[i].key] && KeyPaths(d)[i..][1..] == KeyPaths(d)[i + 1..];
      CopyKeys(header, d, i + 1);
    }
  }

  /** Everything but the signatures, copied from the signed header. */
  lemma StarAttributes(header: Members, later: Members)
    requires DistinctKeys(header) && SameOutsideSigned(header, later)
    ensures CopyPaths(later, [], KeyPaths(Without(header, SIGNED))) == Ok(Without(header, SIGNED))
  {
    var d := Without(header, SIGNED);
    WithoutProperties(header, SIGNED);
    forall j | 0 <= j < |d| ensures Get(later, d[j].key) == Some(d[j].value) {
      var i :| 0 <= i < |header| && header[i] == d[j];
      GetAt(header, i);
    }
    CopyKeys(later, d, 0);
    assert d[..0] == [] && KeyPaths(d)[0..] == KeyPaths(d);
  }

  lemma {:induction false} CopiedKeys(src: Members, dst: Members, paths: seq<Path>, k: Text)
    requires CopyPaths(src, dst, paths).Ok? && HasKey(CopyPaths(src, dst, paths).value, k) && !HasKey(dst, k)
    ensures exists i :: 0 <= i < |paths| && paths[i] != [] && paths[i][0] == k
    decreases |paths|
  {
    var d := CopyPath(src, dst, paths[0]).value;
    var v := Get(d, paths[0][0]);
    GetPutSelf(src, dst, paths[0]);
    PutKeys(dst, paths[0][0], Get(d, paths[0][0]).value, k);
    if HasKey(d, k) {
      assert paths[0][0] == k;
    } else {
      CopiedKeys(src, d, paths[1..], k);
      var i :| 0 <= i < |paths[1..]| && paths[1..][i] != [] && paths[1..][i][0] == k;
      assert paths[i + 1][0] == k;
    }
  }

  lemma GetPutSelf(src: Members, dst: Members, path: Path)
    requires CopyPath(src, dst, path).Ok?
    ensures path != [] && Get(CopyPath(src, dst, path).value, path[0]).Some?
    ensures CopyPath(src, dst, path).value == Put(dst, path[0], Get(CopyPath(src, dst, path).value, path[0]).value)
  {
    var d := CopyPath(src, dst, path).value;
    var v := Get(src, path[0]).value;
    if |path| == 1 {
      GetPut(dst, path[0], v, path[0]);
    } else {
      var inner := Get(dst, path[0]);
      var e := CopyPath(v.members, if inner.None? then [] else inner.value.members, path[1..]).value;
      GetPut(dst, path[0], Object(e), path[0]);
    }
  }

  ghost predicate Nonempty(paths: seq<Path>) {
    forall i :: 0 <= i < |paths| ==> paths[i] != []
  }

  ghost predicate DotFree(paths: seq<Path>) {
    forall i, j :: 0 <= i < |paths| && 0 <= j < |paths[i]| ==> NoDot(paths[i][j])
  }

  lemma NamesSplitBack(paths: seq<Path>)
    requires Nonempty(paths)
    ensures VerifierPaths(Names(paths)).Ok?
    ensures DotFree(paths) ==> VerifierPaths(Names(paths)).value == paths
    ensures DotFree(VerifierPaths(Names(paths)).value)
  {
    var split := VerifierPaths(Names(paths)).value;
    forall i | 0 <= i < |paths|
      ensures DotFree(paths) ==> split[i] == paths[i]
      ensures forall j :: 0 <= j < |split[i]| ==> NoDot(split[i][j])
    {
      NameRoundTrip(paths[i]);
      SplitNoDots(Join(paths[i]));
    }
  }

  /** The signatures that a header has. */
  function Signatures(header: Members): seq<Json> {
    match Get(header, SIGNED) case Some(Array(items)) => items case _ => []
  }

  /** The header after its new signature record differs only in the list of signatures. */
  lemma SignatureFrame(header: Members, record: Members)
    requires AddSignature(header, record).Ok?
    ensures SameOutsideSigned(header, AddSignature(header, record).value)
    ensures var later := AddSignature(header, record).value;
            Get(later, [115, 105, 103, 110, 101, 100]) == Some(Array(Signatures(header) + [Object(record)]))
  {
    var later := AddSignature(header, record).value;
    var items := Signatures(header) + [Object(record)];
    assert [] + [Object(record)] == [Object(record)];
    assert later == Put(header, SIGNED, Array(items));
    forall k ensures Get(later, k) == if k == SIGNED then Some(Array(items)) else Get(header, k) {
      GetPut(header, SIGNED, Array(items), k);
    }
    assert items[|items| - 1] == Object(record);
  }

  /**
    With explicit paths outside `signed`, or with `*` on dot-free keys, the
    verifier checks the very bytes that were signed, on the header that has
    meanwhile gained the signature.
   */
  lemma VerifierSeesSignedBytes(dumps: Members -> Bytes, data: Bytes, header: Members, paths: seq<Path>,
                                crypto: Members, date: Text)
    requires DistinctKeys(header) && Nonempty(paths)
    requires paths == [[STAR]] || OutsideSigned(paths)
    requires DotFree(RecordedPaths(header, paths))
    requires var record := SignatureRecord(crypto, date, Names(RecordedPaths(header, paths)));
             AddSignature(header, record).Ok?
    ensures var record := SignatureRecord(crypto, date, Names(RecordedPaths(header, paths)));
            var later := AddSignature(header, record).value;
            VerifierPayload(dumps, data, later, record) == SignerPayload(dumps, data, header, paths, date)
  {
    var recorded := RecordedPaths(header, paths);
    var record := SignatureRecord(crypto, date, Names(recorded));
    var later := AddSignature(header, record).value;
    SignatureFrame(header, record);
    NamesSplitBack(recorded);
    RecordFields(crypto, date, Names(recorded));
    if paths == [[STAR]] {
      StarAttributes(header, later);
    } else {
      SameAttributes(header, later, [], paths);
    }
  }

  lemma RecordFields(crypto: Members, date: Text, names: seq<Json>)
    ensures Get(SignatureRecord(crypto, date, names), [97, 116, 116, 114, 105, 98, 117, 116, 101, 115]) ==
            Some(Array(names))
    ensures Get(SignatureRecord(crypto, date, names), [100, 97, 116, 101]) == Some(String(date))
    ensures forall k :: k != ATTRIBUTES && k != DATE ==> Get(SignatureRecord(crypto, date, names), k) == Get(crypto, k)
  {
    var d := Put(crypto, DATE, String(date));
    GetPut(d, ATTRIBUTES, Array(names), ATTRIBUTES);
    GetPut(d, ATTRIBUTES, Array(names), DATE);
    GetPut(crypto, DATE, String(date), DATE);
    assert DATE != ATTRIBUTES by { assert |DATE| != |ATTRIBUTES|; }
    forall k | k != ATTRIBUTES && k != DATE ensures Get(SignatureRecord(crypto, date, names), k) == Get(crypto, k) {
      GetPut(d, ATTRIBUTES, Array(names), k);
      GetPut(crypto, DATE, String(date), k);
    }
  }

  /** A signature made before keeps covering the same bytes when another one is added. */
  lemma EarlierSignatureUnaffected(dumps: Members -> Bytes, data: Bytes, header: Members, record: Members,
                                   earlier: Members, paths: seq<Path>)
    requires AddSignature(header, record).Ok?
    requires Nonempty(paths) && Get(earlier, ATTRIBUTES) == Some(Array(Names(paths)))
    requires OutsideSigned(paths) && DotFree(paths)
    ensures VerifierPayload(dumps, data, AddSignature(header, record).value, earlier)
         == VerifierPayload(dumps, data, header, earlier)
  {
    SignatureFrame(header, record);
    NamesSplitBack(paths);
    SameAttributes(header, AddSignature(header, record).value, [], paths);
  }

  /** With `*`, the verifier rebuilds the signed attributes exactly when no signed key has a dot. */
  lemma StarNeedsDotFreeKeys(header: Members, later: Members)
    requires DistinctKeys(header) && SameOutsideSigned(header, later)
    ensures var d := Without(header, SIGNED);
            CopyPaths(later, [], VerifierPaths(Names(KeyPaths(d))).value) == Ok(d) <==> DotFree(KeyPaths(d))
  {
    var d := Without(header, SIGNED);
    var split := VerifierPaths(Names(KeyPaths(d))).value;
    NamesSplitBack(KeyPaths(d));
    StarAttributes(header, later);
    if CopyPaths(later, [], split) == Ok(d) {
      forall i, j | 0 <= i < |KeyPaths(d)| && 0 <= j < |KeyPaths(d)[i]| ensures NoDot(KeyPaths(d)[i][j]) {
        assert HasKey(d, d[i].key);
        CopiedKeys(later, [], split, d[i].key);
        var m :| 0 <= m < |split| && split[m] != [] && split[m][0] == d[i].key;
      }
    }
  }

  /**
    From file to file: what the signer writes is read back by the verifier, who
    then checks the signed bytes.
   */
  lemma SignedFileVerifies(dumps: Members -> Bytes, data: Bytes, header: Members, paths: seq<Path>,
                           crypto: Members, date: Text)
    requires DistinctKeys(header) && Nonempty(paths)
    requires paths == [[STAR]] || OutsideSigned(paths)
    requires DotFree(RecordedPaths(header, paths))
    requires var record := SignatureRecord(crypto, date, Names(RecordedPaths(header, paths)));
             AddSignature(header, record).Ok? && CleanHeader(AddSignature(header, record).value)
    ensures var record := SignatureRecord(crypto, date, Names(RecordedPaths(header, paths)));
            var later := AddSignature(header, record).value;
            var file := HeaderBytes(later) + data;
            var r := Scan(file, 0, [], None);
            && r.HeaderAt? && r.header == Object(later)
            && VerifierPayload(dumps, r.data + file[r.next..], r.header.members, record)
               == SignerPayload(dumps, data, header, paths, date)
  {
    var record := SignatureRecord(crypto, date, Names(RecordedPaths(header, paths)));
    var later := AddSignature(header, record).value;
    SignatureFrame(header, record);
    assert later != [];
    HeaderRoundTrip(later, data);
    VerifierSeesSignedBytes(dumps, data, header, paths, crypto, date);
  }
}
