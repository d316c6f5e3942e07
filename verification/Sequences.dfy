/** Sequences of bytes and positions, shared by the other modules. */
module Sequences {

  type Byte = x: int | 0 <= x < 0x100

  type Bytes = seq<Byte>

  /** The position of the first `x`, or the length when there is none. */
  function IndexOf<T(==)>(s: seq<T>, x: T): (k: nat)
    ensures k <= |s| && (k < |s| <==> x in s)
    ensures k < |s| ==> s[k] == x
    ensures forall i :: 0 <= i < k ==> s[i] != x
  {
    if s == [] || s[0] == x then 0 else 1 + IndexOf(s[1..], x)
  }

  function Concat<T>(parts: seq<seq<T>>): seq<T> {
    if parts == [] then [] else Concat(parts[..|parts| - 1]) + parts[|parts| - 1]
  }

  lemma Associate<T>(a: seq<T>, b: seq<T>, c: seq<T>)
    ensures (a + b) + c == a + (b + c)
  {
  }

  ghost predicate Below(s: seq<nat>, n: nat) {
    forall i :: 0 <= i < |s| ==> s[i] < n
  }

  lemma {:induction false} Pigeonhole(s: seq<nat>, m: nat)
    requires Below(s, m) && forall i, j :: 0 <= i < j < |s| ==> s[i] != s[j]
    ensures |s| <= m
    decreases m
  {
    if s != [] {
      assert s[0] < m;
      var rest := s;
      if k :| 0 <= k < |s| && s[k] == m - 1 {
        rest := s[..k] + s[k + 1..];
      }
      Pigeonhole(rest, m - 1);
    }
  }
}
