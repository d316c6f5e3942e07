/**
  The log entry store of the XML log viewer: entries in fixed-size chunks, and a
  history of which streams were open, searched by entry number.
 */
module EntryStore {
  import opened Wrappers
  import opened Sequences

  type StreamId = nat

  datatype Entry = Entry(uid: nat, streamId: StreamId, isFirst: bool, isLast: bool, content: string)

  datatype StreamList = StreamList(uid: nat, ids: seq<StreamId>)

  datatype Connectors = Connectors(streamCount: nat, streamIndex: nat)

  /** What happens to the store. Each event stores exactly one entry. */
  datatype Event = Begin(id: StreamId) | Add(entry: Entry) | End(id: StreamId)
  {
    function StreamOf(): StreamId {
      match this case Add(e) => e.streamId case _ => id
    }

    /** The stored entry but for its number. */
    function Stored(uid: nat): Entry {
      match this
      case Begin(id) => Entry(uid, id, true, false, "Log started")
      case Add(e) => e.(uid := uid)
      case End(id) => Entry(uid, id, false, true, "Log finished")
    }
  }

  const CHUNK_SIZE := 1024

  // ---------------------------------------------------------------------------
  // The plain story: replaying the events
  // ---------------------------------------------------------------------------

  function EraseFirst(ids: seq<StreamId>, id: StreamId): seq<StreamId> {
    var k := IndexOf(ids, id);
    if k < |ids| then ids[..k] + ids[k + 1..] else ids
  }

  /** The streams open after all events, in the order they were begun. */
  function Open(events: seq<Event>): seq<StreamId> {
    if events == [] then []
    else
      var before := Open(events[..|events| - 1]);
      match events[|events| - 1]
      case Begin(id) => before + [id]
      case Add(_) => before
      case End(id) => EraseFirst(before, id)
  }

  /** The streams open at the entry of event `k`: a beginning stream is open already, an ending one still. */
  function OpenAt(events: seq<Event>, k: nat): seq<StreamId>
    requires k < |events|
  {
    if events[k].Begin? then Open(events[..k + 1]) else Open(events[..k])
  }

  function ConnectorsIn(ids: seq<StreamId>, id: StreamId): Connectors {
    Connectors(|ids|, IndexOf(ids, id))
  }

  /** A position that holds `id` and that no earlier one shares. */
  ghost predicate FirstIn(ids: seq<StreamId>, id: StreamId, k: nat) {
    k < |ids| && ids[k] == id && forall j :: 0 <= j < k ==> ids[j] != id
  }

  /** An entry of an open stream, its first and last included, gets the slot its stream is in. */
  lemma OpenStreamHasSlot(events: seq<Event>, k: nat)
    requires k < |events|
    requires events[k].Begin? || events[k].StreamOf() in Open(events[..k])
    ensures var open := OpenAt(events, k); var id := events[k].StreamOf(); var c := ConnectorsIn(open, id);
            c.streamCount == |open| && FirstIn(open, id, c.streamIndex)
  {
    if events[k].Begin? { assert events[..k + 1][..k] == events[..k]; }
  }

  // ---------------------------------------------------------------------------
  // Chunks
  // ---------------------------------------------------------------------------

  function Flat<T>(chunks: seq<seq<T>>): seq<T> {
    if chunks == [] then [] else Flat(chunks[..|chunks| - 1]) + chunks[|chunks| - 1]
  }

  /** All chunks but the last are full, none is empty, and none exceeds what was reserved for it. */
  ghost predicate Chunked<T>(chunks: seq<seq<T>>) {
    && (forall c :: 0 <= c < |chunks| ==> 0 < |chunks[c]| <= 1024)
    && (forall c :: 0 <= c < |chunks| - 1 ==> |chunks[c]| == 1024)
  }

  function Emplaced<T>(chunks: seq<seq<T>>, x: T): seq<seq<T>> {
    if chunks == [] || |chunks[|chunks| - 1]| >= CHUNK_SIZE then chunks + [[x]]
    else chunks[|chunks| - 1 := chunks[|chunks| - 1] + [x]]
  }

  function Count<T>(chunks: seq<seq<T>>): nat {
    if chunks == [] then 0 else (|chunks| - 1) * CHUNK_SIZE + |chunks[|chunks| - 1]|
  }

  lemma {:induction false} FlatIndex<T>(chunks: seq<seq<T>>)
    requires Chunked(chunks)
    ensures |Flat(chunks)| == Count(chunks)
    ensures forall i :: 0 <= i < Count(chunks) ==>
      i / 1024 < |chunks| && i % 1024 < |chunks[i / 1024]| && Flat(chunks)[i] == chunks[i / 1024][i % 1024]
  {
    if chunks != [] {
      var n := |chunks| - 1;
      FlatIndex(chunks[..n]);
      assert Count(chunks[..n]) == n * CHUNK_SIZE;
      forall i | 0 <= i < Count(chunks)
        ensures i / CHUNK_SIZE < |chunks| && i % CHUNK_SIZE < |chunks[i / CHUNK_SIZE]|
        ensures Flat(chunks)[i] == chunks[i / CHUNK_SIZE][i % CHUNK_SIZE]
      {
        if i < n * CHUNK_SIZE {
          assert Flat(chunks)[i] == Flat(chunks[..n])[i];
        } else {
          assert i / CHUNK_SIZE == n && i % CHUNK_SIZE == i - n * CHUNK_SIZE;
        }
      }
    }
  }

  lemma EmplaceChunked<T>(chunks: seq<seq<T>>, x: T, more: seq<seq<T>>)
    requires Chunked(chunks) && more == Emplaced(chunks, x)
    ensures Chunked(more)
  {
    var n := |chunks| - 1;
    if |more| > |chunks| {
      assert more[|chunks|] == [x];
      assert forall c :: 0 <= c < |chunks| ==> more[c] == chunks[c];
      assert chunks != [] ==> |chunks[n]| == CHUNK_SIZE;
    } else {
      assert |more[n]| == |chunks[n]| + 1;
      assert forall c :: 0 <= c < n ==> more[c] == chunks[c];
    }
  }

  /** Every stored entry keeps its place in its chunk. */
  lemma EmplaceKeepsPlaces<T>(chunks: seq<seq<T>>, x: T, c: nat, k: nat)
    requires c < |chunks| && k < |chunks[c]|
    ensures c < |Emplaced(chunks, x)| && k < |Emplaced(chunks, x)[c]| && Emplaced(chunks, x)[c][k] == chunks[c][k]
  {
    var more := Emplaced(chunks, x);
    assert more[c] == chunks[c] || more[c] == chunks[c] + [x];
  }

  /** Appending adds one entry at the end. */
  lemma EmplaceAppends<T>(chunks: seq<seq<T>>, x: T, more: seq<seq<T>>)
    requires more == Emplaced(chunks, x)
    ensures Flat(more) == Flat(chunks) + [x]
  {
    if |more| > |chunks| {
      assert more[..|chunks|] == chunks && more[|chunks|] == [x];
    } else {
      var n := |chunks| - 1;
      assert more[..n] == chunks[..n] && more[n] == chunks[n] + [x];
      assert Flat(chunks[..n]) + (chunks[n] + [x]) == Flat(chunks[..n]) + chunks[n] + [x];
    }
  }

  // ---------------------------------------------------------------------------
  // The open-stream history
  // ---------------------------------------------------------------------------

  /** The streams of the last list numbered at most `uid`; none when all are numbered higher. */
  function ListAt(lists: seq<StreamList>, uid: nat): seq<StreamId> {
    if lists == [] then []
    else if lists[|lists| - 1].uid <= uid then lists[|lists| - 1].ids
    else ListAt(lists[..|lists| - 1], uid)
  }

  ghost predicate Ordered(lists: seq<StreamList>) {
    forall i, j :: 0 <= i < j < |lists| ==> lists[i].uid < lists[j].uid
  }

  /** The last list, from which the next one is copied. */
  function Latest(lists: seq<StreamList>): seq<StreamId> {
    if lists == [] then [] else lists[|lists| - 1].ids
  }

  lemma {:induction false} ListAtPosition(lists: seq<StreamList>, uid: nat, k: nat)
    requires Ordered(lists) && k <= |lists|
    requires forall i :: 0 <= i < k ==> lists[i].uid <= uid
    requires forall i :: k <= i < |lists| ==> uid < lists[i].uid
    ensures ListAt(lists, uid) == if k == 0 then [] else lists[k - 1].ids
  {
    if lists != [] && k < |lists| {
      ListAtPosition(lists[..|lists| - 1], uid, k);
    }
  }

  lemma ListAtAppend(lists: seq<StreamList>, l: StreamList, uid: nat)
    ensures ListAt(lists + [l], uid) == if l.uid <= uid then l.ids else ListAt(lists, uid)
  {
    assert (lists + [l])[..|lists|] == lists;
  }

  // ---------------------------------------------------------------------------
  // The invariant over every run
  // ---------------------------------------------------------------------------

  /** The fields of the store as a value. */
  datatype Store = Store(uid: nat, chunks: seq<seq<Entry>>, lists: seq<StreamList>)

  /** The flat list of entries is the list of events, numbered. */
  ghost predicate EntriesInv(uid: nat, flat: seq<Entry>, events: seq<Event>) {
    && |flat| == |events|
    && (forall i :: 0 <= i < |events| ==> flat[i].uid <= uid && flat[i] == events[i].Stored(flat[i].uid))
    && (forall i, j :: 0 <= i < j < |flat| ==> flat[i].uid < flat[j].uid)
  }

  ghost predicate ListsInv(uid: nat, lists: seq<StreamList>, events: seq<Event>) {
    && Ordered(lists)
    && (forall i :: 0 <= i < |lists| ==> lists[i].uid <= uid)
    && Latest(lists) == Open(events)
  }

  /** For every entry, the list in force at its number is the replayed one. */
  ghost predicate Indexed(flat: seq<Entry>, lists: seq<StreamList>, events: seq<Event>) {
    forall i :: 0 <= i < |events| && i < |flat| ==> ListAt(lists, flat[i].uid) == OpenAt(events, i)
  }

  ghost predicate Inv(s: Store, events: seq<Event>) {
    && Chunked(s.chunks)
    && EntriesInv(s.uid, Flat(s.chunks), events)
    && ListsInv(s.uid, s.lists, events)
    && Indexed(Flat(s.chunks), s.lists, events)
  }

  /** Ending a stream numbers its last entry and then the list without the stream. */
  function UidAfter(uid: nat, e: Event): nat {
    if e.End? then uid + 2 else uid + 1
  }

  function ListsAfter(uid: nat, lists: seq<StreamList>, e: Event): seq<StreamList> {
    match e
    case Begin(id) => lists + [StreamList(uid + 1, Latest(lists) + [id])]
    case Add(_) => lists
    case End(id) => lists + [StreamList(uid + 2, EraseFirst(Latest(lists), id))]
  }

  /** What each operation does to the fields. */
  function After(s: Store, e: Event): Store {
    Store(UidAfter(s.uid, e), Emplaced(s.chunks, e.Stored(s.uid + 1)), ListsAfter(s.uid, s.lists, e))
  }

  lemma OpenAtPrefix(events: seq<Event>, e: Event, i: nat)
    requires i < |events|
    ensures OpenAt(events + [e], i) == OpenAt(events, i)
  {
    assert (events + [e])[..i] == events[..i] && (events + [e])[..i + 1] == events[..i + 1];
  }

  lemma LatestIsLast(lists: seq<StreamList>, uid: nat)
    requires forall i :: 0 <= i < |lists| ==> lists[i].uid <= uid
    ensures ListAt(lists, uid) == Latest(lists)
  {
  }

  lemma StepKeepsLists(uid: nat, lists: seq<StreamList>, events: seq<Event>, e: Event, uid1: nat,
                       lists1: seq<StreamList>, all: seq<Event>)
    requires ListsInv(uid, lists, events)
    requires uid1 == UidAfter(uid, e) && lists1 == ListsAfter(uid, lists, e) && all == events + [e]
    ensures ListsInv(uid1, lists1, all)
  {
    assert all[..|events|] == events;
  }

  lemma StepKeepsEntries(uid: nat, flat: seq<Entry>, events: seq<Event>, e: Event, uid1: nat, flat1: seq<Entry>,
                         all: seq<Event>)
    requires EntriesInv(uid, flat, events)
    requires uid1 == UidAfter(uid, e) && flat1 == flat + [e.Stored(uid + 1)] && all == events + [e]
    ensures EntriesInv(uid1, flat1, all)
  {
  }

  lemma StepKeepsIndex(uid: nat, flat: seq<Entry>, lists: seq<StreamList>, events: seq<Event>, e: Event,
                       flat1: seq<Entry>, lists1: seq<StreamList>, all: seq<Event>)
    requires EntriesInv(uid, flat, events) && ListsInv(uid, lists, events) && Indexed(flat, lists, events)
    requires flat1 == flat + [e.Stored(uid + 1)] && lists1 == ListsAfter(uid, lists, e) && all == events + [e]
    ensures Indexed(flat1, lists1, all)
  {
    assert all[..|events|] == events && all[..|events| + 1] == all;
    LatestIsLast(lists, uid + 1);
    forall i | 0 <= i < |all| ensures ListAt(lists1, flat1[i].uid) == OpenAt(all, i) {
      if i < |events| { OpenAtPrefix(events, e, i); }
      if !e.Add? { ListAtAppend(lists, lists1[|lists|], flat1[i].uid); }
    }
  }

  lemma StepKeepsParts(s: Store, flat: seq<Entry>, events: seq<Event>, e: Event, s1: Store, flat1: seq<Entry>,
                       all: seq<Event>)
    requires EntriesInv(s.uid, flat, events) && ListsInv(s.uid, s.lists, events) && Indexed(flat, s.lists, events)
    requires s1.uid == UidAfter(s.uid, e) && s1.lists == ListsAfter(s.uid, s.lists, e)
    requires flat1 == flat + [e.Stored(s.uid + 1)] && all == events + [e]
    ensures EntriesInv(s1.uid, flat1, all) && ListsInv(s1.uid, s1.lists, all) && Indexed(flat1, s1.lists, all)
  {
    StepKeepsLists(s.uid, s.lists, events, e, s1.uid, s1.lists, all);
    StepKeepsEntries(s.uid, flat, events, e, s1.uid, flat1, all);
    StepKeepsIndex(s.uid, flat, s.lists, events, e, flat1, s1.lists, all);
  }

  /** Every operation keeps the index in agreement with the replay. */
  lemma StepKeepsInv(s: Store, events: seq<Event>, e: Event, s1: Store, all: seq<Event>)
    requires Inv(s, events) && s1 == After(s, e) && all == events + [e]
    ensures Inv(s1, all)
  {
    EmplaceChunked(s.chunks, e.Stored(s.uid + 1), s1.chunks);
    EmplaceAppends(s.chunks, e.Stored(s.uid + 1), s1.chunks);
    StepKeepsParts(s, Flat(s.chunks), events, e, s1, Flat(s1.chunks), all);
  }

  function Initial(): Store { Store(0, [], []) }

  function Run(events: seq<Event>): Store {
    if events == [] then Initial() else After(Run(events[..|events| - 1]), events[|events| - 1])
  }

  lemma {:induction false} RunInv(events: seq<Event>)
    ensures Inv(Run(events), events)
  {
    if events != [] {
      var n := |events| - 1;
      RunInv(events[..n]);
      assert events == events[..n] + [events[n]];
      StepKeepsInv(Run(events[..n]), events[..n], events[n], Run(events), events);
    }
  }

  /** For every run and every stored entry: the searched list is the replayed one. */
  lemma SearchAgreesWithReplay(events: seq<Event>, i: nat)
    requires i < |events|
    ensures var s := Run(events);
            && Count(s.chunks) == |events| == |Flat(s.chunks)|
            && ListAt(s.lists, Flat(s.chunks)[i].uid) == OpenAt(events, i)
            && Flat(s.chunks)[i].streamId == events[i].StreamOf()
  {
    RunInv(events);
    FlatIndex(Run(events).chunks);
  }

  /** What each stored entry is, and that entries are numbered upwards. */
  lemma StoredEntries(events: seq<Event>, i: nat)
    requires i < |events|
    ensures |Flat(Run(events).chunks)| == |events|
    ensures var e := Flat(Run(events).chunks)[i];
            match events[i]
            case Begin(id) => e.streamId == id && e.isFirst && !e.isLast
            case Add(entry) => e == entry.(uid := e.uid)
            case End(id) => e.streamId == id && !e.isFirst && e.isLast
    ensures forall j :: 0 <= j < i ==> Flat(Run(events).chunks)[j].uid < Flat(Run(events).chunks)[i].uid
  {
    RunInv(events);
  }

  // ---------------------------------------------------------------------------
  // Which streams are open
  // ---------------------------------------------------------------------------

  /** The event with index `i` begins a stream that no later event ends. */
  ghost predicate Opens(events: seq<Event>, id: StreamId, i: nat) {
    i < |events| && events[i] == Begin(id) && forall j :: i < j < |events| ==> events[j] != End(id)
  }

  /** No stream begins again before it has ended. */
  ghost predicate Orderly(events: seq<Event>) {
    forall i, j :: 0 <= i < j < |events| && events[i].Begin? && events[j] == events[i] ==>
      exists k :: i < k < j && events[k] == End(events[i].id)
  }

  lemma OrderlyPrefix(events: seq<Event>, n: nat)
    requires n <= |events| && Orderly(events)
    ensures Orderly(events[..n])
  {
    var before := events[..n];
    forall i, j | 0 <= i < j < n && before[i].Begin? && before[j] == before[i]
      ensures exists k :: i < k < j && before[k] == End(before[i].id)
    {
      assert events[i].Begin? && events[j] == events[i];
      var k :| i < k < j && events[k] == End(events[i].id);
      assert before[k] == events[k];
    }
  }

  lemma OpensOneMore(events: seq<Event>, n: nat, id: StreamId, i: nat)
    requires n + 1 == |events|
    ensures Opens(events, id, i) <==>
            if i == n then events[n] == Begin(id) else Opens(events[..n], id, i) && events[n] != End(id)
  {
  }

  ghost predicate Distinct(ids: seq<StreamId>) {
    forall k, m :: 0 <= k < m < |ids| ==> ids[k] != ids[m]
  }

  lemma RemovedAt<T>(s: seq<T>, f: nat, k: nat)
    requires f < |s| && k < |s| - 1
    ensures (s[..f] + s[f + 1..])[k] == s[if k < f then k else k + 1]
  {
  }

  lemma ErasedAt(ids: seq<StreamId>, id: StreamId, k: nat)
    requires k < |EraseFirst(ids, id)|
    ensures var k' := if k < IndexOf(ids, id) then k else k + 1;
            k' < |ids| && EraseFirst(ids, id)[k] == ids[k'] && (Distinct(ids) ==> ids[k'] != id)
  {
    var f := IndexOf(ids, id);
    if f < |ids| { RemovedAt(ids, f, k); }
  }

  lemma ErasedHolds(ids: seq<StreamId>, id: StreamId, x: StreamId)
    requires Distinct(ids)
    ensures x in EraseFirst(ids, id) <==> x in ids && x != id
    ensures Distinct(EraseFirst(ids, id))
  {
    var rest, f := EraseFirst(ids, id), IndexOf(ids, id);
    forall k, m | 0 <= k < m < |rest| ensures rest[k] != rest[m] {
      ErasedAt(ids, id, k);
      ErasedAt(ids, id, m);
    }
    if x in rest {
      var k :| 0 <= k < |rest| && rest[k] == x;
      ErasedAt(ids, id, k);
    }
    if x in ids && x != id {
      var k :| 0 <= k < |ids| && ids[k] == x;
      assert rest[if k < f then k else k - 1] == x;
    }
  }

  /** Exactly the streams that have begun and not ended since are open, each once. */
  lemma {:induction false} OpenHolds(events: seq<Event>, id: StreamId)
    requires Orderly(events)
    ensures id in Open(events) <==> exists i: nat :: Opens(events, id, i)
    ensures Distinct(Open(events))
  {
    if events != [] {
      var n := |events| - 1;
      OrderlyPrefix(events, n);
      OpenHolds(events[..n], id);
      var open := Open(events[..n]);
      forall i: nat ensures Opens(events, id, i) <==>
                            if i == n then events[n] == Begin(id) else Opens(events[..n], id, i) && events[n] != End(id)
      {
        OpensOneMore(events, n, id, i);
      }
      match events[n]
      case Begin(x) =>
        OpenHolds(events[..n], x);
        forall i: nat ensures !Opens(events[..n], x, i) { BegunOnce(events, n, x, i); }
        BegunOpen(open, x, id);
        if id == x { assert Opens(events, id, n); }
      case Add(_) =>
      case End(x) =>
        ErasedHolds(open, x, id);
    }
  }

  lemma BegunOpen(open: seq<StreamId>, x: StreamId, id: StreamId)
    ensures id in open + [x] <==> id in open || id == x
  {
    assert (open + [x])[|open|] == x;
  }

  lemma BegunOnce(events: seq<Event>, n: nat, id: StreamId, i: nat)
    requires n + 1 == |events| && Orderly(events) && events[n] == Begin(id)
    ensures !Opens(events[..n], id, i)
  {
    if i < n && events[i] == Begin(id) {
      var k :| i < k < n && events[k] == End(events[i].id);
      assert events[..n][k] == End(id);
    }
  }

  /** Of two open streams, the one that began earlier stands in front. */
  lemma {:induction false} OpenInOrder(events: seq<Event>, k: nat, m: nat, i: nat, j: nat)
    requires Orderly(events) && k < m < |Open(events)|
    requires Opens(events, Open(events)[k], i) && Opens(events, Open(events)[m], j)
    ensures i < j
  {
    var n := |events| - 1;
    var open := Open(events[..n]);
    OrderlyPrefix(events, n);
    OpensOneMore(events, n, Open(events)[k], i);
    OpensOneMore(events, n, Open(events)[m], j);
    match events[n]
    case Begin(x) =>
      OpenHolds(events, x);
      assert Open(events) == open + [x] && Open(events)[|open|] == x;
      BegunOnce(events, n, x, j);
      if j < n { OpenInOrder(events[..n], k, m, i, j); }
    case Add(_) =>
      OpenInOrder(events[..n], k, m, i, j);
    case End(x) =>
      ErasedAt(open, x, k);
      ErasedAt(open, x, m);
      var f := IndexOf(open, x);
      OpenInOrder(events[..n], if k < f then k else k + 1, if m < f then m else m + 1, i, j);
  }

  class LogEntryStorage {
    var uidSequence: nat
    var entries: seq<seq<Entry>>
    var streamLists: seq<StreamList>
    ghost var events: seq<Event>

    ghost function Fields(): Store
      reads this
    {
      Store(uidSequence, entries, streamLists)
    }

    ghost predicate Valid()
      reads this
    {
      Inv(Fields(), events)
    }

    constructor ()
      ensures Valid() && Fields() == Initial() && events == []
    {
      uidSequence, entries, streamLists, events := 0, [], [], [];
    }

    method EmplaceNextEntry(entry: Entry)
      modifies this`entries
      ensures entries == Emplaced(old(entries), entry)
    {
      if |entries| > 0 {
        if |entries[|entries| - 1]| >= CHUNK_SIZE {
          entries := entries + [[]];
        }
      } else {
        entries := entries + [[]];
      }
      var last := |entries| - 1;
      assert last == |old(entries)| ==> [] + [entry] == [entry];
      entries := entries[last := entries[last] + [entry]];
      assert last == |old(entries)| ==> entries == old(entries) + [[entry]];
    }

    /** What the next list starts from, a copy of the last one: the streams that are open now. */
    method LatestIds() returns (ids: seq<StreamId>)
      requires Latest(streamLists) == Open(events)
      ensures ids == Open(events)
    {
      ids := if |streamLists| > 0 then streamLists[|streamLists| - 1].ids else [];
    }

    method BeginStream(id: StreamId)
      requires Valid()
      modifies this
      ensures Valid() && events == old(events) + [Begin(id)] && Fields() == After(old(Fields()), Begin(id))
    {
      ghost var before := Fields();
      var ids := LatestIds();
      uidSequence := uidSequence + 1;
      streamLists := streamLists + [StreamList(uidSequence, ids + [id])];
      EmplaceNextEntry(Entry(uidSequence, id, true, false, "Log started"));
      events := events + [Begin(id)];
      StepKeepsInv(before, old(events), Begin(id), Fields(), events);
    }

    method AddEntry(entry: Entry)
      requires Valid()
      modifies this
      ensures Valid() && events == old(events) + [Add(entry)] && Fields() == After(old(Fields()), Add(entry))
    {
      ghost var before := Fields();
      uidSequence := uidSequence + 1;
      EmplaceNextEntry(entry.(uid := uidSequence));
      events := events + [Add(entry)];
      StepKeepsInv(before, old(events), Add(entry), Fields(), events);
    }

    method EndStream(id: StreamId)
      requires Valid()
      modifies this
      ensures Valid() && events == old(events) + [End(id)] && Fields() == After(old(Fields()), End(id))
    {
      ghost var before := Fields();
      uidSequence := uidSequence + 1;
      EmplaceNextEntry(Entry(uidSequence, id, false, true, "Log finished"));
      var ids := LatestIds();
      uidSequence := uidSequence + 1;
      ids := Erase(ids, id);
      streamLists := streamLists + [StreamList(uidSequence, ids)];
      events := events + [End(id)];
      StepKeepsInv(before, old(events), End(id), Fields(), events);
    }

    method EntryCount() returns (n: nat)
      requires Valid()
      ensures n == |events|
    {
      FlatIndex(entries);
      n := if |entries| > 0 then (|entries| - 1) * CHUNK_SIZE + |entries[|entries| - 1]| else 0;
    }

    /** The entry at `index`; the size of the last chunk is for the caller to respect. */
    method GetEntry(index: int) returns (entry: Option<Entry>)
      requires Valid()
      requires !(|events| <= index < |entries| * CHUNK_SIZE)
      ensures 0 <= index < |events| ==> entry == Some(Flat(entries)[index])
      ensures 0 <= index < |events| ==> entry == Some(events[index].Stored(entry.value.uid))
      ensures !(0 <= index < |events|) ==> entry == None
    {
      FlatIndex(entries);
      if |entries| > 0 && index >= 0 {
        var chunk := index / CHUNK_SIZE;
        if chunk < |entries| {
          return Some(entries[chunk][index % CHUNK_SIZE]);
        }
      }
      entry := None;
    }

    /** Binary search from the newest list backwards, then a linear one within the list found. */
    method GetEntryConnectors(entry: Entry) returns (result: Connectors)
      requires Valid()
      ensures result == ConnectorsIn(ListAt(streamLists, entry.uid), entry.streamId)
      ensures forall i :: 0 <= i < |events| && entry == Flat(entries)[i] ==>
                var open, id := OpenAt(events, i), events[i].StreamOf();
                && result.streamCount == |open|
                && (id in open ==> FirstIn(open, id, result.streamIndex))
                && (id !in open ==> result.streamIndex == |open|)
    {
      var first := SearchBack(streamLists, entry.uid);
      result := Connectors(0, 0);
      if first != |streamLists| {
        var ids := streamLists[|streamLists| - 1 - first].ids;
        var k := Find(ids, entry.streamId);
        result := Connectors(|ids|, k);
      }
    }
  }

  /** How many lists, counted from the newest, are numbered higher than `uid`. */
  method SearchBack(lists: seq<StreamList>, uid: nat) returns (first: nat)
    requires Ordered(lists)
    ensures first <= |lists|
    ensures ListAt(lists, uid) == if first == |lists| then [] else lists[|lists| - 1 - first].ids
  {
    var n := |lists|;
    var count: nat := n;
    first := 0;
    while count > 0
      invariant first + count <= n
      invariant forall i :: n - first <= i < n ==> uid < lists[i].uid
      invariant forall i :: 0 <= i < n - (first + count) ==> lists[i].uid <= uid
      decreases count
    {
      var step := count / 2;
      var it := first + step;
      if uid < lists[n - 1 - it].uid {
        first := it + 1;
        count := count - (step + 1);
      } else {
        count := step;
      }
    }
    ListAtPosition(lists, uid, n - first);
  }

  method Find(ids: seq<StreamId>, id: StreamId) returns (k: nat)
    ensures k == IndexOf(ids, id)
  {
    k := 0;
    while k < |ids| && ids[k] != id
      invariant k <= |ids| && k + IndexOf(ids[k..], id) == IndexOf(ids, id)
    {
      assert ids[k..][1..] == ids[k + 1..];
      k := k + 1;
    }
  }

  method Erase(ids: seq<StreamId>, id: StreamId) returns (rest: seq<StreamId>)
    ensures rest == EraseFirst(ids, id)
  {
    var k := Find(ids, id);
    rest := if k < |ids| then ids[..k] + ids[k + 1..] else ids;
  }

  // ---------------------------------------------------------------------------
  // Announcing rows to the views
  // ---------------------------------------------------------------------------

  /** The ranges lie end to end from 0 to `n`. */
  ghost predicate Tiles(ranges: seq<(nat, nat)>, n: nat) {
    if ranges == [] then n == 0
    else
      var last := ranges[|ranges| - 1];
      last.0 <= last.1 == n && Tiles(ranges[..|ranges| - 1], last.0)
  }

  /** Every row below the announced count was announced in exactly one range. */
  lemma {:induction false} AnnouncedOnce(ranges: seq<(nat, nat)>, n: nat, row: nat) returns (k: nat)
    requires Tiles(ranges, n) && row < n
    ensures k < |ranges| && ranges[k].0 <= row < ranges[k].1
    ensures forall j :: 0 <= j < |ranges| && ranges[j].0 <= row < ranges[j].1 ==> j == k
  {
    var m := |ranges| - 1;
    TilesBelow(ranges[..m], ranges[m].0);
    if ranges[m].0 <= row {
      k := m;
    } else {
      k := AnnouncedOnce(ranges[..m], ranges[m].0, row);
    }
  }

  lemma {:induction false} TilesBelow(ranges: seq<(nat, nat)>, n: nat)
    requires Tiles(ranges, n)
    ensures forall j :: 0 <= j < |ranges| ==> ranges[j].1 <= n
  {
    if ranges != [] { TilesBelow(ranges[..|ranges| - 1], ranges[|ranges| - 1].0); }
  }

  class EntryLog {
    var storage: LogEntryStorage
    var prevEntryCount: nat
    ghost var announced: seq<(nat, nat)>

    ghost predicate Valid()
      reads this, storage
    {
      storage.Valid() && prevEntryCount <= |storage.events| && Tiles(announced, prevEntryCount)
    }

    constructor (storage: LogEntryStorage)
      requires storage.Valid()
      ensures Valid() && this.storage == storage && prevEntryCount == |storage.events|
    {
      this.storage := storage;
      prevEntryCount := |storage.entries|;
      new;
      prevEntryCount := storage.EntryCount();
      announced := [(0, prevEntryCount)];
    }

    method CommitEntries()
      requires Valid()
      modifies this`prevEntryCount, this`announced
      ensures Valid() && prevEntryCount == |storage.events|
      ensures announced == old(announced) + [(old(prevEntryCount), prevEntryCount)]
    {
      var count := storage.EntryCount();
      announced := announced + [(prevEntryCount, count)];
      assert announced[..|announced| - 1] == old(announced);
      prevEntryCount := count;
    }

    method AddEntry(entry: Entry)
      requires Valid()
      modifies storage
      ensures Valid() && storage.events == old(storage.events) + [Add(entry)]
    {
      storage.AddEntry(entry);
    }

    method EndStream(id: StreamId)
      requires Valid()
      modifies this`prevEntryCount, this`announced, storage
      ensures Valid() && storage.events == old(storage.events) + [End(id)]
      ensures prevEntryCount == |storage.events|
    {
      storage.EndStream(id);
      CommitEntries();
    }

    /** Every row below the announced count is a real entry; other rows are for the storage to judge. */
    method GetEntryData(index: int) returns (entry: Option<Entry>)
      requires Valid() && !(|storage.events| <= index < |storage.entries| * CHUNK_SIZE)
      ensures 0 <= index < prevEntryCount ==> entry.Some?
      ensures entry.Some? <==> 0 <= index < |storage.events|
      ensures entry.Some? ==> entry.value == storage.events[index].Stored(entry.value.uid)
    {
      entry := storage.GetEntry(index);
    }
  }
}
