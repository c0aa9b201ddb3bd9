module AddrManFile {

  /**
   Writing the address manager to disk and reading it back.

   The ids, the random list and the tables are not written; they are rebuilt.  What comes back is the same manager
   with its ids renamed: the new entries 0, 1, ... in the order they were written, then the tried ones.
   */

  import opened Common
  import opened Closed
  import opened AddrManState
  import opened AddrManSteps
  import opened AddrManOps
  import opened AddrManCheck
  import opened AddrManager

  const FILE_FORMAT := 4
  const INCOMPATIBILITY_BASE := 32
  const V2_ASMAP := 2

  /** What AddrInfo writes: the two attempt times, the reference count and the flags are not among it. */
  datatype Record = Record(
    service: Service, services: set<nat>, time: int, source: NetAddr, lastSuccess: int, attempts: nat)

  function RecordOf(i: Info): Record { Record(i.service, i.services, i.time, i.source, i.lastSuccess, i.attempts) }

  function InfoOf(r: Record, randomPos: nat, inTried: bool): Info {
    Info(r.service, r.services, r.time, r.source, 0, 0, r.lastSuccess, r.attempts, 0, inTried, randomPos)
  }

  /** The file's fields in reading order; the bucket count is the one after undoing the XOR with 2**30. */
  datatype File = File(
    format: nat, compat: nat, nNew: int, nTried: int, nBuckets: int,
    news: seq<Record>, trieds: seq<Record>, rows: seq<seq<int>>, asmap: nat)

  /** The parts of a file are as long as its header says. */
  ghost predicate Parsed(f: File) {
    && (0 <= f.nNew <= NEW_BUCKET_COUNT * BUCKET_SIZE ==> |f.news| == f.nNew)
    && (0 <= f.nTried <= TRIED_BUCKET_COUNT * BUCKET_SIZE ==> |f.trieds| == f.nTried)
    && |f.rows| == (if f.nBuckets < 0 then 0 else f.nBuckets)
  }

  // ----- the renaming

  /** `ns` and `ts` list the new and the tried ids; `to` gives every id its new name. */
  datatype Names = Names(ns: seq<Nid>, ts: seq<Nid>, to: map<Nid, int>)

  ghost predicate NamesOk(s: State, m: Names) {
    && (forall x: Nid :: x in m.ns <==> x in NewIds(s)) && (forall x: Nid :: x in m.ts <==> x in TriedIds(s))
    && |m.ns| == |NewIds(s)| && |m.ts| == |TriedIds(s)| && m.to.Keys == s.mapInfo.Keys
    && (forall k :: 0 <= k < |m.ns| ==> m.ns[k] in m.to && m.to[m.ns[k]] == k)
    && (forall k :: 0 <= k < |m.ts| ==> m.ts[k] in m.to && m.to[m.ts[k]] == |m.ns| + k)
  }

  lemma NameOf(s: State, m: Names, x: Nid)
    requires NamesOk(s, m) && x in s.mapInfo
    ensures 0 <= m.to[x] < |m.ns| + |m.ts| && (m.to[x] < |m.ns| <==> !s.mapInfo[x].inTried)
    ensures m.to[x] < |m.ns| ==> m.ns[m.to[x]] == x
    ensures m.to[x] >= |m.ns| ==> m.ts[m.to[x] - |m.ns|] == x
  {
    if s.mapInfo[x].inTried {
      assert x in m.ts;
      var k :| 0 <= k < |m.ts| && m.ts[k] == x;
    } else {
      assert x in m.ns;
      var k :| 0 <= k < |m.ns| && m.ns[k] == x;
    }
  }

  lemma NamesDiffer(s: State, m: Names, x: Nid, y: Nid)
    requires NamesOk(s, m) && x in s.mapInfo && y in s.mapInfo && m.to[x] == m.to[y]
    ensures x == y
  {
    NameOf(s, m, x);
    NameOf(s, m, y);
  }

  // ----- writing

  ghost predicate Listing(order: seq<Nid>, ids: set<Nid>) {
    Distinct(order) && (forall x: Nid :: x in order <==> x in ids)
  }

  ghost function SetOf(ids: seq<Nid>): set<Nid> { set x | x in ids }

  lemma {:induction false} ListSize(ids: seq<Nid>)
    requires Distinct(ids)
    ensures |SetOf(ids)| == |ids|
  {
    if ids == [] {
    } else {
      var l := |ids| - 1;
      ListSize(ids[..l]);
      assert SetOf(ids) == SetOf(ids[..l]) + {ids[l]};
      assert ids[l] !in ids[..l];
    }
  }

  lemma ListFull(ids: seq<Nid>, all: set<Nid>)
    requires Distinct(ids) && forall x :: x in ids ==> x in all
    ensures |ids| <= |all|
    ensures (forall x :: x in all ==> x in ids) ==> |ids| == |all|
  {
    ListSize(ids);
    assert all == SetOf(ids) + (all - SetOf(ids));
    if forall x :: x in all ==> x in ids { assert all == SetOf(ids); }
  }

  function Row(slots: seq<Nid>, to: map<Nid, int>): (r: seq<int>)
    requires forall x :: x in slots && x != EMPTY ==> x in to
  {
    if slots == [] then []
    else Row(slots[..|slots| - 1], to) + (var x := slots[|slots| - 1]; if x == EMPTY then [] else [to[x]])
  }

  /** `f` is the file written for `s` under the names `m`. */
  ghost predicate Written(c: Config, f: File, s: State, m: Names) {
    && Inv(c, s) && NamesOk(s, m)
    && f.nNew == |m.ns| == |f.news| && f.nTried == |m.ts| == |f.trieds|
    && (forall k :: 0 <= k < |m.ns| ==> m.ns[k] in s.mapInfo && f.news[k] == RecordOf(s.mapInfo[m.ns[k]]))
    && (forall k :: 0 <= k < |m.ts| ==> m.ts[k] in s.mapInfo && f.trieds[k] == RecordOf(s.mapInfo[m.ts[k]]))
    && f.nBuckets == |f.rows| == NEW_BUCKET_COUNT
    && (forall b :: 0 <= b < NEW_BUCKET_COUNT ==> RowOk(s, m, b, f.rows[b]))
  }

  ghost predicate RowOk(s: State, m: Names, b: nat, row: seq<int>)
    requires Shape(s.vvNew, NEW_BUCKET_COUNT) && b < NEW_BUCKET_COUNT
  {
    && (forall x :: x in s.vvNew[b] && x != EMPTY ==> x in m.to)
    && row == Row(s.vvNew[b], m.to)
  }

  /** The ids of `order` written so far, and the numbers they got. */
  ghost predicate Numbered(s: State, order: seq<Nid>, k: nat, tried: bool, ids: seq<Nid>, number: map<Nid, int>)
    requires k <= |order|
  {
    && Distinct(ids)
    && (forall x: Nid :: x in ids <==> x in order[..k] && x in s.mapInfo && s.mapInfo[x].inTried == tried)
    && (forall j :: 0 <= j < |ids| ==> ids[j] in number && number[ids[j]] == j)
  }

  ghost predicate Recorded(s: State, ids: seq<Nid>, records: seq<Record>) {
    && |records| == |ids|
    && forall j :: 0 <= j < |ids| ==> ids[j] in s.mapInfo && records[j] == RecordOf(s.mapInfo[ids[j]])
  }

  lemma NumberedNext(s: State, order: seq<Nid>, k: nat, tried: bool, ids: seq<Nid>, number: map<Nid, int>,
                     number': map<Nid, int>)
    requires k < |order| && Distinct(order) && order[k] in s.mapInfo && Numbered(s, order, k, tried, ids, number)
    requires number' == number[order[k] := |ids|]
    ensures s.mapInfo[order[k]].inTried == tried ==> Numbered(s, order, k + 1, tried, ids + [order[k]], number')
    ensures s.mapInfo[order[k]].inTried != tried ==>
              Numbered(s, order, k + 1, tried, ids, number') && Numbered(s, order, k + 1, tried, ids, number)
  {
    var y: Nid, before := order[k], order[..k];
    assert order[..k + 1] == before + [y];
    assert y in ids ==> y in before;
    assert y !in before;
    forall j | 0 <= j < |ids| ensures ids[j] != order[k] { assert ids[j] in ids; }
    var ids' := ids + [order[k]];
    assert forall x: Nid :: x in ids' <==> x in ids || x == order[k];
    assert forall x: Nid :: x in order[..k + 1] <==> x in order[..k] || x == order[k];
  }

  /** One of the two passes over mapInfo that write the entries of one kind. */
  method WriteEntries(s: State, order: seq<Nid>, tried: bool)
    returns (records: seq<Record>, number: map<Nid, int>, ghost ids: seq<Nid>)
    requires Listing(order, s.mapInfo.Keys)
    requires forall x :: x in s.mapInfo ==> (s.mapInfo[x].inTried <==> s.mapInfo[x].refCount == 0)
    requires s.nNew == |NewIds(s)| && s.nTried == |TriedIds(s)|
    ensures Numbered(s, order, |order|, tried, ids, number) && Recorded(s, ids, records)
  {
    records, number, ids := [], map[], [];
    var nIds := 0;
    for k := 0 to |order|
      invariant Numbered(s, order, k, tried, ids, number) && Recorded(s, ids, records) && nIds == |ids|
    {
      var id := order[k];
      assert id in s.mapInfo.Keys;
      NumberedNext(s, order, k, tried, ids, number, number[id := nIds]);
      number := number[id := nIds];
      var info := s.mapInfo[id];
      if (if tried then info.inTried else info.refCount != 0) {
        NoOverflow(s, order, k, tried, ids + [id], number);
        assert nIds != (if tried then s.nTried else s.nNew);
        records := records + [RecordOf(info)];
        nIds := nIds + 1;
        ids := ids + [id];
      }
    }
  }

  lemma NoOverflow(s: State, order: seq<Nid>, k: nat, tried: bool, ids: seq<Nid>, number: map<Nid, int>)
    requires k < |order| && Numbered(s, order, k + 1, tried, ids, number)
    ensures |ids| <= if tried then |TriedIds(s)| else |NewIds(s)|
  {
    ListFull(ids, if tried then TriedIds(s) else NewIds(s));
  }

  /** The indexes of one bucket of the new table, and how many there are. */
  method WriteRow(slots: seq<Nid>, number: map<Nid, int>, ghost to: map<Nid, int>) returns (size: nat, row: seq<int>)
    requires forall x :: x in slots && x != EMPTY ==> x in to && x in number && number[x] == to[x]
    ensures row == Row(slots, to) && size == |row|
  {
    size, row := 0, [];
    for i := 0 to |slots|
      invariant size == |Row(slots[..i], to)|
    {
      assert slots[..i + 1][..i] == slots[..i];
      if slots[i] != EMPTY { size := size + 1; }
    }
    for i := 0 to |slots|
      invariant row == Row(slots[..i], to)
    {
      assert slots[..i + 1][..i] == slots[..i];
      if slots[i] != EMPTY { row := row + [number[slots[i]]]; }
    }
    assert slots[..|slots|] == slots;
  }

  method WriteRows(s: State, number: map<Nid, int>, ghost m: Names) returns (rows: seq<seq<int>>)
    requires Shape(s.vvNew, NEW_BUCKET_COUNT)
    requires forall b, x :: 0 <= b < NEW_BUCKET_COUNT && x in s.vvNew[b] && x != EMPTY ==>
               x in m.to && x in number && number[x] == m.to[x]
    ensures |rows| == NEW_BUCKET_COUNT && forall k :: 0 <= k < NEW_BUCKET_COUNT ==> RowOk(s, m, k, rows[k])
  {
    rows := [];
    for b := 0 to NEW_BUCKET_COUNT
      invariant |rows| == b && forall k :: 0 <= k < b ==> RowOk(s, m, k, rows[k])
    {
      var size, row := WriteRow(s.vvNew[b], number, m.to);
      rows := rows + [row];
    }
  }

  ghost function Renaming(s: State, ns: seq<Nid>, number: map<Nid, int>, number': map<Nid, int>): map<Nid, int>
    requires forall x :: x in s.mapInfo ==> x in (if s.mapInfo[x].inTried then number' else number)
  {
    map x | x in s.mapInfo :: if s.mapInfo[x].inTried then |ns| + number'[x] else number[x]
  }

  lemma RenamingOk(s: State, order: seq<Nid>, ns: seq<Nid>, number: map<Nid, int>, ts: seq<Nid>, number': map<Nid, int>)
    requires Listing(order, s.mapInfo.Keys)
    requires Numbered(s, order, |order|, false, ns, number) && Numbered(s, order, |order|, true, ts, number')
    ensures forall x :: x in s.mapInfo ==> x in (if s.mapInfo[x].inTried then number' else number)
    ensures NamesOk(s, Names(ns, ts, Renaming(s, ns, number, number')))
  {
    assert order[..|order|] == order;
    forall x: Nid ensures (x in ns <==> x in NewIds(s)) && (x in ts <==> x in TriedIds(s)) {
      assert x in s.mapInfo ==> x in s.mapInfo.Keys;
    }
    ListFull(ns, NewIds(s));
    ListFull(ts, TriedIds(s));
    var to := Renaming(s, ns, number, number');
    forall k | 0 <= k < |ns| ensures ns[k] in to && to[ns[k]] == k {
      var x: Nid := ns[k];
      assert x in ns && x in NewIds(s);
    }
    forall k | 0 <= k < |ts| ensures ts[k] in to && to[ts[k]] == |ns| + k {
      var x: Nid := ts[k];
      assert x in ts && x in TriedIds(s);
    }
  }

  lemma InvBasics(c: Config, s: State)
    requires Inv(c, s)
    ensures s.nNew == |NewIds(s)| && s.nTried == |TriedIds(s)| && EMPTY !in s.mapInfo
    ensures forall x :: x in s.mapInfo ==> (s.mapInfo[x].inTried <==> s.mapInfo[x].refCount == 0)
    ensures forall b, x :: 0 <= b < NEW_BUCKET_COUNT && x in s.vvNew[b] && x != EMPTY ==> x in NewIds(s)
  {
    assert NewIds(s) - {} == NewIds(s);
    forall x | x in s.mapInfo && s.mapInfo[x].inTried ensures s.mapInfo[x].refCount == 0 {
      assert InTriedSlot(c, s, x);
    }
    forall b, x | 0 <= b < NEW_BUCKET_COUNT && x in s.vvNew[b] && x != EMPTY ensures x in NewIds(s) {
      var p :| 0 <= p < |s.vvNew[b]| && s.vvNew[b][p] == x;
      assert NewSlotOk(c, s, b, p, s.vvNew[b][p]);
    }
  }

  /** AddrManImpl::Serialize; `order` is the order in which the hash map lists its entries. */
  method Serialize(c: Config, s: State, order: seq<Nid>, asmap: nat) returns (f: File, ghost m: Names)
    requires Inv(c, s) && Listing(order, s.mapInfo.Keys)
    ensures Written(c, f, s, m) && f.format == FILE_FORMAT && f.compat == INCOMPATIBILITY_BASE + FILE_FORMAT
    ensures f.asmap == asmap
  {
    InvBasics(c, s);
    ghost var ns, ts;
    var news, number := [], map[];
    news, number, ns := WriteEntries(s, order, false);
    var trieds, number' := [], map[];
    trieds, number', ts := WriteEntries(s, order, true);
    RenamingOk(s, order, ns, number, ts, number');
    m := Names(ns, ts, Renaming(s, ns, number, number'));
    var rows := WriteRows(s, number, m);
    f := File(FILE_FORMAT, INCOMPATIBILITY_BASE + FILE_FORMAT, s.nNew, s.nTried, NEW_BUCKET_COUNT,
              news, trieds, rows, asmap);
  }

  // ----- reading: what holds of every file

  /** The random list and the counters are right, whatever the file said. */
  ghost predicate Loose(c: Config, s: State) { RandomOk(s) && CountersOk(c, s, {}) }

  /** While reading: the counters are right for `n` new and `t` tried entries. */
  ghost predicate Counts(c: Config, s: State, n: int, t: int) { CountersOk(c, s.(nNew := n, nTried := t), {}) }

  /** Every address is indexed, by an entry that has it. */
  ghost predicate Indexed(s: State) {
    && (forall id :: id in s.mapInfo ==> s.mapInfo[id].service in s.mapAddr)
    && (forall a :: a in s.mapAddr ==> s.mapAddr[a] in s.mapInfo && s.mapInfo[s.mapAddr[a]].service == a)
  }

  /** A manager with `n` entries, named 0 to n - 1. */
  ghost predicate Dense(s: State, n: nat) {
    && |s.vRandom| == n && (forall id: Nid :: id in s.mapInfo <==> 0 <= id < n)
    && Shape(s.vvNew, NEW_BUCKET_COUNT) && Shape(s.vvTried, TRIED_BUCKET_COUNT)
  }

  ghost function Appended(s: State, i: Info, id: Nid): State {
    s.(mapInfo := s.mapInfo[id := i], mapAddr := s.mapAddr[i.service := id], vRandom := s.vRandom + [id])
  }

  lemma AppendedIndexes(s: State, i: Info, n: nat)
    requires RandomOk(s) && Indexed(s) && Dense(s, n) && i.randomPos == n
    ensures RandomOk(Appended(s, i, n)) && Indexed(Appended(s, i, n)) && Dense(Appended(s, i, n), n + 1)
  {
    assert n !in s.mapInfo;
    var s' := Appended(s, i, n);
    forall k | 0 <= k < |s'.vRandom| ensures s'.vRandom[k] in s'.mapInfo && s'.mapInfo[s'.vRandom[k]].randomPos == k {
      if k < n { assert s.vRandom[k] in s.mapInfo; }
    }
  }

  lemma AppendedNew(c: Config, s: State, i: Info, id: nat, s': State, n: int, t: int)
    requires Counts(c, s, n, t) && id !in s.mapInfo && s'.mapInfo == s.mapInfo[id := i] && !i.inTried
    requires var net := c.network(i.service); s'.netCounts == WithNew(s, net, NetCountOf(s, net).nNew + 1)
    ensures Counts(c, s', n + 1, t)
  {
    var s1, s1' := s.(nNew := n, nTried := t), s'.(nNew := n + 1, nTried := t);
    assert NewIds(s1) - {} == NewIds(s1) && NewIds(s1') - {} == NewIds(s1');
    assert TriedIds(s1') == TriedIds(s1) && NewIds(s1') == NewIds(s1) + {id};
    CountNewPlus(c, s1, s1', NewIds(s1), TriedIds(s1), id);
  }

  lemma AppendedTried(c: Config, s: State, i: Info, id: nat, s': State, n: int, t: int)
    requires Counts(c, s, n, t) && id !in s.mapInfo && s'.mapInfo == s.mapInfo[id := i] && i.inTried
    requires var net := c.network(i.service); s'.netCounts == WithTried(s, net, NetCountOf(s, net).nTried + 1)
    ensures Counts(c, s', n, t + 1)
  {
    var s1, s1' := s.(nNew := n, nTried := t), s'.(nNew := n, nTried := t + 1);
    assert NewIds(s1) - {} == NewIds(s1) && NewIds(s1') - {} == NewIds(s1');
    assert NewIds(s1') == NewIds(s1) && TriedIds(s1') == TriedIds(s1) + {id};
    CountTriedPlus(c, s1, s1', NewIds(s1), TriedIds(s1), id);
  }

  /** First the new entries, numbered as they come. */
  ghost predicate NewsLoaded(news: seq<Record>, s: State, n: nat)
    requires n <= |news|
  {
    && RandomOk(s) && Indexed(s) && Dense(s, n)
    && (forall k :: 0 <= k < n ==> s.mapInfo[k] == InfoOf(news[k], k, false))
    && s.vvTried == NewTable(TRIED_BUCKET_COUNT) && s.vvNew == NewTable(NEW_BUCKET_COUNT) && s.collisions == {}
  }

  method LoadNews(c: Config, news: seq<Record>) returns (s: State)
    ensures NewsLoaded(news, s, |news|) && Counts(c, s, |news|, 0)
  {
    s := Initial();
    InitialInv(c);
    assert Counts(c, s, 0, 0) by { assert s.(nNew := 0, nTried := 0) == s; }
    for n := 0 to |news|
      invariant NewsLoaded(news, s, n) && Counts(c, s, n, 0)
    {
      ghost var s0 := s;
      var info := InfoOf(news[n], |s.vRandom|, false);
      s := s.(mapInfo := s.mapInfo[n := info]);
      s := s.(mapAddr := s.mapAddr[info.service := n]);
      s := s.(vRandom := s.vRandom + [n]);
      var net := c.network(info.service);
      s := s.(netCounts := WithNew(s, net, NetCountOf(s, net).nNew + 1));
      NewsNext(news, s0, n, s);
      AppendedNew(c, s0, info, n, s, n, 0);
    }
  }

  lemma NewsNext(news: seq<Record>, s: State, n: nat, s': State)
    requires n < |news| && NewsLoaded(news, s, n)
    requires s' == Appended(s, InfoOf(news[n], n, false), n).(netCounts := s'.netCounts)
    ensures NewsLoaded(news, s', n + 1)
  {
    AppendedIndexes(s, InfoOf(news[n], n, false), n);
  }

  // ----- reading the tried entries

  /** Where a file comes from, if it was written by Serialize. */
  datatype Origin = Unknown | From(s: State, m: Names)

  ghost predicate Genuine(c: Config, f: File, o: Origin) { o.From? ==> Written(c, f, o.s, o.m) }

  /** An old id under its new name, once the names below `bound` have been given out. */
  ghost function Renamed(m: Names, x: Nid, bound: int): int {
    if x == EMPTY || x !in m.to || m.to[x] >= bound then EMPTY else m.to[x]
  }

  ghost predicate TriedTableIs(s: State, m: Names, t: Table, bound: int) {
    && Shape(s.vvTried, TRIED_BUCKET_COUNT) && Shape(t, TRIED_BUCKET_COUNT)
    && (forall b, p :: 0 <= b < TRIED_BUCKET_COUNT && 0 <= p < BUCKET_SIZE ==>
          t[b][p] == Renamed(m, s.vvTried[b][p], bound))
  }

  /** After `j` tried records, `a` of which were taken. */
  ghost predicate TriedsLoaded(f: File, o: Origin, s: State, j: nat, a: nat)
    requires j <= |f.trieds|
  {
    var n := |f.news|;
    && RandomOk(s) && Indexed(s) && Dense(s, n + a) && a <= j
    && (forall k :: 0 <= k < n ==> s.mapInfo[k] == InfoOf(f.news[k], k, false))
    && s.vvNew == NewTable(NEW_BUCKET_COUNT) && s.collisions == {}
    && (o.From? ==>
          && a == j && TriedTableIs(o.s, o.m, s.vvTried, n + j)
          && (forall k :: 0 <= k < j ==> s.mapInfo[n + k] == InfoOf(f.trieds[k], n + k, true)))
  }

  lemma TriedsStart(c: Config, f: File, o: Origin, s: State)
    requires NewsLoaded(f.news, s, |f.news|) && Genuine(c, f, o)
    ensures TriedsLoaded(f, o, s, 0, 0)
  {
    if o.From? {
      forall b, p | 0 <= b < TRIED_BUCKET_COUNT && 0 <= p < BUCKET_SIZE
        ensures s.vvTried[b][p] == Renamed(o.m, o.s.vvTried[b][p], |f.news|)
      {
        var x := o.s.vvTried[b][p];
        if x != EMPTY {
          assert TriedSlotOk(c, o.s, b, p, x);
          NameOf(o.s, o.m, x);
        }
      }
    }
  }

  /** The slot of a genuine tried record is free when the record is read. */
  lemma TriedFits(c: Config, f: File, o: Origin, s: State, j: nat)
    requires o.From? && Written(c, f, o.s, o.m) && j < |f.trieds| && TriedTableIs(o.s, o.m, s.vvTried, |f.news| + j)
    ensures var r := f.trieds[j]; var b := TriedBucket(c, r.service);
            && c.isValid(r.service) && s.vvTried[b][TriedPos(c, r.service, b)] == EMPTY
            && TriedTableIs(o.s, o.m, Put(s.vvTried, b, TriedPos(c, r.service, b), |f.news| + j), |f.news| + j + 1)
  {
    var x := o.m.ts[j];
    assert x in TriedIds(o.s) && InTriedSlot(c, o.s, x) && InfoOk(c, o.s.mapInfo[x]);
    assert o.m.to[x] == |f.news| + j;
    var b := TriedBucket(c, f.trieds[j].service);
    var p := TriedPos(c, f.trieds[j].service, b);
    assert o.s.vvTried[b][p] == x;
    var t := Put(s.vvTried, b, p, |f.news| + j);
    forall b', p' | 0 <= b' < TRIED_BUCKET_COUNT && 0 <= p' < BUCKET_SIZE
      ensures t[b'][p'] == Renamed(o.m, o.s.vvTried[b'][p'], |f.news| + j + 1)
    {
      var y := o.s.vvTried[b'][p'];
      if y != EMPTY {
        assert TriedSlotOk(c, o.s, b', p', y);
        if o.m.to[y] == |f.news| + j { NamesDiffer(o.s, o.m, x, y); }
      }
    }
  }

  // ----- no record is lost without a reason

  ghost predicate HasEntry(s: State, a: Service, inTried: bool) {
    exists id :: id in s.mapInfo && s.mapInfo[id].service == a && s.mapInfo[id].inTried == inTried
  }

  /** A tried record has become an entry, or its address is invalid, or its slot is taken. */
  ghost predicate TriedSettled(c: Config, s: State, r: Record) {
    && Shape(s.vvTried, TRIED_BUCKET_COUNT)
    && var b := TriedBucket(c, r.service);
       HasEntry(s, r.service, true) || !c.isValid(r.service) || s.vvTried[b][TriedPos(c, r.service, b)] != EMPTY
  }

  ghost predicate TriedsSettled(c: Config, f: File, s: State, j: nat)
    requires j <= |f.trieds|
  {
    forall k :: 0 <= k < j ==> TriedSettled(c, s, f.trieds[k])
  }

  /** Entries stay, and occupied slots stay occupied. */
  lemma TriedStaysSettled(c: Config, s: State, r: Record, s': State)
    requires TriedSettled(c, s, r) && Shape(s'.vvTried, TRIED_BUCKET_COUNT)
    requires forall id :: id in s.mapInfo && s.mapInfo[id].inTried ==>
               id in s'.mapInfo && s'.mapInfo[id].inTried && s'.mapInfo[id].service == s.mapInfo[id].service
    requires forall b, p :: 0 <= b < TRIED_BUCKET_COUNT && 0 <= p < BUCKET_SIZE && s.vvTried[b][p] != EMPTY ==>
               s'.vvTried[b][p] != EMPTY
    ensures TriedSettled(c, s', r)
  {
    if HasEntry(s, r.service, true) {
      var id :| id in s.mapInfo && s.mapInfo[id].service == r.service && s.mapInfo[id].inTried;
      assert id in s'.mapInfo;
    }
  }

  lemma SettledTakes(c: Config, f: File, s: State, j: nat, i: Info, id: Nid, s': State)
    requires j < |f.trieds| && TriedsSettled(c, f, s, j) && i == InfoOf(f.trieds[j], i.randomPos, true)
    requires Takes(c, s, i, id, s') && id !in s.mapInfo && id != EMPTY
    ensures TriedsSettled(c, f, s', j + 1)
  {
    PutShape(s.vvTried, TRIED_BUCKET_COUNT, TriedBucket(c, i.service),
             TriedPos(c, i.service, TriedBucket(c, i.service)), id);
    forall k | 0 <= k < j + 1 ensures TriedSettled(c, s', f.trieds[k]) {
      if k < j {
        TriedStaysSettled(c, s, f.trieds[k], s');
      } else {
        assert id in s'.mapInfo && HasEntry(s', i.service, true);
      }
    }
  }

  // ----- what holds of every file, whatever its records say

  /** The record with number `k`, new ones first. */
  ghost function RecordNo(f: File, k: nat): Record
    requires k < |f.news| + |f.trieds|
  {
    if k < |f.news| then f.news[k] else f.trieds[k - |f.news|]
  }

  predicate Unreferenced(i: Info) { !i.inTried && i.refCount == 0 }

  /** No address twice, and times the self-check accepts. */
  ghost predicate SoundRecords(f: File) {
    && (forall i: nat, j: nat :: i < j < |f.news| + |f.trieds| ==> RecordNo(f, i).service != RecordNo(f, j).service)
    && (forall k: nat :: k < |f.news| + |f.trieds| ==>
          RecordNo(f, k).lastSuccess >= 0 && (k >= |f.news| ==> RecordNo(f, k).lastSuccess != 0))
  }

  /** The entry was read from record `k`, one of the new ones or of the first `j` tried ones. */
  ghost predicate Recalls(f: File, j: nat, i: Info, k: nat) {
    && j <= |f.trieds| && k < |f.news| + j
    && i.service == RecordNo(f, k).service && i.lastSuccess == RecordNo(f, k).lastSuccess && i.lastTry == 0
    && (i.inTried <==> k >= |f.news|)
  }

  ghost predicate EntryOk(c: Config, f: File, j: nat, i: Info) {
    (exists k: nat :: Recalls(f, j, i, k)) && (c.isValid(i.service) || Unreferenced(i))
  }

  ghost predicate EntriesOk(c: Config, f: File, s: State, j: nat, n: nat) {
    forall id: Nid :: id in s.mapInfo ==> 0 <= id < n && EntryOk(c, f, j, s.mapInfo[id])
  }

  /** No address points to an entry that is gone or has another address. */
  ghost predicate AddrBack(s: State) {
    forall a :: a in s.mapAddr ==> s.mapAddr[a] in s.mapInfo && s.mapInfo[s.mapAddr[a]].service == a
  }

  /** After `j` tried records, with ids below `n`. */
  ghost predicate Sane(c: Config, f: File, s: State, j: nat, n: nat) {
    && TablesOk(c, s) && EntriesOk(c, f, s, j, n) && AddrBack(s) && s.collisions == {}
    && (SoundRecords(f) ==> AddrOk(s))
  }

  lemma SaneFrame(c: Config, f: File, s: State, j: nat, n: nat, s': State)
    requires Sane(c, f, s, j, n)
    requires s'.mapInfo == s.mapInfo && s'.mapAddr == s.mapAddr && s'.vvNew == s.vvNew && s'.vvTried == s.vvTried
    requires s'.collisions == {}
    ensures Sane(c, f, s', j, n)
  {
    TablesFrame(c, s, s');
  }

  lemma NoBuckets(c: Config, a: Service, id: Nid)
    requires id != EMPTY
    ensures Buckets(c, NewTable(NEW_BUCKET_COUNT), a, id) == {}
  {
  }

  lemma NewsTables(c: Config, news: seq<Record>, s: State)
    requires NewsLoaded(news, s, |news|)
    ensures TablesOk(c, s)
  {
    forall id | id in s.mapInfo ensures RefCountOk(c, s, id) && !s.mapInfo[id].inTried {
      assert s.mapInfo[id] == InfoOf(news[id], id, false);
      NoBuckets(c, s.mapInfo[id].service, id);
    }
  }

  lemma NewsAddr(f: File, s: State)
    requires NewsLoaded(f.news, s, |f.news|) && SoundRecords(f)
    ensures AddrOk(s)
  {
    forall id | id in s.mapInfo ensures s.mapInfo[id].service in s.mapAddr && s.mapAddr[s.mapInfo[id].service] == id {
      var x := s.mapAddr[s.mapInfo[id].service];
      assert s.mapInfo[x] == InfoOf(f.news[x], x, false) && s.mapInfo[id] == InfoOf(f.news[id], id, false);
      assert RecordNo(f, x) == f.news[x] && RecordNo(f, id) == f.news[id];
    }
  }

  lemma NewsSane(c: Config, f: File, s: State)
    requires NewsLoaded(f.news, s, |f.news|)
    ensures Sane(c, f, s, 0, |f.news|)
  {
    NewsTables(c, f.news, s);
    if SoundRecords(f) { NewsAddr(f, s); }
    forall id | id in s.mapInfo ensures EntryOk(c, f, 0, s.mapInfo[id]) {
      assert s.mapInfo[id] == InfoOf(f.news[id], id, false);
      assert Recalls(f, 0, s.mapInfo[id], id);
    }
  }

  lemma EntryStays(c: Config, f: File, j: nat, i: Info)
    requires EntryOk(c, f, j, i) && j < |f.trieds|
    ensures EntryOk(c, f, j + 1, i)
  {
    var k: nat :| Recalls(f, j, i, k);
    assert Recalls(f, j + 1, i, k);
  }

  lemma SaneSkips(c: Config, f: File, s: State, j: nat, n: nat)
    requires Sane(c, f, s, j, n) && j < |f.trieds|
    ensures Sane(c, f, s, j + 1, n)
  {
    forall id | id in s.mapInfo ensures EntryOk(c, f, j + 1, s.mapInfo[id]) { EntryStays(c, f, j, s.mapInfo[id]); }
  }

  /** What reading a tried record into a free slot does. */
  ghost predicate Takes(c: Config, s: State, i: Info, id: Nid, s': State) {
    && Shape(s.vvTried, TRIED_BUCKET_COUNT)
    && var b := TriedBucket(c, i.service); var p := TriedPos(c, i.service, b);
       && s.vvTried[b][p] == EMPTY && s'.vvTried == Put(s.vvTried, b, p, id) && s'.vvNew == s.vvNew
       && s'.mapInfo == s.mapInfo[id := i] && s'.mapAddr == s.mapAddr[i.service := id] && s'.collisions == s.collisions
  }

  lemma TakenTried(c: Config, s: State, i: Info, id: Nid, s': State)
    requires TriedOk(c, s) && EMPTY !in s.mapInfo && id !in s.mapInfo && id != EMPTY && i.inTried && i.refCount == 0
    requires Takes(c, s, i, id, s')
    ensures TriedOk(c, s')
  {
    var b := TriedBucket(c, i.service);
    var p := TriedPos(c, i.service, b);
    PutShape(s.vvTried, TRIED_BUCKET_COUNT, b, p, id);
    forall b', p' | 0 <= b' < TRIED_BUCKET_COUNT && 0 <= p' < BUCKET_SIZE && s'.vvTried[b'][p'] != EMPTY
      ensures TriedSlotOk(c, s', b', p', s'.vvTried[b'][p'])
    {
      if b' != b || p' != p { assert TriedSlotOk(c, s, b', p', s.vvTried[b'][p']); }
    }
    forall x | x in s'.mapInfo && s'.mapInfo[x].inTried ensures InTriedSlot(c, s', x) {
      if x != id { assert InTriedSlot(c, s, x); }
    }
  }

  lemma TakenNew(c: Config, s: State, i: Info, id: Nid, s': State)
    requires NewOk(c, s) && id !in s.mapInfo && id != EMPTY && i.refCount == 0
    requires s'.mapInfo == s.mapInfo[id := i] && s'.vvNew == s.vvNew
    ensures NewOk(c, s')
  {
    forall b, p | 0 <= b < NEW_BUCKET_COUNT && 0 <= p < BUCKET_SIZE && s'.vvNew[b][p] != EMPTY
      ensures NewSlotOk(c, s', b, p, s'.vvNew[b][p])
    {
      assert NewSlotOk(c, s, b, p, s.vvNew[b][p]);
    }
    forall x | x in s'.mapInfo ensures RefCountOk(c, s', x) {
      if x != id {
        assert RefCountOk(c, s, x);
      } else {
        forall b: nat | b < NEW_BUCKET_COUNT ensures s.vvNew[b][NewPos(c, i.service, b)] != id {
          var p := NewPos(c, i.service, b);
          assert s.vvNew[b][p] != EMPTY ==> NewSlotOk(c, s, b, p, s.vvNew[b][p]);
        }
        assert Buckets(c, s'.vvNew, i.service, id) == {};
      }
    }
  }

  /** The address of the next record is not known yet, unless the file lists it twice. */
  lemma NextIsUnknown(c: Config, f: File, s: State, j: nat, n: nat)
    requires Sane(c, f, s, j, n) && j < |f.trieds| && SoundRecords(f)
    ensures f.trieds[j].service !in s.mapAddr
  {
    forall id: Nid | id in s.mapInfo ensures s.mapInfo[id].service != f.trieds[j].service {
      assert EntryOk(c, f, j, s.mapInfo[id]);
      var k: nat :| Recalls(f, j, s.mapInfo[id], k);
      assert RecordNo(f, |f.news| + j) == f.trieds[j];
    }
  }

  lemma TakenAddr(s: State, i: Info, id: Nid, s': State)
    requires AddrBack(s) && id !in s.mapInfo && s'.mapInfo == s.mapInfo[id := i]
    requires s'.mapAddr == s.mapAddr[i.service := id]
    ensures AddrBack(s') && (AddrOk(s) && i.service !in s.mapAddr ==> AddrOk(s'))
  {
  }

  lemma SaneTakes(c: Config, f: File, s: State, j: nat, n: nat, i: Info, s': State)
    requires Sane(c, f, s, j, n) && j < |f.trieds| && i == InfoOf(f.trieds[j], i.randomPos, true)
    requires c.isValid(i.service)
    requires Takes(c, s, i, n, s')
    ensures Sane(c, f, s', j + 1, n + 1)
  {
    assert n !in s.mapInfo;
    TakenTried(c, s, i, n, s');
    TakenNew(c, s, i, n, s');
    TakenAddr(s, i, n, s');
    if SoundRecords(f) { NextIsUnknown(c, f, s, j, n); }
    forall id | id in s'.mapInfo ensures 0 <= id < n + 1 && EntryOk(c, f, j + 1, s'.mapInfo[id]) {
      if id == n {
        assert Recalls(f, j + 1, i, |f.news| + j);
      } else {
        EntryStays(c, f, j, s.mapInfo[id]);
      }
    }
  }

  /** Unserialize's second loop; a record whose slot is taken or whose address is invalid is lost. */
  method LoadTrieds(c: Config, f: File, s0: State, ghost o: Origin) returns (s: State, lost: nat, a: nat, n: nat)
    requires Reading(c, f, o, s0, 0, 0)
    ensures n == |f.trieds| == lost + a && Reading(c, f, o, s, n, a)
  {
    s, lost, a, n := s0, 0, 0, 0;
    while n < |f.trieds|
      invariant lost + a == n <= |f.trieds| && Reading(c, f, o, s, n, a)
    {
      var taken;
      s, taken := LoadTried(c, f, s, o, n, a);
      if taken == a { lost := lost + 1; }
      a, n := taken, n + 1;
    }
  }

  /** After `j` tried records, `a` of which were taken; kept closed. */
  ghost predicate Reading(c: Config, f: File, o: Origin, s: State, j: nat, a: nat) {
    forall k: int :: Key(1, k) ==> ReadingNow(c, f, o, s, j, a)
  }

  ghost predicate ReadingNow(c: Config, f: File, o: Origin, s: State, j: nat, a: nat) {
    && j <= |f.trieds| && TriedsRead(c, f, o, s, j, a) && Sane(c, f, s, j, |f.news| + a) && Genuine(c, f, o)
    && TriedsSettled(c, f, s, j)
  }

  lemma Reading0(c: Config, f: File, s: State, o: Origin)
    requires NewsLoaded(f.news, s, |f.news|) && Counts(c, s, |f.news|, 0) && Genuine(c, f, o)
    ensures Reading(c, f, o, s, 0, 0)
  {
    TriedsStart(c, f, o, s);
    NewsSane(c, f, s);
  }

  lemma OpenReading(c: Config, f: File, o: Origin, s: State, j: nat, a: nat)
    requires Reading(c, f, o, s, j, a)
    ensures j <= |f.trieds| && TriedsRead(c, f, o, s, j, a) && Sane(c, f, s, j, |f.news| + a) && Genuine(c, f, o)
    ensures TriedsSettled(c, f, s, j)
  {
    assert Key(1, 0);
  }

  ghost predicate TriedsRead(c: Config, f: File, o: Origin, s: State, j: nat, a: nat)
    requires j <= |f.trieds|
  {
    TriedsLoaded(f, o, s, j, a) && Counts(c, s, |f.news|, a)
  }

  method LoadTried(c: Config, f: File, s0: State, ghost o: Origin, j: nat, a: nat) returns (s: State, a': nat)
    requires j < |f.trieds| && Reading(c, f, o, s0, j, a)
    ensures a <= a' <= a + 1 && Reading(c, f, o, s, j + 1, a')
  {
    s, a' := s0, a;
    BeforeReading(c, f, o, s0, j, a);
    var nIdCount := |f.news| + a;
    var info := InfoOf(f.trieds[j], |s.vRandom|, true);
    var b := TriedBucket(c, info.service);
    var p := TriedPos(c, info.service, b);
    if c.isValid(info.service) && s.vvTried[b][p] == EMPTY {
      a' := a + 1;
      s := TakeTried(c, s, info, nIdCount, b, p);
      TakenReading(c, f, o, s0, j, a, a', info, s);
    } else {
      SkippedReading(c, f, o, s0, j, a);
    }
  }

  lemma BeforeReading(c: Config, f: File, o: Origin, s: State, j: nat, a: nat)
    requires j < |f.trieds| && Reading(c, f, o, s, j, a)
    ensures |s.vRandom| == |f.news| + a && Shape(s.vvTried, TRIED_BUCKET_COUNT)
  {
    OpenReading(c, f, o, s, j, a);
  }

  lemma TakenReading(c: Config, f: File, o: Origin, s: State, j: nat, a: nat, a': nat, i: Info, s': State)
    requires a' == a + 1 && j < |f.trieds| && Reading(c, f, o, s, j, a) && i == InfoOf(f.trieds[j], |f.news| + a, true)
    requires c.isValid(i.service) && Shape(s.vvTried, TRIED_BUCKET_COUNT)
    requires var b := TriedBucket(c, i.service); var p := TriedPos(c, i.service, b); var net := c.network(i.service);
             var id := |f.news| + a;
             && s.vvTried[b][p] == EMPTY


             && s' == Appended(s, i, id).(vvTried := Put(s.vvTried, b, p, id),
                                          netCounts := WithTried(s, net, NetCountOf(s, net).nTried + 1))
    ensures Reading(c, f, o, s', j + 1, a')
  {
    OpenReading(c, f, o, s, j, a);
    TriedTaken(c, f, o, s, j, a, i, s');
    SaneTakes(c, f, s, j, |f.news| + a, i, s');
    SettledTakes(c, f, s, j, i, |f.news| + a, s');
  }

  lemma SkippedReading(c: Config, f: File, o: Origin, s: State, j: nat, a: nat)
    requires j < |f.trieds| && Reading(c, f, o, s, j, a)
    requires Shape(s.vvTried, TRIED_BUCKET_COUNT)
    requires var r := f.trieds[j]; var b := TriedBucket(c, r.service);
             !c.isValid(r.service) || s.vvTried[b][TriedPos(c, r.service, b)] != EMPTY
    ensures Reading(c, f, o, s, j + 1, a)
  {
    OpenReading(c, f, o, s, j, a);
    assert TriedsRead(c, f, o, s, j + 1, a) by { if o.From? { TriedFits(c, f, o, s, j); } }
    SaneSkips(c, f, s, j, |f.news| + a);
    SettledSkips(c, f, s, j);
    assert ReadingNow(c, f, o, s, j + 1, a);
  }

  lemma SettledSkips(c: Config, f: File, s: State, j: nat)
    requires j < |f.trieds| && TriedsSettled(c, f, s, j) && Shape(s.vvTried, TRIED_BUCKET_COUNT)
    requires var r := f.trieds[j]; var b := TriedBucket(c, r.service);
             !c.isValid(r.service) || s.vvTried[b][TriedPos(c, r.service, b)] != EMPTY
    ensures TriedsSettled(c, f, s, j + 1)
  {
  }

  lemma TriedTaken(c: Config, f: File, o: Origin, s: State, j: nat, a: nat, i: Info, s': State)
    requires j < |f.trieds| && TriedsRead(c, f, o, s, j, a) && Genuine(c, f, o)
    requires i == InfoOf(f.trieds[j], |f.news| + a, true)
    requires var b := TriedBucket(c, i.service); var p := TriedPos(c, i.service, b); var net := c.network(i.service);
             var id := |f.news| + a;
             s' == Appended(s, i, id).(vvTried := Put(s.vvTried, b, p, id),
                                       netCounts := WithTried(s, net, NetCountOf(s, net).nTried + 1))
    ensures TriedsRead(c, f, o, s', j + 1, a + 1)
  {
    var id := |f.news| + a;
    assert id !in s.mapInfo && Shape(s.vvTried, TRIED_BUCKET_COUNT);
    AppendedTried(c, s, i, id, s', |f.news|, a);
    TriedTakenTable(c, f, o, s, j, a, i.service, s'.vvTried);
    TriedsNext(f, o, s, j, a, i, s');
  }

  lemma TriedTakenTable(c: Config, f: File, o: Origin, s: State, j: nat, a: nat, service: Service, t: Table)
    requires j < |f.trieds| && Genuine(c, f, o) && service == f.trieds[j].service
    requires Shape(s.vvTried, TRIED_BUCKET_COUNT)
    requires o.From? ==> a == j && TriedTableIs(o.s, o.m, s.vvTried, |f.news| + j)
    requires var b := TriedBucket(c, service); t == Put(s.vvTried, b, TriedPos(c, service, b), |f.news| + a)
    ensures Shape(t, TRIED_BUCKET_COUNT) && (o.From? ==> TriedTableIs(o.s, o.m, t, |f.news| + j + 1))
  {
    if o.From? { TriedFits(c, f, o, s, j); }
  }

  method TakeTried(c: Config, s0: State, info: Info, id: Nid, b: nat, p: nat) returns (s: State)
    requires b < |s0.vvTried| && p < |s0.vvTried[b]|
    ensures var net := c.network(info.service);
            s == Appended(s0, info, id).(vvTried := Put(s0.vvTried, b, p, id),
                                         netCounts := WithTried(s0, net, NetCountOf(s0, net).nTried + 1))
  {
    s := s0.(vRandom := s0.vRandom + [id]);
    s := s.(mapInfo := s.mapInfo[id := info]);
    s := s.(mapAddr := s.mapAddr[info.service := id]);
    s := s.(vvTried := Put(s.vvTried, b, p, id));
    var net := c.network(info.service);
    s := s.(netCounts := WithTried(s, net, NetCountOf(s, net).nTried + 1));
  }

  lemma TriedsNext(f: File, o: Origin, s: State, j: nat, a: nat, i: Info, s': State)
    requires j < |f.trieds| && TriedsLoaded(f, o, s, j, a) && i == InfoOf(f.trieds[j], |f.news| + a, true)
    requires s' == Appended(s, i, |f.news| + a).(vvTried := s'.vvTried, netCounts := s'.netCounts)
    requires Shape(s'.vvTried, TRIED_BUCKET_COUNT)
    requires o.From? ==> TriedTableIs(o.s, o.m, s'.vvTried, |f.news| + j + 1)
    ensures TriedsLoaded(f, o, s', j + 1, a + 1)
  {
    assert RandomOk(s') && Indexed(s') && Dense(s', |f.news| + a + 1) by { AppendedIndexes(s, i, |f.news| + a); }
    forall k | 0 <= k < |f.news| ensures s'.mapInfo[k] == InfoOf(f.news[k], k, false) {
      assert s.mapInfo[k] == InfoOf(f.news[k], k, false);
    }
    if o.From? {
      forall k | 0 <= k < j + 1 ensures s'.mapInfo[|f.news| + k] == InfoOf(f.trieds[k], |f.news| + k, true) {
        if k < j { assert s.mapInfo[|f.news| + k] == InfoOf(f.trieds[k], |f.news| + k, true); }
      }
    }
  }

  // ----- the bucket entries of a file

  function RowPairs(b: int, row: seq<int>, n: int): seq<(int, int)> {
    if row == [] then [] else
      RowPairs(b, row[..|row| - 1], n) + (var e := row[|row| - 1]; if 0 <= e < n then [(b, e)] else [])
  }

  function Pairs(rows: seq<seq<int>>, n: int): seq<(int, int)> {
    if rows == [] then [] else Pairs(rows[..|rows| - 1], n) + RowPairs(|rows| - 1, rows[|rows| - 1], n)
  }

  method CollectEntries(rows: seq<seq<int>>, n: int) returns (entries: seq<(int, int)>)
    ensures entries == Pairs(rows, n)
  {
    entries := [];
    for b := 0 to |rows|
      invariant entries == Pairs(rows[..b], n)
    {
      ghost var before := entries;
      for k := 0 to |rows[b]|
        invariant entries == before + RowPairs(b, rows[b][..k], n)
      {
        assert rows[b][..k + 1][..k] == rows[b][..k];
        var e := rows[b][k];
        if 0 <= e < n { entries := entries + [(b, e)]; }
      }
      assert rows[b][..|rows[b]|] == rows[b];
      assert rows[..b + 1][..b] == rows[..b];
    }
    assert rows[..|rows|] == rows;
  }

  /** Every entry names a bucket of the file and a new record. */
  lemma {:induction false} RowPairsInRange(b: int, row: seq<int>, n: int)
    ensures forall k :: 0 <= k < |RowPairs(b, row, n)| ==>
              RowPairs(b, row, n)[k].0 == b && 0 <= RowPairs(b, row, n)[k].1 < n
  {
    if row != [] { RowPairsInRange(b, row[..|row| - 1], n); }
  }

  lemma {:induction false} PairsInRange(rows: seq<seq<int>>, n: int)
    ensures forall k :: 0 <= k < |Pairs(rows, n)| ==> 0 <= Pairs(rows, n)[k].0 < |rows| && 0 <= Pairs(rows, n)[k].1 < n
  {
    if rows != [] {
      PairsInRange(rows[..|rows| - 1], n);
      RowPairsInRange(|rows| - 1, rows[|rows| - 1], n);
    }
  }

  // ----- the slots the entries of a genuine file come from

  type Slot = (int, int)

  ghost function RowSlots(b: int, slots: seq<Nid>): seq<Slot> {
    if slots == [] then [] else
      RowSlots(b, slots[..|slots| - 1]) + (if slots[|slots| - 1] == EMPTY then [] else [(b, |slots| - 1)])
  }

  lemma {:induction false} RowSlotsAre(b: int, slots: seq<Nid>)
    ensures forall k :: 0 <= k < |RowSlots(b, slots)| ==>
              var w := RowSlots(b, slots)[k]; w.0 == b && 0 <= w.1 < |slots| && slots[w.1] != EMPTY
    ensures forall i :: 0 <= i < |slots| && slots[i] != EMPTY ==> (b, i) in RowSlots(b, slots)
  {
    if slots != [] {
      var l := |slots| - 1;
      RowSlotsAre(b, slots[..l]);
      forall i | 0 <= i < |slots| && slots[i] != EMPTY ensures (b, i) in RowSlots(b, slots) {
        if i < l { assert slots[..l][i] == slots[i]; assert (b, i) in RowSlots(b, slots[..l]); }
      }
    }
  }

  lemma {:induction false} RowSlotsDistinct(b: int, slots: seq<Nid>)
    ensures Distinct(RowSlots(b, slots))
  {
    if slots != [] {
      var l := |slots| - 1;
      var us := RowSlots(b, slots[..l]);
      RowSlotsDistinct(b, slots[..l]);
      RowSlotsAre(b, slots[..l]);
      forall i | 0 <= i < |us| ensures us[i] != (b, l) { assert us[i].1 < l; }
    }
  }

  ghost predicate RowRead(b: int, slots: seq<Nid>, to: map<Nid, int>, p: (int, int), w: Slot) {
    0 <= w.1 < |slots| && slots[w.1] in to && p == (b, to[slots[w.1]])
  }

  lemma RowPairsNext(b: int, slots: seq<Nid>, to: map<Nid, int>, n: int)
    requires slots != [] && forall x :: x in slots && x != EMPTY ==> x in to && 0 <= to[x] < n
    ensures var x, before := slots[|slots| - 1], slots[..|slots| - 1];
            RowPairs(b, Row(slots, to), n) == RowPairs(b, Row(before, to), n) + if x == EMPTY then [] else [(b, to[x])]
  {
    var l := |slots| - 1;
    var row, row' := Row(slots, to), Row(slots[..l], to);
    var x: Nid := slots[l];
    assert x in slots;
    if x == EMPTY {
      assert row == row';
    } else {
      assert row == row' + [to[x]] && row[..|row| - 1] == row' && row[|row| - 1] == to[x];
    }
  }

  /** A written row reads back as one entry for each occupied slot. */
  lemma {:induction false} RowReads(b: int, slots: seq<Nid>, to: map<Nid, int>, n: int)
    requires forall x :: x in slots && x != EMPTY ==> x in to && 0 <= to[x] < n
    ensures var ps, ws := RowPairs(b, Row(slots, to), n), RowSlots(b, slots);
            |ps| == |ws| && forall k :: 0 <= k < |ps| ==> RowRead(b, slots, to, ps[k], ws[k])
  {
    if slots != [] {
      var l := |slots| - 1;
      RowReads(b, slots[..l], to, n);
      RowPairsNext(b, slots, to, n);
      var ps, ws := RowPairs(b, Row(slots[..l], to), n), RowSlots(b, slots[..l]);
      forall k | 0 <= k < |ps| ensures RowRead(b, slots, to, ps[k], ws[k]) {
        assert RowRead(b, slots[..l], to, ps[k], ws[k]);
      }
    }
  }

  ghost function TableSlots(t: Table): seq<Slot> {
    if t == [] then [] else TableSlots(t[..|t| - 1]) + RowSlots(|t| - 1, t[|t| - 1])
  }

  /** The slot lies in the table and is occupied. */
  ghost predicate Occupied(t: Table, w: Slot) {
    0 <= w.0 < |t| && 0 <= w.1 < |t[w.0]| && t[w.0][w.1] != EMPTY
  }

  lemma {:induction false} TableSlotsAre(t: Table)
    ensures forall w: Slot :: w in TableSlots(t) <==> Occupied(t, w)
    ensures Distinct(TableSlots(t))
  {
    if t != [] {
      var l := |t| - 1;
      var t' := t[..l];
      TableSlotsAre(t');
      RowSlotsAre(l, t[l]);
      RowSlotsDistinct(l, t[l]);
      var us, ws := TableSlots(t'), RowSlots(l, t[l]);
      forall w: Slot ensures w in us + ws <==> Occupied(t, w) {
        assert w in us <==> Occupied(t', w);
        if w in ws { var k :| 0 <= k < |ws| && ws[k] == w; }
        if Occupied(t, w) && w.0 == l { assert (l, w.1) in ws; }
      }
      forall i, j | 0 <= i < j < |us + ws| ensures (us + ws)[i] != (us + ws)[j] {
        if i < |us| && j >= |us| { assert us[i] in us; assert Occupied(t', us[i]); }
      }
    }
  }
}
