module AddrManLoad {

  /** Reading the address manager back: bucket entries, pruning, the final check, and the round trip. */

  import opened Common
  import opened Closed
  import opened AddrManState
  import opened AddrManSteps
  import opened AddrManOps
  import opened AddrManCheck
  import opened AddrManager
  import opened AddrManFile

  // ----- the entries of a genuine file name its slots

  ghost predicate RowWritten(slots: seq<Nid>, to: map<Nid, int>, row: seq<int>, n: int) {
    (forall x :: x in slots && x != EMPTY ==> x in to && 0 <= to[x] < n) && row == Row(slots, to)
  }

  lemma RowReadsAs(t: Table, to: map<Nid, int>, l: nat, row: seq<int>, n: int)
    requires l < |t| && RowWritten(t[l], to, row, n)
    ensures var ps, ws := RowPairs(l, row, n), RowSlots(l, t[l]);
            |ps| == |ws| && forall k :: 0 <= k < |ws| ==> Reads(t, to, ps[k], ws[k])
  {
    RowReads(l, t[l], to, n);
    RowSlotsAre(l, t[l]);
  }

  lemma ReadsLonger(t: Table, l: nat, to: map<Nid, int>, ps: seq<(int, int)>, ws: seq<Slot>)
    requires l <= |t| && |ps| == |ws| && forall k :: 0 <= k < |ws| ==> Reads(t[..l], to, ps[k], ws[k])
    ensures forall k :: 0 <= k < |ws| ==> Reads(t, to, ps[k], ws[k])
  {
    forall k | 0 <= k < |ws| ensures Reads(t, to, ps[k], ws[k]) { assert Reads(t[..l], to, ps[k], ws[k]); }
  }

  lemma {:induction false} PrefixReads(t: Table, to: map<Nid, int>, rows: seq<seq<int>>, n: int)
    requires |rows| == |t| && forall b :: 0 <= b < |t| ==> RowWritten(t[b], to, rows[b], n)
    ensures var ps, ws := Pairs(rows, n), TableSlots(t);
            |ps| == |ws| && forall k :: 0 <= k < |ws| ==> Reads(t, to, ps[k], ws[k])
  {
    if t != [] {
      var l := |t| - 1;
      forall b | 0 <= b < l ensures RowWritten(t[..l][b], to, rows[..l][b], n) {
        assert RowWritten(t[b], to, rows[b], n);
      }
      PrefixReads(t[..l], to, rows[..l], n);
      ReadsLonger(t, l, to, Pairs(rows[..l], n), TableSlots(t[..l]));
      RowReadsAs(t, to, l, rows[l], n);
    }
  }

  /** Entry `p` of a file stands for slot `w` of the table. */
  ghost predicate Reads(t: Table, to: map<Nid, int>, p: (int, int), w: Slot) {
    && 0 <= w.0 < |t| && 0 <= w.1 < |t[w.0]| && t[w.0][w.1] in to && p == (w.0, to[t[w.0][w.1]])
  }

  lemma FileReads(c: Config, f: File, s: State, m: Names)
    requires Written(c, f, s, m)
    ensures var ps, ws := Pairs(f.rows, f.nNew), TableSlots(s.vvNew);
            |ps| == |ws| && forall k :: 0 <= k < |ws| ==> Reads(s.vvNew, m.to, ps[k], ws[k])
  {
    InvBasics(c, s);
    forall b | 0 <= b < NEW_BUCKET_COUNT
      ensures RowWritten(s.vvNew[b], m.to, f.rows[b], f.nNew)
    {
      assert RowOk(s, m, b, f.rows[b]);
      forall x | x in s.vvNew[b] && x != EMPTY ensures x in m.to && 0 <= m.to[x] < f.nNew {
        assert x in NewIds(s);
        NameOf(s, m, x);
      }
    }
    PrefixReads(s.vvNew, m.to, f.rows, f.nNew);
  }

  // ----- giving entries their slots back

  ghost predicate SameButRefs(s: State, s': State) {
    && s' == s.(mapInfo := s'.mapInfo, vvNew := s'.vvNew) && s'.mapInfo.Keys == s.mapInfo.Keys
    && Shape(s'.vvNew, NEW_BUCKET_COUNT)
    && (forall id :: id in s.mapInfo ==> s'.mapInfo[id] == s.mapInfo[id].(refCount := s'.mapInfo[id].refCount))
  }

  /** The bucket of the address by its own source. */
  function PrimaryBucket(c: Config, i: Info): nat { NewBucket(c, i.service, i.source) }

  /** Entry `e` has a slot, or its address is invalid, or the slot by its own source is taken. */
  ghost predicate NewSettled(c: Config, s: State, e: Nid) {
    && Shape(s.vvNew, NEW_BUCKET_COUNT) && e in s.mapInfo
    && var i := s.mapInfo[e];
       || i.refCount > 0 || !c.isValid(i.service)
       || s.vvNew[PrimaryBucket(c, i)][NewPos(c, i.service, PrimaryBucket(c, i))] != EMPTY
  }

  lemma NewStaysSettled(c: Config, s: State, e: Nid, s': State)
    requires NewSettled(c, s, e) && SameButRefs(s, s') && s'.mapInfo[e].refCount >= s.mapInfo[e].refCount
    requires forall b, p :: 0 <= b < NEW_BUCKET_COUNT && 0 <= p < BUCKET_SIZE && s.vvNew[b][p] != EMPTY ==>
               s'.vvNew[b][p] != EMPTY
    ensures NewSettled(c, s', e)
  {
    assert e in s.mapInfo.Keys;
  }

  /** Filling a free slot leaves everything settled that was. */
  lemma FillsKeepsSettled(c: Config, s: State, b: nat, e: Nid, s': State, x: Nid)
    requires Fills(c, s, b, e, s') && SameButRefs(s, s') && NewSettled(c, s, x) && e != EMPTY
    ensures NewSettled(c, s', x)
  {
    NewStaysSettled(c, s, x, s');
  }

  /** Entry `e`, valid and not yet in eight slots, gets a free slot of bucket `b`. */
  ghost predicate Fills(c: Config, s: State, b: nat, e: Nid, s': State) {
    && Shape(s.vvNew, NEW_BUCKET_COUNT) && b < NEW_BUCKET_COUNT && e in s.mapInfo
    && c.isValid(s.mapInfo[e].service) && s.mapInfo[e].refCount < NEW_BUCKETS_PER_ADDRESS
    && s.vvNew[b][NewPos(c, s.mapInfo[e].service, b)] == EMPTY
    && s' == FilledSlot(s, b, NewPos(c, s.mapInfo[e].service, b), e)
  }

  lemma SaneFills(c: Config, f: File, s: State, j: nat, n: nat, b: nat, e: Nid, s': State)
    requires Sane(c, f, s, j, n) && Fills(c, s, b, e, s') && !s.mapInfo[e].inTried
    ensures Sane(c, f, s', j, n)
  {
    FilledTables(c, s, b, NewPos(c, s.mapInfo[e].service, b), e);
    forall id | id in s'.mapInfo ensures 0 <= id < n && EntryOk(c, f, j, s'.mapInfo[id]) {
      assert EntryOk(c, f, j, s.mapInfo[id]);
      var k: nat :| Recalls(f, j, s.mapInfo[id], k);
      assert Recalls(f, j, s'.mapInfo[id], k);
    }
  }

  method RestoreEntry(c: Config, s0: State, bucket: int, e: Nid, restore: bool) returns (s: State)
    requires e in s0.mapInfo && Shape(s0.vvNew, NEW_BUCKET_COUNT) && (restore ==> 0 <= bucket < NEW_BUCKET_COUNT)
    ensures SameButRefs(s0, s) && forall id :: id in s0.mapInfo && id != e ==> s.mapInfo[id] == s0.mapInfo[id]
    ensures s == s0 || exists b: nat :: Fills(c, s0, b, e, s)
    ensures NewSettled(c, s, e)
    ensures var i := s0.mapInfo[e];
            restore && c.isValid(i.service) && i.refCount < NEW_BUCKETS_PER_ADDRESS &&
            s0.vvNew[bucket][NewPos(c, i.service, bucket)] == EMPTY ==>
              s == FilledSlot(s0, bucket, NewPos(c, i.service, bucket), e)
  {
    s := s0;
    var info := s.mapInfo[e];
    if !c.isValid(info.service) { return; }
    if info.refCount >= NEW_BUCKETS_PER_ADDRESS { return; }
    if restore && s.vvNew[bucket][NewPos(c, info.service, bucket)] == EMPTY {
      s := s.(vvNew := Put(s.vvNew, bucket, NewPos(c, info.service, bucket), e));
      s := s.(mapInfo := s.mapInfo[e := info.(refCount := info.refCount + 1)]);
      assert Fills(c, s0, bucket, e, s);
    } else {
      var b := PrimaryBucket(c, info);
      var p := NewPos(c, info.service, b);
      if s.vvNew[b][p] == EMPTY {
        s := s.(vvNew := Put(s.vvNew, b, p, e));
        s := s.(mapInfo := s.mapInfo[e := info.(refCount := info.refCount + 1)]);
        assert Fills(c, s0, b, e, s);
      }
    }
  }

  lemma SameButRefsTransitive(s: State, s': State, s'': State)
    requires SameButRefs(s, s') && SameButRefs(s', s'')
    ensures SameButRefs(s, s'')
  {
  }

  /** The buckets of `x` among the first `t` occupied slots. */
  ghost function Got(c: Config, s: State, t: nat, x: Nid): set<nat>
    requires Shape(s.vvNew, NEW_BUCKET_COUNT) && x in s.mapInfo && t <= |TableSlots(s.vvNew)|
  {
    var a := s.mapInfo[x].service;
    set b: nat | b < NEW_BUCKET_COUNT && s.vvNew[b][NewPos(c, a, b)] == x &&
    (b as int, NewPos(c, a, b) as int) in TableSlots(s.vvNew)[..t]
  }

  ghost predicate SlotRestored(s: State, m: Names, t: nat, b: nat, p: nat, x: int)
    requires Shape(s.vvNew, NEW_BUCKET_COUNT) && t <= |TableSlots(s.vvNew)| && b < NEW_BUCKET_COUNT && p < BUCKET_SIZE
  {
    if (b as int, p as int) in TableSlots(s.vvNew)[..t] then s.vvNew[b][p] in m.to && x == m.to[s.vvNew[b][p]]
    else x == EMPTY
  }

  /** After the first `t` entries of a genuine file: table and reference counts, as far as they go. */
  ghost predicate Refilled(c: Config, s: State, m: Names, t: nat, s': State)
    requires Shape(s.vvNew, NEW_BUCKET_COUNT) && t <= |TableSlots(s.vvNew)|
  {
    && Shape(s'.vvNew, NEW_BUCKET_COUNT)
    && (forall b: nat, p: nat :: b < NEW_BUCKET_COUNT && p < BUCKET_SIZE ==>
          SlotRestored(s, m, t, b, p, s'.vvNew[b][p]))
    && (forall x :: x in NewIds(s) ==> CountRestored(c, s, m, t, s', x))
  }

  ghost predicate CountRestored(c: Config, s: State, m: Names, t: nat, s': State, x: Nid)
    requires Shape(s.vvNew, NEW_BUCKET_COUNT) && t <= |TableSlots(s.vvNew)|
  {
    x in s.mapInfo && x in m.to && m.to[x] in s'.mapInfo && s'.mapInfo[m.to[x]].refCount == |Got(c, s, t, x)|
  }

  /** The next slot: whose it is, and that it is not restored yet. */
  lemma NextSlot(c: Config, s: State, t: nat)
    requires Inv(c, s) && t < |TableSlots(s.vvNew)|
    ensures var w := TableSlots(s.vvNew)[t];
            && 0 <= w.0 < NEW_BUCKET_COUNT && 0 <= w.1 < BUCKET_SIZE && w !in TableSlots(s.vvNew)[..t]
            && (forall w' : Slot :: w' in TableSlots(s.vvNew)[..t + 1] <==> w' in TableSlots(s.vvNew)[..t] || w' == w)
    ensures var w := TableSlots(s.vvNew)[t];
            var x := s.vvNew[w.0][w.1];
            && x in NewIds(s) && x != EMPTY && w.1 == NewPos(c, s.mapInfo[x].service, w.0)
            && c.isValid(s.mapInfo[x].service) && |Got(c, s, t, x)| < NEW_BUCKETS_PER_ADDRESS
  {
    TableSlotsAre(s.vvNew);
    var ws := TableSlots(s.vvNew);
    var w := ws[t];
    assert w in ws && Occupied(s.vvNew, w);
    var x := s.vvNew[w.0][w.1];
    assert NewSlotOk(c, s, w.0, w.1, x);
    assert InfoOk(c, s.mapInfo[x]);
    assert ws[..t + 1] == ws[..t] + [w];
    assert RefCountOk(c, s, x);
    var all, met := Buckets(c, s.vvNew, s.mapInfo[x].service, x), Got(c, s, t, x);
    assert met <= all && w.0 in all;
    assert w !in ws[..t];
    ProperlySmaller(met, all, w.0);
  }

  lemma GotSame(c: Config, s: State, t: nat, y: Nid, w: Slot)
    requires Shape(s.vvNew, NEW_BUCKET_COUNT) && t < |TableSlots(s.vvNew)| && y in s.mapInfo
    requires 0 <= w.0 < NEW_BUCKET_COUNT && 0 <= w.1 < BUCKET_SIZE
    requires forall w': Slot :: w' in TableSlots(s.vvNew)[..t + 1] <==> w' in TableSlots(s.vvNew)[..t] || w' == w
    ensures s.vvNew[w.0][w.1] != y ==> Got(c, s, t + 1, y) == Got(c, s, t, y)
    ensures s.vvNew[w.0][w.1] == y && NewPos(c, s.mapInfo[y].service, w.0) == w.1 ==>
              Got(c, s, t + 1, y) == Got(c, s, t, y) + {w.0}
  {
  }

  lemma GotNext(c: Config, s: State, t: nat, y: Nid)
    requires Inv(c, s) && t < |TableSlots(s.vvNew)| && y in s.mapInfo
    ensures var w := TableSlots(s.vvNew)[t];
            && 0 <= w.0 < NEW_BUCKET_COUNT && 0 <= w.1 < BUCKET_SIZE
            && |Got(c, s, t + 1, y)| == |Got(c, s, t, y)| + if s.vvNew[w.0][w.1] == y then 1 else 0
  {
    NextSlot(c, s, t);
    var w := TableSlots(s.vvNew)[t];
    GotSame(c, s, t, y, w);
    if s.vvNew[w.0][w.1] == y { assert w.0 !in Got(c, s, t, y); }
  }

  lemma RestoreSlots(s: State, m: Names, t: nat, s': State, w: Slot, e: Nid)
    requires Shape(s.vvNew, NEW_BUCKET_COUNT) && t < |TableSlots(s.vvNew)| && Shape(s'.vvNew, NEW_BUCKET_COUNT)
    requires e in s'.mapInfo
    requires 0 <= w.0 < NEW_BUCKET_COUNT && 0 <= w.1 < BUCKET_SIZE && s.vvNew[w.0][w.1] in m.to
    requires e == m.to[s.vvNew[w.0][w.1]]
    requires forall w': Slot :: w' in TableSlots(s.vvNew)[..t + 1] <==> w' in TableSlots(s.vvNew)[..t] || w' == w
    requires forall b: nat, p: nat :: b < NEW_BUCKET_COUNT && p < BUCKET_SIZE ==>
               SlotRestored(s, m, t, b, p, s'.vvNew[b][p])
    ensures var v := FilledSlot(s', w.0, w.1, e).vvNew;
            && Shape(v, NEW_BUCKET_COUNT)
            && forall b: nat, p: nat :: b < NEW_BUCKET_COUNT && p < BUCKET_SIZE ==>
                 SlotRestored(s, m, t + 1, b, p, v[b][p])
  {
    var v := FilledSlot(s', w.0, w.1, e).vvNew;
    forall b: nat, p: nat | b < NEW_BUCKET_COUNT && p < BUCKET_SIZE ensures SlotRestored(s, m, t + 1, b, p, v[b][p]) {
      assert SlotRestored(s, m, t, b, p, s'.vvNew[b][p]);
      assert (b as int, p as int) == w <==> b == w.0 && p == w.1;
    }
  }

  lemma RestoreCount(c: Config, s: State, m: Names, t: nat, s': State, w: Slot, y: Nid)
    requires Inv(c, s) && NamesOk(s, m) && t < |TableSlots(s.vvNew)| && w == TableSlots(s.vvNew)[t] && y in NewIds(s)
    requires 0 <= w.0 < |s'.vvNew| && 0 <= w.1 < |s'.vvNew[w.0]| && 0 <= w.0 < NEW_BUCKET_COUNT
    requires 0 <= w.1 < BUCKET_SIZE
    requires s.vvNew[w.0][w.1] in NewIds(s) && m.to[s.vvNew[w.0][w.1]] in s'.mapInfo && CountRestored(c, s, m, t, s', y)
    ensures CountRestored(c, s, m, t + 1, FilledSlot(s', w.0, w.1, m.to[s.vvNew[w.0][w.1]]), y)
  {
    GotNext(c, s, t, y);
    var x := s.vvNew[w.0][w.1];
    if m.to[y] == m.to[x] { NamesDiffer(s, m, x, y); }
  }

  lemma RestoreNext(c: Config, s: State, m: Names, t: nat, s': State)
    requires Inv(c, s) && NamesOk(s, m) && t < |TableSlots(s.vvNew)| && Refilled(c, s, m, t, s')
    ensures var w := TableSlots(s.vvNew)[t];
            && 0 <= w.0 < NEW_BUCKET_COUNT && 0 <= w.1 < BUCKET_SIZE
            && s.vvNew[w.0][w.1] in m.to && m.to[s.vvNew[w.0][w.1]] in s'.mapInfo
            && s'.vvNew[w.0][w.1] == EMPTY && s'.mapInfo[m.to[s.vvNew[w.0][w.1]]].refCount < NEW_BUCKETS_PER_ADDRESS
            && Refilled(c, s, m, t + 1, FilledSlot(s', w.0, w.1, m.to[s.vvNew[w.0][w.1]]))
  {
    NextSlot(c, s, t);
    var w := TableSlots(s.vvNew)[t];
    var x := s.vvNew[w.0][w.1];
    assert CountRestored(c, s, m, t, s', x);
    assert SlotRestored(s, m, t, w.0, w.1, s'.vvNew[w.0][w.1]);
    RestoreSlots(s, m, t, s', w, m.to[x]);
    forall y | y in NewIds(s) ensures CountRestored(c, s, m, t + 1, FilledSlot(s', w.0, w.1, m.to[x]), y) {
      assert CountRestored(c, s, m, t, s', y);
      RestoreCount(c, s, m, t, s', w, y);
    }
  }

  lemma RestoreStart(c: Config, f: File, o: Origin, s: State, a: nat)
    requires TriedsLoaded(f, o, s, |f.trieds|, a) && o.From? && Written(c, f, o.s, o.m)
    ensures Refilled(c, o.s, o.m, 0, s)
  {
    forall x | x in NewIds(o.s) ensures CountRestored(c, o.s, o.m, 0, s, x) {
      NameOf(o.s, o.m, x);
      assert Got(c, o.s, 0, x) == {};
      assert s.mapInfo[o.m.to[x]] == InfoOf(f.news[o.m.to[x]], o.m.to[x], false);
    }
  }

  /** The record read for an entry has its address. */
  lemma RecordMatches(c: Config, f: File, o: Origin, s: State, a: nat, x: Nid)
    requires TriedsLoaded(f, o, s, |f.trieds|, a) && o.From? && Written(c, f, o.s, o.m) && x in o.s.mapInfo
    ensures o.m.to[x] in s.mapInfo
    ensures s.mapInfo[o.m.to[x]] == o.s.mapInfo[x].(lastTry := 0, lastCountAttempt := 0, refCount := 0,
            randomPos := o.m.to[x])
  {
    RecordAt(c, f, o.s, o.m, x);
    RecordBack(o.s.mapInfo[x], o.m.to[x]);
    InfoAt(f, o, s, a, o.m.to[x]);
  }

  lemma RecordBack(i: Info, p: nat)
    ensures InfoOf(RecordOf(i), p, i.inTried) == i.(lastTry := 0, lastCountAttempt := 0, refCount := 0, randomPos := p)
  {
  }

  lemma RecordAt(c: Config, f: File, s: State, m: Names, x: Nid)
    requires Written(c, f, s, m) && x in s.mapInfo
    ensures 0 <= m.to[x] < |f.news| + |f.trieds| && (m.to[x] < |f.news| <==> !s.mapInfo[x].inTried)
    ensures RecordNo(f, m.to[x]) == RecordOf(s.mapInfo[x])
  {
    NameOf(s, m, x);
  }

  lemma InfoAt(f: File, o: Origin, s: State, a: nat, k: nat)
    requires TriedsLoaded(f, o, s, |f.trieds|, a) && o.From? && k < |f.news| + |f.trieds|
    ensures k in s.mapInfo && s.mapInfo[k] == InfoOf(RecordNo(f, k), k, k >= |f.news|)
  {
    if k >= |f.news| {
      var j := k - |f.news|;
      assert s.mapInfo[|f.news| + j] == InfoOf(f.trieds[j], |f.news| + j, true);
    }
  }

  /** The records named by the first `t` bucket entries are settled. */
  ghost predicate NewsSettled(c: Config, f: File, s: State, t: nat) {
    && t <= |Pairs(f.rows, f.nNew)|
    && forall k :: 0 <= k < t ==> NewSettled(c, s, Pairs(f.rows, f.nNew)[k].1)
  }

  /** After `t` entries of the file; kept closed. */
  ghost predicate Restoring(c: Config, f: File, o: Origin, s0: State, t: nat, s: State) {
    forall k: int :: Key(2, k) ==> RestoringNow(c, f, o, s0, t, s)
  }

  ghost predicate RestoringNow(c: Config, f: File, o: Origin, s0: State, t: nat, s: State) {
    && SameButRefs(s0, s) && (forall id :: id in s0.mapInfo && id >= |f.news| ==> s.mapInfo[id] == s0.mapInfo[id])
    && Sane(c, f, s, |f.trieds|, s0.nIdCount) && NewsSettled(c, f, s, t)
    && (o.From? ==> Shape(o.s.vvNew, NEW_BUCKET_COUNT) && t <= |TableSlots(o.s.vvNew)| && Refilled(c, o.s, o.m, t, s))
  }

  lemma OpenRestoring(c: Config, f: File, o: Origin, s0: State, t: nat, s: State)
    requires Restoring(c, f, o, s0, t, s)
    ensures RestoringNow(c, f, o, s0, t, s)
  {
    assert Key(2, 0);
  }

  lemma RestoringStart(c: Config, f: File, o: Origin, s0: State, a: nat)
    requires TriedsLoaded(f, o, s0, |f.trieds|, a) && Genuine(c, f, o) && Sane(c, f, s0, |f.trieds|, s0.nIdCount)
    ensures Restoring(c, f, o, s0, 0, s0)
  {
    if o.From? { RestoreStart(c, f, o, s0, a); }
  }

  lemma NewsStaySettled(c: Config, f: File, s: State, t: nat, b: nat, e: Nid, s': State)
    requires NewsSettled(c, f, s, t) && Fills(c, s, b, e, s') && SameButRefs(s, s') && e != EMPTY
    ensures NewsSettled(c, f, s', t)
  {
    forall k | 0 <= k < t ensures NewSettled(c, s', Pairs(f.rows, f.nNew)[k].1) {
      FillsKeepsSettled(c, s, b, e, s', Pairs(f.rows, f.nNew)[k].1);
    }
  }

  method RestoreStep(c: Config, f: File, s0: State, s1: State, entry: (int, int), restore: bool, ghost o: Origin,
                     ghost a: nat, ghost t: nat)
    returns (s: State)
    requires TriedsLoaded(f, o, s0, |f.trieds|, a) && Genuine(c, f, o) && f.nNew == |f.news|
    requires Restoring(c, f, o, s0, t, s1)
    requires 0 <= entry.1 < f.nNew && (restore ==> 0 <= entry.0 < NEW_BUCKET_COUNT) && (o.From? ==> restore)
    requires t < |Pairs(f.rows, f.nNew)| && entry == Pairs(f.rows, f.nNew)[t]
    requires o.From? ==> |Pairs(f.rows, f.nNew)| == |TableSlots(o.s.vvNew)|
    ensures Restoring(c, f, o, s0, t + 1, s)
  {
    BeforeRestore(c, f, o, s0, a, t, s1, entry.1);
    s := RestoreEntry(c, s1, entry.0, entry.1, restore);
    RestoredNow(c, f, o, s0, a, t, s1, s);
  }

  lemma BeforeRestore(c: Config, f: File, o: Origin, s0: State, a: nat, t: nat, s: State, e: Nid)
    requires TriedsLoaded(f, o, s0, |f.trieds|, a) && Restoring(c, f, o, s0, t, s) && 0 <= e < |f.news|
    ensures e in s.mapInfo && Shape(s.vvNew, NEW_BUCKET_COUNT)
  {
    OpenRestoring(c, f, o, s0, t, s);
    assert e in s0.mapInfo.Keys;
  }

  /** What RestoreEntry has done to entry `e`. */
  ghost predicate Handled(c: Config, s: State, e: Nid, s': State) {
    && SameButRefs(s, s') && (forall id :: id in s.mapInfo && id != e ==> s'.mapInfo[id] == s.mapInfo[id])
    && (s' == s || exists b: nat :: Fills(c, s, b, e, s')) && NewSettled(c, s', e)
  }

  lemma HandledIsSane(c: Config, f: File, s: State, n: nat, t: nat, e: Nid, s': State)
    requires Sane(c, f, s, |f.trieds|, n) && NewsSettled(c, f, s, t) && Handled(c, s, e, s')
    requires e in s.mapInfo && !s.mapInfo[e].inTried && e != EMPTY
    requires t < |Pairs(f.rows, f.nNew)| && Pairs(f.rows, f.nNew)[t].1 == e
    ensures Sane(c, f, s', |f.trieds|, n) && NewsSettled(c, f, s', t + 1)
  {
    if s' != s {
      var b: nat :| Fills(c, s, b, e, s');
      SaneFills(c, f, s, |f.trieds|, n, b, e, s');
      NewsStaySettled(c, f, s, t, b, e, s');
    }
  }

  lemma RestoredNow(c: Config, f: File, o: Origin, s0: State, a: nat, t: nat, s: State, s': State)
    requires TriedsLoaded(f, o, s0, |f.trieds|, a) && Genuine(c, f, o) && f.nNew == |f.news|
    requires Restoring(c, f, o, s0, t, s) && t < |Pairs(f.rows, f.nNew)| && 0 <= Pairs(f.rows, f.nNew)[t].1 < |f.news|
    requires var e := Pairs(f.rows, f.nNew)[t]; Handled(c, s, e.1, s')
    requires o.From? ==>
               |Pairs(f.rows, f.nNew)| == |TableSlots(o.s.vvNew)| && Restores(c, s, Pairs(f.rows, f.nNew)[t], s')
    ensures Restoring(c, f, o, s0, t + 1, s')
  {
    var e := Pairs(f.rows, f.nNew)[t];
    OpenRestoring(c, f, o, s0, t, s);
    SameButRefsTransitive(s0, s, s');
    assert e.1 in s0.mapInfo && s0.mapInfo[e.1] == InfoOf(f.news[e.1], e.1, false);
    HandledIsSane(c, f, s, s0.nIdCount, t, e.1, s');
    if o.From? { EntryFits(c, f, o, s0, a, t, s); }
    assert RestoringNow(c, f, o, s0, t + 1, s');
  }

  /** If the old slot is free and the entry may have one more, that is where it goes. */
  ghost predicate Restores(c: Config, s: State, p: (int, int), s': State) {
    && Shape(s.vvNew, NEW_BUCKET_COUNT) && 0 <= p.0 < NEW_BUCKET_COUNT && p.1 in s.mapInfo
    && var i := s.mapInfo[p.1];
       c.isValid(i.service) && i.refCount < NEW_BUCKETS_PER_ADDRESS &&
       s.vvNew[p.0][NewPos(c, i.service, p.0)] == EMPTY ==>
         s' == FilledSlot(s, p.0, NewPos(c, i.service, p.0), p.1)
  }

  method RestoreEntries(c: Config, f: File, s0: State, entries: seq<(int, int)>, restore: bool, ghost o: Origin,
                        ghost a: nat) returns (s: State)
    requires TriedsLoaded(f, o, s0, |f.trieds|, a) && Genuine(c, f, o) && f.nNew == |f.news|
    requires entries == Pairs(f.rows, f.nNew) && (restore ==> |f.rows| == NEW_BUCKET_COUNT) && (o.From? ==> restore)
    requires Sane(c, f, s0, |f.trieds|, s0.nIdCount)
    ensures Sane(c, f, s, |f.trieds|, s0.nIdCount) && NewsSettled(c, f, s, |entries|)
    ensures SameButRefs(s0, s) && forall id :: id in s0.mapInfo && id >= |f.news| ==> s.mapInfo[id] == s0.mapInfo[id]
    ensures o.From? ==> Refilled(c, o.s, o.m, |TableSlots(o.s.vvNew)|, s)
  {
    s := s0;
    PairsInRange(f.rows, f.nNew);
    if o.From? { FileReads(c, f, o.s, o.m); }
    RestoringStart(c, f, o, s0, a);
    for t := 0 to |entries|
      invariant Restoring(c, f, o, s0, t, s)
    {
      s := RestoreStep(c, f, s0, s, entries[t], restore, o, a, t);
    }
    OpenRestoring(c, f, o, s0, |entries|, s);
  }

  /** RestoreEntry puts the next entry of a genuine file where it was. */
  lemma EntryFits(c: Config, f: File, o: Origin, s0: State, a: nat, t: nat, s: State)
    requires TriedsLoaded(f, o, s0, |f.trieds|, a) && o.From? && Written(c, f, o.s, o.m) && f.nNew == |f.news|
    requires t < |Pairs(f.rows, f.nNew)| == |TableSlots(o.s.vvNew)| && SameButRefs(s0, s) && Refilled(c, o.s, o.m, t, s)
    ensures var p := Pairs(f.rows, f.nNew)[t];
            && 0 <= p.0 < NEW_BUCKET_COUNT && p.1 in s.mapInfo
            && c.isValid(s.mapInfo[p.1].service) && s.mapInfo[p.1].refCount < NEW_BUCKETS_PER_ADDRESS
            && s.vvNew[p.0][NewPos(c, s.mapInfo[p.1].service, p.0)] == EMPTY
            && Refilled(c, o.s, o.m, t + 1, FilledSlot(s, p.0, NewPos(c, s.mapInfo[p.1].service, p.0), p.1))
  {
    FileReads(c, f, o.s, o.m);
    NextSlot(c, o.s, t);
    RestoreNext(c, o.s, o.m, t, s);
    var w := TableSlots(o.s.vvNew)[t];
    var x := o.s.vvNew[w.0][w.1];
    assert Reads(o.s.vvNew, o.m.to, Pairs(f.rows, f.nNew)[t], w);
    RecordMatches(c, f, o, s0, a, x);
  }

  // ----- pruning

  lemma LooseDeleted(c: Config, s0: State, s1: State, id: Nid, s: State)
    requires Loose(c, s0) && id in s0.mapInfo && !s0.mapInfo[id].inTried && RandomOk(s1) && Reordered(s0, s1)
    requires |s1.vRandom| > 0
    requires s1.mapInfo[id].randomPos == |s1.vRandom| - 1 && SameButPosition(s0.mapInfo[id], s1.mapInfo[id])
    requires var net := c.network(s0.mapInfo[id].service);
             NetCountOf(s0, net).nNew > 0 &&
             s == Dropped(s1, id).(nNew := s0.nNew - 1, netCounts := WithNew(s0, net, NetCountOf(s0, net).nNew - 1))
    ensures Loose(c, s) && s.mapInfo.Keys == s0.mapInfo.Keys - {id}
    ensures forall x :: x in s.mapInfo ==> SameButPosition(s0.mapInfo[x], s.mapInfo[x])
  {
    assert RandomOk(s) by { DroppedRandom(s1, id); }
    assert s.mapInfo.Keys == s0.mapInfo.Keys - {id};
    forall x | x in s.mapInfo ensures x in s0.mapInfo && SameButPosition(s0.mapInfo[x], s.mapInfo[x]) {
      assert SameButPosition(s0.mapInfo[x], s1.mapInfo[x]);
    }
    DeletedCounters(c, s0, id, s);
  }

  lemma DeletedCounters(c: Config, s0: State, id: Nid, s: State)
    requires CountersOk(c, s0, {}) && id in s0.mapInfo && !s0.mapInfo[id].inTried
    requires s.mapInfo.Keys == s0.mapInfo.Keys - {id}
    requires forall x :: x in s.mapInfo ==> x in s0.mapInfo && SameButPosition(s0.mapInfo[x], s.mapInfo[x])
    requires s.nNew == s0.nNew - 1 && s.nTried == s0.nTried
    requires var net := c.network(s0.mapInfo[id].service);
             NetCountOf(s0, net).nNew > 0 && s.netCounts == WithNew(s0, net, NetCountOf(s0, net).nNew - 1)
    ensures CountersOk(c, s, {})
  {
    DeletedIds(s0, id, s);
    assert NewIds(s0) - {} == NewIds(s0) && NewIds(s) - {} == NewIds(s);
    CountNewMinus(c, s0, s, NewIds(s0), TriedIds(s0), id);
  }

  /** The entries outside `todo` are those of `s0` that have a slot. */
  ghost predicate Pruned(s0: State, s: State, todo: set<Nid>) {
    && s.vvNew == s0.vvNew && s.vvTried == s0.vvTried && s.nIdCount == s0.nIdCount && todo <= s.mapInfo.Keys
    && (forall id :: id in s.mapInfo ==> id in s0.mapInfo && SameButPosition(s0.mapInfo[id], s.mapInfo[id]))
    && (forall id :: id in s.mapInfo && id !in todo ==> !Unreferenced(s.mapInfo[id]))
    && (forall id :: id in s0.mapInfo && !Unreferenced(s0.mapInfo[id]) ==> id in s.mapInfo)
    && ((forall id :: id in s0.mapInfo ==> !Unreferenced(s0.mapInfo[id])) ==> s == s0)
  }

  lemma PrunedNext(s0: State, s: State, todo: set<Nid>, id: Nid, s': State)
    requires Pruned(s0, s, todo) && id in todo && id in s.mapInfo
    requires if Unreferenced(s.mapInfo[id]) then
               && s'.mapInfo.Keys == s.mapInfo.Keys - {id} && s'.vvNew == s.vvNew && s'.vvTried == s.vvTried
               && s'.nIdCount == s.nIdCount
               && (forall x :: x in s'.mapInfo ==> SameButPosition(s.mapInfo[x], s'.mapInfo[x]))
             else s' == s
    ensures Pruned(s0, s', todo - {id})
  {
    assert SameButPosition(s0.mapInfo[id], s.mapInfo[id]);
    forall x | x in s'.mapInfo ensures x in s0.mapInfo && SameButPosition(s0.mapInfo[x], s'.mapInfo[x]) {
      assert SameButPosition(s0.mapInfo[x], s.mapInfo[x]);
    }
  }

  /** Drops the new entries that got no slot. */
  method Prune(c: Config, s0: State, ghost f: File, ghost n: nat) returns (s: State, lost: nat)
    requires Loose(c, s0) && Sane(c, f, s0, |f.trieds|, n)
    ensures Loose(c, s) && Pruned(s0, s, {}) && Sane(c, f, s, |f.trieds|, n)
  {
    s, lost := s0, 0;
    var todo := s.mapInfo.Keys;
    while todo != {}
      invariant Loose(c, s) && Pruned(s0, s, todo) && Sane(c, f, s, |f.trieds|, n)
      decreases |todo|
    {
      NonEmpty(todo);
      var id: Nid :| id in todo;
      assert id in s.mapInfo.Keys;
      ghost var s1 := s;
      if Unreferenced(s.mapInfo[id]) {
        s := PruneOne(c, s, id, f, n);
        lost := lost + 1;
      }
      PrunedNext(s0, s1, todo, id, s);
      todo := todo - {id};
    }
  }

  lemma ReorderedSane(c: Config, f: File, s: State, j: nat, n: nat, s': State)
    requires Sane(c, f, s, j, n) && Reordered(s, s')
    ensures Sane(c, f, s', j, n)
  {
    ReorderedTables(c, s, s');
    forall id | id in s'.mapInfo ensures 0 <= id < n && EntryOk(c, f, j, s'.mapInfo[id]) {
      assert id in s.mapInfo && EntryOk(c, f, j, s.mapInfo[id]);
      assert SameButPosition(s.mapInfo[id], s'.mapInfo[id]);
      var k: nat :| Recalls(f, j, s.mapInfo[id], k);
      assert Recalls(f, j, s'.mapInfo[id], k);
    }
    if SoundRecords(f) { ReorderedAddr(s, s'); }
    forall a | a in s'.mapAddr ensures s'.mapAddr[a] in s'.mapInfo && s'.mapInfo[s'.mapAddr[a]].service == a {
      var id: Nid := s.mapAddr[a];
      assert id in s.mapInfo && SameButPosition(s.mapInfo[id], s'.mapInfo[id]);
    }
  }

  lemma DroppedSane(c: Config, f: File, s: State, j: nat, n: nat, id: Nid)
    requires Sane(c, f, s, j, n) && id in s.mapInfo && Unreferenced(s.mapInfo[id]) && |s.vRandom| > 0
    ensures Sane(c, f, Dropped(s, id), j, n)
  {
    DroppedTables(c, s, id);
  }

  method PruneOne(c: Config, s0: State, id: Nid, ghost f: File, ghost n: nat) returns (s: State)
    requires Loose(c, s0) && id in s0.mapInfo && Unreferenced(s0.mapInfo[id]) && Sane(c, f, s0, |f.trieds|, n)
    ensures Sane(c, f, s, |f.trieds|, n) && s.nIdCount == s0.nIdCount
    ensures Loose(c, s) && s.mapInfo.Keys == s0.mapInfo.Keys - {id} && s.vvNew == s0.vvNew && s.vvTried == s0.vvTried
    ensures forall x :: x in s.mapInfo ==> SameButPosition(s0.mapInfo[x], s.mapInfo[x])
  {
    assert NewIds(s0) - {} == NewIds(s0);
    CountPositive(c, s0, NewIds(s0), TriedIds(s0), id);
    ghost var s1;
    s, s1 := DeleteEntry(c, s0, id);
    LooseDeleted(c, s0, s1, id, s);
    ReorderedSane(c, f, s0, |f.trieds|, n, s1);
    DroppedSane(c, f, s1, |f.trieds|, n, id);
    SaneFrame(c, f, Dropped(s1, id), |f.trieds|, n, s);
  }

  // ----- how many entries a manager can have

  lemma {:induction false} RowSlotsFew(b: int, slots: seq<Nid>)
    ensures |RowSlots(b, slots)| <= |slots|
  {
    if slots != [] { RowSlotsFew(b, slots[..|slots| - 1]); }
  }

  lemma {:induction false} TableSlotsFew(t: Table)
    requires forall b :: 0 <= b < |t| ==> |t[b]| == BUCKET_SIZE
    ensures |TableSlots(t)| <= |t| * BUCKET_SIZE
  {
    if t != [] {
      TableSlotsFew(t[..|t| - 1]);
      RowSlotsFew(|t| - 1, t[|t| - 1]);
    }
  }

  ghost function At(t: Table, w: Slot): Nid { if Occupied(t, w) then t[w.0][w.1] else EMPTY }

  ghost function Holders(t: Table, ws: seq<Slot>): set<Nid> { set w | w in ws :: At(t, w) }

  lemma {:induction false} HoldersFew(t: Table, ws: seq<Slot>)
    ensures |Holders(t, ws)| <= |ws|
  {
    if ws != [] {
      var l := |ws| - 1;
      HoldersFew(t, ws[..l]);
      assert ws == ws[..l] + [ws[l]];
      assert Holders(t, ws) == Holders(t, ws[..l]) + {At(t, ws[l])};
    }
  }

  /** Ids that each occupy some slot are no more than the slots. */
  lemma AtMostSlots(t: Table, n: nat, ids: set<Nid>)
    requires Shape(t, n) && forall x :: x in ids ==> exists w: Slot :: Occupied(t, w) && At(t, w) == x
    ensures |ids| <= n * BUCKET_SIZE
  {
    TableSlotsAre(t);
    TableSlotsFew(t);
    var ws := TableSlots(t);
    HoldersFew(t, ws);
    forall x | x in ids ensures x in Holders(t, ws) {
      var w: Slot :| Occupied(t, w) && At(t, w) == x;
      assert w in ws;
    }
    assert Holders(t, ws) == ids + (Holders(t, ws) - ids);
  }

  lemma TablesHold(c: Config, s: State)
    requires Inv(c, s)
    ensures |NewIds(s)| <= NEW_BUCKET_COUNT * BUCKET_SIZE && |TriedIds(s)| <= TRIED_BUCKET_COUNT * BUCKET_SIZE
  {
    forall x | x in TriedIds(s) ensures exists w: Slot :: Occupied(s.vvTried, w) && At(s.vvTried, w) == x {
      assert InTriedSlot(c, s, x);
      var a := s.mapInfo[x].service;
      var w: Slot := (TriedBucket(c, a) as int, TriedPos(c, a, TriedBucket(c, a)) as int);
      assert Occupied(s.vvTried, w) && At(s.vvTried, w) == x;
    }
    AtMostSlots(s.vvTried, TRIED_BUCKET_COUNT, TriedIds(s));
    forall x | x in NewIds(s) ensures exists w: Slot :: Occupied(s.vvNew, w) && At(s.vvNew, w) == x {
      assert RefCountOk(c, s, x);
      SomeBucket(Buckets(c, s.vvNew, s.mapInfo[x].service, x));
      var b: nat :| b in Buckets(c, s.vvNew, s.mapInfo[x].service, x);
      var w: Slot := (b as int, NewPos(c, s.mapInfo[x].service, b) as int);
      assert Occupied(s.vvNew, w) && At(s.vvNew, w) == x;
    }
    AtMostSlots(s.vvNew, NEW_BUCKET_COUNT, NewIds(s));
  }

  lemma SomeBucket(bs: set<nat>)
    requires |bs| > 0
    ensures exists b: nat :: b in bs
  {
    SomeNet(bs);
  }

  // ----- the same manager under other names

  ghost predicate TableSame(t: Table, m: Names, t': Table, n: nat) {
    && Shape(t, n) && Shape(t', n)
    && (forall b, p :: 0 <= b < n && 0 <= p < BUCKET_SIZE ==> t'[b][p] == Renamed(m, t[b][p], |m.ns| + |m.ts|))
  }

  ghost predicate EntrySame(s: State, m: Names, s': State, x: Nid)
    requires x in s.mapInfo
  {
    && x in m.to && m.to[x] in s'.mapInfo


    && s'.mapInfo[m.to[x]] == s.mapInfo[x].(lastTry := 0, lastCountAttempt := 0,
                                            randomPos := s'.mapInfo[m.to[x]].randomPos)
  }

  /** Nothing lost, nothing moved: only ids, list order and the two attempt times differ. */
  ghost predicate Same(s: State, m: Names, s': State) {
    && s'.nNew == s.nNew && s'.nTried == s.nTried
    && (forall id: Nid :: id in s'.mapInfo <==> 0 <= id < |m.ns| + |m.ts|)
    && (forall x :: x in s.mapInfo ==> EntrySame(s, m, s', x))
    && TableSame(s.vvNew, m, s'.vvNew, NEW_BUCKET_COUNT) && TableSame(s.vvTried, m, s'.vvTried, TRIED_BUCKET_COUNT)
  }

  /** Every entry of the renamed manager is some old entry. */
  lemma OldName(s: State, m: Names, id: Nid) returns (x: Nid)
    requires NamesOk(s, m) && 0 <= id < |m.ns| + |m.ts|
    ensures x in s.mapInfo && x in m.to && m.to[x] == id
  {
    if id < |m.ns| {
      x := m.ns[id];
      assert x in m.ns && x in NewIds(s);
    } else {
      x := m.ts[id - |m.ns|];
      assert x in m.ts && x in TriedIds(s);
    }
  }

  lemma RefilledTable(c: Config, s: State, m: Names, s': State)
    requires Inv(c, s) && NamesOk(s, m) && Refilled(c, s, m, |TableSlots(s.vvNew)|, s')
    ensures TableSame(s.vvNew, m, s'.vvNew, NEW_BUCKET_COUNT)
  {
    TableSlotsAre(s.vvNew);
    var ws := TableSlots(s.vvNew);
    assert ws[..|ws|] == ws;
    forall b: nat, p: nat | b < NEW_BUCKET_COUNT && p < BUCKET_SIZE
      ensures s'.vvNew[b][p] == Renamed(m, s.vvNew[b][p], |m.ns| + |m.ts|)
    {
      assert SlotRestored(s, m, |ws|, b, p, s'.vvNew[b][p]);
      assert (b as int, p as int) in ws <==> Occupied(s.vvNew, (b as int, p as int));
      if s.vvNew[b][p] != EMPTY {
        assert NewSlotOk(c, s, b, p, s.vvNew[b][p]);
        NameOf(s, m, s.vvNew[b][p]);
      }
    }
  }

  lemma RefilledCount(c: Config, s: State, m: Names, s': State, x: Nid)
    requires Inv(c, s) && Refilled(c, s, m, |TableSlots(s.vvNew)|, s') && x in NewIds(s)
    ensures x in m.to && m.to[x] in s'.mapInfo && s'.mapInfo[m.to[x]].refCount == s.mapInfo[x].refCount
  {
    TableSlotsAre(s.vvNew);
    var ws := TableSlots(s.vvNew);
    assert ws[..|ws|] == ws;
    assert CountRestored(c, s, m, |ws|, s', x);
    assert RefCountOk(c, s, x);
    assert Got(c, s, |ws|, x) == Buckets(c, s.vvNew, s.mapInfo[x].service, x) by {
      forall b: nat | b < NEW_BUCKET_COUNT && s.vvNew[b][NewPos(c, s.mapInfo[x].service, b)] == x
        ensures (b as int, NewPos(c, s.mapInfo[x].service, b) as int) in ws
      {
        assert Occupied(s.vvNew, (b as int, NewPos(c, s.mapInfo[x].service, b) as int));
      }
    }
  }

  lemma TriedTableSame(s: State, m: Names, t: Table)
    requires TriedTableIs(s, m, t, |m.ns| + |m.ts|)
    ensures TableSame(s.vvTried, m, t, TRIED_BUCKET_COUNT)
  {
  }

  lemma RestoredEntry(c: Config, f: File, o: Origin, s0: State, a: nat, s: State, x: Nid)
    requires TriedsLoaded(f, o, s0, |f.trieds|, a) && o.From? && Written(c, f, o.s, o.m) && x in o.s.mapInfo
    requires SameButRefs(s0, s) && Refilled(c, o.s, o.m, |TableSlots(o.s.vvNew)|, s)
    requires forall id :: id in s0.mapInfo && id >= |f.news| ==> s.mapInfo[id] == s0.mapInfo[id]
    ensures EntrySame(o.s, o.m, s, x)
  {
    RecordMatches(c, f, o, s0, a, x);
    RecordAt(c, f, o.s, o.m, x);
    var k := o.m.to[x];
    assert s.mapInfo[k] == s0.mapInfo[k].(refCount := s.mapInfo[k].refCount);
    if o.s.mapInfo[x].inTried {
      assert InTriedSlot(c, o.s, x);
    } else {
      assert x in NewIds(o.s);
      RefilledCount(c, o.s, o.m, s, x);
    }
  }

  /** The loaded manager is the one that was written, before any pruning. */
  lemma RestoredSame(c: Config, f: File, o: Origin, s0: State, a: nat, s: State)
    requires TriedsLoaded(f, o, s0, |f.trieds|, a) && o.From? && Written(c, f, o.s, o.m)
    requires s0.nNew == f.nNew && s0.nTried == f.nTried
    requires SameButRefs(s0, s) && Refilled(c, o.s, o.m, |TableSlots(o.s.vvNew)|, s)
    requires forall id :: id in s0.mapInfo && id >= |f.news| ==> s.mapInfo[id] == s0.mapInfo[id]
    ensures Same(o.s, o.m, s)
  {
    InvBasics(c, o.s);
    RefilledTable(c, o.s, o.m, s);
    TriedTableSame(o.s, o.m, s.vvTried);
    forall x | x in o.s.mapInfo ensures EntrySame(o.s, o.m, s, x) { RestoredEntry(c, f, o, s0, a, s, x); }
    forall id: Nid ensures id in s.mapInfo <==> 0 <= id < |o.m.ns| + |o.m.ts| {
      assert id in s.mapInfo.Keys <==> id in s0.mapInfo.Keys;
    }
  }

  lemma NothingToPrune(c: Config, s: State, m: Names, s': State)
    requires Inv(c, s) && NamesOk(s, m) && Same(s, m, s')
    ensures forall id :: id in s'.mapInfo ==> !Unreferenced(s'.mapInfo[id])
  {
    forall id | id in s'.mapInfo ensures !Unreferenced(s'.mapInfo[id]) {
      var x := OldName(s, m, id);
      assert EntrySame(s, m, s', x);
    }
  }

  lemma SameEntryFine(c: Config, s: State, m: Names, s': State, id: Nid)
    requires Inv(c, s) && NamesOk(s, m) && Same(s, m, s') && RandomOk(s') && Indexed(s') && id in s'.mapInfo
    ensures EntryFine(s', id) && c.isValid(s'.mapInfo[id].service)
  {
    var x := OldName(s, m, id);
    assert EntrySame(s, m, s', x) && InfoOk(c, s.mapInfo[x]) && RefCountOk(c, s, x);
    if s.mapInfo[x].inTried { assert InTriedSlot(c, s, x); }
    var a := s'.mapInfo[id].service;
    var y := OldName(s, m, s'.mapAddr[a]);
    assert EntrySame(s, m, s', y);
  }

  lemma SameTriedFine(c: Config, s: State, m: Names, s': State)
    requires Inv(c, s) && NamesOk(s, m) && Same(s, m, s')
    ensures TriedTableFine(c, s')
  {
    forall b, p | 0 <= b < TRIED_BUCKET_COUNT && 0 <= p < BUCKET_SIZE && s'.vvTried[b][p] != EMPTY
      ensures TriedSlotOk(c, s', b, p, s'.vvTried[b][p])
    {
      var x := s.vvTried[b][p];
      assert s'.vvTried[b][p] == Renamed(m, x, |m.ns| + |m.ts|);
      assert TriedSlotOk(c, s, b, p, x) && EntrySame(s, m, s', x);
    }
    forall id | id in TriedIds(s') ensures id != EMPTY && TriedHome(c, s', id) == id {
      var x := OldName(s, m, id);
      assert EntrySame(s, m, s', x) && InTriedSlot(c, s, x);
    }
  }

  lemma SameBuckets(c: Config, s: State, m: Names, s': State, x: Nid)
    requires Inv(c, s) && NamesOk(s, m) && Same(s, m, s') && x in s.mapInfo
    ensures m.to[x] != EMPTY
    ensures Buckets(c, s'.vvNew, s.mapInfo[x].service, m.to[x]) == Buckets(c, s.vvNew, s.mapInfo[x].service, x)
  {
    NameOf(s, m, x);
    var a := s.mapInfo[x].service;
    forall b: nat | b < NEW_BUCKET_COUNT
      ensures s'.vvNew[b][NewPos(c, a, b)] == m.to[x] <==> s.vvNew[b][NewPos(c, a, b)] == x
    {
      var y := s.vvNew[b][NewPos(c, a, b)];
      assert s'.vvNew[b][NewPos(c, a, b)] == Renamed(m, y, |m.ns| + |m.ts|);
      if y != EMPTY {
        assert NewSlotOk(c, s, b, NewPos(c, a, b), y);
        NameOf(s, m, y);
        if m.to[y] == m.to[x] { NamesDiffer(s, m, x, y); }
      }
    }
  }

  lemma SameNewFine(c: Config, s: State, m: Names, s': State)
    requires Inv(c, s) && NamesOk(s, m) && Same(s, m, s')
    ensures NewTableFine(c, s')
  {
    forall b, p | 0 <= b < NEW_BUCKET_COUNT && 0 <= p < BUCKET_SIZE && s'.vvNew[b][p] != EMPTY
      ensures NewSlotOk(c, s', b, p, s'.vvNew[b][p])
    {
      var x := s.vvNew[b][p];
      assert s'.vvNew[b][p] == Renamed(m, x, |m.ns| + |m.ts|);
      assert NewSlotOk(c, s, b, p, x) && EntrySame(s, m, s', x);
    }
    forall id | id in NewIds(s')
      ensures id != EMPTY && s'.mapInfo[id].refCount == |Buckets(c, s'.vvNew, s'.mapInfo[id].service, id)|
    {
      var x := OldName(s, m, id);
      assert EntrySame(s, m, s', x) && RefCountOk(c, s, x);
      SameBuckets(c, s, m, s', x);
    }
  }

  /** The renamed manager satisfies the invariant too. */
  lemma SameInv(c: Config, s: State, m: Names, s': State)
    requires Inv(c, s) && NamesOk(s, m) && Same(s, m, s') && Loose(c, s') && Indexed(s')
    requires s'.collisions == {} && s'.nIdCount == |m.ns| + |m.ts|
    ensures Inv(c, s')
  {
    SameConsistent(c, s, m, s');
    SameUnchecked(c, s, m, s');
    CheckMeansInv(c, s');
  }

  lemma SameConsistent(c: Config, s: State, m: Names, s': State)
    requires Inv(c, s) && NamesOk(s, m) && Same(s, m, s') && Loose(c, s') && Indexed(s')
    ensures Consistent(c, s') && Nets(c, s', s'.mapInfo.Keys) <= s'.netCounts.Keys
  {
    forall id | id in s'.mapInfo ensures EntryFine(s', id) { SameEntryFine(c, s, m, s', id); }
    SameTriedFine(c, s, m, s');
    SameNewFine(c, s, m, s');
    LooseCounts(c, s');
  }

  lemma LooseCounts(c: Config, s: State)
    requires Loose(c, s)
    ensures s.nNew == |NewIds(s)| && s.nTried == |TriedIds(s)| && |s.vRandom| == s.nTried + s.nNew
    ensures NetCountsFine(c, s) && Nets(c, s, s.mapInfo.Keys) <= s.netCounts.Keys
  {
    assert NewIds(s) - {} == NewIds(s);
    ListFits(s);
    IdsShared(s);
    NetsFine(c, s);
  }

  lemma SameUnchecked(c: Config, s: State, m: Names, s': State)
    requires Inv(c, s) && NamesOk(s, m) && Same(s, m, s') && RandomOk(s') && Indexed(s')
    requires s'.collisions == {} && s'.nIdCount == |m.ns| + |m.ts| && Nets(c, s', s'.mapInfo.Keys) <= s'.netCounts.Keys
    ensures Unchecked(c, s')
  {
    forall id | id in s'.mapInfo ensures c.isValid(s'.mapInfo[id].service) { SameEntryFine(c, s, m, s', id); }
  }

  // ----- Unserialize

  datatype Loaded = Failed(code: int) | Ok(s: State)

  lemma LooseRefs(c: Config, s: State, s': State)
    requires Loose(c, s) && SameButRefs(s, s')
    ensures Loose(c, s') && (Indexed(s) ==> Indexed(s'))
  {
    forall id: Nid ensures id in s'.mapInfo <==> id in s.mapInfo {
      assert id in s'.mapInfo.Keys <==> id in s.mapInfo.Keys;
    }
    forall i | 0 <= i < |s'.vRandom| ensures s'.vRandom[i] in s'.mapInfo && s'.mapInfo[s'.vRandom[i]].randomPos == i {
      var id := s.vRandom[i];
      assert id in s.mapInfo && s'.mapInfo[id] == s.mapInfo[id].(refCount := s'.mapInfo[id].refCount);
    }
    forall id: Nid ensures (id in NewIds(s') <==> id in NewIds(s)) && (id in TriedIds(s') <==> id in TriedIds(s)) {}
    assert NewIds(s') == NewIds(s) && TriedIds(s') == TriedIds(s);
    CountingFrame(c, s, s', NewIds(s) - {}, TriedIds(s));
  }

  /** The header's counters and the next id go in once the records are read. */
  method ReadRecords(c: Config, f: File, ghost o: Origin) returns (s: State, ghost a: nat)
    requires |f.news| == f.nNew && |f.trieds| == f.nTried && Genuine(c, f, o)
    ensures TriedsLoaded(f, o, s, |f.trieds|, a) && Loose(c, s) && s.nNew == f.nNew && s.nTried == a
    ensures s.nIdCount == |f.news| + a
    ensures Sane(c, f, s, |f.trieds|, s.nIdCount) && TriedsSettled(c, f, s, |f.trieds|)
  {
    s := LoadNews(c, f.news);
    Reading0(c, f, s, o);
    var lost, taken, n;
    s, lost, taken, n := LoadTrieds(c, f, s, o);
    a := taken;
    ghost var s1 := s;
    s := s.(nIdCount := |f.news| + |f.trieds| - lost, nNew := f.nNew, nTried := f.nTried - lost);
    HeadedReading(c, f, o, s1, n, a, s);
  }

  lemma HeadedReading(c: Config, f: File, o: Origin, s: State, n: nat, a: nat, s': State)
    requires n == |f.trieds| && Reading(c, f, o, s, n, a)
    requires s' == s.(nIdCount := |f.news| + a, nNew := |f.news|, nTried := a)
    ensures TriedsLoaded(f, o, s', |f.trieds|, a) && Loose(c, s') && Sane(c, f, s', |f.trieds|, s'.nIdCount)
    ensures TriedsSettled(c, f, s', |f.trieds|)
  {
    OpenReading(c, f, o, s, n, a);
    Headed(c, f, o, s, a, s');
    SaneFrame(c, f, s, |f.trieds|, |f.news| + a, s');
    forall k | 0 <= k < n ensures TriedSettled(c, s', f.trieds[k]) { TriedStaysSettled(c, s, f.trieds[k], s'); }
  }

  lemma Headed(c: Config, f: File, o: Origin, s: State, a: nat, s': State)
    requires TriedsRead(c, f, o, s, |f.trieds|, a) && s' == s.(nIdCount := s'.nIdCount, nNew := |f.news|, nTried := a)
    ensures TriedsLoaded(f, o, s', |f.trieds|, a) && Loose(c, s')
  {
    assert CountersOk(c, s', {}) by {
      var s1 := s.(nNew := |f.news|, nTried := a);
      assert NewIds(s1) == NewIds(s') && TriedIds(s1) == TriedIds(s');
      CountingFrame(c, s1, s', NewIds(s1) - {}, TriedIds(s1));
    }
  }

  // ----- which records become entries

  /** A new record has become an entry, or its address is invalid, or the slot by its source is taken. */
  ghost predicate NewAccounted(c: Config, s: State, r: Record) {
    && Shape(s.vvNew, NEW_BUCKET_COUNT)
    && var b := NewBucket(c, r.service, r.source);
       HasEntry(s, r.service, false) || !c.isValid(r.service) || s.vvNew[b][NewPos(c, r.service, b)] != EMPTY
  }

  /** No record is lost without a reason, unless no bucket names it; and there are no entries but from records. */
  ghost predicate Accounted(c: Config, f: File, s: State) {
    && TriedsSettled(c, f, s, |f.trieds|)
    && (forall k :: 0 <= k < |Pairs(f.rows, f.nNew)| ==>
          0 <= Pairs(f.rows, f.nNew)[k].1 < |f.news| && NewAccounted(c, s, f.news[Pairs(f.rows, f.nNew)[k].1]))
    && (forall id :: id in s.mapInfo ==> exists k: nat :: Recalls(f, |f.trieds|, s.mapInfo[id], k))
  }

  lemma NewRecordAccounted(c: Config, s1: State, e: Nid, r: Record, s: State)
    requires NewSettled(c, s1, e) && Pruned(s1, s, {}) && s1.mapInfo[e].service == r.service
    requires s1.mapInfo[e].source == r.source && !s1.mapInfo[e].inTried
    ensures NewAccounted(c, s, r)
  {
    if s1.mapInfo[e].refCount > 0 {
      assert e in s.mapInfo && SameButPosition(s1.mapInfo[e], s.mapInfo[e]);
      assert HasEntry(s, r.service, false);
    }
  }

  lemma TriedRecordAccounted(c: Config, s0: State, s1: State, r: Record, s: State)
    requires TriedSettled(c, s0, r) && SameButRefs(s0, s1) && Pruned(s1, s, {})
    ensures TriedSettled(c, s, r)
  {
    forall id | id in s0.mapInfo && s0.mapInfo[id].inTried
      ensures id in s.mapInfo && s.mapInfo[id].inTried && s.mapInfo[id].service == s0.mapInfo[id].service
    {
      assert id in s1.mapInfo.Keys && !Unreferenced(s1.mapInfo[id]);
      assert SameButPosition(s1.mapInfo[id], s.mapInfo[id]);
    }
    TriedStaysSettled(c, s0, r, s);
  }

  lemma PrunedAccounts(c: Config, f: File, o: Origin, s0: State, a: nat, s1: State, s: State)
    requires TriedsLoaded(f, o, s0, |f.trieds|, a) && TriedsSettled(c, f, s0, |f.trieds|) && f.nNew == |f.news|
    requires SameButRefs(s0, s1) && NewsSettled(c, f, s1, |Pairs(f.rows, f.nNew)|) && Pruned(s1, s, {})
    requires Sane(c, f, s, |f.trieds|, s.nIdCount)
    ensures Accounted(c, f, s)
  {
    PairsInRange(f.rows, f.nNew);
    forall k | 0 <= k < |f.trieds| ensures TriedSettled(c, s, f.trieds[k]) {
      TriedRecordAccounted(c, s0, s1, f.trieds[k], s);
    }
    forall k | 0 <= k < |Pairs(f.rows, f.nNew)| ensures NewAccounted(c, s, f.news[Pairs(f.rows, f.nNew)[k].1]) {
      var e := Pairs(f.rows, f.nNew)[k].1;
      assert s0.mapInfo[e] == InfoOf(f.news[e], e, false);
      assert e in s0.mapInfo.Keys;
      NewRecordAccounted(c, s1, e, f.news[e], s);
    }
    forall id | id in s.mapInfo ensures exists k: nat :: Recalls(f, |f.trieds|, s.mapInfo[id], k) {
      assert EntryOk(c, f, |f.trieds|, s.mapInfo[id]);
    }
  }

  // ----- what the final check can still find

  /** The header is one this version reads. */
  predicate HeaderOk(f: File) {
    && INCOMPATIBILITY_BASE <= f.compat <= INCOMPATIBILITY_BASE + FILE_FORMAT
    && 0 <= f.nNew <= NEW_BUCKET_COUNT * BUCKET_SIZE && 0 <= f.nTried <= TRIED_BUCKET_COUNT * BUCKET_SIZE
  }

  lemma SaneUnchecked(c: Config, f: File, s: State)
    requires Loose(c, s) && Sane(c, f, s, |f.trieds|, s.nIdCount)
    requires forall id :: id in s.mapInfo ==> !Unreferenced(s.mapInfo[id])
    ensures Unchecked(c, s)
  {
    LooseCounts(c, s);
    forall id | id in s.mapInfo ensures c.isValid(s.mapInfo[id].service) {
      assert EntryOk(c, f, |f.trieds|, s.mapInfo[id]);
    }
  }

  lemma SaneEntryFine(c: Config, f: File, s: State, id: Nid)
    requires RandomOk(s) && Sane(c, f, s, |f.trieds|, s.nIdCount) && SoundRecords(f) && id in s.mapInfo
    requires !Unreferenced(s.mapInfo[id])
    ensures EntryFine(s, id)
  {
    assert EntryOk(c, f, |f.trieds|, s.mapInfo[id]);
    var k: nat :| Recalls(f, |f.trieds|, s.mapInfo[id], k);
    assert RefCountOk(c, s, id);
    if s.mapInfo[id].inTried { assert InTriedSlot(c, s, id); }
  }

  lemma TablesFine(c: Config, s: State)
    requires TablesOk(c, s)
    ensures TriedTableFine(c, s) && NewTableFine(c, s)
  {
    forall id | id in TriedIds(s) ensures TriedHome(c, s, id) == id { assert InTriedSlot(c, s, id); }
    forall id | id in NewIds(s) ensures s.mapInfo[id].refCount == |Buckets(c, s.vvNew, s.mapInfo[id].service, id)| {
      assert RefCountOk(c, s, id);
    }
  }

  /** If no address comes twice and the times are right, the check finds nothing. */
  lemma SaneConsistent(c: Config, f: File, s: State)
    requires Loose(c, s) && Sane(c, f, s, |f.trieds|, s.nIdCount) && SoundRecords(f)
    requires forall id :: id in s.mapInfo ==> !Unreferenced(s.mapInfo[id])
    ensures Consistent(c, s)
  {
    LooseCounts(c, s);
    TablesFine(c, s);
    forall id | id in s.mapInfo ensures EntryFine(s, id) { SaneEntryFine(c, f, s, id); }
  }

  /**
   AddrManImpl::Unserialize, for any file; `o` says for the proof where the file comes from, if known.  Whatever is
   loaded satisfies the invariant, and a file is refused only for its header, for a null key, for an address that comes
   twice or for times that cannot be.
   */
  method Unserialize(c: Config, f: File, asmap: nat, keyIsNull: bool, ghost o: Origin) returns (r: Loaded)
    requires Parsed(f) && Genuine(c, f, o)
    requires o.From? ==>
               f.asmap == asmap && f.format == FILE_FORMAT && f.compat == INCOMPATIBILITY_BASE + FILE_FORMAT &&
               !keyIsNull
    ensures r.Ok? ==> Inv(c, r.s)
    ensures r.Ok? ==> HeaderOk(f) && !keyIsNull
    ensures HeaderOk(f) && !keyIsNull && SoundRecords(f) ==> r.Ok?
    ensures r.Ok? ==> Accounted(c, f, r.s)
    ensures o.From? ==> r.Ok? && Same(o.s, o.m, r.s)
  {
    if o.From? { TablesHold(c, o.s); }
    if f.compat < INCOMPATIBILITY_BASE { return Failed(1); }
    if f.compat - INCOMPATIBILITY_BASE > FILE_FORMAT { return Failed(2); }
    if f.nNew > NEW_BUCKET_COUNT * BUCKET_SIZE || f.nNew < 0 { return Failed(3); }
    if f.nTried > TRIED_BUCKET_COUNT * BUCKET_SIZE || f.nTried < 0 { return Failed(4); }
    ghost var a;
    var s;
    s, a := ReadRecords(c, f, o);
    var entries := CollectEntries(f.rows, f.nNew);
    var serialized := if f.format >= V2_ASMAP then f.asmap else 0;
    var restore := f.nBuckets == NEW_BUCKET_COUNT && serialized == asmap;
    ghost var s0 := s;
    s := RestoreEntries(c, f, s, entries, restore, o, a);
    LooseRefs(c, s0, s);
    ghost var s1 := s;
    var lost;
    s, lost := Prune(c, s, f, s0.nIdCount);
    if o.From? { LoadedWell(c, f, o, s0, a, s1, s); }
    PrunedAccounts(c, f, o, s0, a, s1, s);
    ghost var sound := WhatIsLoaded(c, f, s);
    var code := CheckAddrman(c, s, keyIsNull);
    if code != 0 { return Failed(code); }
    return Ok(s);
  }

  lemma WhatIsLoaded(c: Config, f: File, s: State) returns (sound: bool)
    requires Loose(c, s) && Sane(c, f, s, |f.trieds|, s.nIdCount)
    requires forall id :: id in s.mapInfo ==> !Unreferenced(s.mapInfo[id])
    ensures Shape(s.vvTried, TRIED_BUCKET_COUNT) && Shape(s.vvNew, NEW_BUCKET_COUNT)
    ensures Consistent(c, s) ==> Inv(c, s)
    ensures sound == SoundRecords(f) && (sound ==> Consistent(c, s))
  {
    sound := SoundRecords(f);
    SaneUnchecked(c, f, s);
    CheckMeansInv(c, s);
    if sound { SaneConsistent(c, f, s); }
  }

  lemma LoadedWell(c: Config, f: File, o: Origin, s0: State, a: nat, s1: State, s: State)
    requires TriedsLoaded(f, o, s0, |f.trieds|, a) && Loose(c, s0) && o.From? && Written(c, f, o.s, o.m)
    requires s0.nNew == f.nNew && s0.nTried == a && s0.nIdCount == |f.news| + a
    requires SameButRefs(s0, s1) && Loose(c, s1) && Refilled(c, o.s, o.m, |TableSlots(o.s.vvNew)|, s1)
    requires forall id :: id in s0.mapInfo && id >= |f.news| ==> s1.mapInfo[id] == s0.mapInfo[id]
    requires Pruned(s1, s, {})
    ensures s == s1 && Same(o.s, o.m, s) && Inv(c, s)
    ensures Shape(s.vvTried, TRIED_BUCKET_COUNT) && Shape(s.vvNew, NEW_BUCKET_COUNT) && Consistent(c, s)
  {
    RestoredSame(c, f, o, s0, a, s1);
    NothingToPrune(c, o.s, o.m, s1);
    LooseRefs(c, s0, s1);
    SameInv(c, o.s, o.m, s1);
    CheckMeansInv(c, s1);
  }

  /** Writing a manager and reading the file under the same asmap gives the same manager. */
  method RoundTrip(c: Config, s: State, order: seq<Nid>, asmap: nat) returns (r: Loaded, ghost m: Names)
    requires Inv(c, s) && Listing(order, s.mapInfo.Keys)
    ensures NamesOk(s, m) && r.Ok? && Same(s, m, r.s) && Inv(c, r.s)
  {
    var f;
    f, m := Serialize(c, s, order, asmap);
    r := Unserialize(c, f, asmap, false, From(s, m));
  }

  lemma WrittenIsSound(c: Config, f: File, s: State, m: Names)
    requires Written(c, f, s, m)
    ensures SoundRecords(f)
  {
    forall k: nat | k < |f.news| + |f.trieds|
      ensures RecordNo(f, k).lastSuccess >= 0 && (k >= |f.news| ==> RecordNo(f, k).lastSuccess != 0)
    {
      var x := OldName(s, m, k);
      RecordAt(c, f, s, m, x);
      assert InfoOk(c, s.mapInfo[x]);
    }
    forall i: nat, j: nat | i < j < |f.news| + |f.trieds| ensures RecordNo(f, i).service != RecordNo(f, j).service {
      var x := OldName(s, m, i);
      var y := OldName(s, m, j);
      RecordAt(c, f, s, m, x);
      RecordAt(c, f, s, m, y);
      assert s.mapAddr[s.mapInfo[x].service] == x && s.mapAddr[s.mapInfo[y].service] == y;
    }
  }

  /** Slot content `z` is an entry with another address. */
  ghost predicate HeldByOther(s: State, z: Nid, a: Service) { z in s.mapInfo && s.mapInfo[z].service != a }

  /** An entry is there again, in the same table, or it is invalid now, or its place is held by another address. */
  ghost predicate Survives(c: Config, s: State, i: Info) {
    && Shape(s.vvTried, TRIED_BUCKET_COUNT) && Shape(s.vvNew, NEW_BUCKET_COUNT)
    && var b, b' := TriedBucket(c, i.service), PrimaryBucket(c, i);
       || HasEntry(s, i.service, i.inTried) || !c.isValid(i.service)
       || HeldByOther(s,
                      if i.inTried then s.vvTried[b][TriedPos(c, i.service, b)]
                      else s.vvNew[b'][NewPos(c, i.service, b')],
                      i.service)
  }

  lemma TriedSurvives(c: Config, s: State, i: Info)
    requires Inv(c, s) && TriedSettled(c, s, RecordOf(i)) && i.inTried
    ensures Survives(c, s, i)
  {
    var b := TriedBucket(c, i.service);
    var p := TriedPos(c, i.service, b);
    if s.vvTried[b][p] != EMPTY { assert TriedSlotOk(c, s, b, p, s.vvTried[b][p]); }
  }

  lemma NewSurvives(c: Config, s: State, i: Info)
    requires Inv(c, s) && NewAccounted(c, s, RecordOf(i)) && !i.inTried
    ensures Survives(c, s, i)
  {
    var b := PrimaryBucket(c, i);
    var p := NewPos(c, i.service, b);
    if s.vvNew[b][p] != EMPTY { assert NewSlotOk(c, s, b, p, s.vvNew[b][p]); }
  }

  /** Some bucket of a written file names each new entry. */
  lemma BucketNames(c: Config, f: File, s: State, m: Names, x: Nid) returns (k: nat)
    requires Written(c, f, s, m) && x in NewIds(s)
    ensures k < |Pairs(f.rows, f.nNew)| && x in m.to && Pairs(f.rows, f.nNew)[k].1 == m.to[x]
  {
    FileReads(c, f, s, m);
    TableSlotsAre(s.vvNew);
    assert RefCountOk(c, s, x);
    SomeBucket(Buckets(c, s.vvNew, s.mapInfo[x].service, x));
    var b: nat :| b in Buckets(c, s.vvNew, s.mapInfo[x].service, x);
    var w: Slot := (b as int, NewPos(c, s.mapInfo[x].service, b) as int);
    assert Occupied(s.vvNew, w) && w in TableSlots(s.vvNew);
    k :| 0 <= k < |TableSlots(s.vvNew)| && TableSlots(s.vvNew)[k] == w;
    assert Reads(s.vvNew, m.to, Pairs(f.rows, f.nNew)[k], w);
  }

  lemma EntrySurvives(c: Config, f: File, s: State, m: Names, c': Config, s': State, x: Nid)
    requires Written(c, f, s, m) && x in s.mapInfo && Inv(c', s') && Accounted(c', f, s')
    ensures Survives(c', s', s.mapInfo[x])
  {
    RecordAt(c, f, s, m, x);
    if s.mapInfo[x].inTried {
      assert TriedSettled(c', s', f.trieds[m.to[x] - |f.news|]);
      TriedSurvives(c', s', s.mapInfo[x]);
    } else {
      var k := BucketNames(c, f, s, m, x);
      assert NewAccounted(c', s', f.news[m.to[x]]);
      NewSurvives(c', s', s.mapInfo[x]);
    }
  }

  /** The entry stems from one that was written. */
  ghost predicate StemsFrom(s: State, i: Info) {
    exists x :: x in s.mapInfo && i.service == s.mapInfo[x].service && i.inTried == s.mapInfo[x].inTried &&
                i.lastSuccess == s.mapInfo[x].lastSuccess
  }

  lemma EntryStems(c: Config, f: File, s: State, m: Names, i: Info, k: nat)
    requires Written(c, f, s, m) && Recalls(f, |f.trieds|, i, k)
    ensures StemsFrom(s, i)
  {
    var x := OldName(s, m, k);
    RecordAt(c, f, s, m, x);
  }

  /** Writing a manager and reading the file under any other asmap, that is, with other buckets, always works. */
  method Reload(c: Config, s: State, order: seq<Nid>, asmap: nat, c': Config, asmap': nat) returns (r: Loaded)
    requires Inv(c, s) && Listing(order, s.mapInfo.Keys)
    ensures r.Ok? && Inv(c', r.s)
    ensures forall x :: x in s.mapInfo ==> Survives(c', r.s, s.mapInfo[x])
    ensures forall id :: id in r.s.mapInfo ==> StemsFrom(s, r.s.mapInfo[id])
  {
    var f;
    ghost var m;
    f, m := Serialize(c, s, order, asmap);
    WrittenIsSound(c, f, s, m);
    TablesHold(c, s);
    r := Unserialize(c', f, asmap', false, Unknown);
    forall x | x in s.mapInfo ensures Survives(c', r.s, s.mapInfo[x]) { EntrySurvives(c, f, s, m, c', r.s, x); }
    forall id | id in r.s.mapInfo ensures StemsFrom(s, r.s.mapInfo[id]) {
      var k: nat :| Recalls(f, |f.trieds|, r.s.mapInfo[id], k);
      EntryStems(c, f, s, m, r.s.mapInfo[id], k);
    }
  }

  /** A manager that goes on from a reloaded state works like a new one. */
  method Restart(c: Config, s: State, order: seq<Nid>, asmap: nat, c': Config, asmap': nat, ops: seq<Op>)
    returns (m: Manager, ghost trace: seq<State>)
    requires Inv(c, s) && Listing(order, s.mapInfo.Keys) && ConfigOk(c')
    requires forall i :: 0 <= i < |ops| ==> Sensible(ops[i])
    ensures m.c == c' && m.Valid() && Inv(c', m.s)
    ensures |trace| == |ops| + 1 && trace[|ops|] == m.s
    ensures forall x :: x in s.mapInfo ==> Survives(c', trace[0], s.mapInfo[x])
    ensures forall i :: 0 <= i < |ops| ==> Performed(c', ops[i], trace[i], trace[i + 1])
  {
    var r := Reload(c, s, order, asmap, c', asmap');
    m := new Manager.Loaded(c', r.s);
    trace := m.Run(ops);
  }
}
