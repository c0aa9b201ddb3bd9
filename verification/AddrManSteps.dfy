module AddrManSteps {

  /** Elementary changes of the address manager's indexes; each one keeps `Links`. */

  import opened AddrManState

  /** The same entries under the same ids, addresses and list positions. */
  ghost predicate SameEntries(s: State, s': State) {
    && s'.nIdCount == s.nIdCount && s'.collisions == s.collisions
    && s'.mapAddr == s.mapAddr && s'.vRandom == s.vRandom && s'.mapInfo.Keys == s.mapInfo.Keys
    && (forall id :: id in s.mapInfo ==>
          s'.mapInfo[id].service == s.mapInfo[id].service && s'.mapInfo[id].randomPos == s.mapInfo[id].randomPos)
  }

  lemma SameEntriesKeep(s: State, s': State)
    requires SameEntries(s, s') && IdsOk(s) && AddrOk(s) && RandomOk(s)
    ensures IdsOk(s') && AddrOk(s') && RandomOk(s')
  {
  }

  /** Both tables and the reference counts agree with the entries. */
  ghost predicate TablesOk(c: Config, s: State) { TriedOk(c, s) && NewOk(c, s) && EMPTY !in s.mapInfo }

  lemma TablesFrame(c: Config, s: State, s': State)
    requires TablesOk(c, s) && s'.mapInfo == s.mapInfo && s'.vvNew == s.vvNew && s'.vvTried == s.vvTried
    ensures TablesOk(c, s')
  {
    assert TriedOk(c, s') by {
      forall x | x in s'.mapInfo && s'.mapInfo[x].inTried ensures InTriedSlot(c, s', x) { assert InTriedSlot(c, s, x); }
    }
    assert NewOk(c, s') by {
      forall x | x in s'.mapInfo ensures RefCountOk(c, s', x) { assert RefCountOk(c, s, x); }
    }
  }

  // ----- changing the data of one entry

  /** Only statistics change: not the address, its place in an index, or its table. */
  ghost predicate OnlyStatistics(i: Info, i': Info) {
    i' == i.(services := i'.services, time := i'.time, lastTry := i'.lastTry, lastCountAttempt := i'.lastCountAttempt,
             lastSuccess := i'.lastSuccess, attempts := i'.attempts)
  }

  lemma TouchLinks(c: Config, s: State, id: Nid, i': Info)
    requires Links(c, s) && id in s.mapInfo && OnlyStatistics(s.mapInfo[id], i') && InfoOk(c, i')
    ensures Links(c, s.(mapInfo := s.mapInfo[id := i']))
  {
    var s' := s.(mapInfo := s.mapInfo[id := i']);
    SameEntriesKeep(s, s');
    assert TriedOk(c, s') by {
      forall x | x in s'.mapInfo && s'.mapInfo[x].inTried ensures InTriedSlot(c, s', x) { assert InTriedSlot(c, s, x); }
    }
    assert NewOk(c, s') by {
      forall x | x in s'.mapInfo ensures RefCountOk(c, s', x) { assert RefCountOk(c, s, x); }
    }
  }

  lemma OnNetFrame(c: Config, s: State, s': State, ids: set<Nid>, net: nat)
    requires forall id :: id in ids ==> (id in s'.mapInfo <==> id in s.mapInfo)
    requires forall id :: id in ids && id in s.mapInfo && id in s'.mapInfo ==>
               s'.mapInfo[id].service == s.mapInfo[id].service
    ensures OnNet(c, s', ids, net) == OnNet(c, s, ids, net)
  {
    forall id ensures id in OnNet(c, s', ids, net) <==> id in OnNet(c, s, ids, net) {
      if id in ids && id in s.mapInfo { assert s'.mapInfo[id].service == s.mapInfo[id].service; }
    }
  }

  /** Counting looks only at which entries exist, their table and their network. */
  lemma CountingFrame(c: Config, s: State, s': State, ids: set<Nid>, tried: set<Nid>)
    requires Counting(c, s, ids, tried)
    requires s'.nNew == s.nNew && s'.nTried == s.nTried && s'.netCounts == s.netCounts
    requires forall id :: id in ids + tried ==> (id in s'.mapInfo <==> id in s.mapInfo)
    requires forall id :: id in ids + tried && id in s.mapInfo && id in s'.mapInfo ==>
               s'.mapInfo[id].service == s.mapInfo[id].service
    ensures Counting(c, s', ids, tried)
  {
    forall net ensures NetCountOf(s', net) == NetCount(|OnNet(c, s', ids, net)|, |OnNet(c, s', tried, net)|) {
      OnNetFrame(c, s, s', ids, net);
      OnNetFrame(c, s, s', tried, net);
      assert NetCountOf(s', net) == NetCountOf(s, net);
    }
  }

  lemma TouchKeeps(c: Config, s: State, id: Nid, i': Info, uncounted: set<Nid>)
    requires Links(c, s) && id in s.mapInfo && OnlyStatistics(s.mapInfo[id], i') && InfoOk(c, i')
    requires CountersOk(c, s, uncounted)
    ensures Links(c, s.(mapInfo := s.mapInfo[id := i'])) && CountersOk(c, s.(mapInfo := s.mapInfo[id := i']), uncounted)
  {
    TouchLinks(c, s, id, i');
    TouchCounters(c, s, id, i', uncounted);
  }

  lemma TouchCounters(c: Config, s: State, id: Nid, i': Info, uncounted: set<Nid>)
    requires id in s.mapInfo && OnlyStatistics(s.mapInfo[id], i') && CountersOk(c, s, uncounted)
    ensures CountersOk(c, s.(mapInfo := s.mapInfo[id := i']), uncounted)
  {
    var s' := s.(mapInfo := s.mapInfo[id := i']);
    assert NewIds(s') == NewIds(s) && TriedIds(s') == TriedIds(s);
    CountingFrame(c, s, s', NewIds(s) - uncounted, TriedIds(s));
  }

  // ----- one slot of the new table

  ghost function ClearedSlot(s: State, b: nat, p: nat): State
    requires b < |s.vvNew| && p < |s.vvNew[b]| && s.vvNew[b][p] in s.mapInfo && s.mapInfo[s.vvNew[b][p]].refCount > 0
  {
    var id := s.vvNew[b][p];
    s.(vvNew := Put(s.vvNew, b, p, EMPTY),
       mapInfo := s.mapInfo[id := s.mapInfo[id].(refCount := s.mapInfo[id].refCount - 1)])
  }

  lemma SlotHasReference(c: Config, s: State, b: nat, p: nat)
    requires NewOk(c, s) && b < NEW_BUCKET_COUNT && p < BUCKET_SIZE && s.vvNew[b][p] != EMPTY
    ensures s.vvNew[b][p] in s.mapInfo && s.mapInfo[s.vvNew[b][p]].refCount > 0 && NewSlotOk(c, s, b, p, s.vvNew[b][p])
    ensures b in Buckets(c, s.vvNew, s.mapInfo[s.vvNew[b][p]].service, s.vvNew[b][p])
  {
    var id := s.vvNew[b][p];
    assert NewSlotOk(c, s, b, p, id);
    assert RefCountOk(c, s, id);
    assert b in Buckets(c, s.vvNew, s.mapInfo[id].service, id);
  }

  lemma ClearedRefCounts(c: Config, s: State, b: nat, p: nat, x: Nid)
    requires NewOk(c, s) && b < NEW_BUCKET_COUNT && p < BUCKET_SIZE && s.vvNew[b][p] != EMPTY
    requires s.vvNew[b][p] in s.mapInfo && s.mapInfo[s.vvNew[b][p]].refCount > 0 && x in s.mapInfo && x != EMPTY
    ensures Shape(ClearedSlot(s, b, p).vvNew, NEW_BUCKET_COUNT) && RefCountOk(c, ClearedSlot(s, b, p), x)
  {
    var id := s.vvNew[b][p];
    SlotHasReference(c, s, b, p);
    assert RefCountOk(c, s, x);
    PutBuckets(c, s.vvNew, b, p, EMPTY, s.mapInfo[x].service, x);
  }

  lemma ClearedSlots(c: Config, s: State, b: nat, p: nat)
    requires IdsOk(s) && NewOk(c, s) && b < NEW_BUCKET_COUNT && p < BUCKET_SIZE && s.vvNew[b][p] != EMPTY
    requires s.vvNew[b][p] in s.mapInfo && s.mapInfo[s.vvNew[b][p]].refCount > 0
    ensures NewOk(c, ClearedSlot(s, b, p))
  {
    var s' := ClearedSlot(s, b, p);
    PutShape(s.vvNew, NEW_BUCKET_COUNT, b, p, EMPTY);
    forall x | x in s'.mapInfo ensures RefCountOk(c, s', x) { ClearedRefCounts(c, s, b, p, x); }
    forall b', p' | 0 <= b' < NEW_BUCKET_COUNT && 0 <= p' < BUCKET_SIZE && s'.vvNew[b'][p'] != EMPTY
      ensures NewSlotOk(c, s', b', p', s'.vvNew[b'][p'])
    {
      assert s'.vvNew[b'][p'] == s.vvNew[b'][p'];
      assert NewSlotOk(c, s, b', p', s.vvNew[b'][p']);
    }
  }

  /** Emptying a slot and decrementing the reference count keeps the indexes in agreement. */
  lemma ClearedLinks(c: Config, s: State, b: nat, p: nat)
    requires Links(c, s) && b < NEW_BUCKET_COUNT && p < BUCKET_SIZE && s.vvNew[b][p] != EMPTY
    ensures s.vvNew[b][p] in s.mapInfo && s.mapInfo[s.vvNew[b][p]].refCount > 0
    ensures Links(c, ClearedSlot(s, b, p))
  {
    SlotHasReference(c, s, b, p);
    var s' := ClearedSlot(s, b, p);
    SameEntriesKeep(s, s');
    ClearedSlots(c, s, b, p);
    assert TriedOk(c, s') by {
      forall x | x in s'.mapInfo && s'.mapInfo[x].inTried ensures InTriedSlot(c, s', x) { assert InTriedSlot(c, s, x); }
    }
  }

  ghost function FilledSlot(s: State, b: nat, p: nat, id: Nid): State
    requires b < |s.vvNew| && p < |s.vvNew[b]| && id in s.mapInfo
  {
    s.(vvNew := Put(s.vvNew, b, p, id),
       mapInfo := s.mapInfo[id := s.mapInfo[id].(refCount := s.mapInfo[id].refCount + 1)])
  }

  lemma FilledRefCounts(c: Config, s: State, b: nat, p: nat, id: Nid, x: Nid)
    requires NewOk(c, s) && b < NEW_BUCKET_COUNT && p < BUCKET_SIZE && s.vvNew[b][p] == EMPTY
    requires id in s.mapInfo && p == NewPos(c, s.mapInfo[id].service, b)
    requires s.mapInfo[id].refCount < NEW_BUCKETS_PER_ADDRESS
    requires x in s.mapInfo && id != EMPTY && x != EMPTY
    ensures Shape(FilledSlot(s, b, p, id).vvNew, NEW_BUCKET_COUNT) && RefCountOk(c, FilledSlot(s, b, p, id), x)
  {
    assert RefCountOk(c, s, x);
    PutBuckets(c, s.vvNew, b, p, id, s.mapInfo[x].service, x);
    assert x == id ==> b !in Buckets(c, s.vvNew, s.mapInfo[id].service, id);
  }

  lemma FilledTables(c: Config, s: State, b: nat, p: nat, id: Nid)
    requires TablesOk(c, s) && b < NEW_BUCKET_COUNT && p < BUCKET_SIZE && s.vvNew[b][p] == EMPTY
    requires id in s.mapInfo && !s.mapInfo[id].inTried && s.mapInfo[id].refCount < NEW_BUCKETS_PER_ADDRESS
    requires p == NewPos(c, s.mapInfo[id].service, b)
    ensures TablesOk(c, FilledSlot(s, b, p, id))
  {
    var s' := FilledSlot(s, b, p, id);
    PutShape(s.vvNew, NEW_BUCKET_COUNT, b, p, id);
    assert NewOk(c, s') by {
      forall x | x in s'.mapInfo ensures RefCountOk(c, s', x) { FilledRefCounts(c, s, b, p, id, x); }
      forall b', p' | 0 <= b' < NEW_BUCKET_COUNT && 0 <= p' < BUCKET_SIZE && s'.vvNew[b'][p'] != EMPTY
        ensures NewSlotOk(c, s', b', p', s'.vvNew[b'][p'])
      {
        if b' != b || p' != p { assert NewSlotOk(c, s, b', p', s.vvNew[b'][p']); }
      }
    }
    assert TriedOk(c, s') by {
      forall x | x in s'.mapInfo && s'.mapInfo[x].inTried ensures InTriedSlot(c, s', x) { assert InTriedSlot(c, s, x); }
    }
  }

  lemma FilledLinks(c: Config, s: State, b: nat, p: nat, id: Nid)
    requires Links(c, s) && b < NEW_BUCKET_COUNT && p < BUCKET_SIZE && s.vvNew[b][p] == EMPTY
    requires id in s.mapInfo && !s.mapInfo[id].inTried && s.mapInfo[id].refCount < NEW_BUCKETS_PER_ADDRESS
    requires p == NewPos(c, s.mapInfo[id].service, b)
    ensures Links(c, FilledSlot(s, b, p, id))
  {
    SameEntriesKeep(s, FilledSlot(s, b, p, id));
    FilledTables(c, s, b, p, id);
  }

  // ----- one slot of the tried table

  /** An unreferenced entry is in no slot of the new table. */
  lemma UnreferencedIsNowhere(c: Config, s: State, id: Nid, b: nat, p: nat)
    requires NewOk(c, s) && id in s.mapInfo && id != EMPTY && s.mapInfo[id].refCount == 0 && b < NEW_BUCKET_COUNT
    requires p < BUCKET_SIZE
    ensures s.vvNew[b][p] != id
  {
    if s.vvNew[b][p] != EMPTY { SlotHasReference(c, s, b, p); }
  }

  lemma TablesAfterFlag(c: Config, s: State, id: Nid, inTried: bool, s': State)
    requires Links(c, s) && id in s.mapInfo && s.mapInfo[id].refCount == 0
    requires s'.mapInfo == s.mapInfo[id := s.mapInfo[id].(inTried := inTried)] && s'.vvNew == s.vvNew
    ensures NewOk(c, s')
  {
    forall x | x in s'.mapInfo ensures RefCountOk(c, s', x) { assert RefCountOk(c, s, x); }
    forall b, p | 0 <= b < NEW_BUCKET_COUNT && 0 <= p < BUCKET_SIZE && s'.vvNew[b][p] != EMPTY
      ensures NewSlotOk(c, s', b, p, s'.vvNew[b][p])
    {
      UnreferencedIsNowhere(c, s, id, b, p);
      assert NewSlotOk(c, s, b, p, s.vvNew[b][p]);
    }
  }

  ghost function Evicted(s: State, b: nat, p: nat): State
    requires b < |s.vvTried| && p < |s.vvTried[b]| && s.vvTried[b][p] in s.mapInfo
  {
    var id := s.vvTried[b][p];
    s.(vvTried := Put(s.vvTried, b, p, EMPTY), mapInfo := s.mapInfo[id := s.mapInfo[id].(inTried := false)])
  }

  lemma EvictedTried(c: Config, s: State, b: nat, p: nat)
    requires Links(c, s) && b < TRIED_BUCKET_COUNT && p < BUCKET_SIZE && s.vvTried[b][p] != EMPTY
    requires s.vvTried[b][p] in s.mapInfo
    ensures TriedOk(c, Evicted(s, b, p))
  {
    var s', id := Evicted(s, b, p), s.vvTried[b][p];
    PutShape(s.vvTried, TRIED_BUCKET_COUNT, b, p, EMPTY);
    assert TriedSlotOk(c, s, b, p, id);
    forall b', p' | 0 <= b' < TRIED_BUCKET_COUNT && 0 <= p' < BUCKET_SIZE && s'.vvTried[b'][p'] != EMPTY
      ensures TriedSlotOk(c, s', b', p', s'.vvTried[b'][p'])
    {
      assert TriedSlotOk(c, s, b', p', s.vvTried[b'][p']);
    }
    forall x | x in s'.mapInfo && s'.mapInfo[x].inTried ensures InTriedSlot(c, s', x) { assert InTriedSlot(c, s, x); }
  }

  lemma EvictedLinks(c: Config, s: State, b: nat, p: nat)
    requires Links(c, s) && b < TRIED_BUCKET_COUNT && p < BUCKET_SIZE && s.vvTried[b][p] != EMPTY
    ensures s.vvTried[b][p] in s.mapInfo && s.mapInfo[s.vvTried[b][p]].inTried
    ensures s.mapInfo[s.vvTried[b][p]].refCount == 0
    ensures Links(c, Evicted(s, b, p))
  {
    var id := s.vvTried[b][p];
    assert TriedSlotOk(c, s, b, p, id);
    assert InTriedSlot(c, s, id);
    var s' := Evicted(s, b, p);
    SameEntriesKeep(s, s');
    EvictedTried(c, s, b, p);
    TablesAfterFlag(c, s, id, false, s');
  }

  ghost function Promoted(s: State, b: nat, p: nat, id: Nid): State
    requires b < |s.vvTried| && p < |s.vvTried[b]| && id in s.mapInfo
  {
    s.(vvTried := Put(s.vvTried, b, p, id), mapInfo := s.mapInfo[id := s.mapInfo[id].(inTried := true)])
  }

  lemma PromotedTried(c: Config, s: State, b: nat, p: nat, id: Nid)
    requires Links(c, s) && b < TRIED_BUCKET_COUNT && p < BUCKET_SIZE && s.vvTried[b][p] == EMPTY
    requires id in s.mapInfo && !s.mapInfo[id].inTried && s.mapInfo[id].refCount == 0
    requires b == TriedBucket(c, s.mapInfo[id].service) && p == TriedPos(c, s.mapInfo[id].service, b)
    ensures TriedOk(c, Promoted(s, b, p, id))
  {
    var s' := Promoted(s, b, p, id);
    PutShape(s.vvTried, TRIED_BUCKET_COUNT, b, p, id);
    forall b', p' | 0 <= b' < TRIED_BUCKET_COUNT && 0 <= p' < BUCKET_SIZE && s'.vvTried[b'][p'] != EMPTY
      ensures TriedSlotOk(c, s', b', p', s'.vvTried[b'][p'])
    {
      if b' != b || p' != p { assert TriedSlotOk(c, s, b', p', s.vvTried[b'][p']); }
    }
    forall x | x in s'.mapInfo && s'.mapInfo[x].inTried ensures InTriedSlot(c, s', x) {
      if x != id { assert InTriedSlot(c, s, x); }
    }
  }

  lemma PromotedLinks(c: Config, s: State, b: nat, p: nat, id: Nid)
    requires Links(c, s) && b < TRIED_BUCKET_COUNT && p < BUCKET_SIZE && s.vvTried[b][p] == EMPTY
    requires id in s.mapInfo && !s.mapInfo[id].inTried && s.mapInfo[id].refCount == 0 && s.mapInfo[id].lastSuccess > 0
    requires b == TriedBucket(c, s.mapInfo[id].service) && p == TriedPos(c, s.mapInfo[id].service, b)
    ensures Links(c, Promoted(s, b, p, id))
  {
    var s' := Promoted(s, b, p, id);
    SameEntriesKeep(s, s');
    PromotedTried(c, s, b, p, id);
    TablesAfterFlag(c, s, id, true, s');
  }

  // ----- the random list

  ghost function Swapped(s: State, i: nat, j: nat): State
    requires i < |s.vRandom| && j < |s.vRandom| && s.vRandom[i] in s.mapInfo && s.vRandom[j] in s.mapInfo
  {
    var x, y := s.vRandom[i], s.vRandom[j];
    var info := s.mapInfo[x := s.mapInfo[x].(randomPos := j)];
    s.(mapInfo := info[y := info[y].(randomPos := i)], vRandom := s.vRandom[i := y][j := x])
  }

  lemma SwappedRandom(s: State, i: nat, j: nat)
    requires RandomOk(s) && i < |s.vRandom| && j < |s.vRandom| && i != j
    ensures s.vRandom[i] in s.mapInfo && s.vRandom[j] in s.mapInfo && RandomOk(Swapped(s, i, j))
    ensures s.vRandom[i] != s.vRandom[j]
  {
    assert s.mapInfo[s.vRandom[i]].randomPos == i;
    assert s.mapInfo[s.vRandom[j]].randomPos == j;
  }

  ghost predicate SameButPosition(i: Info, i': Info) { i' == i.(randomPos := i'.randomPos) }

  /** The same entries, with other positions in the random list. */
  ghost predicate Reordered(s: State, s': State) {
    && s' == s.(mapInfo := s'.mapInfo, vRandom := s'.vRandom)
    && s'.mapInfo.Keys == s.mapInfo.Keys && |s'.vRandom| == |s.vRandom|
    && (forall id :: id in s.mapInfo ==> SameButPosition(s.mapInfo[id], s'.mapInfo[id]))
  }

  lemma ReorderedAddr(s: State, s': State)
    requires AddrOk(s) && Reordered(s, s')
    ensures AddrOk(s')
  {
    forall a | a in s'.mapAddr ensures s'.mapAddr[a] in s'.mapInfo && s'.mapInfo[s'.mapAddr[a]].service == a {
      var id := s.mapAddr[a];
      assert id in s.mapInfo;
      assert SameButPosition(s.mapInfo[id], s'.mapInfo[id]);
    }
  }

  lemma ReorderedTables(c: Config, s: State, s': State)
    requires TablesOk(c, s) && Reordered(s, s')
    ensures TablesOk(c, s')
  {
    assert TriedOk(c, s') by {
      forall x | x in s'.mapInfo && s'.mapInfo[x].inTried ensures InTriedSlot(c, s', x) { assert InTriedSlot(c, s, x); }
    }
    assert NewOk(c, s') by {
      forall x | x in s'.mapInfo ensures RefCountOk(c, s', x) { assert RefCountOk(c, s, x); }
    }
  }

  lemma ReorderedLinks(c: Config, s: State, s': State)
    requires Links(c, s) && Reordered(s, s') && RandomOk(s')
    ensures Links(c, s')
  {
    ReorderedAddr(s, s');
    ReorderedTables(c, s, s');
  }

  lemma ReorderedInv(c: Config, s: State, s': State)
    requires Inv(c, s) && Reordered(s, s') && RandomOk(s')
    ensures Inv(c, s')
  {
    ReorderedLinks(c, s, s');
    forall id ensures (id in NewIds(s') <==> id in NewIds(s)) && (id in TriedIds(s') <==> id in TriedIds(s)) {
      if id in s.mapInfo { assert SameButPosition(s.mapInfo[id], s'.mapInfo[id]); }
    }
    assert NewIds(s') == NewIds(s) && TriedIds(s') == TriedIds(s);
    CountingFrame(c, s, s', NewIds(s), TriedIds(s));
    assert NewIds(s) - {} == NewIds(s);
    forall x | x in s'.collisions && x in s'.mapInfo ensures TriedOccupied(c, s', x) { assert TriedOccupied(c, s, x); }
  }

  // ----- entries come and go

  ghost function Created(s: State, i: Info): State {
    s.(nIdCount := s.nIdCount + 1, mapInfo := s.mapInfo[s.nIdCount := i],
       mapAddr := s.mapAddr[i.service := s.nIdCount], vRandom := s.vRandom + [s.nIdCount])
  }

  lemma CreatedNew(c: Config, s: State, i: Info)
    requires Links(c, s) && i.refCount == 0 && !i.inTried
    ensures NewOk(c, Created(s, i))
  {
    var s', id := Created(s, i), s.nIdCount;
    forall b, p | 0 <= b < NEW_BUCKET_COUNT && 0 <= p < BUCKET_SIZE && s'.vvNew[b][p] != EMPTY
      ensures NewSlotOk(c, s', b, p, s'.vvNew[b][p])
    {
      assert NewSlotOk(c, s, b, p, s.vvNew[b][p]);
    }
    forall x | x in s'.mapInfo ensures RefCountOk(c, s', x) {
      if x == id {
        forall b: nat | b < NEW_BUCKET_COUNT ensures s.vvNew[b][NewPos(c, i.service, b)] != id {
          assert s.vvNew[b][NewPos(c, i.service, b)] != EMPTY ==>
                 NewSlotOk(c, s, b, NewPos(c, i.service, b), s.vvNew[b][NewPos(c, i.service, b)]);
        }
        assert Buckets(c, s'.vvNew, i.service, id) == {};
      } else {
        assert RefCountOk(c, s, x);
      }
    }
  }

  lemma CreatedTried(c: Config, s: State, i: Info)
    requires Links(c, s) && !i.inTried
    ensures TriedOk(c, Created(s, i))
  {
    var s' := Created(s, i);
    forall b, p | 0 <= b < TRIED_BUCKET_COUNT && 0 <= p < BUCKET_SIZE && s'.vvTried[b][p] != EMPTY
      ensures TriedSlotOk(c, s', b, p, s'.vvTried[b][p])
    {
      assert TriedSlotOk(c, s, b, p, s.vvTried[b][p]);
    }
    forall x | x in s'.mapInfo && s'.mapInfo[x].inTried ensures InTriedSlot(c, s', x) { assert InTriedSlot(c, s, x); }
  }

  lemma CreatedIndexes(s: State, i: Info)
    requires IdsOk(s) && AddrOk(s) && RandomOk(s) && i.service !in s.mapAddr && i.randomPos == |s.vRandom|
    ensures IdsOk(Created(s, i)) && AddrOk(Created(s, i)) && RandomOk(Created(s, i))
  {
    assert s.nIdCount !in s.mapInfo;
    assert IdsOk(Created(s, i));
    assert AddrOk(Created(s, i));
  }

  lemma CreatedLinks(c: Config, s: State, i: Info)
    requires Links(c, s) && i.service !in s.mapAddr && i.randomPos == |s.vRandom|
    requires i.refCount == 0 && !i.inTried && InfoOk(c, i)
    ensures Links(c, Created(s, i))
  {
    CreatedIndexes(s, i);
    CreatedNew(c, s, i);
    CreatedTried(c, s, i);
  }

  ghost function Dropped(s: State, id: Nid): State
    requires id in s.mapInfo && |s.vRandom| > 0
  {
    s.(vRandom := s.vRandom[..|s.vRandom| - 1], mapAddr := s.mapAddr - {s.mapInfo[id].service},
       mapInfo := s.mapInfo - {id})
  }

  lemma DroppedRandom(s: State, id: Nid)
    requires RandomOk(s) && id in s.mapInfo && s.mapInfo[id].randomPos == |s.vRandom| - 1
    ensures |s.vRandom| > 0 && RandomOk(Dropped(s, id))
  {
    var s' := Dropped(s, id);
    forall i | 0 <= i < |s'.vRandom| ensures s'.vRandom[i] in s'.mapInfo && s'.mapInfo[s'.vRandom[i]].randomPos == i {
      assert s'.vRandom[i] == s.vRandom[i] != id;
    }
    forall x | x in s'.mapInfo
      ensures s'.mapInfo[x].randomPos < |s'.vRandom| && s'.vRandom[s'.mapInfo[x].randomPos] == x
    {
      assert s.vRandom[s.mapInfo[x].randomPos] == x;
    }
  }

  lemma DroppedIndexes(s: State, id: Nid)
    requires IdsOk(s) && AddrOk(s) && RandomOk(s) && id in s.mapInfo && s.mapInfo[id].randomPos == |s.vRandom| - 1
    ensures |s.vRandom| > 0 && IdsOk(Dropped(s, id)) && AddrOk(Dropped(s, id)) && RandomOk(Dropped(s, id))
  {
    DroppedRandom(s, id);
  }

  lemma DroppedTables(c: Config, s: State, id: Nid)
    requires TablesOk(c, s) && id in s.mapInfo && |s.vRandom| > 0 && !s.mapInfo[id].inTried
    requires s.mapInfo[id].refCount == 0
    ensures TablesOk(c, Dropped(s, id))
  {
    var s' := Dropped(s, id);
    forall b, p | 0 <= b < NEW_BUCKET_COUNT && 0 <= p < BUCKET_SIZE && s'.vvNew[b][p] != EMPTY
      ensures NewSlotOk(c, s', b, p, s'.vvNew[b][p])
    {
      UnreferencedIsNowhere(c, s, id, b, p);
      assert NewSlotOk(c, s, b, p, s.vvNew[b][p]);
    }
    forall x | x in s'.mapInfo ensures RefCountOk(c, s', x) { assert RefCountOk(c, s, x); }
    forall b, p | 0 <= b < TRIED_BUCKET_COUNT && 0 <= p < BUCKET_SIZE && s'.vvTried[b][p] != EMPTY
      ensures TriedSlotOk(c, s', b, p, s'.vvTried[b][p])
    {
      assert TriedSlotOk(c, s, b, p, s.vvTried[b][p]);
    }
    forall x | x in s'.mapInfo && s'.mapInfo[x].inTried ensures InTriedSlot(c, s', x) { assert InTriedSlot(c, s, x); }
  }

  lemma DroppedLinks(c: Config, s: State, id: Nid)
    requires Links(c, s) && id in s.mapInfo && s.mapInfo[id].randomPos == |s.vRandom| - 1
    requires !s.mapInfo[id].inTried && s.mapInfo[id].refCount == 0
    ensures |s.vRandom| > 0 && Links(c, Dropped(s, id))
  {
    DroppedIndexes(s, id);
    DroppedTables(c, s, id);
  }

  // ----- counting one entry more or less

  function WithNew(s: State, net: nat, n: nat)
    : map<nat, NetCount> { s.netCounts[net := NetCountOf(s, net).(nNew := n)] }
  function WithTried(s: State, net: nat, n: nat)
    : map<nat, NetCount> { s.netCounts[net := NetCountOf(s, net).(nTried := n)] }

  /** Two states in which the given entries have the same networks. */
  ghost predicate SameNets(c: Config, s: State, s': State, ids: set<Nid>) {
    && (forall id :: id in ids ==> (id in s'.mapInfo <==> id in s.mapInfo))
    && (forall id :: id in ids && id in s.mapInfo && id in s'.mapInfo ==>
          s'.mapInfo[id].service == s.mapInfo[id].service)
  }

  lemma OnNetPlus(c: Config, s: State, s': State, ids: set<Nid>, id: Nid, net: nat)
    requires id !in ids && id in s'.mapInfo && SameNets(c, s, s', ids)
    ensures var here := c.network(s'.mapInfo[id].service) == net;
            |OnNet(c, s', ids + {id}, net)| == |OnNet(c, s, ids, net)| + if here then 1 else 0
  {
    OnNetFrame(c, s, s', ids, net);
    if c.network(s'.mapInfo[id].service) == net {
      assert OnNet(c, s', ids + {id}, net) == OnNet(c, s', ids, net) + {id};
      assert id !in OnNet(c, s', ids, net);
    } else {
      assert OnNet(c, s', ids + {id}, net) == OnNet(c, s', ids, net);
    }
  }

  lemma CountNewPlus(c: Config, s: State, s': State, ids: set<Nid>, tried: set<Nid>, id: Nid)
    requires Counting(c, s, ids, tried) && id !in ids && id in s'.mapInfo && SameNets(c, s, s', ids + tried)
    requires s'.nNew == s.nNew + 1 && s'.nTried == s.nTried
    requires var net := c.network(s'.mapInfo[id].service); s'.netCounts == WithNew(s, net, NetCountOf(s, net).nNew + 1)
    ensures Counting(c, s', ids + {id}, tried)
  {
    forall net ensures NetCountOf(s', net) == NetCount(|OnNet(c, s', ids + {id}, net)|, |OnNet(c, s', tried, net)|) {
      OnNetPlus(c, s, s', ids, id, net);
      OnNetFrame(c, s, s', tried, net);
      assert NetCountOf(s, net) == NetCount(|OnNet(c, s, ids, net)|, |OnNet(c, s, tried, net)|);
    }
  }

  lemma CountTriedPlus(c: Config, s: State, s': State, ids: set<Nid>, tried: set<Nid>, id: Nid)
    requires Counting(c, s, ids, tried) && id !in tried && id in s'.mapInfo && SameNets(c, s, s', ids + tried)
    requires s'.nNew == s.nNew && s'.nTried == s.nTried + 1
    requires var net := c.network(s'.mapInfo[id].service);
             s'.netCounts == WithTried(s, net, NetCountOf(s, net).nTried + 1)
    ensures Counting(c, s', ids, tried + {id})
  {
    forall net ensures NetCountOf(s', net) == NetCount(|OnNet(c, s', ids, net)|, |OnNet(c, s', tried + {id}, net)|) {
      OnNetPlus(c, s, s', tried, id, net);
      OnNetFrame(c, s, s', ids, net);
      assert NetCountOf(s, net) == NetCount(|OnNet(c, s, ids, net)|, |OnNet(c, s, tried, net)|);
    }
  }

  /** An entry that is counted has a positive count to be taken from. */
  lemma CountPositive(c: Config, s: State, ids: set<Nid>, tried: set<Nid>, id: Nid)
    requires Counting(c, s, ids, tried) && id in s.mapInfo
    ensures id in ids ==> s.nNew > 0 && NetCountOf(s, c.network(s.mapInfo[id].service)).nNew > 0
    ensures id in tried ==> s.nTried > 0 && NetCountOf(s, c.network(s.mapInfo[id].service)).nTried > 0
  {
    var net := c.network(s.mapInfo[id].service);
    assert NetCountOf(s, net) == NetCount(|OnNet(c, s, ids, net)|, |OnNet(c, s, tried, net)|);
    assert id in ids ==> id in OnNet(c, s, ids, net);
    assert id in tried ==> id in OnNet(c, s, tried, net);
  }

  lemma CountNewMinus(c: Config, s: State, s': State, ids: set<Nid>, tried: set<Nid>, id: Nid)
    requires Counting(c, s, ids, tried) && id in ids && id in s.mapInfo && SameNets(c, s, s', (ids - {id}) + tried)
    requires s'.nNew == s.nNew - 1 && s'.nTried == s.nTried
    requires var net := c.network(s.mapInfo[id].service);
             NetCountOf(s, net).nNew > 0 && s'.netCounts == WithNew(s, net, NetCountOf(s, net).nNew - 1)
    ensures Counting(c, s', ids - {id}, tried)
  {
    assert (ids - {id}) + {id} == ids;
    forall net ensures NetCountOf(s', net) == NetCount(|OnNet(c, s', ids - {id}, net)|, |OnNet(c, s', tried, net)|) {
      OnNetPlus(c, s', s, ids - {id}, id, net);
      OnNetFrame(c, s, s', tried, net);
      assert NetCountOf(s, net) == NetCount(|OnNet(c, s, ids, net)|, |OnNet(c, s, tried, net)|);
    }
  }

  lemma CountTriedMinus(c: Config, s: State, s': State, ids: set<Nid>, tried: set<Nid>, id: Nid)
    requires Counting(c, s, ids, tried) && id in tried && id in s.mapInfo && SameNets(c, s, s', ids + (tried - {id}))
    requires s'.nNew == s.nNew && s'.nTried == s.nTried - 1
    requires var net := c.network(s.mapInfo[id].service);
             NetCountOf(s, net).nTried > 0 && s'.netCounts == WithTried(s, net, NetCountOf(s, net).nTried - 1)
    ensures Counting(c, s', ids, tried - {id})
  {
    assert (tried - {id}) + {id} == tried;
    forall net ensures NetCountOf(s', net) == NetCount(|OnNet(c, s', ids, net)|, |OnNet(c, s', tried - {id}, net)|) {
      OnNetPlus(c, s', s, tried - {id}, id, net);
      OnNetFrame(c, s, s', ids, net);
      assert NetCountOf(s, net) == NetCount(|OnNet(c, s, ids, net)|, |OnNet(c, s, tried, net)|);
    }
  }
}
