module AddrManOps {

  /** The address manager's private operations, up to moving an entry into the tried table. */

  import opened Closed
  import opened AddrManState
  import opened AddrManSteps

  /** The invariant in the middle of an operation. */
  ghost predicate Mid(c: Config, s: State, uncounted: set<Nid>, unreferenced: set<Nid>) {
    Links(c, s) && CountersOk(c, s, uncounted) && Referenced(s, unreferenced)
  }

  /**
   `Mid` kept closed: the verifier looks inside only where a proof calls `Open`.  The methods below pass it along
   and leave the reasoning about five indexes to the lemmas.
   */
  ghost predicate Ready(c: Config, s: State, uncounted: set<Nid>, unreferenced: set<Nid>) {
    forall k: int :: Key(0, k) ==> Mid(c, s, uncounted, unreferenced)
  }

  lemma Open(c: Config, s: State, uncounted: set<Nid>, unreferenced: set<Nid>)
    requires Ready(c, s, uncounted, unreferenced)
    ensures Mid(c, s, uncounted, unreferenced)
  {
    assert Key(0, 0);
  }

  /** Entries keep their data; only list positions, reference counts and tables may differ. */
  ghost predicate Alike(i: Info, i': Info) {
    i' == i.(randomPos := i'.randomPos, refCount := i'.refCount, inTried := i'.inTried)
  }

  ghost predicate OldEntries(s: State, s': State) {
    && s'.collisions == s.collisions && s'.lastGood == s.lastGood && s'.nIdCount == s.nIdCount
    && (forall x :: x in s'.mapInfo ==> x in s.mapInfo && Alike(s.mapInfo[x], s'.mapInfo[x]))
  }

  /** Outside `ids` the entries are the same, up to their positions in the random list. */
  ghost predicate SameOutside(s: State, s': State, ids: set<Nid>) {
    && (forall x :: x in s.mapInfo && x !in ids ==> x in s'.mapInfo && SameButPosition(s.mapInfo[x], s'.mapInfo[x]))
    && (forall x :: x in s'.mapInfo && x !in ids ==> x in s.mapInfo)
  }

  /** Entry `y` has one reference less, and is gone if that was the last. */
  ghost predicate LosesOne(s: State, s': State, y: Nid) {
    && y in s.mapInfo && s.mapInfo[y].refCount > 0
    && if s.mapInfo[y].refCount == 1 then y !in s'.mapInfo
       else y in s'.mapInfo && SameButPosition(s.mapInfo[y].(refCount := s.mapInfo[y].refCount - 1), s'.mapInfo[y])
  }

  /** AddrManImpl::Find. */
  function Find(s: State, a: Service): (r: Nid)
    ensures AddrOk(s) && IdsOk(s) ==> (r == EMPTY <==> forall id :: id in s.mapInfo ==> s.mapInfo[id].service != a)
    ensures AddrOk(s) && r != EMPTY ==> r in s.mapInfo && s.mapInfo[r].service == a
  {
    if a in s.mapAddr && s.mapAddr[a] in s.mapInfo then s.mapAddr[a] else EMPTY
  }

  /** AddrManImpl::Create. */
  method Create(c: Config, s0: State, addr: Address, source: NetAddr) returns (s: State, id: Nid)
    requires Ready(c, s0, {}, {}) && addr.service !in s0.mapAddr && c.isValid(addr.service)
    ensures Ready(c, s, {}, {id})
    ensures id == s0.nIdCount && id !in s0.mapInfo && id in s.mapInfo && s.mapInfo == s0.mapInfo[id := s.mapInfo[id]]
    ensures var i := s.mapInfo[id];
            && i.service == addr.service && i.services == addr.services && i.time == addr.time && i.source == source
            && i.refCount == 0 && !i.inTried && i.attempts == 0 && i.lastSuccess == 0 && i.lastTry == 0
            && i.lastCountAttempt == 0
    ensures s == s0.(nIdCount := s0.nIdCount + 1, mapInfo := s.mapInfo, mapAddr := s.mapAddr, vRandom := s.vRandom,
            nNew := s.nNew, netCounts := s.netCounts)
  {
    id := s0.nIdCount;
    s := s0.(nIdCount := s0.nIdCount + 1);
    var info := Info(addr.service, addr.services, addr.time, source, 0, 0, 0, 0, 0, false, |s.vRandom|);
    s := s.(mapInfo := s.mapInfo[id := info], mapAddr := s.mapAddr[addr.service := id]);
    s := s.(vRandom := s.vRandom + [id]);
    s := s.(nNew := s.nNew + 1);
    var net := c.network(addr.service);
    s := s.(netCounts := WithNew(s, net, NetCountOf(s, net).nNew + 1));
    CreatedReady(c, s0, info, s);
  }

  lemma CreatedReady(c: Config, s0: State, i: Info, s: State)
    requires Ready(c, s0, {}, {}) && i.service !in s0.mapAddr && i.randomPos == |s0.vRandom|
    requires i.refCount == 0 && !i.inTried && InfoOk(c, i)
    requires var net := c.network(i.service);
             s == Created(s0, i).(nNew := s0.nNew + 1, netCounts := WithNew(s0, net, NetCountOf(s0, net).nNew + 1))
    ensures Ready(c, s, {}, {s0.nIdCount}) && s0.nIdCount !in s0.mapInfo
  {
    Open(c, s0, {}, {});
    CreatedMid(c, s0, i, s);
    assert s0.nIdCount !in s0.mapInfo;
  }

  lemma CreatedCounters(c: Config, s0: State, i: Info, s: State)
    requires s0.nIdCount !in s0.mapInfo && CountersOk(c, s0, {}) && !i.inTried
    requires s.mapInfo == s0.mapInfo[s0.nIdCount := i] && s.nTried == s0.nTried && s.nNew == s0.nNew + 1
    requires var net := c.network(i.service); s.netCounts == WithNew(s0, net, NetCountOf(s0, net).nNew + 1)
    ensures CountersOk(c, s, {})
  {
    var id := s0.nIdCount;
    assert NewIds(s) - {} == NewIds(s0) + {id} && TriedIds(s) == TriedIds(s0) && NewIds(s0) - {} == NewIds(s0);
    CountNewPlus(c, s0, s, NewIds(s0), TriedIds(s0), id);
  }

  lemma CreatedMid(c: Config, s0: State, i: Info, s: State)
    requires Mid(c, s0, {}, {}) && i.service !in s0.mapAddr && i.randomPos == |s0.vRandom|
    requires i.refCount == 0 && !i.inTried && InfoOk(c, i)
    requires var net := c.network(i.service);
             s == Created(s0, i).(nNew := s0.nNew + 1, netCounts := WithNew(s0, net, NetCountOf(s0, net).nNew + 1))
    ensures Mid(c, s, {}, {s0.nIdCount})
  {
    assert Links(c, s) by {
      CreatedLinks(c, s0, i);
      LinksFrame(c, Created(s0, i), s);
    }
    assert s0.nIdCount !in s0.mapInfo;
    CreatedCounters(c, s0, i, s);
  }

  /** `Links` says nothing about the counters. */
  lemma LinksFrame(c: Config, s: State, s': State)
    requires Links(c, s)
    requires s' == s.(nNew := s'.nNew, nTried := s'.nTried, netCounts := s'.netCounts, lastGood := s'.lastGood)
    ensures Links(c, s')
  {
    assert TriedOk(c, s') by {
      forall x | x in s'.mapInfo && s'.mapInfo[x].inTried ensures InTriedSlot(c, s', x) { assert InTriedSlot(c, s, x); }
      forall b, p | 0 <= b < TRIED_BUCKET_COUNT && 0 <= p < BUCKET_SIZE && s'.vvTried[b][p] != EMPTY
        ensures TriedSlotOk(c, s', b, p, s'.vvTried[b][p]) { assert TriedSlotOk(c, s, b, p, s.vvTried[b][p]); }
    }
    assert NewOk(c, s') by {
      forall x | x in s'.mapInfo ensures RefCountOk(c, s', x) { assert RefCountOk(c, s, x); }
      forall b, p | 0 <= b < NEW_BUCKET_COUNT && 0 <= p < BUCKET_SIZE && s'.vvNew[b][p] != EMPTY
        ensures NewSlotOk(c, s', b, p, s'.vvNew[b][p]) { assert NewSlotOk(c, s, b, p, s.vvNew[b][p]); }
    }
  }

  /** AddrManImpl::SwapRandom. */
  method SwapRandom(s0: State, i: nat, j: nat) returns (s: State)
    requires RandomOk(s0) && (i != j ==> i < |s0.vRandom| && j < |s0.vRandom|)
    ensures RandomOk(s) && Reordered(s0, s)
    ensures i == j ==> s == s0
    ensures i != j ==> s.vRandom == s0.vRandom[i := s0.vRandom[j]][j := s0.vRandom[i]]
  {
    s := s0;
    if i == j { return; }
    SwappedRandom(s0, i, j);
    var id1, id2 := s.vRandom[i], s.vRandom[j];
    s := s.(mapInfo := s.mapInfo[id1 := s.mapInfo[id1].(randomPos := j)]);
    s := s.(mapInfo := s.mapInfo[id2 := s.mapInfo[id2].(randomPos := i)]);
    s := s.(vRandom := s.vRandom[i := id2]);
    s := s.(vRandom := s.vRandom[j := id1]);
  }

  /** AddrManImpl::Delete: only for an entry in no table.  The list and the counters are all it relies on. */
  method DeleteEntry(c: Config, s0: State, id: Nid) returns (s: State, ghost s1: State)
    requires RandomOk(s0) && id in s0.mapInfo && !s0.mapInfo[id].inTried && s0.mapInfo[id].refCount == 0
    requires NetCountOf(s0, c.network(s0.mapInfo[id].service)).nNew > 0
    ensures RandomOk(s1) && Reordered(s0, s1) && |s1.vRandom| > 0
    ensures s1.mapInfo[id].randomPos == |s1.vRandom| - 1 && SameButPosition(s0.mapInfo[id], s1.mapInfo[id])
    ensures var net := c.network(s0.mapInfo[id].service);
            s == Dropped(s1, id).(nNew := s0.nNew - 1, netCounts := WithNew(s0, net, NetCountOf(s0, net).nNew - 1))
  {
    var info := s0.mapInfo[id];
    s := SwapRandom(s0, info.randomPos, |s0.vRandom| - 1);
    s1 := s;
    DeletePositions(s0, s1, id);
    var net := c.network(info.service);
    s := s.(netCounts := WithNew(s, net, NetCountOf(s, net).nNew - 1));
    s := s.(vRandom := s.vRandom[..|s.vRandom| - 1]);
    s := s.(mapAddr := s.mapAddr - {info.service});
    s := s.(mapInfo := s.mapInfo - {id});
    s := s.(nNew := s.nNew - 1);
  }

  /** Deleting keeps everything else in agreement. */
  method Delete(c: Config, s0: State, id: Nid, ghost uncounted: set<Nid>, ghost unreferenced: set<Nid>)
    returns (s: State)
    requires Ready(c, s0, uncounted, unreferenced) && id in s0.mapInfo && id !in uncounted
    requires !s0.mapInfo[id].inTried && s0.mapInfo[id].refCount == 0
    ensures Ready(c, s, uncounted, unreferenced - {id})
    ensures s.mapInfo.Keys == s0.mapInfo.Keys - {id} && OldEntries(s0, s)
    ensures forall x :: x in s.mapInfo ==> SameButPosition(s0.mapInfo[x], s.mapInfo[x])
    ensures s.vvNew == s0.vvNew && s.vvTried == s0.vvTried && s.nTried == s0.nTried
  {
    DeletePrepared(c, s0, id, uncounted, unreferenced);
    ghost var s1;
    s, s1 := DeleteEntry(c, s0, id);
    DeletedReady(c, s0, s1, id, s, uncounted, unreferenced);
  }

  lemma DeletePrepared(c: Config, s: State, id: Nid, uncounted: set<Nid>, unreferenced: set<Nid>)
    requires Ready(c, s, uncounted, unreferenced) && id in s.mapInfo && id !in uncounted && !s.mapInfo[id].inTried
    ensures RandomOk(s) && |s.vRandom| > 0
    ensures NetCountOf(s, c.network(s.mapInfo[id].service)).nNew > 0
  {
    Open(c, s, uncounted, unreferenced);
    CountPositive(c, s, NewIds(s) - uncounted, TriedIds(s), id);
  }

  lemma DeletedReady(c: Config, s0: State, s1: State, id: Nid, s: State, uncounted: set<Nid>, unreferenced: set<Nid>)
    requires Ready(c, s0, uncounted, unreferenced) && id in s0.mapInfo && id !in uncounted
    requires !s0.mapInfo[id].inTried && s0.mapInfo[id].refCount == 0
    requires RandomOk(s1) && Reordered(s0, s1)
    requires s1.mapInfo[id].randomPos == |s1.vRandom| - 1 && SameButPosition(s0.mapInfo[id], s1.mapInfo[id])
    requires var net := c.network(s0.mapInfo[id].service);
             NetCountOf(s0, net).nNew > 0 &&
             s == Dropped(s1, id).(nNew := s0.nNew - 1, netCounts := WithNew(s0, net, NetCountOf(s0, net).nNew - 1))
    ensures Ready(c, s, uncounted, unreferenced - {id})
    ensures forall x :: x in s.mapInfo ==> x in s0.mapInfo && SameButPosition(s0.mapInfo[x], s.mapInfo[x])
  {
    Open(c, s0, uncounted, unreferenced);
    DeletedMid(c, s0, s1, id, s, uncounted, unreferenced);
  }

  lemma DeletePositions(s0: State, s1: State, id: Nid)
    requires RandomOk(s0) && id in s0.mapInfo && |s0.vRandom| > 0
    requires RandomOk(s1) && Reordered(s0, s1)
    requires var i, j := s0.mapInfo[id].randomPos, |s0.vRandom| - 1;
             if i == j then s1 == s0
             else i < |s0.vRandom| && s1.vRandom == s0.vRandom[i := s0.vRandom[j]][j := s0.vRandom[i]]
    ensures id in s1.mapInfo && s1.mapInfo[id].randomPos == |s1.vRandom| - 1
    ensures SameButPosition(s0.mapInfo[id], s1.mapInfo[id])
  {
    assert s1.vRandom[|s1.vRandom| - 1] == id;
  }

  lemma DeletedMid(c: Config, s0: State, s1: State, id: Nid, s: State, uncounted: set<Nid>, unreferenced: set<Nid>)
    requires Mid(c, s0, uncounted, unreferenced) && id in s0.mapInfo && id !in uncounted
    requires !s0.mapInfo[id].inTried && s0.mapInfo[id].refCount == 0
    requires RandomOk(s1) && Reordered(s0, s1)
    requires s1.mapInfo[id].randomPos == |s1.vRandom| - 1 && SameButPosition(s0.mapInfo[id], s1.mapInfo[id])
    requires var net := c.network(s0.mapInfo[id].service);
             NetCountOf(s0, net).nNew > 0 &&
             s == Dropped(s1, id).(nNew := s0.nNew - 1, netCounts := WithNew(s0, net, NetCountOf(s0, net).nNew - 1))
    ensures Mid(c, s, uncounted, unreferenced - {id})
    ensures forall x :: x in s.mapInfo ==> x in s0.mapInfo && SameButPosition(s0.mapInfo[x], s.mapInfo[x])
  {
    assert Links(c, s) by {
      ReorderedLinks(c, s0, s1);
      DroppedLinks(c, s1, id);
      LinksFrame(c, Dropped(s1, id), s);
    }
    assert forall x :: x in s.mapInfo ==> x in s0.mapInfo && SameButPosition(s0.mapInfo[x], s.mapInfo[x]);
    DeletedCounters(c, s0, id, s, uncounted);
  }

  lemma DeletedCounters(c: Config, s0: State, id: Nid, s: State, uncounted: set<Nid>)
    requires CountersOk(c, s0, uncounted) && id in s0.mapInfo && id !in uncounted && !s0.mapInfo[id].inTried
    requires s.mapInfo.Keys == s0.mapInfo.Keys - {id} && s.nTried == s0.nTried && s.nNew == s0.nNew - 1
    requires forall x :: x in s.mapInfo ==> x in s0.mapInfo && SameButPosition(s0.mapInfo[x], s.mapInfo[x])
    requires var net := c.network(s0.mapInfo[id].service);
             NetCountOf(s0, net).nNew > 0 && s.netCounts == WithNew(s0, net, NetCountOf(s0, net).nNew - 1)
    ensures CountersOk(c, s, uncounted)
  {
    DeletedIds(s0, id, s);
    assert (NewIds(s0) - uncounted) - {id} == NewIds(s) - uncounted;
    CountNewMinus(c, s0, s, NewIds(s0) - uncounted, TriedIds(s0), id);
  }

  lemma DeletedIds(s0: State, id: Nid, s: State)
    requires id in s0.mapInfo && !s0.mapInfo[id].inTried && s.mapInfo.Keys == s0.mapInfo.Keys - {id}
    requires forall x :: x in s.mapInfo ==> x in s0.mapInfo && SameButPosition(s0.mapInfo[x], s.mapInfo[x])
    ensures NewIds(s) == NewIds(s0) - {id} && TriedIds(s) == TriedIds(s0)
  {
    forall x ensures (x in NewIds(s) <==> x in NewIds(s0) - {id}) && (x in TriedIds(s) <==> x in TriedIds(s0)) {
      if x in s.mapInfo { assert SameButPosition(s0.mapInfo[x], s.mapInfo[x]); }
    }
  }

  // ----- clearing a slot of the new table

  lemma ReadyWeaken(c: Config, s: State, uncounted: set<Nid>, few: set<Nid>, many: set<Nid>)
    requires Ready(c, s, uncounted, few) && few <= many
    ensures Ready(c, s, uncounted, many)
  {
    Open(c, s, uncounted, few);
  }

  lemma ClearedReady(c: Config, s: State, b: nat, p: nat, uncounted: set<Nid>, unreferenced: set<Nid>)
    requires Ready(c, s, uncounted, unreferenced) && b < NEW_BUCKET_COUNT && p < BUCKET_SIZE
    ensures Shape(s.vvNew, NEW_BUCKET_COUNT)
    ensures s.vvNew[b][p] != EMPTY ==>
              && s.vvNew[b][p] in s.mapInfo && !s.mapInfo[s.vvNew[b][p]].inTried
              && s.mapInfo[s.vvNew[b][p]].refCount > 0
              && Ready(c, ClearedSlot(s, b, p), uncounted, unreferenced + {s.vvNew[b][p]})
              && (s.mapInfo[s.vvNew[b][p]].refCount > 1 ==> Ready(c, ClearedSlot(s, b, p), uncounted, unreferenced))
  {
    Open(c, s, uncounted, unreferenced);
    if s.vvNew[b][p] != EMPTY {
      SlotHasReference(c, s, b, p);
      ClearedLinks(c, s, b, p);
      ClearedCounters(c, s, b, p, uncounted);
    }
  }

  lemma ClearedCounters(c: Config, s: State, b: nat, p: nat, uncounted: set<Nid>)
    requires b < |s.vvNew| && p < |s.vvNew[b]| && s.vvNew[b][p] in s.mapInfo && s.mapInfo[s.vvNew[b][p]].refCount > 0
    requires CountersOk(c, s, uncounted)
    ensures CountersOk(c, ClearedSlot(s, b, p), uncounted)
  {
    var s' := ClearedSlot(s, b, p);
    assert NewIds(s') == NewIds(s) && TriedIds(s') == TriedIds(s);
    CountingFrame(c, s, s', NewIds(s) - uncounted, TriedIds(s));
  }

  /** AddrManImpl::ClearNew: afterwards the slot is empty, and its entry is gone if this was its last reference. */
  method ClearNew(c: Config, s0: State, b: nat, p: nat, ghost uncounted: set<Nid>, ghost unreferenced: set<Nid>)
    returns (s: State)
    requires Ready(c, s0, uncounted, unreferenced) && b < NEW_BUCKET_COUNT && p < BUCKET_SIZE
    requires forall x :: x in uncounted ==> x in s0.mapInfo && s0.mapInfo[x].refCount == 0
    ensures Ready(c, s, uncounted, unreferenced)
    ensures Shape(s0.vvNew, NEW_BUCKET_COUNT) && s.vvNew == Put(s0.vvNew, b, p, EMPTY)
    ensures s.vvTried == s0.vvTried && s.nTried == s0.nTried && OldEntries(s0, s)
    ensures SameOutside(s0, s, {s0.vvNew[b][p]}) && (s0.vvNew[b][p] != EMPTY ==> LosesOne(s0, s, s0.vvNew[b][p]))
    ensures forall x :: x in s.mapInfo ==> s.mapInfo[x].inTried == s0.mapInfo[x].inTried
  {
    s := s0;
    ClearedReady(c, s0, b, p, uncounted, unreferenced);
    if s.vvNew[b][p] != EMPTY {
      var id := s.vvNew[b][p];
      s := s.(mapInfo := s.mapInfo[id := s.mapInfo[id].(refCount := s.mapInfo[id].refCount - 1)]);
      s := s.(vvNew := Put(s.vvNew, b, p, EMPTY));
      assert s == ClearedSlot(s0, b, p);
      if s.mapInfo[id].refCount == 0 {
        ghost var s1 := s;
        s := Delete(c, s, id, uncounted, unreferenced + {id});
        ReadyWeaken(c, s, uncounted, unreferenced + {id} - {id}, unreferenced);
        assert forall x :: x in s.mapInfo ==> SameButPosition(s1.mapInfo[x], s.mapInfo[x]);
      }
    } else {
      PutSame(s0.vvNew, NEW_BUCKET_COUNT, b, p);
    }
  }

  lemma PutSame(t: Table, n: nat, b: nat, p: nat)
    requires Shape(t, n) && b < n && p < BUCKET_SIZE
    ensures Put(t, b, p, t[b][p]) == t
  {
    assert t[b][p := t[b][p]] == t[b];
  }

  // ----- MakeTried

  /** The bucket visited in step m when starting at bucket `start`. */
  function Around(start: nat, m: nat): nat { (start + m) % NEW_BUCKET_COUNT }

  ghost predicate AbsentFrom(c: Config, s: State, id: Nid, b: nat)
    requires Shape(s.vvNew, NEW_BUCKET_COUNT) && id in s.mapInfo && b < NEW_BUCKET_COUNT
  {
    s.vvNew[b][NewPos(c, s.mapInfo[id].service, b)] != id
  }

  ghost predicate NotYetIn(c: Config, s: State, id: Nid, start: nat, n: nat)
    requires Shape(s.vvNew, NEW_BUCKET_COUNT) && id in s.mapInfo
  {
    forall m: nat :: m < n ==> AbsentFrom(c, s, id, Around(start, m))
  }

  /** Going once around all buckets leaves no reference. */
  lemma AllVisited(c: Config, s: State, id: Nid, start: nat, uncounted: set<Nid>, unreferenced: set<Nid>)
    requires Ready(c, s, uncounted, unreferenced) && id in s.mapInfo && start < NEW_BUCKET_COUNT
    requires Shape(s.vvNew, NEW_BUCKET_COUNT) && NotYetIn(c, s, id, start, NEW_BUCKET_COUNT)
    ensures s.mapInfo[id].refCount == 0
  {
    Open(c, s, uncounted, unreferenced);
    assert RefCountOk(c, s, id);
    var a := s.mapInfo[id].service;
    forall b: nat | b < NEW_BUCKET_COUNT ensures s.vvNew[b][NewPos(c, a, b)] != id {
      var m := if b >= start then b - start else b - start + NEW_BUCKET_COUNT;
      assert Around(start, m) == b;
      assert AbsentFrom(c, s, id, Around(start, m));
    }
    assert Buckets(c, s.vvNew, a, id) == {};
  }

  /** Some slots of `id` have been emptied. */
  ghost predicate Freed(t: Table, t': Table, id: Nid) {
    && Shape(t, NEW_BUCKET_COUNT) && Shape(t', NEW_BUCKET_COUNT)
    && forall b: nat, p: nat :: b < NEW_BUCKET_COUNT && p < BUCKET_SIZE ==>
         t'[b][p] == t[b][p] || (t[b][p] == id && t'[b][p] == EMPTY)
  }

  /** The slots of `id` have been emptied, and no other. */
  ghost predicate Erased(t: Table, t': Table, id: Nid) {
    && Shape(t, NEW_BUCKET_COUNT) && Shape(t', NEW_BUCKET_COUNT)
    && forall b: nat, p: nat :: b < NEW_BUCKET_COUNT && p < BUCKET_SIZE ==>
         t'[b][p] == if t[b][p] == id then EMPTY else t[b][p]
  }

  /** Then `x` has been put into one slot. */
  ghost predicate ErasedAndPut(t: Table, t': Table, id: Nid, nb: nat, np: nat, x: Nid) {
    && Shape(t, NEW_BUCKET_COUNT) && Shape(t', NEW_BUCKET_COUNT)
    && forall b: nat, p: nat :: b < NEW_BUCKET_COUNT && p < BUCKET_SIZE ==>
         t'[b][p] == if b == nb && p == np then x else if t[b][p] == id then EMPTY else t[b][p]
  }

  lemma FreedIsErased(c: Config, s: State, t: Table, id: Nid)
    requires Ready(c, s, {}, {id}) && id in s.mapInfo && s.mapInfo[id].refCount == 0 && Freed(t, s.vvNew, id)
    ensures Erased(t, s.vvNew, id)
  {
    Open(c, s, {}, {id});
    forall b: nat, p: nat | b < NEW_BUCKET_COUNT && p < BUCKET_SIZE ensures s.vvNew[b][p] != id {
      UnreferencedIsNowhere(c, s, id, b, p);
    }
  }

  ghost predicate OnlyUnlinked(s0: State, s: State, id: Nid)
    requires id in s0.mapInfo && id in s.mapInfo
  {
    s == s0.(vvNew := s.vvNew, mapInfo := s0.mapInfo[id := s0.mapInfo[id].(refCount := s.mapInfo[id].refCount)])
  }

  lemma ReadyShape(c: Config, s: State, uncounted: set<Nid>, unreferenced: set<Nid>)
    requires Ready(c, s, uncounted, unreferenced)
    ensures Shape(s.vvNew, NEW_BUCKET_COUNT) && Shape(s.vvTried, TRIED_BUCKET_COUNT) && EMPTY !in s.mapInfo
    ensures RandomOk(s) && AddrOk(s) && IdsOk(s)
  {
    Open(c, s, uncounted, unreferenced);
  }

  lemma ClearedElsewhere(c: Config, s: State, id: Nid, start: nat, n: nat, b: nat, p: nat)
    requires Shape(s.vvNew, NEW_BUCKET_COUNT) && id in s.mapInfo && id != EMPTY && NotYetIn(c, s, id, start, n)
    requires b == Around(start, n) && p == NewPos(c, s.mapInfo[id].service, b)
    requires s.vvNew[b][p] == id && s.mapInfo[id].refCount > 0
    ensures Shape(ClearedSlot(s, b, p).vvNew, NEW_BUCKET_COUNT) && NotYetIn(c, ClearedSlot(s, b, p), id, start, n + 1)
  {
    PutShape(s.vvNew, NEW_BUCKET_COUNT, b, p, EMPTY);
    forall m: nat | m < n + 1 ensures AbsentFrom(c, ClearedSlot(s, b, p), id, Around(start, m)) {
      assert m < n ==> AbsentFrom(c, s, id, Around(start, m));
    }
  }

  /** The first loop of MakeTried: the entry leaves every new bucket, and its reference count reaches zero. */
  method RemoveFromNew(c: Config, s0: State, id: Nid) returns (s: State)
    requires Ready(c, s0, {}, {}) && id in s0.mapInfo && s0.mapInfo[id].refCount > 0
    ensures id in s.mapInfo && OnlyUnlinked(s0, s, id) && s.mapInfo[id].refCount == 0
    ensures Ready(c, s, {}, {id}) && Erased(s0.vvNew, s.vvNew, id)
  {
    s := s0;
    var info := s.mapInfo[id];
    var start := NewBucket(c, info.service, info.source);
    ReadyShape(c, s0, {}, {});
    ReadyWeaken(c, s0, {}, {}, {id});
    var n := 0;
    while n < NEW_BUCKET_COUNT
      invariant 0 <= n <= NEW_BUCKET_COUNT && id in s.mapInfo && OnlyUnlinked(s0, s, id)
      invariant Ready(c, s, {}, {id}) && Freed(s0.vvNew, s.vvNew, id) && NotYetIn(c, s, id, start, n)
    {
      var bucket := Around(start, n);
      var pos := NewPos(c, info.service, bucket);
      if s.vvNew[bucket][pos] == id {
        ClearedReady(c, s, bucket, pos, {}, {id});
        ClearedElsewhere(c, s, id, start, n, bucket, pos);
        assert {id} + {id} == {id};
        s := ClearAndCount(s, bucket, pos, id);
        if s.mapInfo[id].refCount == 0 {
          FreedIsErased(c, s, s0.vvNew, id);
          return;
        }
      }
      n := n + 1;
    }
    AllVisited(c, s, id, start, {}, {id});
    FreedIsErased(c, s, s0.vvNew, id);
  }

  method ClearAndCount(s0: State, b: nat, p: nat, id: Nid) returns (s: State)
    requires b < |s0.vvNew| && p < |s0.vvNew[b]| && s0.vvNew[b][p] == id && id in s0.mapInfo
    requires s0.mapInfo[id].refCount > 0
    ensures s == ClearedSlot(s0, b, p)
  {
    s := s0.(vvNew := Put(s0.vvNew, b, p, EMPTY));
    s := s.(mapInfo := s.mapInfo[id := s.mapInfo[id].(refCount := s.mapInfo[id].refCount - 1)]);
  }

  /** nNew stops counting an entry that is about to leave the new table. */
  lemma UncountReady(c: Config, s0: State, id: Nid, s: State)
    requires Ready(c, s0, {}, {id}) && id in s0.mapInfo && !s0.mapInfo[id].inTried
    requires var net := c.network(s0.mapInfo[id].service);
             NetCountOf(s0, net).nNew > 0 ==> s == s0.(nNew := s0.nNew - 1,
                                                       netCounts := WithNew(s0, net, NetCountOf(s0, net).nNew - 1))
    ensures NetCountOf(s0, c.network(s0.mapInfo[id].service)).nNew > 0
    ensures Ready(c, s, {id}, {id})
  {
    Open(c, s0, {}, {id});
    CountPositive(c, s0, NewIds(s0) - {}, TriedIds(s0), id);
    LinksFrame(c, s0, s);
    UncountCounters(c, s0, id, s);
  }

  lemma UncountCounters(c: Config, s0: State, id: Nid, s: State)
    requires CountersOk(c, s0, {}) && id in s0.mapInfo && !s0.mapInfo[id].inTried
    requires var net := c.network(s0.mapInfo[id].service);
             NetCountOf(s0, net).nNew > 0 &&
             s == s0.(nNew := s0.nNew - 1, netCounts := WithNew(s0, net, NetCountOf(s0, net).nNew - 1))
    ensures CountersOk(c, s, {id})
  {
    assert NewIds(s) == NewIds(s0) && TriedIds(s) == TriedIds(s0) && NewIds(s0) - {} - {id} == NewIds(s) - {id};
    CountNewMinus(c, s0, s, NewIds(s0) - {}, TriedIds(s0), id);
  }

  lemma TriedEntry(c: Config, s: State, b: nat, p: nat, uncounted: set<Nid>, unreferenced: set<Nid>)
    requires Ready(c, s, uncounted, unreferenced) && b < TRIED_BUCKET_COUNT && p < BUCKET_SIZE
    requires Shape(s.vvTried, TRIED_BUCKET_COUNT) && s.vvTried[b][p] != EMPTY
    ensures var x := s.vvTried[b][p];
            && x in s.mapInfo && s.mapInfo[x].inTried && s.mapInfo[x].refCount == 0
            && NetCountOf(s, c.network(s.mapInfo[x].service)).nTried > 0
            && TriedSlotOk(c, s, b, p, x)
  {
    Open(c, s, uncounted, unreferenced);
    var x := s.vvTried[b][p];
    assert TriedSlotOk(c, s, b, p, x);
    EvictedLinks(c, s, b, p);
    CountPositive(c, s, NewIds(s) - uncounted, TriedIds(s), x);
  }

  lemma EvictedReady(c: Config, s0: State, b: nat, p: nat, x: Nid, s: State, uncounted: set<Nid>)
    requires Ready(c, s0, uncounted, uncounted) && b < TRIED_BUCKET_COUNT && p < BUCKET_SIZE
    requires Shape(s0.vvTried, TRIED_BUCKET_COUNT) && s0.vvTried[b][p] == x != EMPTY && x in s0.mapInfo
    requires var net := c.network(s0.mapInfo[x].service);
             NetCountOf(s0, net).nTried > 0 &&
             s == Evicted(s0, b, p).(nTried := s0.nTried - 1,
                                     netCounts := WithTried(s0, net, NetCountOf(s0, net).nTried - 1))
    ensures Ready(c, s, uncounted + {x}, uncounted + {x})
  {
    Open(c, s0, uncounted, uncounted);
    assert Links(c, s) by {
      EvictedLinks(c, s0, b, p);
      LinksFrame(c, Evicted(s0, b, p), s);
    }
    EvictedCounters(c, s0, b, p, x, s, uncounted);
  }

  lemma EvictedCounters(c: Config, s0: State, b: nat, p: nat, x: Nid, s: State, uncounted: set<Nid>)
    requires CountersOk(c, s0, uncounted) && b < |s0.vvTried| && p < |s0.vvTried[b]| && s0.vvTried[b][p] == x
    requires x in s0.mapInfo && s0.mapInfo[x].inTried
    requires var net := c.network(s0.mapInfo[x].service);
             NetCountOf(s0, net).nTried > 0 &&
             s == Evicted(s0, b, p).(nTried := s0.nTried - 1,
                                     netCounts := WithTried(s0, net, NetCountOf(s0, net).nTried - 1))
    ensures CountersOk(c, s, uncounted + {x})
  {
    assert NewIds(s) == NewIds(s0) + {x} && TriedIds(s) == TriedIds(s0) - {x};
    assert NewIds(s) - (uncounted + {x}) == NewIds(s0) - uncounted;
    CountTriedMinus(c, s0, s, NewIds(s0) - uncounted, TriedIds(s0), x);
  }

  lemma ReturnedReady(c: Config, s0: State, b: nat, p: nat, x: Nid, s: State, uncounted: set<Nid>)
    requires Ready(c, s0, uncounted + {x}, uncounted + {x}) && x !in uncounted
    requires b < NEW_BUCKET_COUNT && p < BUCKET_SIZE && Shape(s0.vvNew, NEW_BUCKET_COUNT) && s0.vvNew[b][p] == EMPTY
    requires x in s0.mapInfo && !s0.mapInfo[x].inTried && s0.mapInfo[x].refCount == 0
    requires p == NewPos(c, s0.mapInfo[x].service, b)
    requires var net := c.network(s0.mapInfo[x].service);
             s == FilledSlot(s0, b, p, x).(nNew := s0.nNew + 1,
                                           netCounts := WithNew(s0, net, NetCountOf(s0, net).nNew + 1))
    ensures Ready(c, s, uncounted, uncounted)
  {
    Open(c, s0, uncounted + {x}, uncounted + {x});
    assert Links(c, s) by {
      FilledLinks(c, s0, b, p, x);
      LinksFrame(c, FilledSlot(s0, b, p, x), s);
    }
    ReturnedCounters(c, s0, b, p, x, s, uncounted);
  }

  lemma ReturnedCounters(c: Config, s0: State, b: nat, p: nat, x: Nid, s: State, uncounted: set<Nid>)
    requires CountersOk(c, s0, uncounted + {x}) && x !in uncounted
    requires b < |s0.vvNew| && p < |s0.vvNew[b]| && x in s0.mapInfo && !s0.mapInfo[x].inTried
    requires var net := c.network(s0.mapInfo[x].service);
             s == FilledSlot(s0, b, p, x).(nNew := s0.nNew + 1,
                                           netCounts := WithNew(s0, net, NetCountOf(s0, net).nNew + 1))
    ensures CountersOk(c, s, uncounted)
  {
    assert NewIds(s) == NewIds(s0) && TriedIds(s) == TriedIds(s0);
    assert NewIds(s) - uncounted == (NewIds(s0) - (uncounted + {x})) + {x};
    CountNewPlus(c, s0, s, NewIds(s0) - (uncounted + {x}), TriedIds(s0), x);
  }

  /** The tried entry `x` is back in the new slot of its own source, and the holder of that slot has lost it. */
  ghost predicate BackInNew(c: Config, s0: State, s: State, x: Nid) {
    && Shape(s0.vvNew, NEW_BUCKET_COUNT) && x in s0.mapInfo && x in s.mapInfo
    && SameButPosition(s0.mapInfo[x].(inTried := false, refCount := 1), s.mapInfo[x])
    && var nb := NewBucket(c, s0.mapInfo[x].service, s0.mapInfo[x].source);
       var np := NewPos(c, s0.mapInfo[x].service, nb);
       var y := s0.vvNew[nb][np];
       && s.vvNew == Put(s0.vvNew, nb, np, x)
       && y != x && (y != EMPTY ==> LosesOne(s0, s, y)) && SameOutside(s0, s, {x, y})
  }

  /** Losing the flag, clearing the slot and taking it make up the whole. */
  lemma SentBack(c: Config, s0: State, s1: State, s2: State, s: State, x: Nid)
    requires Shape(s0.vvNew, NEW_BUCKET_COUNT) && x in s0.mapInfo && x in s2.mapInfo && s1.vvNew == s0.vvNew
    requires s0.mapInfo[x].refCount == 0 && s1.mapInfo == s0.mapInfo[x := s0.mapInfo[x].(inTried := false)]
    requires s.mapInfo == s2.mapInfo[x := s2.mapInfo[x].(refCount := 1)]
    requires var nb := NewBucket(c, s0.mapInfo[x].service, s0.mapInfo[x].source);
             var np := NewPos(c, s0.mapInfo[x].service, nb);
             var y := s0.vvNew[nb][np];
             && y != x && s2.vvNew == Put(s0.vvNew, nb, np, EMPTY) && s.vvNew == Put(s2.vvNew, nb, np, x)
             && SameOutside(s1, s2, {y}) && (y != EMPTY ==> LosesOne(s1, s2, y))
    ensures BackInNew(c, s0, s, x)
  {
    var nb := NewBucket(c, s0.mapInfo[x].service, s0.mapInfo[x].source);
    PutTwice(s0.vvNew, NEW_BUCKET_COUNT, nb, NewPos(c, s0.mapInfo[x].service, nb), EMPTY, x);
  }

  /** The eviction inside MakeTried: the tried entry goes back to the new table, displacing what is there. */
  method EvictOld(c: Config, s0: State, b: nat, p: nat, ghost id: Nid) returns (s: State)
    requires Ready(c, s0, {id}, {id}) && id in s0.mapInfo && !s0.mapInfo[id].inTried && s0.mapInfo[id].refCount == 0
    requires b < TRIED_BUCKET_COUNT && p < BUCKET_SIZE && Shape(s0.vvTried, TRIED_BUCKET_COUNT)
    requires s0.vvTried[b][p] != EMPTY
    ensures Ready(c, s, {id}, {id}) && OldEntries(s0, s)
    ensures s.vvTried == Put(s0.vvTried, b, p, EMPTY) && s.nTried == s0.nTried - 1
    ensures id in s.mapInfo && SameButPosition(s0.mapInfo[id], s.mapInfo[id])
    ensures forall x :: x in s.mapInfo && s.mapInfo[x].inTried ==> s0.mapInfo[x].inTried
    ensures BackInNew(c, s0, s, s0.vvTried[b][p])
  {
    TriedEntry(c, s0, b, p, {id}, {id});
    s := s0;
    var evict := s.vvTried[b][p];
    s := s.(mapInfo := s.mapInfo[evict := s.mapInfo[evict].(inTried := false)]);
    s := s.(vvTried := Put(s.vvTried, b, p, EMPTY));
    var net := c.network(s.mapInfo[evict].service);
    s := s.(nTried := s.nTried - 1, netCounts := WithTried(s, net, NetCountOf(s, net).nTried - 1));
    EvictedReady(c, s0, b, p, evict, s, {id});
    var nb := NewBucket(c, s.mapInfo[evict].service, s.mapInfo[evict].source);
    var np := NewPos(c, s.mapInfo[evict].service, nb);
    ghost var s1 := s;
    EmptyHanded(c, s1, nb, np, {id} + {evict});
    s := ClearNew(c, s, nb, np, {id} + {evict}, {id} + {evict});
    assert SameButPosition(s1.mapInfo[evict], s.mapInfo[evict]) && SameButPosition(s1.mapInfo[id], s.mapInfo[id]);
    ghost var s2 := s;
    ClearedReady(c, s2, nb, np, {id} + {evict}, {id} + {evict});
    s := s.(mapInfo := s.mapInfo[evict := s.mapInfo[evict].(refCount := 1)]);
    s := s.(vvNew := Put(s.vvNew, nb, np, evict));
    s := s.(nNew := s.nNew + 1, netCounts := WithNew(s, net, NetCountOf(s, net).nNew + 1));
    ReturnedReady(c, s2, nb, np, evict, s, {id});
    SentBack(c, s0, s1, s2, s, evict);
  }

  /** An entry without references is not what a new slot holds. */
  lemma EmptyHanded(c: Config, s: State, b: nat, p: nat, ids: set<Nid>)
    requires Ready(c, s, ids, ids) && b < NEW_BUCKET_COUNT && p < BUCKET_SIZE
    requires forall x :: x in ids ==> x in s.mapInfo && s.mapInfo[x].refCount == 0
    ensures Shape(s.vvNew, NEW_BUCKET_COUNT) && s.vvNew[b][p] !in ids
  {
    Open(c, s, ids, ids);
    if s.vvNew[b][p] != EMPTY { SlotHasReference(c, s, b, p); }
  }

  lemma PromotedReady(c: Config, s0: State, b: nat, p: nat, id: Nid, s: State)
    requires Ready(c, s0, {id}, {id}) && b < TRIED_BUCKET_COUNT && p < BUCKET_SIZE
    requires Shape(s0.vvTried, TRIED_BUCKET_COUNT) && s0.vvTried[b][p] == EMPTY
    requires id in s0.mapInfo && !s0.mapInfo[id].inTried && s0.mapInfo[id].refCount == 0
    requires s0.mapInfo[id].lastSuccess > 0
    requires b == TriedBucket(c, s0.mapInfo[id].service) && p == TriedPos(c, s0.mapInfo[id].service, b)
    requires var net := c.network(s0.mapInfo[id].service);
             s == Promoted(s0, b, p, id).(nTried := s0.nTried + 1,
                                          netCounts := WithTried(s0, net, NetCountOf(s0, net).nTried + 1))
    ensures Ready(c, s, {}, {})
  {
    Open(c, s0, {id}, {id});
    assert Links(c, s) by {
      PromotedLinks(c, s0, b, p, id);
      LinksFrame(c, Promoted(s0, b, p, id), s);
    }
    PromotedCounters(c, s0, b, p, id, s);
  }

  lemma PromotedCounters(c: Config, s0: State, b: nat, p: nat, id: Nid, s: State)
    requires CountersOk(c, s0, {id}) && b < |s0.vvTried| && p < |s0.vvTried[b]| && id in s0.mapInfo
    requires !s0.mapInfo[id].inTried
    requires var net := c.network(s0.mapInfo[id].service);
             s == Promoted(s0, b, p, id).(nTried := s0.nTried + 1,
                                          netCounts := WithTried(s0, net, NetCountOf(s0, net).nTried + 1))
    ensures CountersOk(c, s, {})
  {
    assert NewIds(s) - {} == NewIds(s0) - {id} && TriedIds(s) == TriedIds(s0) + {id};
    CountTriedPlus(c, s0, s, NewIds(s0) - {id}, TriedIds(s0), id);
  }

  lemma PutTwice(t: Table, n: nat, b: nat, p: nat, x: Nid, y: Nid)
    requires Shape(t, n) && b < n && p < BUCKET_SIZE
    ensures Shape(Put(t, b, p, x), n) && Put(Put(t, b, p, x), b, p, y) == Put(t, b, p, y)
  {
    assert t[b][p := x][p := y] == t[b][p := y];
  }

  /** The entry leaves the new table and nNew. */
  method LeaveNew(c: Config, s0: State, id: Nid) returns (s: State)
    requires Ready(c, s0, {}, {}) && id in s0.mapInfo && !s0.mapInfo[id].inTried && s0.mapInfo[id].refCount > 0
    ensures Ready(c, s, {id}, {id})
    ensures s == s0.(vvNew := s.vvNew, mapInfo := s0.mapInfo[id := s0.mapInfo[id].(refCount := 0)], nNew := s.nNew,
            netCounts := s.netCounts)
    ensures Erased(s0.vvNew, s.vvNew, id)
  {
    s := RemoveFromNew(c, s0, id);
    var net := c.network(s.mapInfo[id].service);
    CountedOnce(c, s, id);
    ghost var s1 := s;
    s := s.(nNew := s.nNew - 1, netCounts := WithNew(s, net, NetCountOf(s, net).nNew - 1));
    UncountReady(c, s1, id, s);
  }

  /** The entry enters its empty tried slot. */
  method EnterTried(c: Config, s0: State, b: nat, p: nat, id: Nid) returns (s: State)
    requires Ready(c, s0, {id}, {id}) && b < TRIED_BUCKET_COUNT && p < BUCKET_SIZE
    requires Shape(s0.vvTried, TRIED_BUCKET_COUNT) && s0.vvTried[b][p] == EMPTY
    requires id in s0.mapInfo && !s0.mapInfo[id].inTried && s0.mapInfo[id].refCount == 0
    requires s0.mapInfo[id].lastSuccess > 0
    requires b == TriedBucket(c, s0.mapInfo[id].service) && p == TriedPos(c, s0.mapInfo[id].service, b)
    ensures Ready(c, s, {}, {})
    ensures s == Promoted(s0, b, p, id).(nTried := s0.nTried + 1, netCounts := s.netCounts)
  {
    var net := c.network(s0.mapInfo[id].service);
    s := s0.(vvTried := Put(s0.vvTried, b, p, id));
    s := s.(nTried := s.nTried + 1);
    s := s.(mapInfo := s.mapInfo[id := s.mapInfo[id].(inTried := true)]);
    s := s.(netCounts := WithTried(s, net, NetCountOf(s, net).nTried + 1));
    PromotedReady(c, s0, b, p, id, s);
  }

  /** The entry `x` that stood in the way of `id` is back in the new table; `id` has left the new table. */
  ghost predicate GaveWay(c: Config, s0: State, s: State, id: Nid, x: Nid) {
    && x != id && Shape(s0.vvNew, NEW_BUCKET_COUNT) && x in s0.mapInfo && x in s.mapInfo
    && SameButPosition(s0.mapInfo[x].(inTried := false, refCount := 1), s.mapInfo[x])
    && var nb := NewBucket(c, s0.mapInfo[x].service, s0.mapInfo[x].source);
       var np := NewPos(c, s0.mapInfo[x].service, nb);
       var y := s0.vvNew[nb][np];
       && ErasedAndPut(s0.vvNew, s.vvNew, id, nb, np, x)
       && y != x && (y != EMPTY && y != id ==> LosesOne(s0, s, y)) && SameOutside(s0, s, {id, x, y})
  }

  /** What becomes of all entries and tables when `id` takes its tried slot. */
  ghost predicate MadeTried(c: Config, s0: State, s: State, id: Nid) {
    && Shape(s0.vvTried, TRIED_BUCKET_COUNT) && id in s0.mapInfo && id in s.mapInfo
    && SameButPosition(s0.mapInfo[id].(inTried := true, refCount := 0), s.mapInfo[id])
    && var a := s0.mapInfo[id].service;
       var b := TriedBucket(c, a);
       var p := TriedPos(c, a, b);
       var x := s0.vvTried[b][p];
       && s.vvTried == Put(s0.vvTried, b, p, id)
       && if x == EMPTY then Erased(s0.vvNew, s.vvNew, id) && SameOutside(s0, s, {id})
          else GaveWay(c, s0, s, id, x)
  }

  /** Leaving the new table, sending back the entry in the way, and taking the slot make up the whole. */
  lemma WayGiven(c: Config, s0: State, s1: State, s2: State, s: State, id: Nid, x: Nid)
    requires x != EMPTY && x != id && id in s0.mapInfo && Erased(s0.vvNew, s1.vvNew, id)
    requires EMPTY !in s0.mapInfo && EMPTY !in s2.mapInfo
    requires s1.mapInfo == s0.mapInfo[id := s0.mapInfo[id].(refCount := 0)] && BackInNew(c, s1, s2, x)
    requires s.vvNew == s2.vvNew && id in s2.mapInfo && s.mapInfo == s2.mapInfo[id := s2.mapInfo[id].(inTried := true)]
    ensures GaveWay(c, s0, s, id, x)
  {
    var nb := NewBucket(c, s0.mapInfo[x].service, s0.mapInfo[x].source);
    var np := NewPos(c, s0.mapInfo[x].service, nb);
    var y, y' := s0.vvNew[nb][np], s1.vvNew[nb][np];
    PutShape(s1.vvNew, NEW_BUCKET_COUNT, nb, np, x);
    assert y' == if y == id then EMPTY else y;
    assert SameOutside(s0, s, {id, x, y});
    assert y' != EMPTY ==> LosesOne(s1, s2, y');
  }

  /** AddrManImpl::MakeTried. */
  method MakeTried(c: Config, s0: State, id: Nid) returns (s: State)
    requires Ready(c, s0, {}, {}) && id in s0.mapInfo
    requires !s0.mapInfo[id].inTried && s0.mapInfo[id].refCount > 0 && s0.mapInfo[id].lastSuccess > 0
    ensures Ready(c, s, {}, {}) && OldEntries(s0, s) && TriedKept(s0, s)
    ensures id in s.mapInfo && s.mapInfo[id].inTried
    ensures var a := s0.mapInfo[id].service;
            s.vvTried == Put(s0.vvTried, TriedBucket(c, a), TriedPos(c, a, TriedBucket(c, a)), id)
    ensures forall x :: x in s.mapInfo && s.mapInfo[x].inTried ==> x == id || s0.mapInfo[x].inTried
    ensures MadeTried(c, s0, s, id)
  {
    ReadyShape(c, s0, {}, {});
    s := LeaveNew(c, s0, id);
    var b := TriedBucket(c, s.mapInfo[id].service);
    var p := TriedPos(c, s.mapInfo[id].service, b);
    PutTwice(s.vvTried, TRIED_BUCKET_COUNT, b, p, EMPTY, id);
    var x := s.vvTried[b][p];
    ghost var s1 := s;
    if x != EMPTY {
      TriedEntry(c, s, b, p, {id}, {id});
      s := EvictOld(c, s, b, p, id);
    }
    ghost var s2 := s;
    s := EnterTried(c, s, b, p, id);
    ReadyShape(c, s2, {id}, {id});
    if x != EMPTY { WayGiven(c, s0, s1, s2, s, id, x); }
  }

  lemma CountedOnce(c: Config, s: State, id: Nid)
    requires Ready(c, s, {}, {id}) && id in s.mapInfo && !s.mapInfo[id].inTried
    ensures NetCountOf(s, c.network(s.mapInfo[id].service)).nNew > 0
  {
    Open(c, s, {}, {id});
    CountPositive(c, s, NewIds(s) - {}, TriedIds(s), id);
  }
}
