module AddrMan {

  /** The address manager's operations on addresses.  Clock readings and random numbers are parameters. */

  import opened AddrManState
  import opened AddrManSteps
  import opened AddrManOps

  const MINUTE := 60
  const HOUR := 60 * MINUTE
  const DAY := 24 * HOUR
  const HORIZON := 30 * DAY
  const RETRIES := 3
  const MAX_FAILURES := 10
  const MIN_FAIL := 7 * DAY
  const REPLACEMENT := 4 * HOUR
  const TEST_WINDOW := 40 * MINUTE

  // ----- the invariant, closed

  /** `Inv` with its costly part closed. */
  ghost predicate Whole(c: Config, s: State) {
    Ready(c, s, {}, {}) && Shape(s.vvTried, TRIED_BUCKET_COUNT) && CollisionsOk(c, s)
  }

  lemma WholeIsInv(c: Config, s: State)
    ensures Whole(c, s) <==> Inv(c, s)
  {
    if Whole(c, s) { Open(c, s, {}, {}); }
  }

  /** Collisions stay collisions while tried slots stay occupied and entries keep their addresses. */
  lemma CollisionsKeep(c: Config, s: State, s': State)
    requires Shape(s.vvTried, TRIED_BUCKET_COUNT) && CollisionsOk(c, s) && TriedKept(s, s')
    requires s'.collisions <= s.collisions
    requires forall x :: x in s'.mapInfo && x in s.collisions ==>
               x in s.mapInfo && s'.mapInfo[x].service == s.mapInfo[x].service
    ensures CollisionsOk(c, s')
  {
    SmallerSet(s'.collisions, s.collisions);
    forall x | x in s'.collisions && x in s'.mapInfo ensures TriedOccupied(c, s', x) { assert TriedOccupied(c, s, x); }
  }

  lemma SmallerSet(a: set<Nid>, b: set<Nid>)
    requires a <= b
    ensures |a| <= |b|
  {
    assert b == a + (b - a);
  }

  lemma TriedKeptTransitive(s: State, s': State, s'': State)
    requires TriedKept(s, s') && TriedKept(s', s'')
    ensures TriedKept(s, s'')
  {
  }

  // ----- statistics of one entry

  function IsTerrible(i: Info, now: int): bool {
    if now - i.lastTry <= MINUTE then false
    else if i.time > now + 10 * MINUTE then true
    else if now - i.time > HORIZON then true
    else if i.lastSuccess == 0 && i.attempts >= RETRIES then true
    else now - i.lastSuccess > MIN_FAIL && i.attempts >= MAX_FAILURES
  }

  /**
   In seconds: not tried within the last minute, and from the future, or not seen for thirty days, or never reached in
   three attempts, or not reached for a week in ten.
   */
  lemma IsTerribleExactly(i: Info, now: int)
    ensures IsTerrible(i, now) <==>
              && i.lastTry + 60 < now
              && (|| now + 600 < i.time || i.time + 2592000 < now
                  || (i.attempts >= 3 && i.lastSuccess == 0)
                  || (i.attempts >= 10 && i.lastSuccess + 604800 < now))
  {
  }

  /** Replacing one entry's statistics. */
  function Touched(s: State, id: Nid, i: Info): State { s.(mapInfo := s.mapInfo[id := i]) }

  lemma TouchReady(c: Config, s: State, id: Nid, i': Info, unreferenced: set<Nid>)
    requires Ready(c, s, {}, unreferenced) && id in s.mapInfo && OnlyStatistics(s.mapInfo[id], i')
    requires i'.lastTry >= 0 && i'.lastSuccess >= 0 && (s.mapInfo[id].lastSuccess > 0 ==> i'.lastSuccess > 0)
    ensures Ready(c, Touched(s, id, i'), {}, unreferenced)
  {
    Open(c, s, {}, unreferenced);
    assert InfoOk(c, s.mapInfo[id]);
    TouchKeeps(c, s, id, i', {});
  }

  lemma TouchWhole(c: Config, s: State, id: Nid, i': Info)
    requires Whole(c, s) && id in s.mapInfo && OnlyStatistics(s.mapInfo[id], i')
    requires i'.lastTry >= 0 && i'.lastSuccess >= 0 && (s.mapInfo[id].lastSuccess > 0 ==> i'.lastSuccess > 0)
    ensures Whole(c, Touched(s, id, i')) && TriedKept(s, Touched(s, id, i'))
  {
    TouchReady(c, s, id, i', {});
    CollisionsKeep(c, s, Touched(s, id, i'));
  }

  lemma EntryOk(c: Config, s: State, id: Nid)
    requires Ready(c, s, {}, {}) && id in s.mapInfo
    ensures InfoOk(c, s.mapInfo[id]) && (s.mapInfo[id].inTried <==> s.mapInfo[id].refCount == 0) && id != EMPTY
    ensures s.mapInfo[id].refCount <= NEW_BUCKETS_PER_ADDRESS
  {
    Open(c, s, {}, {});
    assert RefCountOk(c, s, id);
    if s.mapInfo[id].inTried { assert InTriedSlot(c, s, id); }
  }

  lemma FoundEntry(c: Config, s: State, a: Service)
    requires Ready(c, s, {}, {})
    ensures var id := Find(s, a); if id == EMPTY then a !in s.mapAddr else id in s.mapInfo && s.mapInfo[id].service == a
  {
    ReadyShape(c, s, {}, {});
  }

  /** Nothing but the statistics of one entry changed. */
  ghost predicate OnlyEntry(s: State, s': State, id: Nid) {
    && id in s.mapInfo && id in s'.mapInfo && OnlyStatistics(s.mapInfo[id], s'.mapInfo[id])
    && s' == s.(mapInfo := s.mapInfo[id := s'.mapInfo[id]])
  }

  /** The attempt is recorded, and counts as a failure if none was counted since the last good connection. */
  ghost predicate Attempted(s0: State, s: State, a: Service, countFailure: bool, time: int) {
    var id := Find(s0, a);
    if id == EMPTY then s == s0
    else
      && OnlyEntry(s0, s, id)
      && var i, i' := s0.mapInfo[id], s.mapInfo[id];
         if countFailure && i.lastCountAttempt < s0.lastGood
         then i' == i.(lastTry := time, lastCountAttempt := time, attempts := i.attempts + 1)
         else i' == i.(lastTry := time)
  }

  /** AddrManImpl::Attempt_. */
  method Attempt(c: Config, s0: State, a: Service, countFailure: bool, time: int) returns (s: State)
    requires Whole(c, s0) && time >= 0
    ensures Whole(c, s) && TriedKept(s0, s) && Attempted(s0, s, a, countFailure, time)
  {
    s := s0;
    FoundEntry(c, s0, a);
    var id := Find(s, a);
    if id == EMPTY { return; }
    EntryOk(c, s, id);
    var info := s.mapInfo[id].(lastTry := time);
    if countFailure && info.lastCountAttempt < s.lastGood {
      info := info.(lastCountAttempt := time, attempts := info.attempts + 1);
    }
    TouchWhole(c, s0, id, info);
    s := Touched(s, id, info);
  }

  /** The time is brought up to date if it is more than twenty minutes, in seconds, behind. */
  ghost predicate BroughtUpToDate(s0: State, s: State, a: Service, time: int) {
    var id := Find(s0, a);
    if id == EMPTY then s == s0
    else
      && OnlyEntry(s0, s, id)
      && s.mapInfo[id] == if s0.mapInfo[id].time + 1200 < time then s0.mapInfo[id].(time := time) else s0.mapInfo[id]
  }

  /** AddrManImpl::Connected_. */
  method Connected(c: Config, s0: State, a: Service, time: int) returns (s: State)
    requires Whole(c, s0)
    ensures Whole(c, s) && TriedKept(s0, s) && BroughtUpToDate(s0, s, a, time)
  {
    s := s0;
    FoundEntry(c, s0, a);
    var id := Find(s, a);
    if id == EMPTY { return; }
    EntryOk(c, s, id);
    var info := s.mapInfo[id];
    if time - info.time > 20 * MINUTE { info := info.(time := time); }
    TouchWhole(c, s0, id, info);
    s := Touched(s, id, info);
  }

  ghost predicate ServicesSet(s0: State, s: State, a: Service, services: set<nat>) {
    var id := Find(s0, a);
    if id == EMPTY then s == s0
    else OnlyEntry(s0, s, id) && s.mapInfo[id] == s0.mapInfo[id].(services := services)
  }

  /** AddrManImpl::SetServices_. */
  method SetServices(c: Config, s0: State, a: Service, services: set<nat>) returns (s: State)
    requires Whole(c, s0)
    ensures Whole(c, s) && TriedKept(s0, s) && ServicesSet(s0, s, a, services)
  {
    s := s0;
    FoundEntry(c, s0, a);
    var id := Find(s, a);
    if id == EMPTY { return; }
    EntryOk(c, s, id);
    TouchWhole(c, s0, id, s.mapInfo[id].(services := services));
    s := Touched(s, id, s.mapInfo[id].(services := services));
  }

  // ----- Good_

  lemma MadeTriedWhole(c: Config, s0: State, s: State)
    requires Whole(c, s0) && Ready(c, s, {}, {}) && OldEntries(s0, s) && TriedKept(s0, s)
    ensures Whole(c, s)
  {
    CollisionsKeep(c, s0, s);
  }

  lemma CollisionAdded(c: Config, s: State, id: Nid)
    requires Whole(c, s) && id in s.mapInfo && TriedOccupied(c, s, id) && |s.collisions| < SET_TRIED_COLLISION_SIZE
    ensures Whole(c, s.(collisions := s.collisions + {id}))
  {
    Open(c, s, {}, {});
    var s' := s.(collisions := s.collisions + {id});
    assert 0 <= id < s.nIdCount;
    CollisionLinks(c, s, s');
    CollisionCounters(c, s, s');
    forall x | x in s'.collisions && x in s'.mapInfo ensures TriedOccupied(c, s', x) {
      assert x != id ==> TriedOccupied(c, s, x);
    }
    assert |s.collisions + {id}| <= |s.collisions| + 1;
  }

  lemma CollisionCounters(c: Config, s: State, s': State)
    requires CountersOk(c, s, {}) && s' == s.(collisions := s'.collisions)
    ensures CountersOk(c, s', {})
  {
    CountingFrame(c, s, s', NewIds(s) - {}, TriedIds(s));
    assert NewIds(s') == NewIds(s) && TriedIds(s') == TriedIds(s);
  }

  lemma CollisionLinks(c: Config, s: State, s': State)
    requires Links(c, s) && s' == s.(collisions := s'.collisions)
    requires forall id :: id in s'.collisions ==> 0 <= id < s.nIdCount
    ensures Links(c, s')
  {
    assert TriedOk(c, s') by {
      forall x | x in s'.mapInfo && s'.mapInfo[x].inTried ensures InTriedSlot(c, s', x) { assert InTriedSlot(c, s, x); }
      forall b, p | 0 <= b < TRIED_BUCKET_COUNT && 0 <= p < BUCKET_SIZE && s'.vvTried[b][p] != EMPTY
        ensures TriedSlotOk(c, s', b, p, s'.vvTried[b][p]) { assert TriedSlotOk(c, s, b, p, s.vvTried[b][p]); }
    }
    assert NewOk(c, s') by {
      forall x | x in s'.mapInfo ensures RefCountOk(c, s', x) { assert RefCountOk(c, s, x); }
      forall b, p | 0 <= b < NEW_BUCKET_COUNT && 0 <= p < BUCKET_SIZE && s'.vvNew[b][p] != EMPTY
        ensures NewSlotOk(c, s', b, p, s'.vvNew[b][p]) { assert NewSlotOk(c, s, b, p, s.vvNew[b][p]); }
    }
  }

  lemma CollisionErased(c: Config, s: State, id: Nid)
    requires Whole(c, s)
    ensures Whole(c, s.(collisions := s.collisions - {id})) && TriedKept(s, s.(collisions := s.collisions - {id}))
  {
    Open(c, s, {}, {});
    var s' := s.(collisions := s.collisions - {id});
    CollisionLinks(c, s, s');
    CollisionCounters(c, s, s');
    CollisionsKeep(c, s, s');
  }

  lemma LastGoodWhole(c: Config, s: State, time: int)
    requires Whole(c, s)
    ensures Whole(c, s.(lastGood := time)) && TriedKept(s, s.(lastGood := time))
  {
    Open(c, s, {}, {});
    var s' := s.(lastGood := time);
    LinksFrame(c, s, s');
    CountingFrame(c, s, s', NewIds(s) - {}, TriedIds(s));
    assert NewIds(s') == NewIds(s) && TriedIds(s') == TriedIds(s);
    CollisionsKeep(c, s, s');
  }

  /** The entry has just answered. */
  function Greeted(s: State, id: Nid, time: int): State
    requires id in s.mapInfo
  {
    s.(lastGood := time,
       mapInfo := s.mapInfo[id := s.mapInfo[id].(lastSuccess := time, lastTry := time, attempts := 0)])
  }

  /** What Good_ promises; `moved` is its answer. */
  ghost predicate GoodDone(c: Config, s0: State, s: State, a: Service, testBeforeEvict: bool, time: int, moved: bool) {
    var b := TriedBucket(c, a);
    var p := TriedPos(c, a, b);
    var id := Find(s0, a);
    && Shape(s0.vvTried, TRIED_BUCKET_COUNT) && s.lastGood == time && s.nIdCount == s0.nIdCount
    && (moved <==>
          && id != EMPTY && id in s0.mapInfo && !s0.mapInfo[id].inTried
          && (testBeforeEvict ==> s0.vvTried[b][p] == EMPTY))
    && s.collisions == (if && testBeforeEvict && id != EMPTY && id in s0.mapInfo && !s0.mapInfo[id].inTried
                           && !moved && |s0.collisions| < SET_TRIED_COLLISION_SIZE
                        then s0.collisions + {id} else s0.collisions)
    && if id == EMPTY then s == s0.(lastGood := time)
       else id in s0.mapInfo && if moved then MadeTried(c, Greeted(s0, id, time), s, id)
                                else s == Greeted(s0, id, time).(collisions := s.collisions)
  }

  /**
   AddrManImpl::Good_: a successful connection moves the entry to its tried slot, unless that would evict untested.
   */
  method Good(c: Config, s0: State, a: Service, testBeforeEvict: bool, time: int) returns (s: State, moved: bool)
    requires Whole(c, s0) && time > 0
    ensures Whole(c, s) && TriedKept(s0, s) && GoodDone(c, s0, s, a, testBeforeEvict, time, moved)
    ensures var b := TriedBucket(c, a); var p := TriedPos(c, a, b); var id := Find(s0, a);
            && (moved ==> Find(s, a) == id && id in s.mapInfo && s.mapInfo[id].inTried && s.vvTried[b][p] == id)
            && (id != EMPTY ==> id in s.mapInfo && s.mapInfo[id].lastSuccess == time && s.mapInfo[id].attempts == 0)
            && (!moved ==> s.vvTried == s0.vvTried && s.vvNew == s0.vvNew)
  {
    LastGoodWhole(c, s0, time);
    s := s0.(lastGood := time);
    FoundEntry(c, s, a);
    var id := Find(s, a);
    if id == EMPTY { return s, false; }
    EntryOk(c, s, id);
    var info := s.mapInfo[id].(lastSuccess := time, lastTry := time, attempts := 0);
    TouchWhole(c, s, id, info);
    s := Touched(s, id, info);
    if info.inTried { return s, false; }
    assert info.refCount > 0;
    var b := TriedBucket(c, info.service);
    var p := TriedPos(c, info.service, b);
    if testBeforeEvict && s.vvTried[b][p] != EMPTY {
      if |s.collisions| < SET_TRIED_COLLISION_SIZE {
        CollisionAdded(c, s, id);
        s := s.(collisions := s.collisions + {id});
      }
      return s, false;
    }
    s := MoveToTried(c, s, id);
    moved := true;
  }

  method MoveToTried(c: Config, s0: State, id: Nid) returns (s: State)
    requires Whole(c, s0) && id in s0.mapInfo && id != EMPTY
    requires !s0.mapInfo[id].inTried && s0.mapInfo[id].refCount > 0 && s0.mapInfo[id].lastSuccess > 0
    ensures Whole(c, s) && TriedKept(s0, s) && OldEntries(s0, s)
    ensures var a := s0.mapInfo[id].service; var b := TriedBucket(c, a);
            Find(s, a) == id && id in s.mapInfo && s.mapInfo[id].inTried && s.vvTried[b][TriedPos(c, a, b)] == id
    ensures MadeTried(c, s0, s, id)
  {
    s := MakeTried(c, s0, id);
    MadeTriedWhole(c, s0, s);
    ReadyShape(c, s, {}, {});
  }

  // ----- AddSingle

  function Max(a: int, b: int): int { if a < b then b else a }

  /** The statistics update AddSingle makes for an address that is already known. */
  function Refreshed(i: Info, addr: Address, penalty: int, now: int): Info {
    var interval := if now - addr.time < DAY then HOUR else DAY;
    var time := if i.time < addr.time - interval - penalty then Max(0, addr.time - penalty) else i.time;
    i.(time := time, services := i.services + addr.services)
  }

  /**
   In seconds: the recorded time only moves forward, and only if it is more than an hour behind the announced one, or a
   day if that is itself a day old; then it is the announced time less the penalty.
   */
  lemma RefreshedExactly(i: Info, addr: Address, penalty: int, now: int)
    ensures var time, stale := Refreshed(i, addr, penalty, now).time, if addr.time + 86400 <= now then 86400 else 3600;
            && (i.time + stale < addr.time - penalty ==> time == Max(0, addr.time - penalty))
            && (i.time + stale >= addr.time - penalty ==> time == i.time)
            && (i.time >= 0 ==> time >= i.time)
    ensures Refreshed(i, addr, penalty, now) ==
            i.(time := Refreshed(i, addr, penalty, now).time, services := i.services + addr.services)
  {
  }

  lemma FilledWhole(c: Config, s0: State, b: nat, p: nat, id: Nid, s: State)
    requires Ready(c, s0, {}, {id}) && Shape(s0.vvNew, NEW_BUCKET_COUNT) && b < NEW_BUCKET_COUNT && p < BUCKET_SIZE
    requires s0.vvNew[b][p] == EMPTY && id in s0.mapInfo && !s0.mapInfo[id].inTried
    requires s0.mapInfo[id].refCount < NEW_BUCKETS_PER_ADDRESS && p == NewPos(c, s0.mapInfo[id].service, b)
    requires s == FilledSlot(s0, b, p, id)
    ensures Ready(c, s, {}, {})
  {
    Open(c, s0, {}, {id});
    FilledLinks(c, s0, b, p, id);
    assert NewIds(s) == NewIds(s0) && TriedIds(s) == TriedIds(s0);
    CountingFrame(c, s0, s, NewIds(s0) - {}, TriedIds(s0));
  }

  lemma ExistingInNew(c: Config, s: State, b: nat, p: nat, unreferenced: set<Nid>)
    requires Ready(c, s, {}, unreferenced) && b < NEW_BUCKET_COUNT && p < BUCKET_SIZE
    ensures Shape(s.vvNew, NEW_BUCKET_COUNT)
    ensures s.vvNew[b][p] != EMPTY ==> s.vvNew[b][p] in s.mapInfo && s.mapInfo[s.vvNew[b][p]].refCount > 0
  {
    ClearedReady(c, s, b, p, {}, unreferenced);
  }

  /** A slot is taken if it is empty, its holder is terrible, or its holder has others and the newcomer has none. */
  ghost predicate Yields(s: State, holder: Nid, refs: nat, now: int) {
    || holder == EMPTY
    || (holder in s.mapInfo && (IsTerrible(s.mapInfo[holder], now) || (s.mapInfo[holder].refCount > 1 && refs == 0)))
  }

  /** Entry `id` has gained a slot that `y` has lost. */
  ghost predicate Inserted(s0: State, s: State, id: Nid, y: Nid) {
    && id in s0.mapInfo && id in s.mapInfo && y != id
    && SameButPosition(s0.mapInfo[id].(refCount := s0.mapInfo[id].refCount + 1), s.mapInfo[id])
    && (y != EMPTY ==> LosesOne(s0, s, y)) && SameOutside(s0, s, {id, y})
  }

  /** The second half of AddSingle: give the entry a slot in the new table, or drop it if it has none at all. */
  method PlaceInNew(c: Config, s0: State, id: Nid, source: NetAddr, now: int) returns (s: State, inserted: bool)
    requires Ready(c, s0, {}, {id}) && id in s0.mapInfo && id != EMPTY
    requires !s0.mapInfo[id].inTried && s0.mapInfo[id].refCount < NEW_BUCKETS_PER_ADDRESS
    ensures Ready(c, s, {}, {}) && OldEntries(s0, s) && s.vvTried == s0.vvTried && s.nTried == s0.nTried
    ensures inserted ==> id in s.mapInfo && s.mapInfo[id].refCount == s0.mapInfo[id].refCount + 1
    ensures var a := s0.mapInfo[id].service; var b := NewBucket(c, a, source); var p := NewPos(c, a, b);
            && Shape(s0.vvNew, NEW_BUCKET_COUNT) && s.vvNew == (if inserted then Put(s0.vvNew, b, p, id) else s0.vvNew)
            && (inserted <==> s0.vvNew[b][p] != id && Yields(s0, s0.vvNew[b][p], s0.mapInfo[id].refCount, now))
    ensures !inserted ==> forall x :: x in s0.mapInfo && !(x == id && s0.mapInfo[id].refCount == 0) ==> x in s.mapInfo
    ensures !inserted && s0.mapInfo[id].refCount == 0 ==> id !in s.mapInfo
    ensures var a := s0.mapInfo[id].service; var b := NewBucket(c, a, source); var p := NewPos(c, a, b);
            if inserted then Inserted(s0, s, id, s0.vvNew[b][p])
            else SameOutside(s0, s, if s0.mapInfo[id].refCount == 0 then {id} else {})
  {
    s := s0;
    var a := s.mapInfo[id].service;
    var b := NewBucket(c, a, source);
    var p := NewPos(c, a, b);
    ExistingInNew(c, s0, b, p, {id});
    inserted := s.vvNew[b][p] == EMPTY;
    if s.vvNew[b][p] == id {
      assert HasSlot(s0, id, b, p);
      ReferencedReady(c, s0, id);
      return;
    }
    if !inserted {
      var existing := s.mapInfo[s.vvNew[b][p]];
      if IsTerrible(existing, now) || (existing.refCount > 1 && s.mapInfo[id].refCount == 0) { inserted := true; }
    }
    if inserted {
      s := InsertAt(c, s0, id, b, p);
    } else if s.mapInfo[id].refCount == 0 {
      s := Delete(c, s, id, {}, {id});
      assert {id} - {id} == {};
    } else {
      ReferencedReady(c, s0, id);
    }
  }

  ghost predicate HasSlot(s: State, id: Nid, b: nat, p: nat) {
    Shape(s.vvNew, NEW_BUCKET_COUNT) && b < NEW_BUCKET_COUNT && p < BUCKET_SIZE && s.vvNew[b][p] == id
  }

  lemma ReferencedReady(c: Config, s: State, id: Nid)
    requires Ready(c, s, {}, {id}) && id in s.mapInfo
    requires s.mapInfo[id].refCount > 0 || exists b: nat, p: nat :: HasSlot(s, id, b, p)
    ensures Ready(c, s, {}, {}) && s.mapInfo[id].refCount > 0
  {
    Open(c, s, {}, {id});
    if s.mapInfo[id].refCount == 0 {
      var b: nat, p: nat :| HasSlot(s, id, b, p);
      UnreferencedIsNowhere(c, s, id, b, p);
    }
  }

  method InsertAt(c: Config, s0: State, id: Nid, b: nat, p: nat) returns (s: State)
    requires Ready(c, s0, {}, {id}) && id in s0.mapInfo && b < NEW_BUCKET_COUNT && p < BUCKET_SIZE
    requires !s0.mapInfo[id].inTried && s0.mapInfo[id].refCount < NEW_BUCKETS_PER_ADDRESS
    requires p == NewPos(c, s0.mapInfo[id].service, b)
    requires Shape(s0.vvNew, NEW_BUCKET_COUNT) && s0.vvNew[b][p] != id
    ensures Ready(c, s, {}, {}) && OldEntries(s0, s) && s.vvTried == s0.vvTried && s.nTried == s0.nTried
    ensures s.vvNew == Put(s0.vvNew, b, p, id) && id in s.mapInfo && Inserted(s0, s, id, s0.vvNew[b][p])
    ensures s.mapInfo[id].refCount == s0.mapInfo[id].refCount + 1
  {
    s := ClearNew(c, s0, b, p, {}, {id});
    assert SameButPosition(s0.mapInfo[id], s.mapInfo[id]);
    ghost var s1 := s;
    PutTwice(s0.vvNew, NEW_BUCKET_COUNT, b, p, EMPTY, id);
    s := s.(mapInfo := s.mapInfo[id := s.mapInfo[id].(refCount := s.mapInfo[id].refCount + 1)]);
    s := s.(vvNew := Put(s.vvNew, b, p, id));
    FilledWhole(c, s1, b, p, id, s);
  }
}
