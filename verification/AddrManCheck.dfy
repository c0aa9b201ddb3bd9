module AddrManCheck {

  /**
   The manager's self-check, CheckAddrman, and what its answer means: it answers 0 exactly on the consistent states,
   and the invariant is that consistency together with the few things the check does not look at.
   */

  import opened AddrManState

  // ----- what the check looks at

  ghost predicate EntryFine(s: State, id: Nid)
    requires id in s.mapInfo
  {
    var i := s.mapInfo[id];
    && (i.inTried ==> i.lastSuccess != 0 && i.refCount == 0)
    && (!i.inTried ==> 0 < i.refCount <= NEW_BUCKETS_PER_ADDRESS)
    && i.service in s.mapAddr && s.mapAddr[i.service] == id
    && i.randomPos < |s.vRandom| && s.vRandom[i.randomPos] == id
    && i.lastTry >= 0 && i.lastSuccess >= 0
  }

  ghost predicate TriedTableFine(c: Config, s: State)
    requires Shape(s.vvTried, TRIED_BUCKET_COUNT)
  {
    && (forall b, p :: 0 <= b < TRIED_BUCKET_COUNT && 0 <= p < BUCKET_SIZE && s.vvTried[b][p] != EMPTY ==>
          TriedSlotOk(c, s, b, p, s.vvTried[b][p]))
    && (forall id :: id in TriedIds(s) ==> id != EMPTY && TriedHome(c, s, id) == id)
  }

  function TriedHome(c: Config, s: State, id: Nid): Nid
    requires Shape(s.vvTried, TRIED_BUCKET_COUNT) && id in s.mapInfo
  {
    var b := TriedBucket(c, s.mapInfo[id].service);
    s.vvTried[b][TriedPos(c, s.mapInfo[id].service, b)]
  }

  ghost predicate NewTableFine(c: Config, s: State)
    requires Shape(s.vvNew, NEW_BUCKET_COUNT)
  {
    && (forall b, p :: 0 <= b < NEW_BUCKET_COUNT && 0 <= p < BUCKET_SIZE && s.vvNew[b][p] != EMPTY ==>
          NewSlotOk(c, s, b, p, s.vvNew[b][p]))
    && (forall id :: id in NewIds(s) ==>
          id != EMPTY && s.mapInfo[id].refCount == |Buckets(c, s.vvNew, s.mapInfo[id].service, id)|)
  }

  ghost function Nets(c: Config, s: State, ids: set<Nid>): set<nat> {
    set id | id in ids && id in s.mapInfo :: c.network(s.mapInfo[id].service)
  }

  ghost predicate NetCountsFine(c: Config, s: State) {
    && |s.netCounts| >= |Nets(c, s, s.mapInfo.Keys)|
    && (forall net :: net in s.netCounts ==>
          s.netCounts[net] == NetCount(|OnNet(c, s, NewIds(s), net)|, |OnNet(c, s, TriedIds(s), net)|))
  }

  ghost predicate Consistent(c: Config, s: State)
    requires Shape(s.vvTried, TRIED_BUCKET_COUNT) && Shape(s.vvNew, NEW_BUCKET_COUNT)
  {
    && |s.vRandom| == s.nTried + s.nNew && s.nTried == |TriedIds(s)| && s.nNew == |NewIds(s)|
    && (forall id :: id in s.mapInfo ==> EntryFine(s, id))
    && TriedTableFine(c, s) && NewTableFine(c, s) && NetCountsFine(c, s)
  }

  // ----- first loop: the entries

  function LocalCount(local: map<nat, NetCount>, net: nat)
    : NetCount { if net in local then local[net] else NetCount(0, 0) }

  /** `local` counts the new entries `n` and the tried entries `t`, network by network. */
  ghost predicate CountsOf(c: Config, s: State, n: set<Nid>, t: set<Nid>, local: map<nat, NetCount>) {
    && local.Keys == Nets(c, s, n + t)
    && (forall net :: LocalCount(local, net) == NetCount(|OnNet(c, s, n, net)|, |OnNet(c, s, t, net)|))
  }

  /** The check's working variables after the ids in `done`. */
  ghost predicate Tally(c: Config, s: State, done: set<Nid>, setTried: set<Nid>, mapNew: map<Nid, nat>,
                        local: map<nat, NetCount>) {
    && done <= s.mapInfo.Keys
    && setTried == TriedIds(s) * done && mapNew.Keys == NewIds(s) * done
    && (forall id :: id in mapNew ==> id in s.mapInfo && mapNew[id] == s.mapInfo[id].refCount)
    && CountsOf(c, s, mapNew.Keys, setTried, local)
  }

  function Bumped(local: map<nat, NetCount>, net: nat, tried: bool): map<nat, NetCount> {
    var n := LocalCount(local, net);
    local[net := if tried then n.(nTried := n.nTried + 1) else n.(nNew := n.nNew + 1)]
  }

  lemma OnNetAdd(c: Config, s: State, ids: set<Nid>, id: Nid, net: nat)
    requires id in s.mapInfo && id !in ids
    ensures |OnNet(c, s, ids + {id}, net)| == |OnNet(c, s, ids,
            net)| + (if c.network(s.mapInfo[id].service) == net then 1 else 0)
  {
    if c.network(s.mapInfo[id].service) == net {
      assert OnNet(c, s, ids + {id}, net) == OnNet(c, s, ids, net) + {id};
    } else {
      assert OnNet(c, s, ids + {id}, net) == OnNet(c, s, ids, net);
    }
  }

  lemma NetsAdd(c: Config, s: State, ids: set<Nid>, id: Nid)
    requires id in s.mapInfo
    ensures Nets(c, s, ids + {id}) == Nets(c, s, ids) + {c.network(s.mapInfo[id].service)}
  {
    assert id in ids + {id};
  }

  lemma CountsAdd(c: Config, s: State, n: set<Nid>, t: set<Nid>, local: map<nat, NetCount>, id: Nid)
    requires CountsOf(c, s, n, t, local) && id in s.mapInfo && id !in n && id !in t
    ensures CountsOf(c, s, n + {id}, t, Bumped(local, c.network(s.mapInfo[id].service), false))
    ensures CountsOf(c, s, n, t + {id}, Bumped(local, c.network(s.mapInfo[id].service), true))
  {
    var net0 := c.network(s.mapInfo[id].service);
    NetsAdd(c, s, n + t, id);
    assert n + {id} + t == n + t + {id} && n + (t + {id}) == n + t + {id};
    forall net
      ensures LocalCount(Bumped(local, net0, false), net) == NetCount(|OnNet(c, s, n + {id}, net)|,
              |OnNet(c, s, t, net)|)
      ensures LocalCount(Bumped(local, net0, true), net) == NetCount(|OnNet(c, s, n, net)|,
              |OnNet(c, s, t + {id}, net)|)
    {
      assert LocalCount(local, net) == NetCount(|OnNet(c, s, n, net)|, |OnNet(c, s, t, net)|);
      OnNetAdd(c, s, n, id, net);
      OnNetAdd(c, s, t, id, net);
    }
  }

  lemma TallyAdd(c: Config, s: State, done: set<Nid>, id: Nid, setTried: set<Nid>, mapNew: map<Nid, nat>,
                 local: map<nat, NetCount>)
    requires Tally(c, s, done, setTried, mapNew, local) && id in s.mapInfo && id !in done
    ensures var i := s.mapInfo[id]; var local' := Bumped(local, c.network(i.service), i.inTried);
            if i.inTried then Tally(c, s, done + {id}, setTried + {id}, mapNew, local')
            else Tally(c, s, done + {id}, setTried, mapNew[id := i.refCount], local')
  {
    CountsAdd(c, s, mapNew.Keys, setTried, local, id);
    assert mapNew[id := s.mapInfo[id].refCount].Keys == mapNew.Keys + {id};
  }

  method CheckEntry(s: State, id: Nid) returns (r: int)
    requires id in s.mapInfo
    ensures r == 0 <==> EntryFine(s, id)
  {
    var info := s.mapInfo[id];
    if info.inTried {
      if info.lastSuccess == 0 { return -1; }
      if info.refCount != 0 { return -2; }
    } else {
      if info.refCount > NEW_BUCKETS_PER_ADDRESS { return -3; }
      if info.refCount == 0 { return -4; }
    }
    if info.service !in s.mapAddr || s.mapAddr[info.service] != id { return -5; }
    if info.randomPos >= |s.vRandom| || s.vRandom[info.randomPos] != id { return -14; }
    if info.lastTry < 0 { return -6; }
    if info.lastSuccess < 0 { return -8; }
    return 0;
  }

  /** `done` and `todo` share out the ids. */
  ghost predicate Halved(s: State, done: set<Nid>, todo: set<Nid>) {
    done + todo == s.mapInfo.Keys && done !! todo
  }

  method Take(s: State, ghost done: set<Nid>, todo: set<Nid>) returns (id: Nid)
    requires Halved(s, done, todo) && todo != {}
    ensures id in s.mapInfo && id !in done && id in todo && Halved(s, done + {id}, todo - {id})
    ensures |todo - {id}| < |todo|
  {
    NonEmpty(todo);
    id :| id in todo;
  }

  lemma AllDone(s: State, done: set<Nid>)
    requires Halved(s, done, {})
    ensures done == s.mapInfo.Keys
  {
  }

  /** Everything in `done` has passed and has been counted. */
  ghost predicate Counted(c: Config, s: State, done: set<Nid>, setTried: set<Nid>, mapNew: map<Nid, nat>,
                          local: map<nat, NetCount>) {
    Tally(c, s, done, setTried, mapNew, local) && forall id :: id in done ==> EntryFine(s, id)
  }

  /** One entry: the check of its fields, then the counting. */
  method CountEntry(c: Config, s: State, ghost done: set<Nid>, id: Nid, setTried0: set<Nid>, mapNew0: map<Nid, nat>,
                    local0: map<nat, NetCount>)
    returns (r: int, setTried: set<Nid>, mapNew: map<Nid, nat>, local: map<nat, NetCount>)
    requires Counted(c, s, done, setTried0, mapNew0, local0) && id in s.mapInfo && id !in done
    ensures r == 0 <==> EntryFine(s, id)
    ensures r == 0 ==> Counted(c, s, done + {id}, setTried, mapNew, local)
  {
    setTried, mapNew, local := setTried0, mapNew0, local0;
    r := CheckEntry(s, id);
    if r != 0 { return; }
    TallyAdd(c, s, done, id, setTried, mapNew, local);
    var info := s.mapInfo[id];
    if info.inTried {
      setTried := setTried + {id};
    } else {
      mapNew := mapNew[id := info.refCount];
    }
    local := Bumped(local, c.network(info.service), info.inTried);
  }

  lemma NothingCounted(c: Config, s: State)
    ensures Counted(c, s, {}, {}, map[], map[])
  {
    forall net ensures OnNet(c, s, {}, net) == {} {}
    var none: set<Nid> := {};
    assert Nets(c, s, none + none) == {};
  }

  method CheckEntries(c: Config, s: State)
    returns (r: int, setTried: set<Nid>, mapNew: map<Nid, nat>, local: map<nat, NetCount>)
    ensures r == 0 <==> forall id :: id in s.mapInfo ==> EntryFine(s, id)
    ensures r == 0 ==> Counted(c, s, s.mapInfo.Keys, setTried, mapNew, local)
  {
    r, setTried, mapNew, local := 0, {}, map[], map[];
    var todo := s.mapInfo.Keys;
    ghost var done: set<Nid> := {};
    NothingCounted(c, s);
    while todo != {}
      invariant Halved(s, done, todo)
      invariant Counted(c, s, done, setTried, mapNew, local) && r == 0
      decreases |todo|
    {
      var id := Take(s, done, todo);
      r, setTried, mapNew, local := CountEntry(c, s, done, id, setTried, mapNew, local);
      if r != 0 { return; }
      done := done + {id};
      todo := todo - {id};
    }
    AllDone(s, done);
  }

  // ----- second loop: the tried table

  predicate Before(b: nat, p: nat, n: nat, i: nat) { b < n || (b == n && p < i) }

  /** The entry was met in the slots before (n, i). */
  ghost predicate TriedSeen(c: Config, s: State, id: Nid, n: nat, i: nat)
    requires Shape(s.vvTried, TRIED_BUCKET_COUNT) && id in s.mapInfo
  {
    var b := TriedBucket(c, s.mapInfo[id].service);
    id != EMPTY && TriedHome(c, s, id) == id && Before(b, TriedPos(c, s.mapInfo[id].service, b), n, i)
  }

  ghost predicate TriedSlotFine(c: Config, s: State, b: nat, p: nat)
    requires Shape(s.vvTried, TRIED_BUCKET_COUNT) && b < TRIED_BUCKET_COUNT && p < BUCKET_SIZE
  {
    s.vvTried[b][p] != EMPTY ==> TriedSlotOk(c, s, b, p, s.vvTried[b][p])
  }

  ghost predicate TriedProgress(c: Config, s: State, setTried: set<Nid>, n: nat, i: nat)
    requires Shape(s.vvTried, TRIED_BUCKET_COUNT)
  {
    && (forall b: nat, p: nat :: b < TRIED_BUCKET_COUNT && p < BUCKET_SIZE && Before(b, p, n, i) ==>
          TriedSlotFine(c, s, b, p))
    && (forall id: Nid :: id in setTried <==> id in TriedIds(s) && !TriedSeen(c, s, id, n, i))
  }

  method CheckTriedSlot(c: Config, s: State, n: nat, i: nat, setTried0: set<Nid>) returns (r: int, setTried: set<Nid>)
    requires Shape(s.vvTried, TRIED_BUCKET_COUNT) && n < TRIED_BUCKET_COUNT && i < BUCKET_SIZE
    requires TriedProgress(c, s, setTried0, n, i)
    ensures r == 0 <==> TriedSlotFine(c, s, n, i)
    ensures r == 0 ==> TriedProgress(c, s, setTried, n, i + 1)
  {
    setTried := setTried0;
    var x := s.vvTried[n][i];
    if x == EMPTY { return 0, setTried; }
    if x !in setTried { return -11, setTried; }
    if x !in s.mapInfo || TriedBucket(c, s.mapInfo[x].service) != n { return -17, setTried; }
    if TriedPos(c, s.mapInfo[x].service, n) != i { return -18, setTried; }
    return 0, setTried - {x};
  }

  method CheckTried(c: Config, s: State, setTried0: set<Nid>) returns (r: int, setTried: set<Nid>)
    requires Shape(s.vvTried, TRIED_BUCKET_COUNT) && setTried0 == TriedIds(s)
    ensures r == 0 && setTried == {} <==> TriedTableFine(c, s)
  {
    setTried := setTried0;
    for n := 0 to TRIED_BUCKET_COUNT
      invariant TriedProgress(c, s, setTried, n, 0)
    {
      for i := 0 to BUCKET_SIZE
        invariant TriedProgress(c, s, setTried, n, i)
      {
        r, setTried := CheckTriedSlot(c, s, n, i, setTried);
        if r != 0 { return; }
      }
    }
    r := 0;
    TriedDone(c, s, setTried);
  }

  lemma TriedDone(c: Config, s: State, setTried: set<Nid>)
    requires Shape(s.vvTried, TRIED_BUCKET_COUNT) && TriedProgress(c, s, setTried, TRIED_BUCKET_COUNT, 0)
    ensures setTried == {} <==> TriedTableFine(c, s)
  {
    forall b, p | 0 <= b < TRIED_BUCKET_COUNT && 0 <= p < BUCKET_SIZE && s.vvTried[b][p] != EMPTY
      ensures TriedSlotOk(c, s, b, p, s.vvTried[b][p])
    {
      assert TriedSlotFine(c, s, b, p);
    }
    if setTried != {} {
      NonEmpty(setTried);
      var id: Nid :| id in setTried;
      assert id in TriedIds(s) && !TriedSeen(c, s, id, TRIED_BUCKET_COUNT, 0);
    } else {
      forall id | id in TriedIds(s) ensures id != EMPTY && TriedHome(c, s, id) == id {
        assert TriedSeen(c, s, id, TRIED_BUCKET_COUNT, 0);
      }
    }
  }

  // ----- third loop: the new table

  /** The buckets before slot (n, i) in which the entry was met. */
  ghost function NewSeen(c: Config, s: State, id: Nid, n: nat, i: nat): set<nat>
    requires Shape(s.vvNew, NEW_BUCKET_COUNT) && id in s.mapInfo
  {
    var a := s.mapInfo[id].service;
    set b: nat | b < NEW_BUCKET_COUNT && id != EMPTY && s.vvNew[b][NewPos(c, a, b)] == id &&
    Before(b, NewPos(c, a, b), n, i)
  }

  ghost predicate NewSlotFine(c: Config, s: State, b: nat, p: nat)
    requires Shape(s.vvNew, NEW_BUCKET_COUNT) && b < NEW_BUCKET_COUNT && p < BUCKET_SIZE
  {
    s.vvNew[b][p] != EMPTY ==> NewSlotOk(c, s, b, p, s.vvNew[b][p])
  }

  /** What is left in the check's multiset: the references not met yet. */
  ghost predicate LeftFor(c: Config, s: State, mapNew: map<Nid, nat>, id: Nid, n: nat, i: nat)
    requires Shape(s.vvNew, NEW_BUCKET_COUNT) && id in s.mapInfo
  {
    var met, all := |NewSeen(c, s, id, n, i)|, s.mapInfo[id].refCount;
    && met <= all && (id in mapNew <==> met < all) && (id in mapNew ==> mapNew[id] == all - met)
  }

  ghost predicate NewProgress(c: Config, s: State, mapNew: map<Nid, nat>, n: nat, i: nat)
    requires Shape(s.vvNew, NEW_BUCKET_COUNT)
  {
    && (forall b: nat, p: nat :: b < NEW_BUCKET_COUNT && p < BUCKET_SIZE && Before(b, p, n, i) ==>
          NewSlotFine(c, s, b, p))
    && mapNew.Keys <= NewIds(s)
    && (forall id: Nid :: id in NewIds(s) ==> LeftFor(c, s, mapNew, id, n, i))
  }

  lemma NewSeenStep(c: Config, s: State, id: Nid, n: nat, i: nat)
    requires Shape(s.vvNew, NEW_BUCKET_COUNT) && id in s.mapInfo && n < NEW_BUCKET_COUNT && i < BUCKET_SIZE
    ensures id != EMPTY && s.vvNew[n][i] == id && NewPos(c, s.mapInfo[id].service, n) == i ==>
              NewSeen(c, s, id, n, i + 1) == NewSeen(c, s, id, n, i) + {n} && n !in NewSeen(c, s, id, n, i)
    ensures s.vvNew[n][i] != id ==> NewSeen(c, s, id, n, i + 1) == NewSeen(c, s, id, n, i)
    ensures id == EMPTY ==> NewSeen(c, s, id, n, i + 1) == NewSeen(c, s, id, n, i)
  {
  }

  lemma NewSeenRoom(c: Config, s: State, n: nat, i: nat)
    requires Shape(s.vvNew, NEW_BUCKET_COUNT) && n < NEW_BUCKET_COUNT && i < BUCKET_SIZE && NewTableFine(c, s)
    requires s.vvNew[n][i] != EMPTY
    ensures var x := s.vvNew[n][i];
            x in NewIds(s) && NewPos(c, s.mapInfo[x].service, n) == i &&
            |NewSeen(c, s, x, n, i)| < s.mapInfo[x].refCount
  {
    var x := s.vvNew[n][i];
    assert NewSlotOk(c, s, n, i, x);
    var all := Buckets(c, s.vvNew, s.mapInfo[x].service, x);
    var met := NewSeen(c, s, x, n, i);
    assert met <= all && n in all && n !in met;
    ProperlySmaller(met, all, n);
  }

  lemma ProperlySmaller(a: set<nat>, b: set<nat>, x: nat)
    requires a <= b && x in b && x !in a
    ensures |a| < |b|
  {
    assert b == a + (b - a);
    assert x in b - a;
  }

  lemma NewSlotPassed(c: Config, s: State, mapNew: map<Nid, nat>, n: nat, i: nat, mapNew': map<Nid, nat>)
    requires Shape(s.vvNew, NEW_BUCKET_COUNT) && n < NEW_BUCKET_COUNT && i < BUCKET_SIZE
    requires NewProgress(c, s, mapNew, n, i)
    requires var x := s.vvNew[n][i];
             if x == EMPTY then mapNew' == mapNew
             else x in mapNew && mapNew[x] > 0 && x in s.mapInfo && NewPos(c, s.mapInfo[x].service, n) == i
                  && mapNew' == (if mapNew[x] == 1 then mapNew - {x} else mapNew[x := mapNew[x] - 1])
    ensures NewProgress(c, s, mapNew', n, i + 1)
  {
    var x := s.vvNew[n][i];
    assert NewSlotFine(c, s, n, i);
    forall id: Nid | id in NewIds(s) ensures LeftFor(c, s, mapNew', id, n, i + 1) {
      assert LeftFor(c, s, mapNew, id, n, i);
      NewSeenStep(c, s, id, n, i);
    }
  }

  method CheckNewSlot(c: Config, s: State, n: nat, i: nat, mapNew0: map<Nid, nat>)
    returns (r: int, mapNew: map<Nid, nat>)
    requires Shape(s.vvNew, NEW_BUCKET_COUNT) && n < NEW_BUCKET_COUNT && i < BUCKET_SIZE
    requires NewProgress(c, s, mapNew0, n, i)
    ensures r != 0 ==> !NewTableFine(c, s)
    ensures r == 0 ==> NewProgress(c, s, mapNew, n, i + 1)
  {
    mapNew := mapNew0;
    var x := s.vvNew[n][i];
    if x != EMPTY {
      if NewTableFine(c, s) { NewSeenRoom(c, s, n, i); }
      if x !in mapNew { return -12, mapNew; }
      if x !in s.mapInfo || NewPos(c, s.mapInfo[x].service, n) != i { return -19, mapNew; }
      assert LeftFor(c, s, mapNew, x, n, i);
      mapNew := if mapNew[x] == 1 then mapNew - {x} else mapNew[x := mapNew[x] - 1];
    }
    NewSlotPassed(c, s, mapNew0, n, i, mapNew);
    r := 0;
  }

  lemma NewStart(c: Config, s: State, mapNew: map<Nid, nat>)
    requires Shape(s.vvNew, NEW_BUCKET_COUNT) && mapNew.Keys == NewIds(s)
    requires forall id :: id in mapNew ==> s.mapInfo[id].refCount > 0 && mapNew[id] == s.mapInfo[id].refCount
    ensures NewProgress(c, s, mapNew, 0, 0)
  {
    forall id: Nid | id in NewIds(s) ensures LeftFor(c, s, mapNew, id, 0, 0) {
      assert NewSeen(c, s, id, 0, 0) == {};
    }
  }

  lemma NewNextBucket(c: Config, s: State, mapNew: map<Nid, nat>, n: nat)
    requires Shape(s.vvNew, NEW_BUCKET_COUNT) && NewProgress(c, s, mapNew, n, BUCKET_SIZE)
    ensures NewProgress(c, s, mapNew, n + 1, 0)
  {
    forall id: Nid | id in NewIds(s) ensures LeftFor(c, s, mapNew, id, n + 1, 0) {
      assert LeftFor(c, s, mapNew, id, n, BUCKET_SIZE);
      assert NewSeen(c, s, id, n + 1, 0) == NewSeen(c, s, id, n, BUCKET_SIZE);
    }
  }

  method CheckNew(c: Config, s: State, mapNew0: map<Nid, nat>) returns (r: int, mapNew: map<Nid, nat>)
    requires Shape(s.vvNew, NEW_BUCKET_COUNT) && mapNew0.Keys == NewIds(s)
    requires forall id :: id in mapNew0 ==> s.mapInfo[id].refCount > 0 && mapNew0[id] == s.mapInfo[id].refCount
    ensures r == 0 && mapNew == map[] <==> NewTableFine(c, s)
  {
    mapNew := mapNew0;
    NewStart(c, s, mapNew);
    for n := 0 to NEW_BUCKET_COUNT
      invariant NewProgress(c, s, mapNew, n, 0)
    {
      for i := 0 to BUCKET_SIZE
        invariant NewProgress(c, s, mapNew, n, i)
      {
        r, mapNew := CheckNewSlot(c, s, n, i, mapNew);
        if r != 0 { return; }
      }
      NewNextBucket(c, s, mapNew, n);
    }
    r := 0;
    NewDone(c, s, mapNew);
  }

  lemma NewDone(c: Config, s: State, mapNew: map<Nid, nat>)
    requires Shape(s.vvNew, NEW_BUCKET_COUNT) && NewProgress(c, s, mapNew, NEW_BUCKET_COUNT, 0)
    requires forall id :: id in NewIds(s) ==> s.mapInfo[id].refCount > 0
    ensures mapNew == map[] <==> NewTableFine(c, s)
  {
    forall b, p | 0 <= b < NEW_BUCKET_COUNT && 0 <= p < BUCKET_SIZE && s.vvNew[b][p] != EMPTY
      ensures NewSlotOk(c, s, b, p, s.vvNew[b][p])
    {
      assert NewSlotFine(c, s, b, p);
    }
    forall id: Nid | id in NewIds(s)
      ensures id !in mapNew <==>
                id != EMPTY && s.mapInfo[id].refCount == |Buckets(c, s.vvNew, s.mapInfo[id].service, id)|
    {
      assert LeftFor(c, s, mapNew, id, NEW_BUCKET_COUNT, 0);
      if id != EMPTY {
        assert NewSeen(c, s, id, NEW_BUCKET_COUNT, 0) == Buckets(c, s.vvNew, s.mapInfo[id].service, id);
      } else {
        assert NewSeen(c, s, id, NEW_BUCKET_COUNT, 0) == {};
      }
    }
    if mapNew.Keys != {} {
      NonEmpty(mapNew.Keys);
      var id: Nid :| id in mapNew.Keys;
      assert id in NewIds(s);
    }
  }

  // ----- the network counters, and the whole check

  method CheckNets(c: Config, s: State, local: map<nat, NetCount>) returns (r: int)
    requires CountsOf(c, s, NewIds(s), TriedIds(s), local)
    ensures r == 0 <==> NetCountsFine(c, s)
  {
    assert NewIds(s) + TriedIds(s) == s.mapInfo.Keys;
    if |s.netCounts| < |local.Keys| { return -20; }
    var todo := s.netCounts.Keys;
    while todo != {}
      invariant todo <= s.netCounts.Keys
      invariant forall net: nat :: net in s.netCounts && net !in todo ==> s.netCounts[net] == LocalCount(local, net)
      decreases |todo|
    {
      SomeNet(todo);
      var net: nat :| net in todo;
      if LocalCount(local, net) != s.netCounts[net] { return -21; }
      todo := todo - {net};
    }
    return 0;
  }

  lemma SomeNet(nets: set<nat>)
    requires nets != {}
    ensures exists net: nat :: net in nets
  {
    assert (forall net: nat :: net !in nets) ==> nets == {};
  }

  /** AddrManImpl::CheckAddrman. */
  method CheckAddrman(c: Config, s: State, keyIsNull: bool) returns (r: int)
    requires Shape(s.vvTried, TRIED_BUCKET_COUNT) && Shape(s.vvNew, NEW_BUCKET_COUNT)
    ensures r == 0 <==> Consistent(c, s) && !keyIsNull
  {
    if |s.vRandom| != s.nTried + s.nNew { return -7; }
    var setTried, mapNew, local;
    r, setTried, mapNew, local := CheckEntries(c, s);
    if r != 0 { return; }
    AllCounted(c, s, setTried, mapNew, local);
    if |setTried| != s.nTried { return -9; }
    if |mapNew| != s.nNew { return -10; }
    r, setTried := CheckTried(c, s, setTried);
    if r != 0 { return; }
    r, mapNew := CheckNew(c, s, mapNew);
    if r != 0 { return; }
    if setTried != {} { return -13; }
    if mapNew != map[] { return -15; }
    if keyIsNull { return -16; }
    r := CheckNets(c, s, local);
  }

  lemma AllCounted(c: Config, s: State, setTried: set<Nid>, mapNew: map<Nid, nat>, local: map<nat, NetCount>)
    requires Counted(c, s, s.mapInfo.Keys, setTried, mapNew, local)
    ensures setTried == TriedIds(s) && mapNew.Keys == NewIds(s) && CountsOf(c, s, NewIds(s), TriedIds(s), local)
    ensures |mapNew| == |NewIds(s)|
    ensures forall id :: id in mapNew ==> s.mapInfo[id].refCount > 0 && mapNew[id] == s.mapInfo[id].refCount
  {
    assert TriedIds(s) * s.mapInfo.Keys == TriedIds(s) && NewIds(s) * s.mapInfo.Keys == NewIds(s);
    assert |mapNew| == |mapNew.Keys|;
    forall id | id in mapNew ensures s.mapInfo[id].refCount > 0 { assert EntryFine(s, id); }
  }

  // ----- what the answer means

  /** What the invariant says and the check does not look at. */
  ghost predicate Unchecked(c: Config, s: State)
    requires Shape(s.vvTried, TRIED_BUCKET_COUNT)
  {
    && IdsOk(s)
    && (forall a :: a in s.mapAddr ==> s.mapAddr[a] in s.mapInfo && s.mapInfo[s.mapAddr[a]].service == a)
    && (forall id :: id in s.mapInfo ==> c.isValid(s.mapInfo[id].service))
    && Nets(c, s, s.mapInfo.Keys) <= s.netCounts.Keys
    && CollisionsOk(c, s)
  }

  ghost function Positions(s: State, ids: set<Nid>): set<nat> {
    set id | id in ids && id in s.mapInfo :: s.mapInfo[id].randomPos
  }

  /** Entries stand at different positions. */
  lemma {:induction false} PositionsDiffer(s: State, ids: set<Nid>)
    requires ids <= s.mapInfo.Keys
    requires forall id :: id in s.mapInfo ==>
               s.mapInfo[id].randomPos < |s.vRandom| && s.vRandom[s.mapInfo[id].randomPos] == id
    ensures |Positions(s, ids)| == |ids|
    decreases |ids|
  {
    if ids == {} {
      assert Positions(s, ids) == {};
    } else {
      NonEmpty(ids);
      var id: Nid :| id in ids;
      PositionsDiffer(s, ids - {id});
      assert Positions(s, ids) == Positions(s, ids - {id}) + {s.mapInfo[id].randomPos};
      assert s.mapInfo[id].randomPos !in Positions(s, ids - {id});
    }
  }

  ghost function UpTo(n: nat): (r: set<nat>)
    ensures forall k: nat :: k in r <==> k < n
    ensures |r| == n
  {
    if n == 0 then {} else UpTo(n - 1) + {n - 1}
  }

  lemma SameSize(a: set<nat>, b: set<nat>)
    requires a <= b && |a| == |b|
    ensures a == b
  {
    assert b == a + (b - a);
  }

  /** The list holds every entry exactly once if and only if it is as long as the map. */
  lemma ListFits(s: State)
    requires forall id :: id in s.mapInfo ==>
               s.mapInfo[id].randomPos < |s.vRandom| && s.vRandom[s.mapInfo[id].randomPos] == id
    ensures RandomOk(s) <==> |s.vRandom| == |s.mapInfo.Keys|
  {
    var ps := Positions(s, s.mapInfo.Keys);
    PositionsDiffer(s, s.mapInfo.Keys);
    assert ps <= UpTo(|s.vRandom|);
    if RandomOk(s) {
      forall k: nat | k < |s.vRandom| ensures k in ps { assert s.vRandom[k] in s.mapInfo; }
      assert ps == UpTo(|s.vRandom|);
    }
    if |s.vRandom| == |s.mapInfo.Keys| {
      SameSize(ps, UpTo(|s.vRandom|));
      forall i | 0 <= i < |s.vRandom| ensures s.vRandom[i] in s.mapInfo && s.mapInfo[s.vRandom[i]].randomPos == i {
        assert i in UpTo(|s.vRandom|);
        assert i in ps;
      }
    }
  }

  lemma IdsShared(s: State)
    ensures |s.mapInfo.Keys| == |NewIds(s)| + |TriedIds(s)|
  {
    assert NewIds(s) + TriedIds(s) == s.mapInfo.Keys && NewIds(s) !! TriedIds(s);
  }

  lemma NetsFine(c: Config, s: State)
    requires s.nNew == |NewIds(s)| && s.nTried == |TriedIds(s)|
    ensures CountersOk(c, s, {}) <==> NetCountsFine(c, s) && Nets(c, s, s.mapInfo.Keys) <= s.netCounts.Keys
  {
    var n, t := NewIds(s), TriedIds(s);
    assert n - {} == n;
    if CountersOk(c, s, {}) {
      forall net | net in Nets(c, s, s.mapInfo.Keys) ensures net in s.netCounts { OccupiedNet(c, s, net); }
      FewerNets(Nets(c, s, s.mapInfo.Keys), s.netCounts.Keys);
      assert |s.netCounts| == |s.netCounts.Keys|;
      forall net | net in s.netCounts
        ensures s.netCounts[net] == NetCount(|OnNet(c, s, n, net)|, |OnNet(c, s, t, net)|)
      {
        assert NetCountOf(s, net) == NetCount(|OnNet(c, s, n, net)|, |OnNet(c, s, t, net)|);
      }
    }
    if NetCountsFine(c, s) && Nets(c, s, s.mapInfo.Keys) <= s.netCounts.Keys {
      forall net ensures NetCountOf(s, net) == NetCount(|OnNet(c, s, n, net)|, |OnNet(c, s, t, net)|) {
        if net !in s.netCounts { EmptyNet(c, s, net); }
      }
    }
  }

  lemma FewerNets(a: set<nat>, b: set<nat>)
    requires a <= b
    ensures |a| <= |b|
  {
    assert b == a + (b - a);
  }

  lemma OccupiedNet(c: Config, s: State, net: nat)
    requires net in Nets(c, s, s.mapInfo.Keys)
    ensures |OnNet(c, s, NewIds(s), net)| + |OnNet(c, s, TriedIds(s), net)| > 0
  {
    var id :| id in s.mapInfo && c.network(s.mapInfo[id].service) == net;
    assert id in OnNet(c, s, NewIds(s), net) || id in OnNet(c, s, TriedIds(s), net);
  }

  lemma EmptyNet(c: Config, s: State, net: nat)
    requires net !in Nets(c, s, s.mapInfo.Keys)
    ensures OnNet(c, s, NewIds(s), net) == {} && OnNet(c, s, TriedIds(s), net) == {}
  {
    forall id | id in s.mapInfo ensures c.network(s.mapInfo[id].service) != net {
      assert id in s.mapInfo.Keys;
    }
  }

  lemma InvIsConsistent(c: Config, s: State)
    requires Inv(c, s)
    ensures Consistent(c, s) && Unchecked(c, s)
  {
    assert NewIds(s) - {} == NewIds(s);
    ListFits(s);
    IdsShared(s);
    NetsFine(c, s);
    forall id | id in s.mapInfo ensures EntryFine(s, id) {
      assert RefCountOk(c, s, id) && InfoOk(c, s.mapInfo[id]);
      if s.mapInfo[id].inTried { assert InTriedSlot(c, s, id); }
    }
    forall id | id in TriedIds(s) ensures id != EMPTY && TriedHome(c, s, id) == id { assert InTriedSlot(c, s, id); }
    forall id | id in NewIds(s) ensures s.mapInfo[id].refCount == |Buckets(c, s.vvNew, s.mapInfo[id].service, id)| {
      assert RefCountOk(c, s, id);
    }
  }

  lemma ConsistentLinks(c: Config, s: State)
    requires Shape(s.vvTried, TRIED_BUCKET_COUNT) && Shape(s.vvNew, NEW_BUCKET_COUNT)
    requires Consistent(c, s) && Unchecked(c, s)
    ensures Links(c, s)
  {
    forall id | id in s.mapInfo
      ensures s.mapInfo[id].randomPos < |s.vRandom| && s.vRandom[s.mapInfo[id].randomPos] == id
      ensures s.mapInfo[id].service in s.mapAddr && s.mapAddr[s.mapInfo[id].service] == id && InfoOk(c, s.mapInfo[id])
    {
      assert EntryFine(s, id);
    }
    ListFits(s);
    IdsShared(s);
    forall id | id in s.mapInfo && s.mapInfo[id].inTried ensures InTriedSlot(c, s, id) {
      assert id in TriedIds(s) && EntryFine(s, id);
      assert TriedHome(c, s, id) == id;
    }
    forall id | id in s.mapInfo ensures RefCountOk(c, s, id) {
      assert EntryFine(s, id);
      if s.mapInfo[id].inTried { TriedNotInNew(c, s, id); } else { assert id in NewIds(s); }
    }
  }

  lemma TriedNotInNew(c: Config, s: State, id: Nid)
    requires Shape(s.vvNew, NEW_BUCKET_COUNT) && NewTableFine(c, s) && id in s.mapInfo && s.mapInfo[id].inTried
    requires id != EMPTY
    ensures Buckets(c, s.vvNew, s.mapInfo[id].service, id) == {}
  {
    forall b: nat | b < NEW_BUCKET_COUNT ensures s.vvNew[b][NewPos(c, s.mapInfo[id].service, b)] != id {
      var p := NewPos(c, s.mapInfo[id].service, b);
      assert s.vvNew[b][p] != EMPTY ==> NewSlotOk(c, s, b, p, s.vvNew[b][p]);
    }
  }

  /** The manager's invariant is the check's answer 0 plus what the check does not look at. */
  lemma CheckMeansInv(c: Config, s: State)
    requires Shape(s.vvTried, TRIED_BUCKET_COUNT) && Shape(s.vvNew, NEW_BUCKET_COUNT)
    ensures Inv(c, s) <==> Consistent(c, s) && Unchecked(c, s)
  {
    if Inv(c, s) { InvIsConsistent(c, s); }
    if Consistent(c, s) && Unchecked(c, s) {
      ConsistentLinks(c, s);
      NetsFine(c, s);
      forall id | id in s.mapInfo && !s.mapInfo[id].inTried ensures s.mapInfo[id].refCount > 0 {
        assert EntryFine(s, id);
      }
    }
  }
}
