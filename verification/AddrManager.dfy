module AddrManager {

  /** The address manager's public operations and whole runs of them. */

  import opened Common
  import opened AddrManState
  import opened AddrManSteps
  import opened AddrManOps
  import opened AddrMan
  import AddrManCheck
  import Bits

  // ----- AddSingle and Add_

  function Penalty(addr: Address, source: NetAddr, penalty: int): int {
    if addr.service.addr == source then 0 else penalty
  }

  /** Unlucky draw of the stochastic test: each reference makes the next one twice as hard to get. */
  function Refused(i: Info, addr: Address, roll: nat): bool {
    || addr.time <= i.time || i.inTried || i.refCount == NEW_BUCKETS_PER_ADDRESS
    || (i.refCount > 0 && roll % Bits.Pow2(i.refCount) != 0)
  }

  ghost function FreshInfo(addr: Address, source: NetAddr, penalty: int): Info {
    Info(addr.service, addr.services, Max(0, addr.time - penalty), source, 0, 0, 0, 0, 0, false, 0)
  }

  /** A routable address, known as `was` if at all, gets the slot that `holder` has. */
  ghost predicate Enters(s: State, was: Nid, holder: Nid, addr: Address, penalty: int, now: int, roll: nat) {
    if was == EMPTY then Yields(s, holder, 0, now)
    else
      && was in s.mapInfo && holder != was && Yields(s, holder, s.mapInfo[was].refCount, now)
      && addr.time > Refreshed(s.mapInfo[was], addr, penalty, now).time && !s.mapInfo[was].inTried
      && s.mapInfo[was].refCount < NEW_BUCKETS_PER_ADDRESS && roll % Bits.Pow2(s.mapInfo[was].refCount) == 0
  }

  /** What adding one address promises: `s` after, `s0` before. */
  ghost predicate AddedOne(c: Config, s0: State, s: State, addr: Address, source: NetAddr, penalty0: int, now: int,
                            roll: nat, added: bool)
    requires Shape(s0.vvNew, NEW_BUCKET_COUNT)
  {
    var a, penalty := addr.service, if addr.service.addr == source then 0 else penalty0;
    var b := NewBucket(c, a, source);
    var p := NewPos(c, a, b);
    var was, id := Find(s0, a), Find(s, a);
    && s.vvTried == s0.vvTried && s.collisions == s0.collisions && s.nTried == s0.nTried
    && (added <==> c.isRoutable(a) && Enters(s0, was, s0.vvNew[b][p], addr, penalty, now, roll))
    && (added ==> id != EMPTY && s.vvNew == Put(s0.vvNew, b, p, id) && s0.vvNew[b][p] != id)
    && (!added ==> s.vvNew == s0.vvNew && s.mapInfo.Keys == s0.mapInfo.Keys)
    && (!c.isRoutable(a) ==> s == s0)
    && (c.isRoutable(a) && was != EMPTY ==>
          && was in s0.mapInfo && id == was && id in s.mapInfo
          && Alike(Refreshed(s0.mapInfo[id], addr, penalty, now), s.mapInfo[id]))
    && (c.isRoutable(a) && was == EMPTY && added ==>
          id in s.mapInfo && Alike(FreshInfo(addr, source, penalty), s.mapInfo[id]))
    && s.lastGood == s0.lastGood && s.nIdCount == s0.nIdCount + (if c.isRoutable(a) && was == EMPTY then 1 else 0)
    && (added ==>
          && id in s.mapInfo && !s.mapInfo[id].inTried
          && s.mapInfo[id].refCount == 1 + (if was in s0.mapInfo then s0.mapInfo[was].refCount else 0)
          && (s0.vvNew[b][p] != EMPTY ==> LosesOne(s0, s, s0.vvNew[b][p])) && SameOutside(s0, s, {id, s0.vvNew[b][p]}))
    && (!added ==>
          && SameOutside(s0, s, {was})
          && (was in s0.mapInfo ==>
                && was in s.mapInfo && s.mapInfo[was].inTried == s0.mapInfo[was].inTried
                && s.mapInfo[was].refCount == s0.mapInfo[was].refCount))
  }

  lemma AddedWhole(c: Config, s0: State, s: State)
    requires Whole(c, s0) && Ready(c, s, {}, {}) && s.vvTried == s0.vvTried && s.nTried == s0.nTried
    requires s.collisions == s0.collisions
    requires forall x :: x in s.mapInfo && x < s0.nIdCount ==>
               x in s0.mapInfo && s.mapInfo[x].service == s0.mapInfo[x].service
    ensures Whole(c, s) && TriedKept(s0, s)
  {
    ReadyShape(c, s0, {}, {});
    CollisionsKeep(c, s0, s);
  }

  /** The entry that was created found no place and is gone again. */
  lemma GoneAgain(s0: State, s1: State, s: State, id: Nid)
    requires id !in s0.mapInfo && id in s1.mapInfo && s1.mapInfo == s0.mapInfo[id := s1.mapInfo[id]]
    requires SameOutside(s1, s, {id}) && id !in s.mapInfo
    ensures SameOutside(s0, s, {}) && s.mapInfo.Keys == s0.mapInfo.Keys
  {
    forall x: Nid ensures x in s.mapInfo.Keys <==> x in s0.mapInfo.Keys {
      assert x in s.mapInfo ==> x in s1.mapInfo;
      assert x in s0.mapInfo ==> x in s1.mapInfo && x != id;
    }
  }

  /** The entry that was created has taken the slot of `y`. */
  lemma TakenAnew(s0: State, s1: State, s: State, id: Nid, y: Nid)
    requires id !in s0.mapInfo && id in s1.mapInfo && s1.mapInfo == s0.mapInfo[id := s1.mapInfo[id]]
    requires Inserted(s1, s, id, y)
    ensures (y != EMPTY ==> LosesOne(s0, s, y)) && SameOutside(s0, s, {id, y})
  {
  }

  /** Create, with the time penalty applied to the new entry. */
  method CreateDated(c: Config, s0: State, addr: Address, source: NetAddr, penalty: int) returns (s: State, id: Nid)
    requires Ready(c, s0, {}, {}) && addr.service !in s0.mapAddr && c.isValid(addr.service)
    ensures Ready(c, s, {}, {id}) && id == s0.nIdCount && id !in s0.mapInfo
    ensures id in s.mapInfo && s.mapInfo == s0.mapInfo[id := s.mapInfo[id]]
    ensures s.mapInfo[id] == FreshInfo(addr, source, penalty).(randomPos := s.mapInfo[id].randomPos)
    ensures s.vvNew == s0.vvNew && s.vvTried == s0.vvTried && s.nTried == s0.nTried && s.collisions == s0.collisions
    ensures s.lastGood == s0.lastGood && s.nIdCount == s0.nIdCount + 1
  {
    s, id := Create(c, s0, addr, source);
    var info := s.mapInfo[id].(time := Max(0, s.mapInfo[id].time - penalty));
    TouchReady(c, s, id, info, {id});
    s := Touched(s, id, info);
  }

  /** The entry just created is in no slot, and the holders of the slots are as before. */
  lemma YieldsAlike(c: Config, s0: State, s1: State, id: Nid, b: nat, p: nat, now: int)
    requires Ready(c, s0, {}, {}) && b < NEW_BUCKET_COUNT && p < BUCKET_SIZE && Shape(s0.vvNew, NEW_BUCKET_COUNT)
    requires id !in s0.mapInfo && id in s1.mapInfo && s1.mapInfo == s0.mapInfo[id := s1.mapInfo[id]] && id != EMPTY
    ensures s0.vvNew[b][p] != id && (Yields(s1, s0.vvNew[b][p], 0, now) <==> Yields(s0, s0.vvNew[b][p], 0, now))
  {
    ExistingInNew(c, s0, b, p, {});
  }

  /** AddrManImpl::AddSingle for an address not known yet. */
  method AddUnknown(c: Config, s0: State, addr: Address, source: NetAddr, penalty: int, now: int)
    returns (s: State, added: bool)
    requires Whole(c, s0) && addr.service !in s0.mapAddr && c.isValid(addr.service)
    ensures Whole(c, s) && TriedKept(s0, s) && s.collisions == s0.collisions && s.vvTried == s0.vvTried
    ensures s.nTried == s0.nTried
    ensures var a := addr.service; var b := NewBucket(c, a, source); var p := NewPos(c, a, b); var id := s0.nIdCount;
            && Shape(s0.vvNew, NEW_BUCKET_COUNT)
            && (added ==> Find(s, a) == id && s.vvNew == Put(s0.vvNew, b, p, id) && s0.vvNew[b][p] != id)
            && (added ==> id in s.mapInfo && Alike(FreshInfo(addr, source, penalty), s.mapInfo[id]))
            && (!added ==> s.vvNew == s0.vvNew && s.mapInfo.Keys == s0.mapInfo.Keys)
            && (added <==> Yields(s0, s0.vvNew[b][p], 0, now))
            && s.lastGood == s0.lastGood && s.nIdCount == s0.nIdCount + 1
            && (if added then
                  && id in s.mapInfo && !s.mapInfo[id].inTried && s.mapInfo[id].refCount == 1
                  && (s0.vvNew[b][p] != EMPTY ==> LosesOne(s0, s, s0.vvNew[b][p]))
                  && SameOutside(s0, s, {id, s0.vvNew[b][p]})
                else SameOutside(s0, s, {}))
  {
    ReadyShape(c, s0, {}, {});
    var id;
    s, id := CreateDated(c, s0, addr, source, penalty);
    ghost var s1 := s;
    ghost var b := NewBucket(c, addr.service, source);
    YieldsAlike(c, s0, s1, id, b, NewPos(c, addr.service, b), now);
    s, added := PlaceInNew(c, s, id, source, now);
    ReadyShape(c, s, {}, {});
    AddedWhole(c, s0, s);
    if added {
      TakenAnew(s0, s1, s, id, s0.vvNew[b][NewPos(c, addr.service, b)]);
    } else {
      GoneAgain(s0, s1, s, id);
    }
  }

  /** AddrManImpl::AddSingle for a known address that the update did not refuse. */
  method AddKnown(c: Config, s0: State, id: Nid, source: NetAddr, now: int) returns (s: State, added: bool)
    requires Whole(c, s0) && id in s0.mapInfo && !s0.mapInfo[id].inTried
    requires s0.mapInfo[id].refCount < NEW_BUCKETS_PER_ADDRESS
    ensures Whole(c, s) && TriedKept(s0, s) && s.collisions == s0.collisions && s.vvTried == s0.vvTried
    ensures s.nTried == s0.nTried
    ensures var a := s0.mapInfo[id].service; var b := NewBucket(c, a, source); var p := NewPos(c, a, b);
            && Shape(s0.vvNew, NEW_BUCKET_COUNT) && Find(s, a) == id && id in s.mapInfo
            && Alike(s0.mapInfo[id], s.mapInfo[id])
            && (added ==> s.vvNew == Put(s0.vvNew, b, p, id) && s0.vvNew[b][p] != id)
            && (added <==> s0.vvNew[b][p] != id && Yields(s0, s0.vvNew[b][p], s0.mapInfo[id].refCount, now))
            && (!added ==> s.vvNew == s0.vvNew && s.mapInfo.Keys == s0.mapInfo.Keys)
            && s.lastGood == s0.lastGood && s.nIdCount == s0.nIdCount
            && (if added then Inserted(s0, s, id, s0.vvNew[b][p]) else SameOutside(s0, s, {}))
  {
    EntryOk(c, s0, id);
    ReadyWeaken(c, s0, {}, {}, {id});
    s, added := PlaceInNew(c, s0, id, source, now);
    ReadyShape(c, s, {}, {});
    AddedWhole(c, s0, s);
    assert !added ==> s.mapInfo.Keys == s0.mapInfo.Keys;
  }

  /** AddrManImpl::AddSingle. */
  method AddSingle(c: Config, s0: State, addr: Address, source: NetAddr, penalty0: int, now: int, roll: nat)
    returns (s: State, added: bool)
    requires Whole(c, s0) && ConfigOk(c)
    ensures Whole(c, s) && TriedKept(s0, s)
    ensures Shape(s0.vvNew, NEW_BUCKET_COUNT) && AddedOne(c, s0, s, addr, source, penalty0, now, roll, added)
  {
    s := s0;
    ReadyShape(c, s0, {}, {});
    if !c.isRoutable(addr.service) { return s, false; }
    FoundEntry(c, s0, addr.service);
    var id := Find(s, addr.service);
    var penalty := Penalty(addr, source, penalty0);
    if id != EMPTY {
      EntryOk(c, s, id);
      var info := Refreshed(s.mapInfo[id], addr, penalty, now);
      TouchWhole(c, s, id, info);
      s := Touched(s, id, info);
      assert s.mapInfo.Keys == s0.mapInfo.Keys;
      if Refused(info, addr, roll) { return s, false; }
      s, added := AddKnown(c, s, id, source, now);
    } else {
      s, added := AddUnknown(c, s, addr, source, penalty, now);
    }
  }

  /** Step `i` of a run over `addrs`. */
  ghost predicate AddedAt(c: Config, trace: seq<State>, flags: seq<bool>, addrs: seq<Address>, source: NetAddr,
                          penalty: int, now: int, roll: nat -> nat, i: nat)
    requires i < |addrs| && i < |flags| && i + 1 < |trace|
  {
    Shape(trace[i].vvNew, NEW_BUCKET_COUNT) &&
    AddedOne(c, trace[i], trace[i + 1], addrs[i], source, penalty, now, roll(i), flags[i])
  }

  /** The addresses are added one after the other, through the states `trace`; `flags` tells which ones entered. */
  ghost predicate AddedAll(c: Config, trace: seq<State>, flags: seq<bool>, addrs: seq<Address>, source: NetAddr,
                           penalty: int, now: int, roll: nat -> nat)
  {
    && |flags| <= |addrs| && |trace| == |flags| + 1
    && forall i :: 0 <= i < |flags| ==> AddedAt(c, trace, flags, addrs, source, penalty, now, roll, i)
  }

  lemma AddedNext(c: Config, trace: seq<State>, flags: seq<bool>, addrs: seq<Address>, source: NetAddr,
                  penalty: int, now: int, roll: nat -> nat, s: State, one: bool)
    requires AddedAll(c, trace, flags, addrs, source, penalty, now, roll) && |flags| < |addrs|
    requires Shape(trace[|flags|].vvNew, NEW_BUCKET_COUNT)
    requires AddedOne(c, trace[|flags|], s, addrs[|flags|], source, penalty, now, roll(|flags|), one)
    ensures AddedAll(c, trace + [s], flags + [one], addrs, source, penalty, now, roll)
  {
    forall i | 0 <= i < |flags + [one]|
      ensures AddedAt(c, trace + [s], flags + [one], addrs, source, penalty, now, roll, i)
    {
      if i < |flags| { assert AddedAt(c, trace, flags, addrs, source, penalty, now, roll, i); }
    }
  }

  /** AddrManImpl::Add_; `roll` gives the random number drawn for each address. */
  method Add(c: Config, s0: State, addrs: seq<Address>, source: NetAddr, penalty: int, now: int, roll: nat -> nat)
    returns (s: State, any: bool, ghost trace: seq<State>, ghost flags: seq<bool>)
    requires Whole(c, s0) && ConfigOk(c)
    ensures Whole(c, s) && TriedKept(s0, s) && s.vvTried == s0.vvTried && s.collisions == s0.collisions
    ensures |flags| == |addrs| && AddedAll(c, trace, flags, addrs, source, penalty, now, roll) && trace[0] == s0
    ensures trace[|addrs|] == s
    ensures any <==> true in flags
    ensures !any ==> s.vvNew == s0.vvNew && s.mapInfo.Keys == s0.mapInfo.Keys
  {
    s, trace, flags := s0, [s0], [];
    var added := 0;
    for i := 0 to |addrs|
      invariant Whole(c, s) && TriedKept(s0, s) && s.vvTried == s0.vvTried && s.collisions == s0.collisions
      invariant added >= 0 && (added == 0 ==> s.vvNew == s0.vvNew && s.mapInfo.Keys == s0.mapInfo.Keys)
      invariant |flags| == i && AddedAll(c, trace, flags, addrs, source, penalty, now, roll) && trace[0] == s0
      invariant trace[i] == s
      invariant added > 0 <==> true in flags
    {
      var one;
      ghost var s1 := s;
      s, one := AddSingle(c, s, addrs[i], source, penalty, now, roll(i));
      TriedKeptTransitive(s0, s1, s);
      AddedNext(c, trace, flags, addrs, source, penalty, now, roll, s, one);
      trace, flags := trace + [s], flags + [one];
      added := added + if one then 1 else 0;
    }
    any := added > 0;
  }

  // ----- collisions in the tried table

  /** The entry that holds the tried slot of `id`. */
  function Holder(c: Config, s: State, id: Nid): Nid
    requires Shape(s.vvTried, TRIED_BUCKET_COUNT) && id in s.mapInfo
  {
    var b := TriedBucket(c, s.mapInfo[id].service);
    s.vvTried[b][TriedPos(c, s.mapInfo[id].service, b)]
  }

  lemma HolderExists(c: Config, s: State, id: Nid)
    requires Whole(c, s) && id in s.collisions && id in s.mapInfo
    ensures Holder(c, s, id) != EMPTY && Holder(c, s, id) in s.mapInfo && s.mapInfo[Holder(c, s, id)].inTried
    ensures c.isValid(s.mapInfo[id].service)
  {
    assert TriedOccupied(c, s, id);
    var b := TriedBucket(c, s.mapInfo[id].service);
    TriedEntry(c, s, b, TriedPos(c, s.mapInfo[id].service, b), {}, {});
    EntryOk(c, s, id);
  }

  /** Good_ without the test: afterwards the entry holds its own tried slot. */
  method ForceGood(c: Config, s0: State, id: Nid, now: int) returns (s: State)
    requires Whole(c, s0) && id in s0.mapInfo && now > 0
    ensures Whole(c, s) && TriedKept(s0, s) && s.collisions == s0.collisions
    ensures id in s.mapInfo && s.mapInfo[id].inTried && Holder(c, s, id) == id && TookSlot(c, s0, s, id, now)
  {
    var a := s0.mapInfo[id].service;
    ReadyShape(c, s0, {}, {});
    EntryOk(c, s0, id);
    if s0.mapInfo[id].inTried { TriedHoldsItself(c, s0, id); }
    var moved;
    s, moved := Good(c, s0, a, false, now);
    ReadyShape(c, s, {}, {});
    var b := TriedBucket(c, a);
    TriedEntry(c, s, b, TriedPos(c, a, b), {}, {});
    TriedHoldsItself(c, s, id);
  }

  lemma TriedHoldsItself(c: Config, s: State, id: Nid)
    requires Ready(c, s, {}, {}) && id in s.mapInfo && s.mapInfo[id].inTried
    ensures Shape(s.vvTried, TRIED_BUCKET_COUNT) && Holder(c, s, id) == id
  {
    Open(c, s, {}, {});
    assert InTriedSlot(c, s, id);
  }

  /** In seconds: the entry that holds a tried slot answered within four hours. */
  ghost predicate Proven(holder: Info, now: int) { now - holder.lastSuccess < 14400 }

  /** In seconds: its test failed over a minute ago, or it was not tested while the challenger waited forty minutes. */
  ghost predicate Beaten(holder: Info, challenger: Info, now: int) {
    && !Proven(holder, now)
    && if now - holder.lastTry < 14400 then now - holder.lastTry > 60 else now - challenger.lastSuccess > 2400
  }

  /** The entry has answered and holds its tried slot; whoever held it before is back in the new table. */
  ghost predicate TookSlot(c: Config, s0: State, s: State, id: Nid, now: int) {
    && id in s0.mapInfo && s.lastGood == now && s.nIdCount == s0.nIdCount
    && if s0.mapInfo[id].inTried then s == Greeted(s0, id, now).(collisions := s.collisions)
       else MadeTried(c, Greeted(s0, id, now), s, id)
  }

  /** What is done about the collision of `id`: it is dropped, resolved in its favour, or kept for later. */
  ghost predicate Resolved(c: Config, s0: State, s: State, id: Nid, now: int) {
    && Shape(s0.vvTried, TRIED_BUCKET_COUNT) && Shape(s.vvTried, TRIED_BUCKET_COUNT)
    && if id !in s0.mapInfo then s == s0.(collisions := s0.collisions - {id})
       else
         && Holder(c, s0, id) in s0.mapInfo
         && var holder := s0.mapInfo[Holder(c, s0, id)];
            if Proven(holder, now) then s == s0.(collisions := s0.collisions - {id})
            else if Beaten(holder, s0.mapInfo[id], now) then
              && s.collisions == s0.collisions - {id} && TookSlot(c, s0, s, id, now)
              && id in s.mapInfo && s.mapInfo[id].inTried && Holder(c, s, id) == id
            else s == s0
  }

  /** The collision is kept for later. */
  ghost predicate Pending(c: Config, s: State, id: Nid, now: int) {
    && Shape(s.vvTried, TRIED_BUCKET_COUNT) && id in s.mapInfo && Holder(c, s, id) in s.mapInfo
    && !Proven(s.mapInfo[Holder(c, s, id)], now) && !Beaten(s.mapInfo[Holder(c, s, id)], s.mapInfo[id], now)
  }

  /** One turn of the loop in AddrManImpl::ResolveCollisions_. */
  method ResolveOne(c: Config, s0: State, id: Nid, now: int) returns (s: State)
    requires Whole(c, s0) && id in s0.collisions && now > 0
    ensures Whole(c, s) && TriedKept(s0, s) && Resolved(c, s0, s, id, now)
  {
    s := s0;
    var erase := false;
    if id !in s.mapInfo {
      erase := true;
    } else {
      HolderExists(c, s0, id);
      var info := s.mapInfo[id];
      var was := Holder(c, s, id);
      if !c.isValid(info.service) {
        assert false;
      } else if was != EMPTY {
        var holder := s.mapInfo[was];
        if now - holder.lastSuccess < REPLACEMENT {
          erase := true;
        } else if now - holder.lastTry < REPLACEMENT {
          if now - holder.lastTry > MINUTE {
            s := ForceGood(c, s, id, now);
            erase := true;
          }
        } else if now - info.lastSuccess > TEST_WINDOW {
          s := ForceGood(c, s, id, now);
          erase := true;
        }
      } else {
        assert false;
      }
    }
    if erase {
      CollisionErased(c, s, id);
      TriedKeptTransitive(s0, s, s.(collisions := s.collisions - {id}));
      s := s.(collisions := s.collisions - {id});
    }
  }

  /** The collisions in `order` are resolved one after the other, through the states `trace`. */
  ghost predicate ResolvedAll(c: Config, trace: seq<State>, order: seq<Nid>, now: Nid -> int) {
    && |trace| == |order| + 1
    && forall i :: 0 <= i < |order| ==> Resolved(c, trace[i], trace[i + 1], order[i], now(order[i]))
  }

  /** A collision is still there exactly if it was kept for later when its turn came. */
  ghost predicate StillPending(c: Config, trace: seq<State>, order: seq<Nid>, now: Nid -> int, ids: set<Nid>)
    requires |order| <= |trace|
  {
    forall i :: 0 <= i < |order| ==> (order[i] in ids <==> Pending(c, trace[i], order[i], now(order[i])))
  }

  ghost predicate Ascending(ids: seq<Nid>) { forall i, j :: 0 <= i < j < |ids| ==> ids[i] < ids[j] }

  lemma {:induction false} SmallestIn(ids: set<Nid>)
    requires ids != {}
    ensures exists id: Nid :: id in ids && forall x :: x in ids ==> id <= x
  {
    NonEmpty(ids);
    var y: Nid :| y in ids;
    var rest := ids - {y};
    if rest != {} {
      SmallerSet(rest, ids);
      SmallestIn(rest);
      var z: Nid :| z in rest && forall x :: x in rest ==> z <= x;
      var m := if y < z then y else z;
      forall x | x in ids ensures m <= x { assert x == y || x in rest; }
      assert m in ids;
    } else {
      assert ids == {y};
    }
  }

  lemma AscendingNext(ids: seq<Nid>, id: Nid)
    requires Ascending(ids) && forall x :: x in ids ==> x < id
    ensures Ascending(ids + [id])
  {
    forall i | 0 <= i < |ids| ensures ids[i] < id { assert ids[i] in ids; }
  }

  lemma ResolvedNext(c: Config, trace: seq<State>, order: seq<Nid>, now: Nid -> int, id: Nid, s: State)
    requires ResolvedAll(c, trace, order, now) && id !in order && id in trace[|order|].collisions
    requires Resolved(c, trace[|order|], s, id, now(id))
    requires StillPending(c, trace, order, now, trace[|order|].collisions)
    ensures ResolvedAll(c, trace + [s], order + [id], now)
    ensures StillPending(c, trace + [s], order + [id], now, s.collisions)
  {
    var trace', order' := trace + [s], order + [id];
    forall i | 0 <= i < |order'|
      ensures Resolved(c, trace'[i], trace'[i + 1], order'[i], now(order'[i]))
      ensures order'[i] in s.collisions <==> Pending(c, trace'[i], order'[i], now(order'[i]))
    {
      if i < |order| {
        assert Resolved(c, trace[i], trace[i + 1], order[i], now(order[i])) && order[i] != id;
      }
    }
  }

  /** AddrManImpl::ResolveCollisions_; `now` gives the clock reading used for each entry. */
  method ResolveCollisions(c: Config, s0: State, now: Nid -> int)
    returns (s: State, ghost trace: seq<State>, ghost order: seq<Nid>)
    requires Whole(c, s0) && forall id :: now(id) > 0
    ensures Whole(c, s) && TriedKept(s0, s) && s.collisions <= s0.collisions
    ensures Ascending(order) && (forall id :: id in order <==> id in s0.collisions)
    ensures ResolvedAll(c, trace, order, now) && trace[0] == s0 && trace[|order|] == s
    ensures StillPending(c, trace, order, now, s.collisions)
  {
    s, trace, order := s0, [s0], [];
    var todo := s.collisions;
    while todo != {}
      invariant Whole(c, s) && TriedKept(s0, s) && todo <= s.collisions <= s0.collisions
      invariant Ascending(order) && (forall id :: id in order <==> id in s0.collisions - todo)
      invariant forall x, y :: x in order && y in todo ==> x < y
      invariant ResolvedAll(c, trace, order, now) && trace[0] == s0 && trace[|order|] == s
      invariant StillPending(c, trace, order, now, s.collisions)
      decreases |todo|
    {
      SmallestIn(todo);
      var id: Nid :| id in todo && forall x :: x in todo ==> id <= x;
      ghost var s1 := s;
      s := ResolveOne(c, s, id, now(id));
      ResolvedNext(c, trace, order, now, id, s);
      AscendingNext(order, id);
      trace, order := trace + [s], order + [id];
      TriedKeptTransitive(s0, s1, s);
      SmallerSet(todo - {id}, todo);
      todo := todo - {id};
    }
  }

  /** A collision of an entry that is gone is dropped, if there are any collisions at all. */
  ghost predicate Selected(c: Config, s0: State, s: State, r: Option<(Info, int)>) {
    && Shape(s0.vvTried, TRIED_BUCKET_COUNT) && s == s0.(collisions := s.collisions) && s.collisions <= s0.collisions
    && (r.Some? ==>
          && s == s0 && r.value.1 == r.value.0.lastTry
          && exists id :: id in s0.collisions && id in s0.mapInfo && Holder(c, s0, id) in s0.mapInfo
                && r.value.0 == s0.mapInfo[Holder(c, s0, id)] && r.value.0.inTried)
    && (r.None? ==>
          || (s0.collisions == {} && s == s0)
          || exists id :: id in s0.collisions && id !in s0.mapInfo && s.collisions == s0.collisions - {id})
  }

  /** AddrManImpl::SelectTriedCollision_: the entry to be tested, and when it was last tried. */
  method SelectTriedCollision(c: Config, s0: State) returns (s: State, r: Option<(Info, int)>)
    requires Whole(c, s0)
    ensures Whole(c, s) && TriedKept(s0, s) && Selected(c, s0, s, r)
  {
    s := s0;
    ReadyShape(c, s0, {}, {});
    if |s.collisions| == 0 { return s, None; }
    NonEmpty(s.collisions);
    var id: Nid :| id in s.collisions;
    if id !in s.mapInfo {
      CollisionErased(c, s, id);
      s := s.(collisions := s.collisions - {id});
      return s, None;
    }
    HolderExists(c, s, id);
    var tested := s.mapInfo[Holder(c, s, id)];
    return s, Some((tested, tested.lastTry));
  }

  // ----- GetAddr_

  function AddressOf(i: Info): Address { Address(i.service, i.services, i.time) }

  predicate Qualifies(c: Config, i: Info, network: Option<nat>, filtered: bool, now: int) {
    (network.None? || c.netClass(i.service) == network.value) && !(IsTerrible(i, now) && filtered)
  }

  lemma ReorderedTransitive(s: State, s': State, s'': State)
    requires Reordered(s, s') && Reordered(s', s'')
    ensures Reordered(s, s'')
  {
    forall id | id in s.mapInfo ensures SameButPosition(s.mapInfo[id], s''.mapInfo[id]) {
      assert SameButPosition(s.mapInfo[id], s'.mapInfo[id]) && SameButPosition(s'.mapInfo[id], s''.mapInfo[id]);
    }
  }

  lemma ReorderedWhole(c: Config, s: State, s': State)
    requires Whole(c, s) && Reordered(s, s') && RandomOk(s')
    ensures Whole(c, s')
  {
    WholeIsInv(c, s);
    ReorderedInv(c, s, s');
    WholeIsInv(c, s');
  }

  function NodeLimit(size: nat, maxAddresses: nat, maxPct: nat): nat {
    var n := if maxPct != 0 then (if maxPct < 100 then maxPct else 100) * size / 100 else size;
    if maxAddresses != 0 && maxAddresses < n then maxAddresses else n
  }

  /** The limit is the largest number within the list, within the percentage of it, and within the given maximum. */
  lemma NodeLimitIsLargest(size: nat, maxAddresses: nat, maxPct: nat, k: nat)
    ensures k <= NodeLimit(size, maxAddresses, maxPct) <==>
              && k <= size && (maxAddresses == 0 || k <= maxAddresses)
              && (maxPct == 0 || 100 * k <= maxPct * size)
  {
    var pct := if maxPct < 100 then maxPct else 100;
    if maxPct < 100 {
      assert pct * size <= 100 * size;
    } else {
      assert maxPct * size >= 100 * size;
    }
    assert k <= pct * size / 100 <==> 100 * k <= pct * size;
  }

  /** The addresses of `ids`, in order. */
  ghost predicate Lists(s: State, ids: seq<Nid>, r: seq<Address>) {
    |r| == |ids| && forall k :: 0 <= k < |ids| ==> ids[k] in s.mapInfo && r[k] == AddressOf(s.mapInfo[ids[k]])
  }

  /** AddrManImpl::GetAddr_; `roll` gives the random numbers. */
  method GetAddr(c: Config, s0: State, maxAddresses: nat, maxPct: nat, network: Option<nat>, filtered: bool, now: int,
                 roll: nat -> nat)
    returns (s: State, r: seq<Address>, ghost ids: seq<Nid>)
    requires Whole(c, s0)
    ensures Whole(c, s) && Reordered(s0, s)
    ensures Lists(s0, ids, r) && Distinct(ids) && |r| <= NodeLimit(|s0.vRandom|, maxAddresses, maxPct)
    ensures forall id :: id in ids ==> id in s0.mapInfo && Qualifies(c, s0.mapInfo[id], network, filtered, now)
    ensures || |r| < NodeLimit(|s0.vRandom|, maxAddresses, maxPct)
            || (maxAddresses == 0 && (maxPct == 0 || maxPct >= 100)) ==>
              forall id :: id in s0.mapInfo && Qualifies(c, s0.mapInfo[id], network, filtered, now) ==> id in ids
  {
    s := s0;
    ReadyShape(c, s0, {}, {});
    var limit := NodeLimit(|s.vRandom|, maxAddresses, maxPct);
    r := [];
    ids := [];
    var n := 0;
    while n < |s.vRandom| && |r| < limit
      invariant n <= |s.vRandom| && Reordered(s0, s) && RandomOk(s) && Whole(c, s)
      invariant |r| <= limit && |r| <= n && Lists(s0, ids, r) && Distinct(ids)
      invariant Gathered(c, s, n, ids, network, filtered, now)
      decreases |s.vRandom| - n
    {
      var j := roll(n) % (|s.vRandom| - n) + n;
      ghost var s1 := s;
      s := SwapRandom(s, n, j);
      Turn(c, s0, s1, s, n, j, ids, r, network, filtered, now);
      ReorderedWhole(c, s0, s);
      var info := s.mapInfo[s.vRandom[n]];
      if !(network.Some? && c.netClass(info.service) != network.value) && !(IsTerrible(info, now) && filtered) {
        r := r + [AddressOf(info)];
        ids := ids + [s.vRandom[n]];
      }
      n := n + 1;
    }
    GatheredAll(c, s0, s, n, ids, network, filtered, now);
  }

  /** `ids` are exactly the qualifying entries among the first `n` of the random list. */
  ghost predicate Gathered(c: Config, s: State, n: nat, ids: seq<Nid>, network: Option<nat>, filtered: bool, now: int) {
    forall id :: id in ids <==>
          id in s.mapInfo && s.mapInfo[id].randomPos < n && Qualifies(c, s.mapInfo[id], network, filtered, now)
  }

  lemma GatheredSwap(c: Config, s: State, s': State, n: nat, ids: seq<Nid>, network: Option<nat>, filtered: bool,
                     now: int)
    requires Gathered(c, s, n, ids, network, filtered, now) && Reordered(s, s') && RandomOk(s) && RandomOk(s')
    requires n <= |s.vRandom| && s'.vRandom[..n] == s.vRandom[..n]
    ensures Gathered(c, s', n, ids, network, filtered, now)
  {
    forall id | id in s.mapInfo ensures s.mapInfo[id].randomPos < n <==> s'.mapInfo[id].randomPos < n {
      var k, k' := s.mapInfo[id].randomPos, s'.mapInfo[id].randomPos;
      assert s.vRandom[k] == id && s'.vRandom[k'] == id;
      if k < n { assert s'.vRandom[..n][k] == id; }
      if k' < n { assert s.vRandom[..n][k'] == id; }
    }
    forall id | id in s.mapInfo ensures SameButPosition(s.mapInfo[id], s'.mapInfo[id]) {}
  }

  lemma GatheredNext(c: Config, s: State, n: nat, ids: seq<Nid>, network: Option<nat>, filtered: bool, now: int)
    requires Gathered(c, s, n, ids, network, filtered, now) && RandomOk(s) && n < |s.vRandom|
    ensures var x := s.vRandom[n];
            && x !in ids && x in s.mapInfo
            && Gathered(c, s, n + 1, if Qualifies(c, s.mapInfo[x], network, filtered, now) then ids + [x] else ids,
                        network, filtered, now)
  {
    var x := s.vRandom[n];
    assert x in s.mapInfo && s.mapInfo[x].randomPos == n;
    forall id | id in s.mapInfo && s.mapInfo[id].randomPos == n ensures id == x {
      assert s.vRandom[s.mapInfo[id].randomPos] == id;
    }
  }

  /** One turn of GetAddr's loop: after the swap, the entry at `n` is a new one. */
  lemma Turn(c: Config, s0: State, s: State, s': State, n: nat, j: nat, ids: seq<Nid>, r: seq<Address>,
             network: Option<nat>, filtered: bool, now: int)
    requires Reordered(s0, s) && Reordered(s, s') && RandomOk(s) && RandomOk(s') && n <= j < |s.vRandom|
    requires n != j ==> s'.vRandom == s.vRandom[n := s.vRandom[j]][j := s.vRandom[n]]
    requires n == j ==> s' == s
    requires Gathered(c, s, n, ids, network, filtered, now) && Lists(s0, ids, r) && Distinct(ids)
    ensures Reordered(s0, s') && s'.vRandom[n] in s'.mapInfo
    ensures var x := s'.vRandom[n];
            && Gathered(c, s', n + 1, if Qualifies(c, s'.mapInfo[x], network, filtered, now) then ids + [x] else ids,
                        network, filtered, now)
            && Distinct(ids + [x]) && Lists(s0, ids + [x], r + [AddressOf(s'.mapInfo[x])])
  {
    ReorderedTransitive(s0, s, s');
    assert s'.vRandom[..n] == s.vRandom[..n];
    GatheredSwap(c, s, s', n, ids, network, filtered, now);
    GatheredNext(c, s', n, ids, network, filtered, now);
    var x := s'.vRandom[n];
    assert x in s0.mapInfo && SameButPosition(s0.mapInfo[x], s'.mapInfo[x]);
  }

  lemma GatheredAll(c: Config, s0: State, s: State, n: nat, ids: seq<Nid>, network: Option<nat>, filtered: bool,
                    now: int)
    requires Gathered(c, s, n, ids, network, filtered, now) && Reordered(s0, s) && RandomOk(s) && n <= |s.vRandom|
    ensures forall id :: id in ids ==> id in s0.mapInfo && Qualifies(c, s0.mapInfo[id], network, filtered, now)
    ensures n == |s.vRandom| ==>
              forall id :: id in s0.mapInfo && Qualifies(c, s0.mapInfo[id], network, filtered, now) ==> id in ids
  {
    forall id | id in s0.mapInfo
      ensures Qualifies(c, s0.mapInfo[id], network, filtered, now) ==
              Qualifies(c, s.mapInfo[id], network, filtered, now)
    {
      assert SameButPosition(s0.mapInfo[id], s.mapInfo[id]);
    }
  }

  // ----- the manager as an object, and whole runs

  datatype Op =
    | OpAdd(addrs: seq<Address>, source: NetAddr, penalty: int, now: int, rolls: nat -> nat)
    | OpGood(a: Service, testBeforeEvict: bool, time: int)
    | OpAttempt(a: Service, countFailure: bool, time: int)
    | OpConnected(a: Service, time: int)
    | OpSetServices(a: Service, services: set<nat>)
    | OpResolve(clock: Nid -> int)
    | OpSelect
    | OpGetAddr(maxAddresses: nat, maxPct: nat, network: Option<nat>, filtered: bool, now: int, rolls: nat -> nat)

  /** Clock readings come after the epoch. */
  ghost predicate Sensible(op: Op) {
    match op
    case OpGood(_, _, time) => time > 0
    case OpAttempt(_, _, time) => time >= 0
    case OpResolve(clock) => forall id :: clock(id) > 0
    case _ => true
  }

  ghost predicate AddPerformed(c: Config, op: Op, s0: State, s: State, trace: seq<State>, flags: seq<bool>)
    requires op.OpAdd?
  {
    && |flags| == |op.addrs| && AddedAll(c, trace, flags, op.addrs, op.source, op.penalty, op.now, op.rolls)
    && trace[0] == s0 && trace[|op.addrs|] == s
  }

  ghost predicate ResolvePerformed(c: Config, op: Op, s0: State, s: State, trace: seq<State>, order: seq<Nid>)
    requires op.OpResolve?
  {
    && Ascending(order) && (forall id :: id in order <==> id in s0.collisions)
    && ResolvedAll(c, trace, order, op.clock) && trace[0] == s0 && trace[|order|] == s
  }

  /** What an operation does to the state, as its method promises. */
  ghost predicate Performed(c: Config, op: Op, s0: State, s: State) {
    match op
    case OpAdd(_, _, _, _, _) => exists trace, flags :: AddPerformed(c, op, s0, s, trace, flags)
    case OpGood(a, testBeforeEvict, time) => exists moved :: GoodDone(c, s0, s, a, testBeforeEvict, time, moved)
    case OpAttempt(a, countFailure, time) => Attempted(s0, s, a, countFailure, time)
    case OpConnected(a, time) => BroughtUpToDate(s0, s, a, time)
    case OpSetServices(a, services) => ServicesSet(s0, s, a, services)
    case OpResolve(_) => exists trace, order :: ResolvePerformed(c, op, s0, s, trace, order)
    case OpSelect => exists r :: Selected(c, s0, s, r)
    case OpGetAddr(_, _, _, _, _, _) => Reordered(s0, s)
  }

  function NewTable(n: nat): (t: Table)
    ensures Shape(t, n) && forall b, p :: 0 <= b < n && 0 <= p < BUCKET_SIZE ==> t[b][p] == EMPTY
  {
    seq(n, b => seq(BUCKET_SIZE, p => EMPTY))
  }

  function Initial(): State {
    State(0, map[], map[], [], 0, 0, NewTable(TRIED_BUCKET_COUNT), NewTable(NEW_BUCKET_COUNT), 1, {}, map[])
  }

  lemma InitialInv(c: Config)
    ensures Inv(c, Initial())
  {
    var s := Initial();
    assert NewIds(s) == {} && TriedIds(s) == {};
    assert CountersOk(c, s, {}) by {
      forall net ensures OnNet(c, s, {}, net) == {} {}
      assert NewIds(s) - {} == {};
    }
  }

  lemma EmptyIsConsistent(c: Config, s: State)
    requires s == Initial().(mapAddr := s.mapAddr, collisions := s.collisions)
    ensures Shape(s.vvTried, TRIED_BUCKET_COUNT) && Shape(s.vvNew, NEW_BUCKET_COUNT) && AddrManCheck.Consistent(c, s)
  {
    assert NewIds(s) == {} && TriedIds(s) == {} && AddrManCheck.Nets(c, s, s.mapInfo.Keys) == {};
  }

  /** The self-check overlooks an address that leads to no entry, and a collision of an id that was never given out. */
  lemma CheckOverlooks(c: Config, a: Service)
    ensures var s := Initial().(mapAddr := map[a := 7]);
            && Shape(s.vvTried, TRIED_BUCKET_COUNT) && Shape(s.vvNew, NEW_BUCKET_COUNT)
            && AddrManCheck.Consistent(c, s) && !Inv(c, s)
    ensures var s := Initial().(collisions := {7});
            && Shape(s.vvTried, TRIED_BUCKET_COUNT) && Shape(s.vvNew, NEW_BUCKET_COUNT)
            && AddrManCheck.Consistent(c, s) && !Inv(c, s)
  {
    var s := Initial().(mapAddr := map[a := 7]);
    EmptyIsConsistent(c, s);
    assert a in s.mapAddr && !AddrOk(s);
    var s' := Initial().(collisions := {7});
    EmptyIsConsistent(c, s');
    assert 7 in s'.collisions && !IdsOk(s');
  }

  /** AddrManImpl: every method keeps the five indexes and the counters in agreement. */
  class Manager {
    const c: Config
    var s: State

    ghost predicate Valid() reads this { ConfigOk(c) && Whole(c, s) }

    constructor (c: Config)
      requires ConfigOk(c)
      ensures Valid() && this.c == c && s == Initial()
    {
      this.c := c;
      s := Initial();
      InitialInv(c);
      WholeIsInv(c, Initial());
    }

    constructor Loaded(c: Config, s: State)
      requires ConfigOk(c) && Inv(c, s)
      ensures Valid() && this.c == c && this.s == s
    {
      this.c := c;
      this.s := s;
      WholeIsInv(c, s);
    }

    method Execute(op: Op)
      requires Valid() && Sensible(op)
      modifies this
      ensures Valid() && TriedKept(old(s), s) && Performed(c, op, old(s), s)
    {
      match op
      case OpAdd(addrs, source, penalty, now, rolls) =>
        var any;
        ghost var trace, flags;
        s, any, trace, flags := Add(c, s, addrs, source, penalty, now, rolls);
        assert AddPerformed(c, op, old(s), s, trace, flags);
      case OpGood(a, testBeforeEvict, time) =>
        var moved;
        s, moved := Good(c, s, a, testBeforeEvict, time);
        assert GoodDone(c, old(s), s, a, testBeforeEvict, time, moved);
      case OpAttempt(a, countFailure, time) =>
        s := Attempt(c, s, a, countFailure, time);
      case OpConnected(a, time) =>
        s := Connected(c, s, a, time);
      case OpSetServices(a, services) =>
        s := SetServices(c, s, a, services);
      case OpResolve(clock) =>
        ghost var trace, order;
        s, trace, order := ResolveCollisions(c, s, clock);
        assert ResolvePerformed(c, op, old(s), s, trace, order);
      case OpSelect =>
        var tested;
        s, tested := SelectTriedCollision(c, s);
        assert Selected(c, old(s), s, tested);
      case OpGetAddr(maxAddresses, maxPct, network, filtered, now, rolls) =>
        var r;
        ghost var ids;
        s, r, ids := GetAddr(c, s, maxAddresses, maxPct, network, filtered, now, rolls);
    }

    /** The self-check passes in every reachable state. */
    method Check(keyIsNull: bool) returns (r: int)
      requires Valid()
      ensures r == 0 <==> !keyIsNull
    {
      WholeIsInv(c, s);
      AddrManCheck.InvIsConsistent(c, s);
      r := AddrManCheck.CheckAddrman(c, s, keyIsNull);
    }

    /** After every run the invariant holds, the tried table has lost no slot, and each operation did its work. */
    method Run(ops: seq<Op>) returns (ghost trace: seq<State>)
      requires Valid() && forall i :: 0 <= i < |ops| ==> Sensible(ops[i])
      modifies this
      ensures Valid() && Inv(c, s) && TriedKept(old(s), s)
      ensures |trace| == |ops| + 1 && trace[0] == old(s) && trace[|ops|] == s
      ensures forall i :: 0 <= i < |ops| ==> Performed(c, ops[i], trace[i], trace[i + 1])
    {
      WholeIsInv(c, s);
      trace := [s];
      for i := 0 to |ops|
        invariant Valid() && TriedKept(old(s), s) && |trace| == i + 1 && trace[0] == old(s) && trace[i] == s
        invariant forall j :: 0 <= j < i ==> Performed(c, ops[j], trace[j], trace[j + 1])
      {
        ghost var s1 := s;
        Execute(ops[i]);
        TriedKeptTransitive(old(s), s1, s);
        trace := trace + [s];
      }
      WholeIsInv(c, s);
    }
  }
}
