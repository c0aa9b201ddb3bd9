module AddrManState {

  /**
   The address manager's state and the invariant behind CheckAddrman.

   Five indexes describe the same addresses: `mapInfo` by id, `mapAddr` by address, `vRandom` as a list, and
   the bucket tables `vvNew` and `vvTried`.  `Links` says that they agree; every single step keeps it.
   The counters are exact except for the ids in `uncounted`, which only exist in the middle of an operation.
   */

  const TRIED_BUCKET_COUNT := 256
  const NEW_BUCKET_COUNT := 1024
  const BUCKET_SIZE := 64
  const NEW_BUCKETS_PER_ADDRESS := 8
  const SET_TRIED_COLLISION_SIZE := 10
  const EMPTY := -1

  datatype NetAddr = NetAddr(net: nat, bytes: seq<nat>)
  datatype Service = Service(addr: NetAddr, port: nat)
  datatype Address = Address(service: Service, services: set<nat>, time: int)

  datatype Info = Info(
    service: Service, services: set<nat>, time: int, source: NetAddr,
    lastTry: int, lastCountAttempt: int, lastSuccess: int, attempts: nat,
    refCount: nat, inTried: bool, randomPos: nat)

  /** The keyed hashes and the address classification, as arbitrary functions. */
  datatype Config = Config(
    triedHash: Service -> nat,
    newHash: (Service, NetAddr) -> nat,
    newPosHash: (Service, nat) -> nat,
    triedPosHash: (Service, nat) -> nat,
    network: Service -> nat,
    netClass: Service -> nat,
    isRoutable: Service -> bool,
    isValid: Service -> bool)

  function TriedBucket(c: Config, a: Service): nat { c.triedHash(a) % TRIED_BUCKET_COUNT }
  function NewBucket(c: Config, a: Service, source: NetAddr): nat { c.newHash(a, source) % NEW_BUCKET_COUNT }
  function NewPos(c: Config, a: Service, bucket: nat): nat { c.newPosHash(a, bucket) % BUCKET_SIZE }
  function TriedPos(c: Config, a: Service, bucket: nat): nat { c.triedPosHash(a, bucket) % BUCKET_SIZE }

  ghost predicate ConfigOk(c: Config) {
    forall a :: c.isRoutable(a) ==> c.isValid(a)
  }

  datatype NetCount = NetCount(nNew: nat, nTried: nat)

  /** Entry ids; -1 marks an empty table slot. */
  type Nid = int

  type Table = seq<seq<Nid>>

  datatype State = State(
    nIdCount: nat, mapInfo: map<Nid, Info>, mapAddr: map<Service, Nid>, vRandom: seq<Nid>,
    nTried: int, nNew: int, vvTried: Table, vvNew: Table,
    lastGood: int, collisions: set<Nid>, netCounts: map<nat, NetCount>)

  // ----- bucket tables

  ghost predicate Shape(t: Table, n: nat) {
    |t| == n && forall b :: 0 <= b < n ==> |t[b]| == BUCKET_SIZE
  }

  function Put(t: Table, b: nat, p: nat, x: Nid): Table
    requires b < |t| && p < |t[b]|
  {
    t[b := t[b][p := x]]
  }

  lemma PutShape(t: Table, n: nat, b: nat, p: nat, x: Nid)
    requires Shape(t, n) && b < n && p < BUCKET_SIZE
    ensures Shape(Put(t, b, p, x), n)
  {
  }

  /** The buckets in which `id`, known to live at the positions of address `a`, appears. */
  ghost function Buckets(c: Config, t: Table, a: Service, id: Nid): set<nat>
    requires Shape(t, NEW_BUCKET_COUNT)
  {
    set b: nat | b < NEW_BUCKET_COUNT && t[b][NewPos(c, a, b)] == id
  }

  /** A changed slot matters to an id only if the id was there or is put there. */
  lemma PutBuckets(c: Config, t: Table, b: nat, p: nat, x: Nid, a: Service, id: Nid)
    requires Shape(t, NEW_BUCKET_COUNT) && b < NEW_BUCKET_COUNT && p < BUCKET_SIZE
    ensures Shape(Put(t, b, p, x), NEW_BUCKET_COUNT)
    ensures NewPos(c, a, b) != p || (t[b][p] != id && x != id) ==>
              Buckets(c, Put(t, b, p, x), a, id) == Buckets(c, t, a, id)
    ensures NewPos(c, a, b) == p && x == id ==> Buckets(c, Put(t, b, p, x), a, id) == Buckets(c, t, a, id) + {b}
    ensures NewPos(c, a, b) == p && x != id ==> Buckets(c, Put(t, b, p, x), a, id) == Buckets(c, t, a, id) - {b}
  {
  }

  // ----- the indexes agree

  ghost predicate IdsOk(s: State) {
    && (forall id :: id in s.mapInfo ==> 0 <= id < s.nIdCount)
    && (forall id :: id in s.collisions ==> 0 <= id < s.nIdCount)
  }

  ghost predicate AddrOk(s: State) {
    && (forall id :: id in s.mapInfo ==> s.mapInfo[id].service in s.mapAddr && s.mapAddr[s.mapInfo[id].service] == id)
    && (forall a :: a in s.mapAddr ==> s.mapAddr[a] in s.mapInfo && s.mapInfo[s.mapAddr[a]].service == a)
  }

  ghost predicate RandomOk(s: State) {
    && (forall id :: id in s.mapInfo ==>
          s.mapInfo[id].randomPos < |s.vRandom| && s.vRandom[s.mapInfo[id].randomPos] == id)
    && (forall i :: 0 <= i < |s.vRandom| ==> s.vRandom[i] in s.mapInfo && s.mapInfo[s.vRandom[i]].randomPos == i)
  }

  ghost predicate TriedSlotOk(c: Config, s: State, b: nat, p: nat, id: Nid) {
    && id in s.mapInfo && s.mapInfo[id].inTried
    && b == TriedBucket(c, s.mapInfo[id].service) && p == TriedPos(c, s.mapInfo[id].service, b)
  }

  ghost predicate TriedOk(c: Config, s: State) {
    && Shape(s.vvTried, TRIED_BUCKET_COUNT)
    && (forall b, p :: 0 <= b < TRIED_BUCKET_COUNT && 0 <= p < BUCKET_SIZE && s.vvTried[b][p] != EMPTY ==>
          TriedSlotOk(c, s, b, p, s.vvTried[b][p]))
    && (forall id :: id in s.mapInfo && s.mapInfo[id].inTried ==> InTriedSlot(c, s, id))
  }

  ghost predicate InTriedSlot(c: Config, s: State, id: Nid)
    requires Shape(s.vvTried, TRIED_BUCKET_COUNT) && id in s.mapInfo
  {
    var a := s.mapInfo[id].service;
    s.vvTried[TriedBucket(c, a)][TriedPos(c, a, TriedBucket(c, a))] == id && s.mapInfo[id].refCount == 0
  }

  ghost predicate NewSlotOk(c: Config, s: State, b: nat, p: nat, id: Nid) {
    id in s.mapInfo && !s.mapInfo[id].inTried && p == NewPos(c, s.mapInfo[id].service, b)
  }

  ghost predicate NewOk(c: Config, s: State) {
    && Shape(s.vvNew, NEW_BUCKET_COUNT)
    && (forall b, p :: 0 <= b < NEW_BUCKET_COUNT && 0 <= p < BUCKET_SIZE && s.vvNew[b][p] != EMPTY ==>
          NewSlotOk(c, s, b, p, s.vvNew[b][p]))
    && (forall id :: id in s.mapInfo ==> RefCountOk(c, s, id))
  }

  ghost predicate RefCountOk(c: Config, s: State, id: Nid)
    requires Shape(s.vvNew, NEW_BUCKET_COUNT) && id in s.mapInfo
  {
    s.mapInfo[id].refCount == |Buckets(c, s.vvNew, s.mapInfo[id].service, id)| &&
    s.mapInfo[id].refCount <= NEW_BUCKETS_PER_ADDRESS
  }

  ghost predicate InfoOk(c: Config, i: Info) {
    && c.isValid(i.service)
    && i.lastTry >= 0 && i.lastSuccess >= 0
    && (i.inTried ==> i.lastSuccess > 0)
  }

  ghost predicate Links(c: Config, s: State) {
    && IdsOk(s) && AddrOk(s) && RandomOk(s) && TriedOk(c, s) && NewOk(c, s)
    && (forall id :: id in s.mapInfo ==> InfoOk(c, s.mapInfo[id]))
  }

  // ----- the counters are exact

  ghost function NewIds(s: State): set<Nid> { set id | id in s.mapInfo && !s.mapInfo[id].inTried }
  ghost function TriedIds(s: State): set<Nid> { set id | id in s.mapInfo && s.mapInfo[id].inTried }

  ghost function OnNet(c: Config, s: State, ids: set<Nid>, net: nat): set<Nid> {
    set id | id in ids && id in s.mapInfo && c.network(s.mapInfo[id].service) == net
  }

  function NetCountOf(s: State, net: nat): NetCount {
    if net in s.netCounts then s.netCounts[net] else NetCount(0, 0)
  }

  /** `ids` are the new entries that nNew counts, `tried` the ones nTried counts. */
  ghost predicate Counting(c: Config, s: State, ids: set<Nid>, tried: set<Nid>) {
    && s.nNew == |ids| && s.nTried == |tried|
    && (forall net :: NetCountOf(s, net) == NetCount(|OnNet(c, s, ids, net)|, |OnNet(c, s, tried, net)|))
  }

  ghost predicate CountersOk(c: Config, s: State, uncounted: set<Nid>) {
    Counting(c, s, NewIds(s) - uncounted, TriedIds(s))
  }

  /** Every entry outside the tried table is referenced by some bucket. */
  ghost predicate Referenced(s: State, unreferenced: set<Nid>) {
    forall id :: id in s.mapInfo && id !in unreferenced && !s.mapInfo[id].inTried ==> s.mapInfo[id].refCount > 0
  }

  // ----- collisions

  ghost predicate TriedOccupied(c: Config, s: State, id: Nid)
    requires Shape(s.vvTried, TRIED_BUCKET_COUNT) && id in s.mapInfo
  {
    var a := s.mapInfo[id].service;
    s.vvTried[TriedBucket(c, a)][TriedPos(c, a, TriedBucket(c, a))] != EMPTY
  }

  /** An address in the collision set still has an occupied tried slot to collide with. */
  ghost predicate CollisionsOk(c: Config, s: State)
    requires Shape(s.vvTried, TRIED_BUCKET_COUNT)
  {
    && |s.collisions| <= SET_TRIED_COLLISION_SIZE
    && (forall id :: id in s.collisions && id in s.mapInfo ==> TriedOccupied(c, s, id))
  }

  ghost predicate Inv(c: Config, s: State) {
    Links(c, s) && CountersOk(c, s, {}) && Referenced(s, {}) && CollisionsOk(c, s)
  }

  /** Tried slots never become empty again, and the tried table never shrinks. */
  ghost predicate TriedKept(s: State, s': State) {
    && s.nTried <= s'.nTried
    && Shape(s.vvTried, TRIED_BUCKET_COUNT) && Shape(s'.vvTried, TRIED_BUCKET_COUNT)
    && (forall b, p :: 0 <= b < TRIED_BUCKET_COUNT && 0 <= p < BUCKET_SIZE && s.vvTried[b][p] != EMPTY ==>
          s'.vvTried[b][p] != EMPTY)
  }

  lemma NonEmpty(ids: set<Nid>)
    requires |ids| > 0 || ids != {}
    ensures exists id: Nid :: id in ids
  {
    assert (forall id: Nid :: id !in ids) ==> ids == {};
  }
}
