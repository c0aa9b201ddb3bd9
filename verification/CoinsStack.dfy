module CoinsStack {

  /**
   The cache stack as a mutable object, and the plain maps it stands for.

   `caches[k]` is the cache over level k; level 0 is the database.  Coins are added and spent through the
   topmost cache only.  Reads, Uncache, Flush and Sync are allowed at every level, and caches are pushed and
   popped as the node creates and drops them.
   */

  import opened Common
  import opened Coins

  function Lookup(m: CoinMap, o: OutPoint): Option<Coin> { if o in m then Some(m[o]) else None }

  function Unspent(coins: map<OutPoint, Entry>): set<OutPoint> { set o | o in coins && !coins[o].coin.IsSpent() }

  const EMPTY := Cache(map[], [], 0, 0, false)

  // ----- plain-map semantics of every operation

  datatype Op =
    | Add(o: OutPoint, coin: Coin, possibleOverwrite: bool)
    | AddTx(txid: nat, outs: seq<TxOut>, height: nat, isCoinbase: bool, check: bool)
    | Spend(o: OutPoint)
    | Get(level: nat, o: OutPoint)
    | Uncache(level: nat, o: OutPoint)
    | Flush(level: nat)
    | Sync(level: nat)
    | Reset
    | Push(overlay: bool)
    | Pop

  /** The coin that output `i` becomes. */
  function CoinOf(out: TxOut, height: nat, isCoinbase: bool): Coin { Coin(out.value, out.script, height, isCoinbase) }

  /** The coins of a transaction's spendable outputs. */
  function Outputs(txid: nat, outs: seq<TxOut>, height: nat, isCoinbase: bool): CoinMap {
    map i | 0 <= i < |outs| && !CoinOf(outs[i], height, isCoinbase).IsUnspendable() ::
      OutPoint(txid, i) := CoinOf(outs[i], height, isCoinbase)
  }

  /** No output is null, and unless it may be overwritten none is visible yet. */
  predicate Addable(view: CoinMap, txid: nat, outs: seq<TxOut>, overwrite: bool) {
    forall i :: 0 <= i < |outs| ==> outs[i].value != -1 && (overwrite || OutPoint(txid, i) !in view)
  }

  /**
   The spendable ones of the first `n` outputs are in the map, under the transaction's id and their numbers; all else is
   as before.
   */
  ghost predicate OutputsAdded(v: CoinMap, v': CoinMap, txid: nat, outs: seq<TxOut>, height: nat, isCoinbase: bool,
                               n: nat)
    requires n <= |outs|
  {
    forall o: OutPoint ::
      if o.txid == txid && o.n < n && !CoinOf(outs[o.n], height, isCoinbase).IsUnspendable()
      then o in v' && v'[o] == Coin(outs[o.n].value, outs[o.n].script, height, isCoinbase)
      else Lookup(v', o) == Lookup(v, o)
  }

  lemma AllAdded(v: CoinMap, v': CoinMap, txid: nat, outs: seq<TxOut>, height: nat, isCoinbase: bool)
    requires OutputsAdded(v, v', txid, outs, height, isCoinbase, |outs|)
    ensures v' == v + Outputs(txid, outs, height, isCoinbase)
  {
    var w := v + Outputs(txid, outs, height, isCoinbase);
    forall o: OutPoint ensures Lookup(v', o) == Lookup(w, o) {
      if o.txid == txid && o.n < |outs| { assert o == OutPoint(txid, o.n); }
    }
    forall o ensures o in v' <==> o in w { assert Lookup(v', o) == Lookup(w, o); }
    forall o | o in v' ensures v'[o] == w[o] { assert Lookup(v', o) == Lookup(w, o); }
  }

  /** What the callers of a cache must respect. */
  predicate Legal(op: Op, views: seq<CoinMap>)
    requires |views| > 0
  {
    match op
    case Add(o, coin, ow) => |views| > 1 && !coin.IsSpent() && (ow || o !in views[|views| - 1])
    case AddTx(txid, outs, _, isCoinbase, check) =>
      |views| > 1 && Addable(views[|views| - 1], txid, outs, isCoinbase || check)
    case Spend(_) => |views| > 1
    case Get(k, _) => k < |views|
    case Uncache(k, _) => 0 < k < |views|
    case Flush(k) => 0 < k < |views|
    case Sync(k) => 0 < k < |views|
    case Reset => |views| > 1
    case Push(_) => true
    case Pop => |views| > 1
  }

  /** The same operation on plain maps: adding, removing, and copying a level onto the one below. */
  function Apply(op: Op, views: seq<CoinMap>): (r: seq<CoinMap>)
    requires |views| > 0 && Legal(op, views)
    ensures |r| > 0
  {
    var top := |views| - 1;
    match op
    case Add(o, coin, _) => if coin.IsUnspendable() then views else views[top := views[top][o := coin]]
    case AddTx(txid, outs, height, isCoinbase, _) =>
      views[top := views[top] + Outputs(txid, outs, height, isCoinbase)]
    case Spend(o) => views[top := views[top] - {o}]
    case Get(_, _) => views
    case Uncache(_, _) => views
    case Flush(k) => views[k - 1 := views[k]]
    case Sync(k) => views[k - 1 := views[k]]
    case Reset => views[top := views[top - 1]]
    case Push(_) => views + [views[top]]
    case Pop => views[..top]
  }

  predicate LegalRun(ops: seq<Op>, views: seq<CoinMap>)
    requires |views| > 0
  {
    ops == [] || (Legal(ops[0], views) && LegalRun(ops[1..], Apply(ops[0], views)))
  }

  function Replay(ops: seq<Op>, views: seq<CoinMap>): (r: seq<CoinMap>)
    requires |views| > 0 && LegalRun(ops, views)
    ensures |r| > 0
  {
    if ops == [] then views else Replay(ops[1..], Apply(ops[0], views))
  }

  /** Flushing from level k downwards, one level after the other. */
  function FlushDown(k: nat): seq<Op> { if k == 0 then [] else [Flush(k)] + FlushDown(k - 1) }

  /** Flushing everything makes every level below k, the database included, show level k's map. */
  lemma {:induction false} FlushDownReachesDatabase(views: seq<CoinMap>, k: nat)
    requires k < |views|
    ensures LegalRun(FlushDown(k), views)
    ensures Replay(FlushDown(k), views) == seq(k, _ => views[k]) + views[k..]
    decreases k
  {
    if k > 0 {
      var next := views[k - 1 := views[k]];
      assert FlushDown(k)[1..] == FlushDown(k - 1);
      assert Apply(Flush(k), views) == next;
      FlushDownReachesDatabase(next, k - 1);
      assert seq(k - 1, _ => next[k - 1]) + next[k - 1..] == seq(k, _ => views[k]) + views[k..];
    }
  }

  /** Every level is consistent and shows the plain map recorded for it. */
  ghost predicate StackOk(u: Script -> nat, caches: seq<Cache>, views: seq<CoinMap>) {
    && u([]) == 0
    && |views| == |caches| + 1
    && (forall k :: 0 <= k < |views| ==> AllUnspent(views[k]))
    && (forall k :: 0 <= k < |caches| ==> Linked(u, caches[k], views[k], views[k + 1]))
  }

  /** A cached entry decides the lookup at its level; a missing one defers to the level below. */
  lemma LookupAt(u: Script -> nat, caches: seq<Cache>, views: seq<CoinMap>, k: nat, o: OutPoint)
    requires StackOk(u, caches, views) && k < |caches|
    ensures Lookup(views[k + 1], o) ==
            if o !in caches[k].coins then Lookup(views[k], o)
            else if caches[k].coins[o].coin.IsSpent() then None else Some(caches[k].coins[o].coin)
  {
    assert Linked(u, caches[k], views[k], views[k + 1]);
    assert Visible(caches[k], views[k], o) <==> o in views[k + 1];
  }

  function Cached(u: Script -> nat, c: Cache, o: OutPoint, coin: Coin): Cache {
    c.(coins := c.coins[o := Entry(coin, false, false)], usage := c.usage + u(coin.script))
  }

  lemma FetchAt(u: Script -> nat, caches: seq<Cache>, views: seq<CoinMap>, k: nat, o: OutPoint, coin: Coin)
    requires StackOk(u, caches, views) && k < |caches|
    requires o !in caches[k].coins && Lookup(views[k], o) == Some(coin)
    ensures StackOk(u, caches[k := Cached(u, caches[k], o, coin)], views)
  {
    assert Linked(u, caches[k], views[k], views[k + 1]);
    FetchIsInvisible(u, caches[k], views[k], o, Cached(u, caches[k], o, coin));
  }

  /** Changing the topmost cache together with the map it shows. */
  lemma ReplaceTop(u: Script -> nat, caches: seq<Cache>, views: seq<CoinMap>, c': Cache)
    requires StackOk(u, caches, views) && |caches| > 0
    requires LevelOk(u, c', views[|caches| - 1])
    ensures StackOk(u, caches[|caches| - 1 := c'], views[|caches| := View(c', views[|caches| - 1])])
  {
    ViewUnspent(c', views[|caches| - 1]);
  }

  lemma PutTop(u: Script -> nat, caches: seq<Cache>, views: seq<CoinMap>, o: OutPoint, e: Entry, c': Cache)
    requires StackOk(u, caches, views) && |caches| > 0
    requires e.isDirty && EntryOk(e, views[|caches| - 1], o)
    requires var c := caches[|caches| - 1];
             && c'.coins == c.coins[o := e]
             && c'.flagged == Flagged(c.flagged, o, WasDirty(c, o))
             && c'.dirtyCount == c.dirtyCount + (if WasDirty(c, o) then 0 else 1)
             && c'.usage == c.usage - OldUsage(u, c, o) + u(e.coin.script)
    ensures StackOk(u, caches[|caches| - 1 := c'], views[|caches| := Written(views[|caches|], o, e.coin)])
  {
    assert Linked(u, caches[|caches| - 1], views[|caches| - 1], views[|caches|]);
    PutDirty(u, caches[|caches| - 1], views[|caches| - 1], o, e, c');
    ReplaceTop(u, caches, views, c');
  }

  /** A FRESH coin can be dropped when it is spent: no level below knows it. */
  lemma EraseFreshTop(u: Script -> nat, caches: seq<Cache>, views: seq<CoinMap>, o: OutPoint, c': Cache)
    requires StackOk(u, caches, views) && |caches| > 0
    requires o in caches[|caches| - 1].coins && caches[|caches| - 1].coins[o].isFresh
    requires var c := caches[|caches| - 1];
             && c'.coins == c.coins - {o}
             && c'.flagged == Without(c.flagged, o)
             && c'.dirtyCount == c.dirtyCount - 1
             && c'.usage == c.usage - u(c.coins[o].coin.script)
    ensures StackOk(u, caches[|caches| - 1 := c'], views[|caches| := views[|caches|] - {o}])
  {
    assert Linked(u, caches[|caches| - 1], views[|caches| - 1], views[|caches|]);
    assert EntryOk(caches[|caches| - 1].coins[o], views[|caches| - 1], o);
    EraseEntry(u, caches[|caches| - 1], views[|caches| - 1], o, c');
    ReplaceTop(u, caches, views, c');
  }

  /** The counters that an update decrements are large enough. */
  lemma NoUnderflow(u: Script -> nat, caches: seq<Cache>, views: seq<CoinMap>, k: nat, o: OutPoint)
    requires StackOk(u, caches, views) && k < |caches| && o in caches[k].coins
    ensures u(caches[k].coins[o].coin.script) <= caches[k].usage
    ensures caches[k].coins[o].isDirty ==> caches[k].dirtyCount > 0
    ensures EntryOk(caches[k].coins[o], views[k], o)
  {
    assert Linked(u, caches[k], views[k], views[k + 1]);
    UsageRemove(u, caches[k].coins, o);
    assert caches[k].coins[o].isDirty ==> o in caches[k].flagged;
  }

  lemma EraseCleanAt(u: Script -> nat, caches: seq<Cache>, views: seq<CoinMap>, k: nat, o: OutPoint, c': Cache)
    requires StackOk(u, caches, views) && k < |caches|
    requires o in caches[k].coins && !caches[k].coins[o].isDirty
    requires c' == caches[k].(coins := caches[k].coins - {o}, usage := c'.usage)
    requires c'.usage == caches[k].usage - u(caches[k].coins[o].coin.script)
    ensures StackOk(u, caches[k := c'], views)
  {
    assert Linked(u, caches[k], views[k], views[k + 1]);
    assert EntryOk(caches[k].coins[o], views[k], o);
    WithoutAbsent(caches[k].flagged, o);
    EraseEntry(u, caches[k], views[k], o, c');
    assert views[k + 1][o := views[k][o]] == views[k + 1] by { LookupAt(u, caches, views, k, o); }
  }

  /**
   Why a non-overwriting AddCoin needs its promise: on an empty slot it marks the coin FRESH, and spending a
   FRESH coin just drops the entry.  That is right exactly when the coin was not visible before.
   */
  lemma FreshIsRightExactlyWhenInvisible(c: Cache, below: CoinMap, o: OutPoint, coin: Coin, added: Cache, spent: Cache)
    requires o !in c.coins && !coin.IsSpent()
    requires added.coins == c.coins[o := Entry(coin, true, true)]
    requires spent.coins == added.coins - {o}
    ensures EntryOk(added.coins[o], below, o) <==> o !in View(c, below)
    ensures o !in View(spent, below) <==> o !in View(c, below)
  {
    assert Visible(c, below, o) <==> o in below;
    assert Visible(spent, below, o) <==> o in below;
  }

  /** A coin that is visible below, added as FRESH and spent: it shows again. */
  lemma SpentCoinShowsAgain()
    ensures var o, coin := OutPoint(1, 0), Coin(5, [], 1, false);
            var below: CoinMap := map[o := coin];
            var added := Cache(map[o := Entry(coin, true, true)], [o], 1, 0, false);
            var spent := Cache(map[], [], 0, 0, false);
            !EntryOk(added.coins[o], below, o) && spent.coins == added.coins - {o} && o in View(spent, below)
  {
    var o, coin := OutPoint(1, 0), Coin(5, [], 1, false);
    var below: CoinMap := map[o := coin];
    assert Visible(Cache(map[], [], 0, 0, false), below, o);
  }

  // ----- BatchWrite

  /** What the cursor does to the child: with `willErase` it only counts down, otherwise it cleans. */
  ghost predicate CursorAt(u: Script -> nat, child: Cache, willErase: bool, n: nat, child': Cache)
    requires n <= |child.flagged|
  {
    if willErase then child' == child.(dirtyCount := |child.flagged| - n) else Passed(u, child, n, child')
  }

  method Advance(u: Script -> nat, ghost child: Cache, ghost below: CoinMap, willErase: bool, ghost n: nat, c: Cache,
                 o: OutPoint)
    returns (c': Cache)
    requires LevelOk(u, child, below) && u([]) == 0
    requires n < |child.flagged| && o == child.flagged[n] && CursorAt(u, child, willErase, n, c)
    ensures CursorAt(u, child, willErase, n + 1, c')
  {
    if willErase {
      c' := c.(dirtyCount := c.dirtyCount - 1);
    } else {
      c' := NextAndMaybeErase(u, child, n, below, c, o);
    }
  }

  /** A child entry the cursor has not reached yet still satisfies its flags with respect to the parent. */
  lemma NextEntryOk(u: Script -> nat, child: Cache, below: CoinMap, n: nat, now: CoinMap)
    requires LevelOk(u, child, below) && n < |child.flagged|
    requires Keys(child.flagged[..n]) <= child.coins.Keys
    requires now == Overlaid(child.coins, Keys(child.flagged[..n]), below)
    ensures child.flagged[n] in child.coins
    ensures child.coins[child.flagged[n]].isDirty
    ensures EntryOk(child.coins[child.flagged[n]], now, child.flagged[n])
  {
    var o := child.flagged[n];
    assert o in child.flagged;
    assert EntryOk(child.coins[o], below, o);
    OverlaidStep(u, child, below, n);
  }

  /** CCoinsViewCache::BatchWrite: afterwards the parent shows exactly what the child showed. */
  method BatchWriteCache(u: Script -> nat, child: Cache, ghost below: CoinMap, willErase: bool, parent: Cache,
                         ghost under: CoinMap)
    returns (child': Cache, parent': Cache)
    requires u([]) == 0 && LevelOk(u, child, below)
    requires LevelOk(u, parent, under) && below == View(parent, under)
    ensures CursorAt(u, child, willErase, |child.flagged|, child')
    ensures LevelOk(u, parent', under) && View(parent', under) == View(child, below)
  {
    child', parent' := child, parent;
    var n := 0;
    assert Overlaid(child.coins, Keys([]), below) == below;
    assert child.flagged[..0] == [];
    while n < |child.flagged|
      invariant 0 <= n <= |child.flagged|
      invariant CursorAt(u, child, willErase, n, child')
      invariant LevelOk(u, parent', under)
      invariant Keys(child.flagged[..n]) <= child.coins.Keys
      invariant View(parent', under) == Overlaid(child.coins, Keys(child.flagged[..n]), below)
    {
      var o := child.flagged[n];
      NextEntryOk(u, child, below, n, View(parent', under));
      OverlaidStep(u, child, below, n);
      parent' := MergeEntry(u, parent', under, o, child.coins[o]);
      child' := Advance(u, child, below, willErase, n, child', o);
      n := n + 1;
    }
    assert child.flagged[..n] == child.flagged;
    OverlaidIsView(u, child, below);
  }

  /** CCoinsViewDB::BatchWrite on the coins themselves. */
  method BatchWriteDb(u: Script -> nat, child: Cache, willErase: bool, db: CoinMap)
    returns (child': Cache, db': CoinMap)
    requires u([]) == 0 && LevelOk(u, child, db)
    ensures CursorAt(u, child, willErase, |child.flagged|, child')
    ensures db' == View(child, db)
  {
    child', db' := child, db;
    var n := 0;
    assert Overlaid(child.coins, Keys([]), db) == db;
    assert child.flagged[..0] == [];
    while n < |child.flagged|
      invariant 0 <= n <= |child.flagged|
      invariant CursorAt(u, child, willErase, n, child')
      invariant Keys(child.flagged[..n]) <= child.coins.Keys
      invariant db' == Overlaid(child.coins, Keys(child.flagged[..n]), db)
    {
      var o := child.flagged[n];
      NextEntryOk(u, child, db, n, db');
      OverlaidStep(u, child, db, n);
      if child.coins[o].coin.IsSpent() {
        db' := db' - {o};
      } else {
        db' := db'[o := child.coins[o].coin];
      }
      child' := Advance(u, child, db, willErase, n, child', o);
      n := n + 1;
    }
    assert child.flagged[..n] == child.flagged;
    OverlaidIsView(u, child, db);
  }

  lemma EmptyLevel(u: Script -> nat, below: CoinMap, overlay: bool)
    ensures Linked(u, EMPTY.(overlay := overlay), below, below)
  {
    assert View(EMPTY.(overlay := overlay), below) == below;
  }

  /** Level k wrote itself through: its parent shows its map and it holds nothing the parent lacks. */
  lemma WrittenThrough(u: Script -> nat, caches: seq<Cache>, views: seq<CoinMap>, k: nat, child': Cache, parent': Cache)
    requires StackOk(u, caches, views) && 1 < k <= |caches|
    requires LevelOk(u, parent', views[k - 2]) && View(parent', views[k - 2]) == views[k]
    requires Linked(u, child', views[k], views[k])
    ensures StackOk(u, caches[k - 2 := parent'][k - 1 := child'], views[k - 1 := views[k]])
  {
  }

  lemma WrittenToDb(u: Script -> nat, caches: seq<Cache>, views: seq<CoinMap>, child': Cache)
    requires StackOk(u, caches, views) && |caches| > 0
    requires Linked(u, child', views[1], views[1])
    ensures StackOk(u, caches[0 := child'], views[0 := views[1]])
  {
  }

  lemma SyncedAt(u: Script -> nat, caches: seq<Cache>, views: seq<CoinMap>, k: nat, child': Cache)
    requires StackOk(u, caches, views) && 0 < k <= |caches|
    requires CursorAt(u, caches[k - 1], false, |caches[k - 1].flagged|, child')
    ensures Linked(u, child', views[k], views[k]) && child'.dirtyCount == 0 && child'.flagged == []
  {
    assert Linked(u, caches[k - 1], views[k - 1], views[k]);
    SyncedLevel(u, caches[k - 1], views[k - 1], child');
  }

  class CoinsStack {
    const scriptUsage: Script -> nat
    var db: CoinMap
    var caches: seq<Cache>
    ghost var views: seq<CoinMap>

    ghost predicate Valid()
      reads this
    {
      StackOk(scriptUsage, caches, views) && views[0] == db
    }

    constructor (scriptUsage: Script -> nat, db: CoinMap)
      requires scriptUsage([]) == 0 && AllUnspent(db)
      ensures Valid() && views == [db] && caches == [] && this.scriptUsage == scriptUsage
    {
      this.scriptUsage := scriptUsage;
      this.db := db;
      caches := [];
      views := [db];
    }

    /** CCoinsViewCache::PeekCoin: a lookup that caches nothing. */
    function PeekCoin(k: nat, o: OutPoint): (r: Option<Coin>)
      requires Valid() && k <= |caches|
      reads this
      ensures r == Lookup(views[k], o)
    {
      if k == 0 then Lookup(db, o)
      else
        LookupAt(scriptUsage, caches, views, k - 1, o);
        if o in caches[k - 1].coins then
          if caches[k - 1].coins[o].coin.IsSpent() then None else Some(caches[k - 1].coins[o].coin)
        else PeekCoin(k - 1, o)
    }

    /** At most the visible coin of `o` was cached at level `i + 1`. */
    ghost predicate Filled(i: nat, c: Cache, o: OutPoint)
      requires i < |caches| && i + 1 < |views|
      reads this
    {
      || caches[i] == c
      || (o !in c.coins && o in views[i + 1] && caches[i] == Cached(scriptUsage, c, o, views[i + 1][o]))
    }

    /** CCoinsViewCache::FetchCoin: fills the cache at level k (and, unless it is an overlay, the ones below). */
    method FetchCoin(k: nat, o: OutPoint) returns (found: bool)
      requires Valid() && 0 < k <= |caches|
      modifies this`caches
      ensures Valid() && |caches| == |old(caches)|
      ensures found <==> o in caches[k - 1].coins
      ensures found <==> o in views[k] || o in old(caches[k - 1].coins)
      ensures forall i :: k <= i < |caches| ==> caches[i] == old(caches[i])
      ensures forall i :: 0 <= i < k ==> Filled(i, old(caches[i]), o)
      ensures forall i :: 0 <= i < k - 1 && old(caches[k - 1]).overlay ==> caches[i] == old(caches[i])
      ensures found && o !in old(caches[k - 1].coins) && k > 1 && !old(caches[k - 1]).overlay ==>
                o in caches[k - 2].coins
      decreases k, 0
    {
      if o in caches[k - 1].coins { return true; }
      var coin;
      if caches[k - 1].overlay {
        coin := PeekCoin(k - 1, o);
      } else {
        coin := GetCoin(k - 1, o);
      }
      if coin.None? {
        LookupAt(scriptUsage, caches, views, k - 1, o);
        return false;
      }
      FetchAt(scriptUsage, caches, views, k - 1, o, coin.value);
      caches := caches[k - 1 := Cached(scriptUsage, caches[k - 1], o, coin.value)];
      return true;
    }

    /** CCoinsViewCache::GetCoin, and the database lookup at level 0. */
    method GetCoin(k: nat, o: OutPoint) returns (r: Option<Coin>)
      requires Valid() && k <= |caches|
      modifies this`caches
      ensures Valid() && |caches| == |old(caches)|
      ensures r == Lookup(views[k], o)
      ensures forall i :: k <= i < |caches| ==> caches[i] == old(caches[i])
      ensures forall i :: 0 <= i < k ==> Filled(i, old(caches[i]), o)
      ensures r.Some? && k > 0 ==> o in caches[k - 1].coins
      decreases k, 1
    {
      if k == 0 { return Lookup(db, o); }
      var found := FetchCoin(k, o);
      LookupAt(scriptUsage, caches, views, k - 1, o);
      if found && !caches[k - 1].coins[o].coin.IsSpent() { return Some(caches[k - 1].coins[o].coin); }
      return None;
    }

    /**
     CCoinsViewCache::AddCoin on the topmost cache.  A caller that rules out an overwrite promises that the
     coin is not visible below an empty slot of this cache; `threw` is the logic_error of a broken promise
     that the cache itself can detect.
     */
    method AddCoin(o: OutPoint, coin: Coin, possibleOverwrite: bool) returns (threw: bool)
      requires Valid() && |caches| > 0 && !coin.IsSpent()
      requires possibleOverwrite || coin.IsUnspendable() || o in caches[|caches| - 1].coins || o !in views[|caches|]
      modifies this`caches, this`views
      ensures Valid() && |caches| == |old(caches)|
      ensures threw <==> !coin.IsUnspendable() && !possibleOverwrite && o in old(views[|caches|])
      ensures views == if threw || coin.IsUnspendable() then old(views)
                       else old(views)[|caches| := old(views[|caches|])[o := coin]]
      ensures threw || coin.IsUnspendable() ==> caches == old(caches)
      ensures !threw && !coin.IsUnspendable() ==>
                var c, c' := old(caches[|caches| - 1]), caches[|caches| - 1];
                var isFresh := if o in c.coins then c.coins[o].isFresh || !(possibleOverwrite || c.coins[o].isDirty)
                               else !possibleOverwrite;
                c'.coins == c.coins[o := Entry(coin, true, isFresh)] && caches == old(caches)[|caches| - 1 := c']
    {
      threw := false;
      if coin.IsUnspendable() { return; }
      var c := caches[|caches| - 1];
      LookupAt(scriptUsage, caches, views, |caches| - 1, o);
      var inserted := o !in c.coins;
      var entry := if inserted then Entry(CLEARED, false, false) else c.coins[o];
      var isFresh := false;
      if !possibleOverwrite {
        if !entry.coin.IsSpent() { return true; }
        isFresh := !entry.isDirty;
      }
      if !inserted {
        NoUnderflow(scriptUsage, caches, views, |caches| - 1, o);
        c := c.(dirtyCount := c.dirtyCount - if entry.isDirty then 1 else 0,
                usage := c.usage - scriptUsage(entry.coin.script));
      }
      c := c.(flagged := Flagged(c.flagged, o, entry.isDirty || entry.isFresh));
      entry := Entry(coin, true, entry.isFresh || isFresh);
      c := c.(coins := c.coins[o := entry], dirtyCount := c.dirtyCount + 1,
              usage := c.usage + scriptUsage(coin.script));
      PutTop(scriptUsage, caches, views, o, entry, c);
      views := views[|caches| := views[|caches|][o := coin]];
      caches := caches[|caches| - 1 := c];
    }

    /**
     AddCoins for one transaction.  With `check` set it asks the view itself whether an output is overwritten,
     and then no promise is needed from the caller.
     */
    method AddCoins(txid: nat, outs: seq<TxOut>, height: nat, isCoinbase: bool, check: bool)
      requires Valid() && |caches| > 0 && Addable(views[|caches|], txid, outs, isCoinbase || check)
      modifies this`caches, this`views
      ensures Valid() && |caches| == |old(caches)| && views == old(views)[|caches| := views[|caches|]]
      ensures OutputsAdded(old(views[|caches|]), views[|caches|], txid, outs, height, isCoinbase, |outs|)
    {
      ghost var view := views[|caches|];
      for i := 0 to |outs|
        invariant Valid() && |caches| == |old(caches)| && views == old(views)[|caches| := views[|caches|]]
        invariant OutputsAdded(view, views[|caches|], txid, outs, height, isCoinbase, i)
      {
        assert Lookup(views[|caches|], OutPoint(txid, i)) == Lookup(view, OutPoint(txid, i));
        var overwrite := isCoinbase;
        if check {
          var coin := GetCoin(|caches|, OutPoint(txid, i));
          overwrite := coin.Some?;
        }
        var threw := AddCoin(OutPoint(txid, i), CoinOf(outs[i], height, isCoinbase), overwrite);
        assert !threw;
      }
    }

    /**
     CCoinsViewCache::SpendCoin on the topmost cache.  `moved` is what the caller's `moveout` receives; the
     boolean is also true for an entry that was already spent in this cache.
     */
    method SpendCoin(o: OutPoint) returns (found: bool, moved: Coin)
      requires Valid() && |caches| > 0
      modifies this`caches, this`views
      ensures Valid() && |caches| == |old(caches)|
      ensures views == old(views)[|caches| := old(views[|caches|]) - {o}]
      ensures found <==> o in old(views[|caches|]) || o in old(caches[|caches| - 1].coins)
      ensures moved == if o in old(views[|caches|]) then old(views[|caches|])[o] else CLEARED
    {
      found := FetchCoin(|caches|, o);
      if found {
        moved := ClearEntry(o);
      } else {
        moved := CLEARED;
        assert views[|caches|] - {o} == views[|caches|];
      }
    }

    /** The part of SpendCoin that follows a successful FetchCoin. */
    method ClearEntry(o: OutPoint) returns (moved: Coin)
      requires Valid() && |caches| > 0 && o in caches[|caches| - 1].coins
      modifies this`caches, this`views
      ensures Valid() && |caches| == |old(caches)|
      ensures views == old(views)[|caches| := old(views[|caches|]) - {o}]
      ensures moved == if o in old(views[|caches|]) then old(views[|caches|])[o] else CLEARED
      ensures var c, c' := old(caches[|caches| - 1]), caches[|caches| - 1];
              && caches == old(caches)[|caches| - 1 := c']
              && c'.coins == if c.coins[o].isFresh then c.coins - {o} else c.coins[o := Entry(CLEARED, true, false)]
    {
      LookupAt(scriptUsage, caches, views, |caches| - 1, o);
      NoUnderflow(scriptUsage, caches, views, |caches| - 1, o);
      var c := caches[|caches| - 1];
      var entry := c.coins[o];
      moved := entry.coin;
      c := c.(dirtyCount := c.dirtyCount - if entry.isDirty then 1 else 0,
              usage := c.usage - scriptUsage(entry.coin.script));
      if entry.isFresh {
        c := c.(coins := c.coins - {o}, flagged := Without(c.flagged, o));
        EraseFreshTop(scriptUsage, caches, views, o, c);
      } else {
        c := c.(coins := c.coins[o := Entry(CLEARED, true, false)], flagged := Flagged(c.flagged, o, entry.isDirty),
                dirtyCount := c.dirtyCount + 1);
        PutTop(scriptUsage, caches, views, o, Entry(CLEARED, true, false), c);
      }
      views := views[|caches| := views[|caches|] - {o}];
      caches := caches[|caches| - 1 := c];
    }

    /** CCoinsViewCache::Uncache: only an unmodified entry is dropped, so no view changes. */
    method Uncache(k: nat, o: OutPoint)
      requires Valid() && 0 < k <= |caches|
      modifies this`caches
      ensures Valid() && |caches| == |old(caches)|
      ensures forall i :: 0 <= i < |caches| && i != k - 1 ==> caches[i] == old(caches[i])
      ensures o in caches[k - 1].coins ==> caches[k - 1].coins[o].isDirty
      ensures var c := old(caches[k - 1]);
              caches[k - 1].coins == if o in c.coins && !c.coins[o].isDirty then c.coins - {o} else c.coins
    {
      var c := caches[k - 1];
      if o in c.coins && !c.coins[o].isDirty {
        NoUnderflow(scriptUsage, caches, views, k - 1, o);
        c := c.(coins := c.coins - {o}, usage := c.usage - scriptUsage(c.coins[o].coin.script));
        EraseCleanAt(scriptUsage, caches, views, k - 1, o, c);
        caches := caches[k - 1 := c];
      }
    }

    /** `base->BatchWrite(cursor, ...)` for the cache at level k, followed by storing the child the cursor left. */
    method WriteThrough(k: nat, willErase: bool) returns (child: Cache)
      requires Valid() && 0 < k <= |caches|
      modifies this`db, this`caches, this`views
      ensures Valid() && |caches| == |old(caches)|
      ensures views == old(views)[k - 1 := old(views[k])]
      ensures CursorAt(scriptUsage, old(caches[k - 1]), willErase, |old(caches[k - 1]).flagged|, child)
      ensures caches[k - 1] == if willErase then EMPTY.(overlay := child.overlay) else child
      ensures forall i :: k <= i < |caches| ==> caches[i] == old(caches[i])
    {
      assert Linked(scriptUsage, caches[k - 1], views[k - 1], views[k]);
      if k == 1 {
        var db';
        child, db' := BatchWriteDb(scriptUsage, caches[0], willErase, db);
        var stored := Settle(k, willErase, child);
        WrittenToDb(scriptUsage, caches, views, stored);
        db, caches, views := db', caches[0 := stored], views[0 := views[1]];
      } else {
        assert Linked(scriptUsage, caches[k - 2], views[k - 2], views[k - 1]);
        var parent;
        child, parent := BatchWriteCache(scriptUsage, caches[k - 1], views[k - 1], willErase, caches[k - 2],
                                         views[k - 2]);
        var stored := Settle(k, willErase, child);
        WrittenThrough(scriptUsage, caches, views, k, stored, parent);
        caches, views := caches[k - 2 := parent][k - 1 := stored], views[k - 1 := views[k]];
      }
    }

    /** What is left of the child once BatchWrite returned: nothing after Flush, clean copies after Sync. */
    method Settle(k: nat, willErase: bool, child: Cache) returns (stored: Cache)
      requires Valid() && 0 < k <= |caches|
      requires CursorAt(scriptUsage, caches[k - 1], willErase, |caches[k - 1].flagged|, child)
      ensures Linked(scriptUsage, stored, views[k], views[k])
      ensures child.dirtyCount == 0 && (!willErase ==> child.flagged == [])
      ensures stored == if willErase then EMPTY.(overlay := child.overlay) else child
    {
      if willErase {
        stored := EMPTY.(overlay := child.overlay);
        EmptyLevel(scriptUsage, views[k], child.overlay);
      } else {
        stored := child;
        SyncedAt(scriptUsage, caches, views, k, child);
      }
    }

    /** CCoinsViewCache::Flush. */
    method Flush(k: nat)
      requires Valid() && 0 < k <= |caches|
      modifies this`db, this`caches, this`views
      ensures Valid() && |caches| == |old(caches)|
      ensures views == old(views)[k - 1 := old(views[k])]
      ensures caches[k - 1] == EMPTY.(overlay := old(caches[k - 1]).overlay)
    {
      var _ := WriteThrough(k, true);
    }

    /** CCoinsViewCache::Sync; the check that every flag was cleared cannot fail. */
    method Sync(k: nat)
      requires Valid() && 0 < k <= |caches|
      modifies this`db, this`caches, this`views
      ensures Valid() && |caches| == |old(caches)|
      ensures views == old(views)[k - 1 := old(views[k])]
      ensures caches[k - 1].flagged == [] && caches[k - 1].dirtyCount == 0
      ensures caches[k - 1].coins.Keys == Unspent(old(caches[k - 1]).coins)
    {
      ghost var c0 := caches[k - 1];
      assert Linked(scriptUsage, c0, views[k - 1], views[k]);
      var child := WriteThrough(k, false);
      assert c0.flagged[..|c0.flagged|] == c0.flagged;
      forall o ensures o in child.coins <==> o in c0.coins && !c0.coins[o].coin.IsSpent() {
        if o in c0.coins { assert PassedEntry(c0.coins[o], o in c0.flagged[..|c0.flagged|], child, o); }
      }
    }

    /** CCoinsViewCache::Reset on the topmost cache: all its modifications are forgotten. */
    method Reset()
      requires Valid() && |caches| > 0
      modifies this`caches, this`views
      ensures Valid() && |caches| == |old(caches)|
      ensures views == old(views)[|caches| := old(views)[|caches| - 1]]
      ensures caches == old(caches)[|caches| - 1 := EMPTY.(overlay := old(caches[|caches| - 1]).overlay)]
    {
      var c := EMPTY.(overlay := caches[|caches| - 1].overlay);
      EmptyLevel(scriptUsage, views[|caches| - 1], c.overlay);
      ReplaceTop(scriptUsage, caches, views, c);
      views := views[|caches| := views[|caches| - 1]];
      caches := caches[|caches| - 1 := c];
    }

    /** A new cache (or overlay) constructed over the current top. */
    method Push(overlay: bool)
      requires Valid()
      modifies this`caches, this`views
      ensures Valid() && |caches| == |old(caches)| + 1
      ensures views == old(views) + [old(views)[|old(caches)|]]
      ensures caches == old(caches) + [EMPTY.(overlay := overlay)]
    {
      EmptyLevel(scriptUsage, views[|caches|], overlay);
      views := views + [views[|caches|]];
      caches := caches + [EMPTY.(overlay := overlay)];
    }

    /** Dropping the topmost cache without flushing it. */
    method Pop()
      requires Valid() && |caches| > 0
      modifies this`caches, this`views
      ensures Valid() && |caches| == |old(caches)| - 1
      ensures views == old(views)[..|old(caches)|] && caches == old(caches)[..|old(caches)| - 1]
    {
      views := views[..|caches|];
      caches := caches[..|caches| - 1];
    }

    method Execute(op: Op)
      requires Valid() && Legal(op, views)
      modifies this`db, this`caches, this`views
      ensures Valid() && views == Apply(op, old(views))
    {
      match op
      case Add(o, coin, ow) => var _ := AddCoin(o, coin, ow);
      case AddTx(txid, outs, height, isCoinbase, check) =>
        AddCoins(txid, outs, height, isCoinbase, check);
        AllAdded(old(views[|caches|]), views[|caches|], txid, outs, height, isCoinbase);
      case Spend(o) => var _, _ := SpendCoin(o);
      case Get(k, o) => var _ := GetCoin(k, o);
      case Uncache(k, o) => Uncache(k, o);
      case Flush(k) => Flush(k);
      case Sync(k) => Sync(k);
      case Reset => Reset();
      case Push(overlay) => Push(overlay);
      case Pop => Pop();
    }

    /** Any run of legal operations: every level shows the plain map with the same operations replayed on it. */
    method Run(ops: seq<Op>)
      requires Valid() && LegalRun(ops, views)
      modifies this`db, this`caches, this`views
      ensures Valid() && views == Replay(ops, old(views))
    {
      var i := 0;
      while i < |ops|
        invariant 0 <= i <= |ops| && Valid()
        invariant LegalRun(ops[i..], views)
        invariant Replay(ops[i..], views) == Replay(ops, old(views))
      {
        assert ops[i..][1..] == ops[i + 1..];
        Execute(ops[i]);
        i := i + 1;
      }
    }
  }
}
