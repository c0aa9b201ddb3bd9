module Coins {

  /**
   The UTXO cache stack: a database with any number of `CCoinsViewCache` levels on top of it.

   Each level keeps a partial map of entries that are flagged DIRTY and/or FRESH.  What a caller may
   rely on is much simpler: every level behaves as a plain map from outpoints to unspent coins.
   `CoinsStack.views` is that plain map, one per level, and `Valid()` ties it to the cached entries.
   */

  import opened Common

  datatype OutPoint = OutPoint(txid: nat, n: nat)

  type Script = seq<nat>

  /** A UTXO entry.  The value -1 marks a null output, that is, a spent coin. */
  datatype Coin = Coin(value: int, script: Script, height: nat, coinbase: bool) {
    predicate IsSpent() { value == -1 }

    predicate IsUnspendable() {
      (|script| > 0 && script[0] == OP_RETURN) || |script| > MAX_SCRIPT_SIZE
    }
  }

  /** An output of a transaction. */
  datatype TxOut = TxOut(value: int, script: Script)

  const OP_RETURN: nat := 0x6a
  const MAX_SCRIPT_SIZE: nat := 10000

  /** What `Coin::Clear` leaves behind. */
  const CLEARED := Coin(-1, [], 0, false)

  datatype Entry = Entry(coin: Coin, isDirty: bool, isFresh: bool)

  /** One cache level.  `flagged` is the linked list of flagged entries, oldest first. */
  datatype Cache = Cache(
    coins: map<OutPoint, Entry>, flagged: seq<OutPoint>, dirtyCount: nat, usage: nat, overlay: bool)

  type CoinMap = map<OutPoint, Coin>

  // ----- memory usage of a level

  /** The total recomputed by SanityCheck. */
  ghost function Usage(u: Script -> nat, coins: map<OutPoint, Entry>): nat
    decreases |coins|
  {
    if coins == map[] then 0 else
      var o :| o in coins;
      assert |coins - {o}| < |coins| by { Shrinks(coins, o); }
      u(coins[o].coin.script) + Usage(u, coins - {o})
  }

  lemma Shrinks<X, Y>(m: map<X, Y>, x: X)
    requires x in m
    ensures |m - {x}| == |m| - 1
  {
    assert (m - {x}).Keys == m.Keys - {x};
  }

  /** The choice made inside `Usage` does not matter. */
  lemma {:induction false} UsageRemove(u: Script -> nat, coins: map<OutPoint, Entry>, o: OutPoint)
    requires o in coins
    ensures Usage(u, coins) == u(coins[o].coin.script) + Usage(u, coins - {o})
    decreases |coins|
  {
    var p :| p in coins && Usage(u, coins) == u(coins[p].coin.script) + Usage(u, coins - {p});
    if p != o {
      Shrinks(coins, p);
      Shrinks(coins, o);
      UsageRemove(u, coins - {p}, o);
      UsageRemove(u, coins - {o}, p);
      assert coins - {p} - {o} == coins - {o} - {p};
    }
  }

  lemma UsageUpdate(u: Script -> nat, coins: map<OutPoint, Entry>, o: OutPoint, e: Entry)
    ensures Usage(u, coins[o := e]) == u(e.coin.script) + Usage(u, coins - {o})
  {
    UsageRemove(u, coins[o := e], o);
    assert coins[o := e] - {o} == coins - {o};
  }

  // ----- the map a level shows, given the map `below` shown by the level under it

  ghost predicate Visible(c: Cache, below: CoinMap, o: OutPoint) {
    if o in c.coins then !c.coins[o].coin.IsSpent() else o in below
  }

  ghost function View(c: Cache, below: CoinMap): (v: CoinMap)
    ensures forall o :: o in v <==> Visible(c, below, o)
    ensures forall o :: o in v ==> if o in c.coins then v[o] == c.coins[o].coin else o in below && v[o] == below[o]
  {
    map o | o in c.coins.Keys + below.Keys && Visible(c, below, o) ::
      if o in c.coins then c.coins[o].coin else below[o]
  }

  /** `below` with the child's entries for `keys` written over it. */
  ghost function Overlaid(child: map<OutPoint, Entry>, keys: set<OutPoint>, below: CoinMap): (v: CoinMap)
    requires keys <= child.Keys
    ensures forall o :: o in v <==> if o in keys then !child[o].coin.IsSpent() else o in below
    ensures forall o :: o in v ==> if o in keys then v[o] == child[o].coin else o in below && v[o] == below[o]
  {
    map o | o in keys + below.Keys && (if o in keys then !child[o].coin.IsSpent() else o in below) ::
      if o in keys then child[o].coin else below[o]
  }

  // ----- what SanityCheck asserts, plus the meaning of the flags

  ghost predicate EntryOk(e: Entry, below: CoinMap, o: OutPoint) {
    && (e.coin.IsSpent() ==> e.isDirty && !e.isFresh && e.coin == CLEARED)
    && (e.isFresh ==> e.isDirty && o !in below)
    && (!e.isDirty ==> o in below && below[o] == e.coin)
  }

  ghost predicate ListOk(c: Cache) {
    && Distinct(c.flagged)
    && (forall o :: o in c.flagged <==> o in c.coins && c.coins[o].isDirty)
    && c.dirtyCount == |c.flagged|
  }

  ghost predicate LevelOk(u: Script -> nat, c: Cache, below: CoinMap) {
    && (forall o :: o in c.coins ==> EntryOk(c.coins[o], below, o))
    && ListOk(c)
    && c.usage == Usage(u, c.coins)
  }

  ghost predicate Linked(u: Script -> nat, c: Cache, below: CoinMap, above: CoinMap) {
    LevelOk(u, c, below) && above == View(c, below)
  }

  ghost predicate AllUnspent(m: CoinMap) {
    forall o :: o in m ==> !m[o].IsSpent()
  }

  // ----- the flagged list

  /** `SetClean` takes one entry out of the linked list. */
  function Without(s: seq<OutPoint>, o: OutPoint): (r: seq<OutPoint>)
    ensures forall p :: p in r <==> p in s && p != o
    ensures Distinct(s) ==> Distinct(r) && |r| == |s| - if o in s then 1 else 0
  {
    if s == [] then [] else
      assert s == [s[0]] + s[1..];
      assert Distinct(s) ==> Distinct(s[1..]) && s[0] !in s[1..];
      var rest := Without(s[1..], o);
      if s[0] == o then rest else
        assert Distinct(s) ==> s[0] !in rest && Distinct([s[0]] + rest);
        [s[0]] + rest
  }

  /** `AddFlags` links an entry in only when it carries no flag yet. */
  function Flagged(s: seq<OutPoint>, o: OutPoint, alreadyFlagged: bool): seq<OutPoint> {
    if alreadyFlagged then s else s + [o]
  }

  // ----- replacing and removing one entry

  ghost predicate WasDirty(c: Cache, o: OutPoint) { o in c.coins && c.coins[o].isDirty }

  ghost function OldUsage(u: Script -> nat, c: Cache, o: OutPoint): nat {
    if o in c.coins then u(c.coins[o].coin.script) else 0
  }

  lemma OldUsageFits(u: Script -> nat, c: Cache, o: OutPoint)
    requires c.usage == Usage(u, c.coins)
    ensures Usage(u, c.coins - {o}) == c.usage - OldUsage(u, c, o)
  {
    if o in c.coins {
      UsageRemove(u, c.coins, o);
    } else {
      assert c.coins - {o} == c.coins;
    }
  }

  lemma PutView(c: Cache, below: CoinMap, o: OutPoint, e: Entry, c': Cache)
    requires c'.coins == c.coins[o := e]
    ensures View(c', below) == if e.coin.IsSpent() then View(c, below) - {o} else View(c, below)[o := e.coin]
  {
    var v, w := View(c, below), View(c', below);
    forall p | p != o ensures Visible(c', below, p) == Visible(c, below, p) {}
    if e.coin.IsSpent() {
      assert w.Keys == v.Keys - {o};
    } else {
      assert w.Keys == v.Keys + {o};
    }
  }

  lemma PutList(c: Cache, o: OutPoint, e: Entry, c': Cache)
    requires ListOk(c) && e.isDirty
    requires c'.coins == c.coins[o := e]
    requires c'.flagged == Flagged(c.flagged, o, WasDirty(c, o))
    requires c'.dirtyCount == c.dirtyCount + if WasDirty(c, o) then 0 else 1
    ensures ListOk(c')
  {
    forall p ensures p in c'.flagged <==> p in c'.coins && c'.coins[p].isDirty {
      assert p in c.flagged <==> p in c.coins && c.coins[p].isDirty;
    }
  }

  /** Storing a dirty entry keeps the level consistent and changes the level's view at one outpoint only. */
  lemma PutDirty(u: Script -> nat, c: Cache, below: CoinMap, o: OutPoint, e: Entry, c': Cache)
    requires LevelOk(u, c, below)
    requires e.isDirty && EntryOk(e, below, o)
    requires c'.coins == c.coins[o := e]
    requires c'.flagged == Flagged(c.flagged, o, WasDirty(c, o))
    requires c'.dirtyCount == c.dirtyCount + if WasDirty(c, o) then 0 else 1
    requires c'.usage == c.usage - OldUsage(u, c, o) + u(e.coin.script)
    ensures LevelOk(u, c', below)
    ensures View(c', below) == if e.coin.IsSpent() then View(c, below) - {o} else View(c, below)[o := e.coin]
  {
    PutView(c, below, o, e, c');
    PutList(c, o, e, c');
    assert c'.usage == Usage(u, c'.coins) by {
      UsageUpdate(u, c.coins, o, e);
      OldUsageFits(u, c, o);
    }
  }

  lemma EraseView(c: Cache, below: CoinMap, o: OutPoint, c': Cache)
    requires c'.coins == c.coins - {o}
    ensures View(c', below) == if o in below then View(c, below)[o := below[o]] else View(c, below) - {o}
  {
    var v, w := View(c, below), View(c', below);
    forall p | p != o ensures Visible(c', below, p) == Visible(c, below, p) {}
    if o in below {
      assert w.Keys == v.Keys + {o};
    } else {
      assert w.Keys == v.Keys - {o};
    }
  }

  /** Erasing an entry restores whatever the level below shows for that outpoint. */
  lemma EraseEntry(u: Script -> nat, c: Cache, below: CoinMap, o: OutPoint, c': Cache)
    requires LevelOk(u, c, below)
    requires c'.coins == c.coins - {o}
    requires c'.flagged == Without(c.flagged, o)
    requires c'.dirtyCount == c.dirtyCount - if WasDirty(c, o) then 1 else 0
    requires c'.usage == c.usage - OldUsage(u, c, o)
    ensures LevelOk(u, c', below)
    ensures View(c', below) == if o in below then View(c, below)[o := below[o]] else View(c, below) - {o}
  {
    EraseView(c, below, o, c');
    assert ListOk(c');
    assert c'.usage == Usage(u, c'.coins) by { OldUsageFits(u, c, o); }
  }

  lemma FetchView(c: Cache, below: CoinMap, o: OutPoint, c': Cache)
    requires o !in c.coins && o in below && !below[o].IsSpent()
    requires c'.coins == c.coins[o := Entry(below[o], false, false)]
    ensures View(c', below) == View(c, below)
  {
    PutView(c, below, o, Entry(below[o], false, false), c');
    assert Visible(c, below, o);
  }

  /** A lookup that misses caches the parent's coin; nobody can see the difference. */
  lemma FetchIsInvisible(u: Script -> nat, c: Cache, below: CoinMap, o: OutPoint, c': Cache)
    requires LevelOk(u, c, below) && AllUnspent(below)
    requires o !in c.coins && o in below
    requires c' == c.(coins := c.coins[o := Entry(below[o], false, false)], usage := c.usage + u(below[o].script))
    ensures LevelOk(u, c', below) && View(c', below) == View(c, below)
  {
    FetchView(c, below, o, c');
    assert ListOk(c');
    assert c'.usage == Usage(u, c'.coins) by {
      UsageUpdate(u, c.coins, o, Entry(below[o], false, false));
      assert c.coins - {o} == c.coins;
    }
  }

  lemma ViewUnspent(c: Cache, below: CoinMap)
    requires AllUnspent(below)
    ensures AllUnspent(View(c, below))
  {
  }

  // ----- BatchWrite: one dirty child entry arrives at a cache level

  /** Writing one coin into a plain map: spent coins disappear. */
  function Written(m: CoinMap, o: OutPoint, coin: Coin): CoinMap {
    if coin.IsSpent() then m - {o} else m[o := coin]
  }

  /**
   The loop body of CCoinsViewCache::BatchWrite.  The "FRESH flag misapplied" error is a dead branch
   because a FRESH child entry is never visible here.
   */
  method MergeEntry(u: Script -> nat, us: Cache, ghost below: CoinMap, o: OutPoint, e: Entry) returns (us': Cache)
    requires LevelOk(u, us, below) && u([]) == 0
    requires e.isDirty && EntryOk(e, View(us, below), o)
    ensures LevelOk(u, us', below)
    ensures View(us', below) == Written(View(us, below), o, e.coin)
    ensures us'.overlay == us.overlay
    ensures var isFresh := if o in us.coins then us.coins[o].isFresh else e.isFresh;
            us'.coins == if o in us.coins && us.coins[o].isFresh && e.coin.IsSpent() then us.coins - {o}
                         else us.coins[o := Entry(e.coin, true, isFresh)]
  {
    us' := us;
    if o !in us.coins {
      if e.isFresh && e.coin.IsSpent() {
        assert false;
      } else {
        var flagged := Flagged(us.flagged, o, false);
        us' := us.(coins := us.coins[o := Entry(e.coin, true, e.isFresh)], flagged := flagged,
                   dirtyCount := us.dirtyCount + 1, usage := us.usage + u(e.coin.script));
        assert e.isFresh ==> o !in below by { assert Visible(us, below, o) <==> o in below; }
        PutDirty(u, us, below, o, Entry(e.coin, true, e.isFresh), us');
      }
    } else {
      var entry := us.coins[o];
      assert EntryOk(entry, below, o);
      assert !entry.coin.IsSpent() ==> o in View(us, below) by {
        assert Visible(us, below, o) <==> !entry.coin.IsSpent();
      }
      if e.isFresh && !entry.coin.IsSpent() {
        assert false;
      } else if entry.isFresh && e.coin.IsSpent() {
        OldUsageFits(u, us, o);
        assert o in us.flagged;
        us' := us.(coins := us.coins - {o}, flagged := Without(us.flagged, o),
                   dirtyCount := us.dirtyCount - 1, usage := us.usage - u(entry.coin.script));
        EraseEntry(u, us, below, o, us');
      } else {
        OldUsageFits(u, us, o);
        var usage := us.usage - u(entry.coin.script) + u(e.coin.script);
        var flagged := Flagged(us.flagged, o, entry.isDirty);
        var dirtyCount := if entry.isDirty then us.dirtyCount else us.dirtyCount + 1;
        us' := us.(coins := us.coins[o := Entry(e.coin, true, entry.isFresh)], flagged := flagged,
                   dirtyCount := dirtyCount, usage := usage);
        PutDirty(u, us, below, o, Entry(e.coin, true, entry.isFresh), us');
      }
    }
  }

  // ----- the cursor over the child's flagged entries

  /** The child after the cursor has left its first `n` flagged entries. */
  ghost predicate Passed(u: Script -> nat, c0: Cache, n: nat, c: Cache)
    requires n <= |c0.flagged|
  {
    && c.flagged == c0.flagged[n..]
    && c.dirtyCount == |c0.flagged| - n
    && c.usage == c0.usage == Usage(u, c.coins)
    && c.overlay == c0.overlay
    && (forall o :: o in c.coins ==> o in c0.coins)
    && (forall o :: o in c0.coins ==> PassedEntry(c0.coins[o], o in c0.flagged[..n], c, o))
  }

  /** Behind the cursor, spent entries are gone and the others are clean; ahead of it nothing changed. */
  ghost predicate PassedEntry(e: Entry, passed: bool, c: Cache, o: OutPoint) {
    if passed && e.coin.IsSpent() then o !in c.coins
    else o in c.coins && c.coins[o] == if passed then Entry(e.coin, false, false) else e
  }

  /** The entry the cursor leaves, as NextAndMaybeErase stores it when it does not erase. */
  ghost predicate Left(coins: map<OutPoint, Entry>, o: OutPoint, coins': map<OutPoint, Entry>)
    requires o in coins
  {
    coins' == if coins[o].coin.IsSpent() then coins - {o} else coins[o := Entry(coins[o].coin, false, false)]
  }

  lemma PassedStep(c0: Cache, n: nat, c: Cache, o: OutPoint, c': Cache)
    requires ListOk(c0) && n < |c0.flagged| && o == c0.flagged[n]
    requires forall p :: p in c0.coins ==> PassedEntry(c0.coins[p], p in c0.flagged[..n], c, p)
    requires o in c.coins && c.coins[o] == c0.coins[o] && Left(c.coins, o, c'.coins)
    ensures forall p :: p in c0.coins ==> PassedEntry(c0.coins[p], p in c0.flagged[..n + 1], c', p)
  {
    assert c0.flagged[..n + 1] == c0.flagged[..n] + [o];
    forall p | p in c0.coins ensures PassedEntry(c0.coins[p], p in c0.flagged[..n + 1], c', p) {
      assert PassedEntry(c0.coins[p], p in c0.flagged[..n], c, p);
    }
  }

  lemma LeftUsage(u: Script -> nat, coins: map<OutPoint, Entry>, o: OutPoint, coins': map<OutPoint, Entry>)
    requires o in coins && Left(coins, o, coins')
    requires coins[o].coin.IsSpent() ==> u(coins[o].coin.script) == 0
    ensures Usage(u, coins') == Usage(u, coins)
  {
    UsageRemove(u, coins, o);
    UsageUpdate(u, coins, o, Entry(coins[o].coin, false, false));
  }

  /** CoinsViewCacheCursor::NextAndMaybeErase for a cursor that does not erase. */
  method NextAndMaybeErase(u: Script -> nat, ghost c0: Cache, ghost n: nat, ghost below: CoinMap, c: Cache, o: OutPoint)
    returns (c': Cache)
    requires LevelOk(u, c0, below) && u([]) == 0
    requires n < |c0.flagged| && o == c0.flagged[n]
    requires Passed(u, c0, n, c)
    ensures Passed(u, c0, n + 1, c')
  {
    assert && o in c.coins && c.coins[o] == c0.coins[o]
           && (c.coins[o].coin.IsSpent() ==> c.coins[o].coin.script == []) by {
      assert o in c0.flagged && EntryOk(c0.coins[o], below, o);
      assert PassedEntry(c0.coins[o], o in c0.flagged[..n], c, o);
    }
    assert Without(c.flagged, o) == c0.flagged[n + 1..] by { WithoutFirst(c0.flagged[n..], o); }
    if c.coins[o].coin.IsSpent() {
      c' := c.(coins := c.coins - {o}, flagged := Without(c.flagged, o), dirtyCount := c.dirtyCount - 1);
    } else {
      var clean := Entry(c.coins[o].coin, false, false);
      c' := c.(coins := c.coins[o := clean], flagged := Without(c.flagged, o), dirtyCount := c.dirtyCount - 1);
    }
    assert Left(c.coins, o, c'.coins);
    PassedStep(c0, n, c, o, c');
    LeftUsage(u, c.coins, o, c'.coins);
  }

  lemma WithoutFirst(s: seq<OutPoint>, o: OutPoint)
    requires Distinct(s) && s != [] && s[0] == o
    ensures Without(s, o) == s[1..]
  {
    WithoutAbsent(s[1..], o);
  }

  lemma {:induction false} WithoutAbsent(s: seq<OutPoint>, o: OutPoint)
    requires o !in s
    ensures Without(s, o) == s
  {
    if s != [] {
      assert s == [s[0]] + s[1..];
      WithoutAbsent(s[1..], o);
    }
  }

  ghost function Keys(s: seq<OutPoint>): set<OutPoint> { set o | o in s }

  /** Writing the dirty entries one by one is the same as laying the whole level over its parent. */
  lemma OverlaidIsView(u: Script -> nat, c: Cache, below: CoinMap)
    requires LevelOk(u, c, below)
    ensures Keys(c.flagged) <= c.coins.Keys
    ensures Overlaid(c.coins, Keys(c.flagged), below) == View(c, below)
  {
    var v, w := Overlaid(c.coins, Keys(c.flagged), below), View(c, below);
    forall o ensures o in v <==> o in w {
      if o in c.coins { assert EntryOk(c.coins[o], below, o); }
    }
    forall o | o in v ensures v[o] == w[o] {
      if o in c.coins { assert EntryOk(c.coins[o], below, o); }
    }
  }

  lemma OverlaidStep(u: Script -> nat, c: Cache, below: CoinMap, n: nat)
    requires LevelOk(u, c, below) && n < |c.flagged|
    ensures Keys(c.flagged[..n]) <= c.coins.Keys && Keys(c.flagged[..n + 1]) <= c.coins.Keys
    ensures c.flagged[n] !in Keys(c.flagged[..n])
    ensures Overlaid(c.coins, Keys(c.flagged[..n + 1]), below)
         == Written(Overlaid(c.coins, Keys(c.flagged[..n]), below), c.flagged[n], c.coins[c.flagged[n]].coin)
  {
    var o := c.flagged[n];
    assert c.flagged[..n + 1] == c.flagged[..n] + [o];
    assert Keys(c.flagged[..n + 1]) == Keys(c.flagged[..n]) + {o};
    assert Keys(c.flagged[..n]) <= c.coins.Keys by {
      forall p | p in c.flagged[..n] ensures p in c.coins { assert p in c.flagged; }
    }
    assert o in c.flagged;
    OverlaidOne(c.coins, Keys(c.flagged[..n]), below, o);
  }

  lemma OverlaidOne(child: map<OutPoint, Entry>, keys: set<OutPoint>, below: CoinMap, o: OutPoint)
    requires keys <= child.Keys && o in child
    ensures Overlaid(child, keys + {o}, below) == Written(Overlaid(child, keys, below), o, child[o].coin)
  {
    var v, w := Overlaid(child, keys, below), Overlaid(child, keys + {o}, below);
    if child[o].coin.IsSpent() {
      assert w.Keys == v.Keys - {o};
    } else {
      assert w.Keys == v.Keys + {o};
    }
  }

  lemma ViewOfCleanCopies(c: Cache, below: CoinMap)
    requires AllUnspent(below)
    requires forall o :: o in c.coins ==> o in below && below[o] == c.coins[o].coin
    ensures View(c, below) == below
  {
    assert View(c, below).Keys == below.Keys by {
      forall o ensures o in View(c, below) <==> o in below { assert Visible(c, below, o) <==> o in below; }
    }
  }

  /** Once the cursor is through, the child holds only clean copies of what its parent now shows. */
  lemma SyncedLevel(u: Script -> nat, c0: Cache, below: CoinMap, c: Cache)
    requires LevelOk(u, c0, below) && AllUnspent(below)
    requires Passed(u, c0, |c0.flagged|, c)
    ensures Linked(u, c, View(c0, below), View(c0, below))
    ensures forall o :: o in c.coins ==> !c.coins[o].isDirty
  {
    var v := View(c0, below);
    assert c0.flagged[..|c0.flagged|] == c0.flagged;
    forall o | o in c.coins
      ensures c.coins[o] == Entry(c0.coins[o].coin, false, false) && o in v && v[o] == c.coins[o].coin
    {
      assert EntryOk(c0.coins[o], below, o);
      assert PassedEntry(c0.coins[o], o in c0.flagged[..|c0.flagged|], c, o);
      assert Visible(c0, below, o);
    }
    ViewOfCleanCopies(c, v);
  }
}
