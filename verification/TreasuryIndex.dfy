module TreasuryIndex {

  /** The treasury index as it runs: state, node calls, resets and the status it reports. */

  import opened Common
  import opened Treasury

  /**
   What the node and the clock do during one status request.  `hashAt(n, h)` is the answer to the n-th call when it asks
   for the hash at height h, or None if the call fails; `readable(n)` tells whether the n-th call can read a block;
   `late(n)` tells whether the deadline has passed after the n-th block.
   */
  datatype Node = Node(hashAt: (nat, int) -> Option<Hash>, readable: nat -> bool, late: nat -> bool)

  datatype Answer =
    | Failure
    | NoStatus
    | Status(accruedRewards: nat, currentBalance: nat, unlockedBalance: nat, immatureBalance: int, totalSpent: nat)

  function Min(a: int, b: int): int { if a < b then a else b }

  /** Coinbase outputs count as unlocked from their 100th block on. */
  function Unlocked(height: int)
    : Coin -> nat { (c: Coin) => if !c.coinbase || height - c.at + 1 >= 100 then c.value else 0 }

  /** The coins that can be spent: a coinbase output from height `at + 99` on, any other output at once. */
  ghost function Mature(height: int, m: map<Key, Coin>): map<Key, Coin> {
    map k | k in m && (m[k].coinbase ==> height >= m[k].at + 99) :: m[k]
  }

  /** The unlocked balance is the balance of exactly these coins. */
  lemma {:induction false} UnlockedIsMature(height: int, m: map<Key, Coin>)
    ensures Sum(Unlocked(height), m) == Balance(Mature(height, m))
    decreases |m|
  {
    if m == map[] {
      assert Mature(height, m) == map[];
    } else {
      KeysExist(m);
      var k: Key :| k in m.Keys;
      SumRemove(Unlocked(height), m, k);
      Shrinks(m, k);
      UnlockedIsMature(height, m - {k});
      MatureNext(height, m, k);
    }
  }

  lemma MatureNext(height: int, m: map<Key, Coin>, k: Key)
    requires k in m
    ensures Balance(Mature(height, m)) == Balance(Mature(height, m - {k})) + Unlocked(height)(m[k])
  {
    var all, rest := Mature(height, m), Mature(height, m - {k});
    if m[k].coinbase && height < m[k].at + 99 {
      assert all == rest;
    } else {
      SumAdd(Value(), rest, k, m[k]);
      assert all == rest[k := m[k]];
    }
  }

  lemma {:induction false} UnlockedAtMost(height: int, m: map<Key, Coin>)
    ensures Sum(Unlocked(height), m) <= Balance(m)
    decreases |m|
  {
    if m != map[] {
      KeysExist(m);
      var k: Key :| k in m.Keys;
      SumRemove(Unlocked(height), m, k);
      SumRemove(Value(), m, k);
      Shrinks(m, k);
      UnlockedAtMost(height, m - {k});
    }
  }

  ghost predicate Intact(txs: seq<Tx>) { forall j :: 0 <= j < |txs| ==> !txs[j].broken }

  /** A node that answers from one chain `c` throughout the request. */
  ghost predicate Steady(block: Hash -> BlockData, node: Node, c: seq<Hash>, height: int) {
    && 0 <= height <= |c| && Linked(block, c)
    && (forall n: nat, h :: 1 <= h <= height ==> node.hashAt(n, h) == Some(c[h - 1]))
    && (forall n: nat :: node.readable(n) && !node.late(n))
    && (forall i :: 0 <= i < height ==> Intact(block(c[i]).txs))
  }

  class Index {
    const block: Hash -> BlockData
    var height: int
    var hash: Option<Hash>
    var utxos: map<Key, Coin>
    var rewards: nat
    var spent: nat
    ghost var chain: seq<Hash>

    ghost function State(): Ledger reads this { Ledger(utxos, rewards, spent) }

    /** The index is the fold over one linked chain that ends at `hash`. */
    ghost predicate Valid() reads this {
      && height == |chain| && hash == (if chain == [] then None else Some(chain[|chain| - 1]))
      && Linked(block, chain) && State() == AfterChain(block, chain)
    }

    constructor (block: Hash -> BlockData)
      ensures Valid() && chain == [] && this.block == block
    {
      this.block := block;
      height, hash, utxos, rewards, spent, chain := 0, None, map[], 0, 0, [];
    }

    method Reset()
      modifies this
      ensures Valid() && chain == []
    {
      height := 0;
      hash := None;
      rewards := 0;
      spent := 0;
      utxos := map[];
      chain := [];
    }

    method SpendInputs(vin: seq<Input>) returns (spentValue: nat)
      modifies this`utxos
      ensures utxos == AfterInputs(old(utxos), vin) && spentValue == SpentBy(old(utxos), vin)
    {
      spentValue := 0;
      for i := 0 to |vin|
        invariant utxos == AfterInputs(old(utxos), vin[..i]) && spentValue == SpentBy(old(utxos), vin[..i])
      {
        assert vin[..i + 1][..i] == vin[..i];
        if vin[i].Spend? {
          var k := (vin[i].txid, vin[i].vout);
          if k in utxos { spentValue := spentValue + utxos[k].value; }
          utxos := utxos - {k};
        }
      }
      assert vin[..|vin|] == vin;
    }

    method TakeOutputs(tx: Tx, at: int, coinbase: bool) returns (received: nat)
      modifies this`utxos, this`rewards
      ensures utxos == AfterOutputs(old(utxos), tx.txid, tx.vout, at, coinbase) && received == Received(tx.vout)
      ensures rewards == old(rewards) + if coinbase then received else 0
    {
      received := 0;
      for i := 0 to |tx.vout|
        invariant utxos == AfterOutputs(old(utxos), tx.txid, tx.vout[..i], at, coinbase)
        invariant received == Received(tx.vout[..i])
        invariant rewards == old(rewards) + if coinbase then received else 0
      {
        assert tx.vout[..i + 1][..i] == tx.vout[..i];
        var o := tx.vout[i];
        if o.ours {
          received := received + o.value;
          utxos := utxos[(tx.txid, o.n) := Coin(o.value, at, coinbase)];
          if coinbase { rewards := rewards + o.value; }
        }
      }
      assert tx.vout[..|tx.vout|] == tx.vout;
    }

    method ScanTx(tx: Tx, at: int) returns (ok: bool)
      modifies this`utxos, this`rewards, this`spent
      ensures ok <==> !tx.broken
      ensures ok ==> State() == AfterTx(old(State()), tx, at)
    {
      var coinbase := IsCoinbase(tx);
      var spentValue := SpendInputs(tx.vin);
      if tx.broken { return false; }
      var received := TakeOutputs(tx, at, coinbase);
      if spentValue != 0 { spent := spent + Excess(spentValue, received); }
      ok := true;
    }

    method ScanBlock(txs: seq<Tx>, at: int) returns (ok: bool)
      modifies this`utxos, this`rewards, this`spent
      ensures ok <==> Intact(txs)
      ensures ok ==> State() == AfterTxs(old(State()), txs, at)
    {
      for i := 0 to |txs|
        invariant State() == AfterTxs(old(State()), txs[..i], at) && forall j :: 0 <= j < i ==> !txs[j].broken
      {
        assert txs[..i + 1][..i] == txs[..i];
        ok := ScanTx(txs[i], at);
        if !ok { return; }
      }
      assert txs[..|txs|] == txs;
      ok := true;
    }

    /** One turn of the scan: read, check the link, fold the block in.  `stop` says that the scan ends here. */
    method Extend(b: int, node: Node, call: nat, ghost c: seq<Hash>, ghost top: int) returns (r: Answer, stop: bool)
      requires Valid() && b == height + 1
      modifies this
      ensures stop && r == NoStatus ==> Valid() && chain == []
      ensures stop ==> r == NoStatus || r == Failure
      ensures !stop ==> Valid() && height == b && |chain| == b
      ensures Steady(block, node, c, top) && b <= top && old(chain) <= c ==> !stop && chain <= c
    {
      r := Failure;
      ghost var steady := Steady(block, node, c, top) && b <= top && chain <= c;
      if steady { SteadyNext(block, node, c, top, chain, b, call); }
      if node.hashAt(call, b).None? { return Failure, true; }
      var h := node.hashAt(call, b).value;
      if !node.readable(call + 1) { return Failure, true; }
      var data := block(h);
      if hash.Some? && data.previous != hash {
        Reset();
        return NoStatus, true;
      }
      var ok := ScanBlock(data.txs, b);
      if !ok { return Failure, true; }
      ghost var longer := chain + [h];
      Grown(block, chain, h);
      height, hash, chain := b, Some(h), longer;
      stop := false;
    }

    /** `advance_treasury_index`: `call` is the number of the last call to the node. */
    method Advance(target: int, node: Node, configured: bool, ghost c: seq<Hash>) returns (r: Answer, ghost call: nat)
      requires Valid()
      modifies this
      ensures r != Failure ==> Valid() && |chain| <= |old(chain)| + 100
      ensures r.Status? ==> height == target && (target > 0 ==> hash.Some? && node.hashAt(call, target) == hash)
      ensures r.Status? ==> r.accruedRewards == rewards && r.totalSpent == spent && r.currentBalance == Balance(utxos)
      ensures r.Status? ==>
                r.unlockedBalance == Sum(Unlocked(target), utxos) &&
                r.unlockedBalance + r.immatureBalance == r.currentBalance
      ensures r.Status? ==> r.immatureBalance >= 0
      ensures configured && Steady(block, node, c, target) ==>
                && r != Failure && chain <= c && (r.Status? <==> height == target)
                && height == Min(target, (if old(chain) <= c && old(height) <= target then old(height) else 0) + 100)
    {
      call := 0;
      if !configured { return NoStatus, call; }
      var calls: nat := 0;
      if height > target {
        Reset();
      } else if height > 0 {
        var now := node.hashAt(calls, height);
        if now.None? { return Failure, call; }
        calls := calls + 1;
        SameTip(block, node, c, target, chain);
        if now != hash { Reset(); }
      }
      ghost var begin := height;
      var top := Min(target, height + 100);
      r, calls := Scan(top, node, calls, c, target);
      call := calls;
      if r == Failure { return; }
      if height != target { return NoStatus, call; }
      if target > 0 {
        var now := node.hashAt(calls, target);
        if now.None? { return Failure, call; }
        if now != hash {
          Reset();
          return NoStatus, call;
        }
      }
      var current := SumValues(utxos, Value());
      var unlocked := SumValues(utxos, Unlocked(target));
      UnlockedAtMost(target, utxos);
      r := Status(rewards, current, unlocked, current - unlocked, spent);
    }

    /** The loop over the heights still missing. */
    method Scan(top: int, node: Node, call0: nat, ghost c: seq<Hash>, ghost target: int) returns (r: Answer, call: nat)
      requires Valid() && top <= target
      modifies this
      ensures r == Failure || r == NoStatus
      ensures r != Failure ==> Valid() && (|chain| <= |old(chain)| || height <= top)
      ensures Steady(block, node, c, target) && old(chain) <= c ==>
                r != Failure && chain <= c && height == (if top < old(height) then old(height) else top)
    {
      r, call := NoStatus, call0;
      var b := height + 1;
      var n := 0;
      while b <= top
        invariant Valid() && b == height + 1 && r == NoStatus && (height <= old(height) || height <= top)
        invariant height >= old(height)
        invariant Steady(block, node, c, target) && old(chain) <= c ==> chain <= c && n == height - old(height)
        decreases top - b
      {
        var stop;
        r, stop := Extend(b, node, call, c, target);
        call := call + 2;
        if stop { return; }
        r := NoStatus;
        n := n + 1;
        b := b + 1;
        if node.late(n) { break; }
      }
    }

    /** `treasury_status`: after a failure the index is empty, never half updated. */
    method TreasuryStatus(target: int, node: Node, configured: bool, ghost c: seq<Hash>)
      returns (r: Answer, ghost call: nat)
      requires Valid()
      modifies this
      ensures Valid() && (r == Failure ==> chain == [])
      ensures r.Status? ==> height == target && (target > 0 ==> hash.Some? && node.hashAt(call, target) == hash)
      ensures r.Status? ==> Reports(block, chain, r)
      ensures configured && Steady(block, node, c, target) ==>
                && r != Failure && chain <= c && (r.Status? <==> height == target)
                && height == Min(target, (if old(chain) <= c && old(height) <= target then old(height) else 0) + 100)
    {
      r, call := Advance(target, node, configured, c);
      if r == Failure { Reset(); }
    }

    ghost predicate AllSteady(nodes: seq<Node>, c: seq<Hash>, target: int) {
      forall i :: 0 <= i < |nodes| ==> Steady(block, nodes[i], c, target)
    }

    /** One request after the other: on a steady node there is a status after at most one request per 100 blocks. */
    method Serve(target: int, nodes: seq<Node>, ghost c: seq<Hash>) returns (answers: seq<Answer>)
      requires Valid()
      modifies this
      ensures Valid() && |answers| == |nodes|
      ensures AllSteady(nodes, c, target) && nodes != [] && 100 * |nodes| >= target ==>
                && answers[|nodes| - 1].Status? && Reports(block, chain, answers[|nodes| - 1])
                && chain <= c && |chain| == target
    {
      answers := [];
      for n := 0 to |nodes|
        invariant Valid() && |answers| == n
        invariant n > 0 && AllSteady(nodes[..n], c, target) ==>
                    && chain <= c && Min(target, 100 * n) <= height <= target
                    && (answers[n - 1].Status? <==> height == target)
                    && (height == target ==> Reports(block, chain, answers[n - 1]))
      {
        assert nodes[..n + 1][n] == nodes[n] && nodes[..n + 1][..n] == nodes[..n];
        var r;
        ghost var call;
        r, call := TreasuryStatus(target, nodes[n], true, c);
        answers := answers + [r];
        assert AllSteady(nodes[..n + 1], c, target) ==>
                 AllSteady(nodes[..n + 1][..n], c, target) && Steady(block, nodes[..n + 1][n], c, target);
      }
      assert nodes[..|nodes|] == nodes;
    }
  }

  /** The reported figures are those of the chain. */
  ghost predicate Reports(block: Hash -> BlockData, chain: seq<Hash>, r: Answer)
    requires r.Status?
  {
    var s := AfterChain(block, chain);
    && r.accruedRewards == s.rewards && r.totalSpent == s.spent && r.currentBalance == Balance(s.utxos)
    && r.unlockedBalance == Sum(Unlocked(|chain|), s.utxos)
    && r.unlockedBalance + r.immatureBalance == r.currentBalance && r.immatureBalance >= 0
  }

  /** On a steady node the next block is there, linked and readable. */
  lemma SteadyNext(block: Hash -> BlockData, node: Node, c: seq<Hash>, top: int, chain: seq<Hash>, b: int, call: nat)
    requires Steady(block, node, c, top) && b <= top && chain <= c && b == |chain| + 1
    ensures node.hashAt(call, b) == Some(c[b - 1]) && node.readable(call + 1) && chain + [c[b - 1]] <= c
    ensures chain != [] ==> block(c[b - 1]).previous == Some(chain[|chain| - 1])
    ensures Intact(block(c[b - 1]).txs)
  {
    if chain != [] { assert block(c[b - 1]).previous == Some(c[b - 2]); }
  }

  lemma Grown(block: Hash -> BlockData, chain: seq<Hash>, h: Hash)
    requires Linked(block, chain) && (chain != [] ==> block(h).previous == Some(chain[|chain| - 1]))
    ensures Linked(block, chain + [h])
    ensures AfterChain(block, chain + [h]) == AfterTxs(AfterChain(block, chain), block(h).txs, |chain| + 1)
  {
    var longer := chain + [h];
    assert longer[..|chain|] == chain;
    forall i | 0 < i < |longer| ensures block(longer[i]).previous == Some(longer[i - 1]) {
      if i < |chain| { assert block(chain[i]).previous == Some(chain[i - 1]); }
    }
  }

  /** On a steady node the tip check tells exactly whether the index follows the node's chain. */
  lemma SameTip(block: Hash -> BlockData, node: Node, c: seq<Hash>, target: int, chain: seq<Hash>)
    requires Linked(block, chain) && 0 < |chain| <= target
    ensures Steady(block, node, c, target) ==>
              forall n: nat :: (node.hashAt(n, |chain|) == Some(chain[|chain| - 1]) <==> chain <= c)
  {
    if Steady(block, node, c, target) {
      var l := |chain|;
      if c[l - 1] == chain[l - 1] {
        var d := c[..l];
        forall i | 0 < i < l ensures block(d[i]).previous == Some(d[i - 1]) {
          assert block(c[i]).previous == Some(c[i - 1]);
        }
        ChainUnique(block, d, chain);
      }
    }
  }

  /** A reported status balances: what is held plus what was paid out is what came in; rewards are part of it. */
  lemma StatusBalances(block: Hash -> BlockData, chain: seq<Hash>, r: Answer)
    requires r.Status? && Reports(block, chain, r) && Sound(AllTxs(block, chain))
    ensures r.currentBalance + r.totalSpent == InflowChain(block, chain)
    ensures r.accruedRewards <= r.currentBalance + r.totalSpent
  {
    ChainConserves(block, chain);
  }

  /**
   Every reported figure, from the transactions of the chain alone: `held[i]` is what is unspent before transaction `i`,
   and the last of them is what is held at the end.
   */
  lemma StatusIsRight(block: Hash -> BlockData, chain: seq<Hash>, r: Answer) returns (held: seq<map<Key, Coin>>)
    requires r.Status? && Reports(block, chain, r)
    ensures var h := History(block, chain);
            && |held| == |h| + 1 && (forall i :: 0 <= i <= |h| ==> Held(h[..i], held[i]))
            && r.totalSpent == SumOf(Payments(h, held)) && r.accruedRewards == SumOf(Rewards(h))
            && r.currentBalance == Balance(held[|h|]) && r.unlockedBalance == Balance(Mature(|chain|, held[|h|]))
            && r.immatureBalance == r.currentBalance - r.unlockedBalance
  {
    held := ChainFigures(block, chain);
    UnlockedIsMature(|chain|, AfterChain(block, chain).utxos);
  }
}
