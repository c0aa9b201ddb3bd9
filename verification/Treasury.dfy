module Treasury {

  /**
   The treasury index of the status server: an incremental scan of a chain that may reorganise between any two calls to
   the node.  Blocks are a function of their hash; which hash stands at a height may change at every call, and every
   call may fail.
   */

  import opened Common
  import Closed

  type Hash = nat
  type Key = (nat, nat)

  datatype Input = CoinbaseInput | Spend(txid: nat, vout: nat)

  /** `ours` says whether the output pays the treasury script. */
  datatype Output = Output(n: nat, ours: bool, value: nat)

  /** `broken`: an output lacks its value, which raises an error in the middle of the transaction. */
  datatype Tx = Tx(txid: nat, vin: seq<Input>, vout: seq<Output>, broken: bool)

  datatype BlockData = BlockData(previous: Option<Hash>, txs: seq<Tx>)

  datatype Coin = Coin(value: nat, at: int, coinbase: bool)

  datatype Ledger = Ledger(utxos: map<Key, Coin>, rewards: nat, spent: nat)

  // ----- what one transaction does

  predicate IsCoinbase(tx: Tx) { exists i :: 0 <= i < |tx.vin| && tx.vin[i].CoinbaseInput? }

  function AfterInputs(utxos: map<Key, Coin>, vin: seq<Input>): map<Key, Coin> {
    if vin == [] then utxos
    else
      var l := |vin| - 1;
      var rest := AfterInputs(utxos, vin[..l]);
      if vin[l].CoinbaseInput? then rest else rest - {(vin[l].txid, vin[l].vout)}
  }

  function SpentBy(utxos: map<Key, Coin>, vin: seq<Input>): nat {
    if vin == [] then 0
    else
      var l := |vin| - 1;
      var rest := AfterInputs(utxos, vin[..l]);
      SpentBy(utxos, vin[..l]) +
      if vin[l].Spend? && (vin[l].txid, vin[l].vout) in rest then rest[(vin[l].txid, vin[l].vout)].value else 0
  }

  function AfterOutputs(utxos: map<Key, Coin>, txid: nat, vout: seq<Output>, at: int, coinbase: bool): map<Key, Coin> {
    if vout == [] then utxos
    else
      var l := |vout| - 1;
      var rest := AfterOutputs(utxos, txid, vout[..l], at, coinbase);
      if vout[l].ours then rest[(txid, vout[l].n) := Coin(vout[l].value, at, coinbase)] else rest
  }

  function Received(vout: seq<Output>): nat {
    if vout == [] then 0 else Received(vout[..|vout| - 1]) + if vout[|vout| - 1].ours then vout[|vout| - 1].value else 0
  }

  function Excess(a: nat, b: nat): nat { if a > b then a - b else 0 }

  ghost function AfterTx(s: Ledger, tx: Tx, at: int): Ledger {
    var spent, received := SpentBy(s.utxos, tx.vin), Received(tx.vout);
    Ledger(AfterOutputs(AfterInputs(s.utxos, tx.vin), tx.txid, tx.vout, at, IsCoinbase(tx)),
           s.rewards + (if IsCoinbase(tx) then received else 0),
           s.spent + Excess(spent, received))
  }

  ghost function AfterTxs(s: Ledger, txs: seq<Tx>, at: int): Ledger {
    if txs == [] then s else AfterTx(AfterTxs(s, txs[..|txs| - 1], at), txs[|txs| - 1], at)
  }

  const START := Ledger(map[], 0, 0)

  /** The ledger of a chain of blocks, the first at height 1. */
  ghost function AfterChain(block: Hash -> BlockData, chain: seq<Hash>): Ledger {
    if chain == [] then START
    else AfterTxs(AfterChain(block, chain[..|chain| - 1]), block(chain[|chain| - 1]).txs, |chain|)
  }

  ghost predicate Linked(block: Hash -> BlockData, chain: seq<Hash>) {
    forall i :: 0 < i < |chain| ==> block(chain[i]).previous == Some(chain[i - 1])
  }

  /** A chain is determined by its last block and its length. */
  lemma {:induction false} ChainUnique(block: Hash -> BlockData, a: seq<Hash>, b: seq<Hash>)
    requires Linked(block, a) && Linked(block, b) && |a| == |b| && (a != [] ==> a[|a| - 1] == b[|b| - 1])
    ensures a == b
    decreases |a|
  {
    if a != [] {
      var l := |a| - 1;
      var a', b' := a[..l], b[..l];
      if l > 0 { assert block(a[l]).previous == Some(a[l - 1]) && block(b[l]).previous == Some(b[l - 1]); }
      forall i | 0 < i < l
        ensures block(a'[i]).previous == Some(a'[i - 1]) && block(b'[i]).previous == Some(b'[i - 1])
      {
        assert block(a[i]).previous == Some(a[i - 1]) && block(b[i]).previous == Some(b[i - 1]);
      }
      ChainUnique(block, a', b');
      assert a == a' + [a[l]] && b == b' + [b[l]];
    }
  }

  // ----- sums over the unspent outputs

  ghost function Sum(f: Coin -> nat, m: map<Key, Coin>): nat
    decreases |m|
  {
    if m == map[] then 0 else
      var k :| k in m;
      assert |m - {k}| < |m| by { Shrinks(m, k); }
      f(m[k]) + Sum(f, m - {k})
  }

  lemma Shrinks(m: map<Key, Coin>, k: Key)
    requires k in m
    ensures |m - {k}| == |m| - 1
  {
    assert (m - {k}).Keys == m.Keys - {k};
  }

  /** The order of summation does not matter. */
  lemma {:induction false} SumRemove(f: Coin -> nat, m: map<Key, Coin>, k: Key)
    requires k in m
    ensures Sum(f, m) == f(m[k]) + Sum(f, m - {k})
    decreases |m|
  {
    var j :| j in m && Sum(f, m) == f(m[j]) + Sum(f, m - {j});
    if j != k {
      Shrinks(m, j);
      Shrinks(m, k);
      SumRemove(f, m - {j}, k);
      SumRemove(f, m - {k}, j);
      assert m - {j} - {k} == m - {k} - {j};
    }
  }

  lemma SumAdd(f: Coin -> nat, m: map<Key, Coin>, k: Key, v: Coin)
    requires k !in m
    ensures Sum(f, m[k := v]) == Sum(f, m) + f(v)
  {
    SumRemove(f, m[k := v], k);
    assert m[k := v] - {k} == m;
  }

  function Value(): Coin -> nat { (c: Coin) => c.value }
  ghost function Balance(m: map<Key, Coin>): nat { Sum(Value(), m) }

  method SumValues(m: map<Key, Coin>, f: Coin -> nat) returns (total: nat)
    ensures total == Sum(f, m)
  {
    total := 0;
    var rest := m;
    while rest != map[]
      invariant total + Sum(f, rest) == Sum(f, m)
      decreases |rest|
    {
      var k := SomeKey(rest);
      SumRemove(f, rest, k);
      Shrinks(rest, k);
      total := total + f(rest[k]);
      rest := rest - {k};
    }
  }

  method SomeKey(m: map<Key, Coin>) returns (k: Key)
    requires m != map[]
    ensures k in m
  {
    KeysExist(m);
    k :| k in m.Keys;
  }

  lemma KeysExist(m: map<Key, Coin>)
    requires m != map[]
    ensures exists k: Key :: k in m.Keys
  {
    assert (forall k: Key :: k !in m.Keys) ==> m == map[];
  }

  // ----- conservation

  lemma {:induction false} InputsConserve(utxos: map<Key, Coin>, vin: seq<Input>)
    ensures Balance(AfterInputs(utxos, vin)) + SpentBy(utxos, vin) == Balance(utxos)
    ensures AfterInputs(utxos, vin).Keys <= utxos.Keys
    ensures (forall i :: 0 <= i < |vin| ==> vin[i].CoinbaseInput?) ==> SpentBy(utxos, vin) == 0
  {
    if vin != [] {
      var l := |vin| - 1;
      InputsConserve(utxos, vin[..l]);
      var rest := AfterInputs(utxos, vin[..l]);
      if vin[l].Spend? {
        var k := (vin[l].txid, vin[l].vout);
        if k in rest { SumRemove(Value(), rest, k); } else { assert rest - {k} == rest; }
      }
    }
  }

  /** Outputs of one transaction have different numbers. */
  ghost predicate Numbered(vout: seq<Output>) { forall i, j :: 0 <= i < j < |vout| ==> vout[i].n != vout[j].n }

  ghost predicate NoneOf(utxos: map<Key, Coin>, txid: nat) { forall k :: k in utxos ==> k.0 != txid }

  lemma {:induction false} OutputsConserve(utxos: map<Key, Coin>, txid: nat, vout: seq<Output>, at: int, coinbase: bool)
    requires NoneOf(utxos, txid) && Numbered(vout)
    ensures Balance(AfterOutputs(utxos, txid, vout, at, coinbase)) == Balance(utxos) + Received(vout)
    ensures forall k :: k in AfterOutputs(utxos, txid, vout, at, coinbase) ==>
              k in utxos || (k.0 == txid && exists i :: 0 <= i < |vout| && vout[i].n == k.1)
  {
    if vout != [] {
      var l := |vout| - 1;
      OutputsConserve(utxos, txid, vout[..l], at, coinbase);
      var rest := AfterOutputs(utxos, txid, vout[..l], at, coinbase);
      var k := (txid, vout[l].n);
      assert k !in rest;
      if vout[l].ours { SumAdd(Value(), rest, k, Coin(vout[l].value, at, coinbase)); }
      forall j | j in AfterOutputs(utxos, txid, vout, at, coinbase) && j !in utxos
        ensures j.0 == txid && exists i :: 0 <= i < |vout| && vout[i].n == j.1
      {
        if j == k {
          assert vout[l].n == j.1;
        } else {
          var i :| 0 <= i < l && vout[..l][i].n == j.1;
          assert vout[i].n == j.1;
        }
      }
    }
  }

  /** What a transaction brings in from outside, beyond what it spends of the treasury. */
  ghost function Inflow(s: Ledger, tx: Tx): nat { Excess(Received(tx.vout), SpentBy(s.utxos, tx.vin)) }

  lemma TxConserves(s: Ledger, tx: Tx, at: int)
    requires NoneOf(s.utxos, tx.txid) && Numbered(tx.vout)
    ensures var s' := AfterTx(s, tx, at);
            && Balance(s'.utxos) + s'.spent == Balance(s.utxos) + s.spent + Inflow(s, tx)
            && (forall k :: k in s'.utxos ==> k in s.utxos || k.0 == tx.txid)
  {
    InputsConserve(s.utxos, tx.vin);
    var mid := AfterInputs(s.utxos, tx.vin);
    forall k | k in mid ensures k in s.utxos { assert k in mid.Keys; }
    OutputsConserve(mid, tx.txid, tx.vout, at, IsCoinbase(tx));
  }

  ghost function InflowTxs(s: Ledger, txs: seq<Tx>, at: int): nat {
    if txs == [] then 0
    else InflowTxs(s, txs[..|txs| - 1], at) + Inflow(AfterTxs(s, txs[..|txs| - 1], at), txs[|txs| - 1])
  }

  ghost function InflowChain(block: Hash -> BlockData, chain: seq<Hash>): nat {
    if chain == [] then 0
    else InflowChain(block, chain[..|chain| - 1]) +
         InflowTxs(AfterChain(block, chain[..|chain| - 1]), block(chain[|chain| - 1]).txs, |chain|)
  }

  /** Transaction ids in chain order. */
  ghost function Txids(txs: seq<Tx>): (r: seq<nat>)
    ensures |r| == |txs| && forall i :: 0 <= i < |txs| ==> r[i] == txs[i].txid
  {
    seq(|txs|, i requires 0 <= i < |txs| => txs[i].txid)
  }

  ghost function AllTxs(block: Hash -> BlockData, chain: seq<Hash>): seq<Tx> {
    if chain == [] then [] else AllTxs(block, chain[..|chain| - 1]) + block(chain[|chain| - 1]).txs
  }

  /** Unique outpoints, and coinbase transactions that spend nothing. */
  ghost predicate Sound(txs: seq<Tx>) {
    && Distinct(Txids(txs))
    && (forall i :: 0 <= i < |txs| ==> Numbered(txs[i].vout))
    && (forall i :: 0 <= i < |txs| && IsCoinbase(txs[i]) ==>
          forall j :: 0 <= j < |txs[i].vin| ==> txs[i].vin[j].CoinbaseInput?)
  }

  lemma SoundPrefix(txs: seq<Tx>, n: nat)
    requires Sound(txs) && n <= |txs|
    ensures Sound(txs[..n])
  {
    forall i, j | 0 <= i < j < n ensures Txids(txs[..n])[i] != Txids(txs[..n])[j] {
      assert Txids(txs)[i] != Txids(txs)[j];
    }
  }

  /** Every unspent output comes from one of the transactions seen so far. */
  ghost predicate From(utxos: map<Key, Coin>, seen: seq<Tx>) {
    forall k :: k in utxos ==> k.0 in Txids(seen)
  }

  ghost predicate Conserved(s: Ledger, inflow: nat, seen: seq<Tx>) {
    Balance(s.utxos) + s.spent == inflow && s.rewards <= inflow && From(s.utxos, seen)
  }

  lemma OneMore(s: Ledger, tx: Tx, at: int, inflow: nat, seen: seq<Tx>)
    requires Conserved(s, inflow, seen) && Sound(seen + [tx])
    ensures Conserved(AfterTx(s, tx, at), inflow + Inflow(s, tx), seen + [tx])
  {
    var all := seen + [tx];
    assert all[|seen|] == tx && Numbered(all[|seen|].vout);
    forall k | k in s.utxos ensures k.0 != tx.txid {
      var i :| 0 <= i < |seen| && Txids(seen)[i] == k.0;
      assert Txids(all)[i] != Txids(all)[|seen|];
    }
    TxConserves(s, tx, at);
    InputsConserve(s.utxos, tx.vin);
    var s' := AfterTx(s, tx, at);
    assert Txids(all) == Txids(seen) + [tx.txid];
    forall k | k in s'.utxos ensures k.0 in Txids(all) { assert k in s.utxos ==> k.0 in Txids(seen); }
    if IsCoinbase(tx) { assert forall j :: 0 <= j < |all[|seen|].vin| ==> all[|seen|].vin[j].CoinbaseInput?; }
  }

  lemma {:induction false} TxsConserve(s: Ledger, txs: seq<Tx>, at: int, inflow: nat, seen: seq<Tx>)
    requires Conserved(s, inflow, seen) && Sound(seen + txs)
    ensures Conserved(AfterTxs(s, txs, at), inflow + InflowTxs(s, txs, at), seen + txs)
    decreases |txs|
  {
    if txs == [] {
      assert seen + txs == seen;
    } else {
      var l := |txs| - 1;
      assert (seen + txs)[..|seen| + l] == seen + txs[..l];
      SoundPrefix(seen + txs, |seen| + l);
      TxsConserve(s, txs[..l], at, inflow, seen);
      assert seen + txs == seen + txs[..l] + [txs[l]];
      OneMore(AfterTxs(s, txs[..l], at), txs[l], at, inflow + InflowTxs(s, txs[..l], at), seen + txs[..l]);
    }
  }

  /** Balance plus net spending is what came in from outside; rewards are part of that. */
  lemma {:induction false} ChainConserves(block: Hash -> BlockData, chain: seq<Hash>)
    requires Sound(AllTxs(block, chain))
    ensures Conserved(AfterChain(block, chain), InflowChain(block, chain), AllTxs(block, chain))
    decreases |chain|
  {
    if chain != [] {
      var l := |chain| - 1;
      var pre, txs := AllTxs(block, chain[..l]), block(chain[l]).txs;
      assert (pre + txs)[..|pre|] == pre;
      SoundPrefix(pre + txs, |pre|);
      ChainConserves(block, chain[..l]);
      TxsConserve(AfterChain(block, chain[..l]), txs, |chain|, InflowChain(block, chain[..l]), pre);
    }
  }

  // ----- what is unspent, without a fold

  ghost predicate Spends(tx: Tx, k: Key) { exists i :: 0 <= i < |tx.vin| && tx.vin[i] == Spend(k.0, k.1) }

  ghost predicate IsOurs(o: Output, k: Key) { o.ours && o.n == k.1 }

  ghost predicate Pays(tx: Tx, k: Key) { tx.txid == k.0 && exists o :: 0 <= o < |tx.vout| && IsOurs(tx.vout[o], k) }

  /** Output `o` pays outpoint `k` to the treasury; a later output under the same number would replace it. */
  ghost predicate PaysAt(tx: Tx, k: Key, o: nat) {
    && tx.txid == k.0 && o < |tx.vout| && IsOurs(tx.vout[o], k)
    && forall later :: o < later < |tx.vout| ==> !IsOurs(tx.vout[later], k)
  }

  /** It pays it as `coin`. */
  ghost predicate PaidAs(tx: Tx, at: int, k: Key, o: nat, coin: Coin) {
    PaysAt(tx, k, o) && coin == Coin(tx.vout[o].value, at, IsCoinbase(tx))
  }

  /** A transaction and the height of its block. */
  datatype Event = Event(tx: Tx, at: int)

  ghost function Events(txs: seq<Tx>, at: int): (r: seq<Event>)
    ensures |r| == |txs| && forall i :: 0 <= i < |txs| ==> r[i] == Event(txs[i], at)
  {
    seq(|txs|, i requires 0 <= i < |txs| => Event(txs[i], at))
  }

  ghost function History(block: Hash -> BlockData, chain: seq<Hash>): seq<Event> {
    if chain == [] then []
    else History(block, chain[..|chain| - 1]) + Events(block(chain[|chain| - 1]).txs, |chain|)
  }

  /** The events are the transactions of the blocks, each with the height of its block, counted from 1. */
  lemma {:induction false} EventAt(block: Hash -> BlockData, chain: seq<Hash>, i: nat) returns (j: nat, t: nat)
    requires i < |History(block, chain)|
    ensures j < |chain| && t < |block(chain[j]).txs|
    ensures History(block, chain)[i] == Event(block(chain[j]).txs[t], j + 1)
    ensures i == |History(block, chain[..j])| + t
    decreases |chain|
  {
    var l := |chain| - 1;
    var before := |History(block, chain[..l])|;
    if i < before {
      j, t := EventAt(block, chain[..l], i);
      assert chain[..l][..j] == chain[..j];
    } else {
      j, t := l, i - before;
    }
  }

  /** Event `i` pays `k` as `coin`, and nothing later spends it or pays it again. */
  ghost predicate UnspentSince(h: seq<Event>, k: Key, coin: Coin, i: nat, o: nat) {
    && i < |h| && PaidAs(h[i].tx, h[i].at, k, o, coin)
    && forall j :: i < j < |h| ==> !Spends(h[j].tx, k) && !Pays(h[j].tx, k)
  }

  ghost predicate Unspent(h: seq<Event>, k: Key, coin: Coin) { exists i: nat, o: nat :: UnspentSince(h, k, coin, i, o) }

  ghost predicate Holds(m: map<Key, Coin>, k: Key, coin: Coin) { k in m && m[k] == coin }

  lemma {:induction false} InputsRemove(utxos: map<Key, Coin>, vin: seq<Input>, k: Key, coin: Coin)
    ensures Holds(AfterInputs(utxos, vin), k, coin) <==>
              Holds(utxos, k, coin) && !(exists i :: 0 <= i < |vin| && vin[i] == Spend(k.0, k.1))
  {
    if vin != [] {
      var l := |vin| - 1;
      InputsRemove(utxos, vin[..l], k, coin);
      if i :| 0 <= i < l && vin[..l][i] == Spend(k.0, k.1) { assert vin[i] == Spend(k.0, k.1); }
      if i :| 0 <= i < |vin| && vin[i] == Spend(k.0, k.1) && i < l { assert vin[..l][i] == vin[i]; }
    }
  }

  /** The last output that pays `k` decides, if there is one. */
  lemma {:induction false} OutputsPut(utxos: map<Key, Coin>, txid: nat, vout: seq<Output>, at: int, coinbase: bool,
                                      k: Key) returns (o: int)
    ensures -1 <= o < |vout| && (txid == k.0 ==> forall later :: o < later < |vout| ==> !IsOurs(vout[later], k))
    ensures var m := AfterOutputs(utxos, txid, vout, at, coinbase);
            if o >= 0 then txid == k.0 && IsOurs(vout[o], k) && Holds(m, k, Coin(vout[o].value, at, coinbase))
            else (k in m <==> k in utxos) && (k in m ==> m[k] == utxos[k])
  {
    if vout == [] {
      o := -1;
    } else {
      var l := |vout| - 1;
      o := OutputsPut(utxos, txid, vout[..l], at, coinbase, k);
      if txid == k.0 && IsOurs(vout[l], k) { o := l; }
    }
  }

  lemma TxUnspent(s: Ledger, tx: Tx, at: int, k: Key, coin: Coin)
    ensures Holds(AfterTx(s, tx, at).utxos, k, coin) <==>
              if Pays(tx, k) then exists o: nat :: PaidAs(tx, at, k, o, coin)
              else Holds(s.utxos, k, coin) && !Spends(tx, k)
  {
    var mid := AfterInputs(s.utxos, tx.vin);
    var o := OutputsPut(mid, tx.txid, tx.vout, at, IsCoinbase(tx), k);
    if o >= 0 {
      assert Pays(tx, k) && PaysAt(tx, k, o);
      OnePays(tx, k, o);
      assert PaidAs(tx, at, k, o, Coin(tx.vout[o].value, at, IsCoinbase(tx)));
    } else {
      assert !Pays(tx, k);
      InputsRemove(s.utxos, tx.vin, k, coin);
    }
  }

  lemma OnePays(tx: Tx, k: Key, o: nat)
    requires PaysAt(tx, k, o)
    ensures forall p: nat :: PaysAt(tx, k, p) ==> p == o
  {
  }

  lemma EventAdds(h: seq<Event>, e: Event, k: Key, coin: Coin)
    ensures Unspent(h + [e], k, coin) <==>
              if Pays(e.tx, k) then exists o: nat :: PaidAs(e.tx, e.at, k, o, coin)
              else Unspent(h, k, coin) && !Spends(e.tx, k)
  {
    var all, l := h + [e], |h|;
    if Unspent(all, k, coin) {
      var i: nat, o: nat :| UnspentSince(all, k, coin, i, o);
      if i < l {
        assert !Spends(all[l].tx, k) && !Pays(all[l].tx, k);
        assert forall j :: i < j < l ==> h[j] == all[j];
        assert UnspentSince(h, k, coin, i, o);
      }
    }
    if o: nat :| PaidAs(e.tx, e.at, k, o, coin) {
      assert UnspentSince(all, k, coin, l, o);
    }
    if Unspent(h, k, coin) && !Spends(e.tx, k) && !Pays(e.tx, k) {
      var i: nat, o: nat :| UnspentSince(h, k, coin, i, o);
      assert UnspentSince(all, k, coin, i, o);
    }
  }

  lemma {:induction false} TxsUnspent(s: Ledger, h: seq<Event>, txs: seq<Tx>, at: int, k: Key, coin: Coin)
    requires Holds(s.utxos, k, coin) <==> Unspent(h, k, coin)
    ensures Holds(AfterTxs(s, txs, at).utxos, k, coin) <==> Unspent(h + Events(txs, at), k, coin)
    decreases |txs|
  {
    if txs == [] {
      assert h + Events(txs, at) == h;
    } else {
      var l := |txs| - 1;
      TxsUnspent(s, h, txs[..l], at, k, coin);
      TxUnspent(AfterTxs(s, txs[..l], at), txs[l], at, k, coin);
      EventAdds(h + Events(txs[..l], at), Event(txs[l], at), k, coin);
      assert h + Events(txs, at) == h + Events(txs[..l], at) + [Event(txs[l], at)];
    }
  }

  /** The index holds an output exactly if some transaction of the chain pays it and nothing later spends it. */
  lemma {:induction false} ChainUnspent(block: Hash -> BlockData, chain: seq<Hash>, k: Key, coin: Coin)
    ensures Holds(AfterChain(block, chain).utxos, k, coin) <==> Unspent(History(block, chain), k, coin)
    decreases |chain|
  {
    if chain != [] {
      var l := |chain| - 1;
      ChainUnspent(block, chain[..l], k, coin);
      TxsUnspent(AfterChain(block, chain[..l]), History(block, chain[..l]), block(chain[l]).txs, |chain|, k, coin);
    }
  }

  // ----- the figures, without a fold over ledgers

  ghost function SumOf(s: seq<nat>): nat { if s == [] then 0 else SumOf(s[..|s| - 1]) + s[|s| - 1] }

  lemma SumOfNext(s: seq<nat>, x: nat)
    ensures SumOf(s + [x]) == SumOf(s) + x
  {
    assert (s + [x])[..|s|] == s;
  }

  /** What a transaction receives is the total of its outputs that pay the treasury. */
  lemma {:induction false} ReceivedIsTotal(vout: seq<Output>, values: seq<nat>)
    requires |values| == |vout|
    requires forall i :: 0 <= i < |vout| ==> values[i] == if vout[i].ours then vout[i].value else 0
    ensures Received(vout) == SumOf(values)
  {
    if vout != [] {
      var l := |vout| - 1;
      ReceivedIsTotal(vout[..l], values[..l]);
      SumOfNext(values[..l], values[l]);
      assert values == values[..l] + [values[l]];
    }
  }

  ghost predicate SpentIn(vin: seq<Input>, k: Key) { exists i :: 0 <= i < |vin| && vin[i] == Spend(k.0, k.1) }

  /** The coins among `m` that the inputs spend. */
  ghost function Taken(m: map<Key, Coin>, vin: seq<Input>): map<Key, Coin> { map k | k in m && SpentIn(vin, k) :: m[k] }

  lemma SpentInNext(vin: seq<Input>, k: Key)
    requires vin != []
    ensures var l := |vin| - 1; SpentIn(vin, k) <==> SpentIn(vin[..l], k) || vin[l] == Spend(k.0, k.1)
  {
    var l := |vin| - 1;
    if i :| 0 <= i < |vin| && vin[i] == Spend(k.0, k.1) && i < l { assert vin[..l][i] == vin[i]; }
    if i :| 0 <= i < l && vin[..l][i] == Spend(k.0, k.1) { assert vin[i] == Spend(k.0, k.1); }
  }

  /** What a transaction spends is the value of the coins it takes, each counted once. */
  lemma {:induction false} SpentIsTaken(m: map<Key, Coin>, vin: seq<Input>)
    ensures SpentBy(m, vin) == Balance(Taken(m, vin))
  {
    if vin == [] {
      assert Taken(m, vin) == map[];
    } else {
      var l := |vin| - 1;
      SpentIsTaken(m, vin[..l]);
      var before, rest := Taken(m, vin[..l]), AfterInputs(m, vin[..l]);
      forall k ensures SpentIn(vin, k) <==> SpentIn(vin[..l], k) || vin[l] == Spend(k.0, k.1) { SpentInNext(vin, k); }
      if vin[l].Spend? && (vin[l].txid, vin[l].vout) in rest {
        var k := (vin[l].txid, vin[l].vout);
        InputsRemove(m, vin[..l], k, rest[k]);
        assert k in m && k !in before && rest[k] == m[k];
        SumAdd(Value(), before, k, m[k]);
        assert Taken(m, vin) == before[k := m[k]];
      } else {
        if vin[l].Spend? && (vin[l].txid, vin[l].vout) in m {
          var k := (vin[l].txid, vin[l].vout);
          InputsRemove(m, vin[..l], k, m[k]);
          assert SpentIn(vin[..l], k);
        }
        assert Taken(m, vin) == before;
      }
    }
  }

  /** Net payments: change that comes back is not counted. */
  ghost function PaidOut(m: map<Key, Coin>, tx: Tx): nat {
    var out, back := Balance(Taken(m, tx.vin)), Received(tx.vout);
    if out > back then out - back else 0
  }

  /** What comes in from outside. */
  ghost function BroughtIn(m: map<Key, Coin>, tx: Tx): nat {
    var out, back := Balance(Taken(m, tx.vin)), Received(tx.vout);
    if back > out then back - out else 0
  }

  ghost function Reward(tx: Tx): nat { if IsCoinbase(tx) then Received(tx.vout) else 0 }

  /** The three figures of one transaction. */
  lemma TxFigures(s: Ledger, tx: Tx, at: int)
    ensures AfterTx(s, tx, at).spent == s.spent + PaidOut(s.utxos, tx)
    ensures AfterTx(s, tx, at).rewards == s.rewards + Reward(tx)
    ensures Inflow(s, tx) == BroughtIn(s.utxos, tx)
  {
    SpentIsTaken(s.utxos, tx.vin);
  }

  /** `m` holds exactly what is unspent after the events. */
  ghost predicate Held(h: seq<Event>, m: map<Key, Coin>) {
    forall k, coin :: Holds(m, k, coin) <==> Unspent(h, k, coin)
  }

  ghost function Payments(h: seq<Event>, held: seq<map<Key, Coin>>): (r: seq<nat>)
    requires |held| >= |h|
    ensures |r| == |h| && forall i :: 0 <= i < |h| ==> r[i] == PaidOut(held[i], h[i].tx)
  {
    seq(|h|, i requires 0 <= i < |h| => PaidOut(held[i], h[i].tx))
  }

  ghost function Incomes(h: seq<Event>, held: seq<map<Key, Coin>>): (r: seq<nat>)
    requires |held| >= |h|
    ensures |r| == |h| && forall i :: 0 <= i < |h| ==> r[i] == BroughtIn(held[i], h[i].tx)
  {
    seq(|h|, i requires 0 <= i < |h| => BroughtIn(held[i], h[i].tx))
  }

  ghost function Rewards(h: seq<Event>): (r: seq<nat>)
    ensures |r| == |h| && forall i :: 0 <= i < |h| ==> r[i] == Reward(h[i].tx)
  {
    seq(|h|, i requires 0 <= i < |h| => Reward(h[i].tx))
  }

  /** `held[i]` is what is held before event `i`; the figures are totals over the events. */
  ghost predicate Tracks(h: seq<Event>, s: Ledger, inflow: nat, held: seq<map<Key, Coin>>) {
    && |held| == |h| + 1 && held[|h|] == s.utxos && (forall i :: 0 <= i <= |h| ==> Held(h[..i], held[i]))
    && s.spent == SumOf(Payments(h, held)) && inflow == SumOf(Incomes(h, held)) && s.rewards == SumOf(Rewards(h))
  }

  /** `Tracks`, kept closed. */
  ghost predicate Tracking(h: seq<Event>, s: Ledger, inflow: nat, held: seq<map<Key, Coin>>) {
    forall key: int :: Closed.Key(30, key) ==> Tracks(h, s, inflow, held)
  }

  lemma HeldNext(h: seq<Event>, s: Ledger, e: Event)
    requires Held(h, s.utxos)
    ensures Held(h + [e], AfterTx(s, e.tx, e.at).utxos)
  {
    forall k, coin ensures Holds(AfterTx(s, e.tx, e.at).utxos, k, coin) <==> Unspent(h + [e], k, coin) {
      assert Holds(s.utxos, k, coin) <==> Unspent(h, k, coin);
      TxUnspent(s, e.tx, e.at, k, coin);
      EventAdds(h, e, k, coin);
    }
  }

  lemma HeldAllNext(h: seq<Event>, held: seq<map<Key, Coin>>, e: Event, m: map<Key, Coin>)
    requires |held| == |h| + 1 && (forall i :: 0 <= i <= |h| ==> Held(h[..i], held[i])) && Held(h + [e], m)
    ensures forall i :: 0 <= i <= |h| + 1 ==> Held((h + [e])[..i], (held + [m])[i])
  {
    var all, held' := h + [e], held + [m];
    forall i | 0 <= i <= |all| ensures Held(all[..i], held'[i]) {
      assert if i <= |h| then all[..i] == h[..i] && held'[i] == held[i] else all[..i] == all && held'[i] == m;
    }
  }

  lemma FiguresNext(h: seq<Event>, held: seq<map<Key, Coin>>, e: Event, m: map<Key, Coin>)
    requires |held| == |h| + 1
    ensures var all, held' := h + [e], held + [m];
            && SumOf(Payments(all, held')) == SumOf(Payments(h, held)) + PaidOut(held[|h|], e.tx)
            && SumOf(Incomes(all, held')) == SumOf(Incomes(h, held)) + BroughtIn(held[|h|], e.tx)
            && SumOf(Rewards(all)) == SumOf(Rewards(h)) + Reward(e.tx)
  {
    var all, held' := h + [e], held + [m];
    assert Payments(all, held') == Payments(h, held) + [PaidOut(held[|h|], e.tx)];
    assert Incomes(all, held') == Incomes(h, held) + [BroughtIn(held[|h|], e.tx)];
    assert Rewards(all) == Rewards(h) + [Reward(e.tx)];
    SumOfNext(Payments(h, held), PaidOut(held[|h|], e.tx));
    SumOfNext(Incomes(h, held), BroughtIn(held[|h|], e.tx));
    SumOfNext(Rewards(h), Reward(e.tx));
  }

  lemma TracksNext(h: seq<Event>, s: Ledger, inflow: nat, held: seq<map<Key, Coin>>, e: Event)
    requires Tracks(h, s, inflow, held)
    ensures var s' := AfterTx(s, e.tx, e.at); Tracks(h + [e], s', inflow + Inflow(s, e.tx), held + [s'.utxos])
  {
    assert h[..|h|] == h && held[|h|] == s.utxos;
    HeldNext(h, s, e);
    HeldAllNext(h, held, e, AfterTx(s, e.tx, e.at).utxos);
    FiguresNext(h, held, e, AfterTx(s, e.tx, e.at).utxos);
    TxFigures(s, e.tx, e.at);
  }

  lemma TrackingNext(h: seq<Event>, s: Ledger, inflow: nat, held: seq<map<Key, Coin>>, e: Event, h': seq<Event>,
                     s': Ledger, inflow': nat) returns (held': seq<map<Key, Coin>>)
    requires Tracking(h, s, inflow, held)
    requires h' == h + [e] && s' == AfterTx(s, e.tx, e.at) && inflow' == inflow + Inflow(s, e.tx)
    ensures Tracking(h', s', inflow', held')
  {
    held' := held + [s'.utxos];
    assert Closed.Key(30, 0);
    TracksNext(h, s, inflow, held, e);
  }

  lemma {:induction false} TxsTrack(h: seq<Event>, s: Ledger, inflow: nat, held: seq<map<Key, Coin>>, txs: seq<Tx>,
                                    at: int) returns (held': seq<map<Key, Coin>>)
    requires Tracking(h, s, inflow, held)
    ensures Tracking(h + Events(txs, at), AfterTxs(s, txs, at), inflow + InflowTxs(s, txs, at), held')
    decreases |txs|
  {
    if txs == [] {
      assert h + Events(txs, at) == h;
      held' := held;
    } else {
      var l := |txs| - 1;
      held' := TxsTrack(h, s, inflow, held, txs[..l], at);
      assert h + Events(txs, at) == h + Events(txs[..l], at) + [Event(txs[l], at)];
      held' := TrackingNext(h + Events(txs[..l], at), AfterTxs(s, txs[..l], at), inflow + InflowTxs(s, txs[..l], at),
                            held', Event(txs[l], at), h + Events(txs, at), AfterTxs(s, txs, at),
                            inflow + InflowTxs(s, txs, at));
    }
  }

  /**
   For every chain: total spending is what the transactions paid out beyond what came back, inflow is what they brought
   in beyond what they spent, and rewards are what coinbase transactions pay the treasury.
   */
  lemma ChainFigures(block: Hash -> BlockData, chain: seq<Hash>) returns (held: seq<map<Key, Coin>>)
    ensures Tracks(History(block, chain), AfterChain(block, chain), InflowChain(block, chain), held)
  {
    held := ChainTracks(block, chain);
    assert Closed.Key(30, 0);
  }

  lemma {:induction false} ChainTracks(block: Hash -> BlockData, chain: seq<Hash>) returns (held: seq<map<Key, Coin>>)
    ensures Tracking(History(block, chain), AfterChain(block, chain), InflowChain(block, chain), held)
    decreases |chain|
  {
    if chain == [] {
      held := [map[]];
      assert Tracks([], START, 0, held);
    } else {
      var l := |chain| - 1;
      held := ChainTracks(block, chain[..l]);
      held := TxsTrack(History(block, chain[..l]), AfterChain(block, chain[..l]), InflowChain(block, chain[..l]), held,
                       block(chain[l]).txs, |chain|);
    }
  }
}
