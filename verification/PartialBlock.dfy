module PartialBlock {

  /** Compact block reconstruction: filling slots from the mempool and the extra pool, and rebuilding the block. */

  import opened Common
  import opened CompactBlock

  // ----- matching transactions with slots

  /** The working variables of the two matching loops. */
  datatype Matching = Matching(slots: Slots, have: seq<bool>, count: nat)

  /** Slots filled beyond those of `base`. */
  function Gained(slots: Slots, at: seq<nat>, n: nat): nat
    requires n <= |at| && forall j :: 0 <= j < |at| ==> at[j] < |slots|
  {
    if n == 0 then 0 else Gained(slots, at, n - 1) + if slots[at[n - 1]].Some? then 1 else 0
  }

  /** Free slots have different numbers, so they are different. */
  lemma AtDistinct(base: Slots, at: seq<nat>, i: nat, j: nat)
    requires Numbered(base, at) && i < |at| && j < |at| && at[i] == at[j]
    ensures i == j
  {
  }

  lemma {:induction false} GainedChange(base: Slots, at: seq<nat>, slots: Slots, j: nat, x: Option<Tx>, n: nat)
    requires Numbered(base, at) && |slots| == |base| && j < |at| && n <= |at|
    ensures Gained(slots[at[j] := x], at, n) == Gained(slots, at, n) +
            (if j < n then (if x.Some? then 1 else 0) - (if slots[at[j]].Some? then 1 else 0) else 0)
  {
    if n > 0 {
      GainedChange(base, at, slots, j, x, n - 1);
      if at[n - 1] == at[j] { AtDistinct(base, at, n - 1, j); }
    }
  }

  lemma {:induction false} GainedAll(slots: Slots, at: seq<nat>, n: nat)
    requires n <= |at| && forall j :: 0 <= j < |at| ==> at[j] < |slots|
    ensures Gained(slots, at, n) <= n
    ensures Gained(slots, at, n) == n ==> forall j :: 0 <= j < n ==> slots[at[j]].Some?
    ensures Gained(slots, at, n) > 0 <== exists j :: 0 <= j < n && slots[at[j]].Some?
  {
    if n > 0 { GainedAll(slots, at, n - 1); }
  }

  /** Transaction `tx` answers to the short id of free slot `j`. */
  predicate Answers(c: Compact, tx: Tx, j: nat)
    requires j < |c.shortIds|
  {
    c.shortId(tx.wtxid) == c.shortIds[j]
  }

  ghost predicate Met(c: Compact, txs: seq<Tx>, j: nat)
    requires j < |c.shortIds|
  {
    exists k :: 0 <= k < |txs| && Answers(c, txs[k], j)
  }

  /** At most one transaction answers: twice in the mempool, or two different ones anywhere, would be ambiguous. */
  ghost predicate Unambiguous(c: Compact, pool: seq<Tx>, extra: seq<Tx>, j: nat)
    requires j < |c.shortIds|
  {
    && (forall k, l :: 0 <= k < l < |pool| && Answers(c, pool[k], j) ==> !Answers(c, pool[l], j))
    && (forall x, y :: x in pool + extra && y in pool + extra && Answers(c, x, j) && Answers(c, y, j) ==>
          x.wtxid == y.wtxid)
  }

  /** Free slot `j` is filled if exactly one of the transactions scanned so far answers, counting alike ones as one. */
  ghost predicate SlotOk(c: Compact, at: seq<nat>, m: Matching, j: nat, pool: seq<Tx>, extra: seq<Tx>)
    requires |at| == |c.shortIds| && j < |at| && at[j] < |m.slots| == |m.have|
  {
    var x := m.slots[at[j]];
    && (m.have[at[j]] <==> Met(c, pool + extra, j))
    && (x.Some? ==> x.value in pool + extra && Answers(c, x.value, j))
    && (x.Some? <==> Met(c, pool + extra, j) && Unambiguous(c, pool, extra, j))
  }

  ghost predicate MatchOk(c: Compact, base: Slots, at: seq<nat>, m: Matching, pool: seq<Tx>, extra: seq<Tx>, c0: nat) {
    && |at| == |c.shortIds| && Numbered(base, at) && |m.slots| == |m.have| == |base|
    && (forall k :: 0 <= k < |base| && base[k].Some? ==> m.slots[k] == base[k])
    && (forall j :: 0 <= j < |at| ==> SlotOk(c, at, m, j, pool, extra))
    && m.count == c0 + Gained(m.slots, at, |at|)
  }

  lemma MatchStart(c: Compact, base: Slots, at: seq<nat>, c0: nat)
    requires |at| == |c.shortIds| && Numbered(base, at)
    ensures MatchOk(c, base, at, Matching(base, seq(|base|, _ => false), c0), [], [], c0)
  {
    NothingGained(base, at, |at|);
  }

  lemma {:induction false} NothingGained(base: Slots, at: seq<nat>, n: nat)
    requires Numbered(base, at) && n <= |at|
    ensures Gained(base, at, n) == 0
  {
    if n > 0 { NothingGained(base, at, n - 1); }
  }

  lemma MetNext(c: Compact, seen: seq<Tx>, tx: Tx, j: nat)
    requires j < |c.shortIds|
    ensures Met(c, seen + [tx], j) <==> Met(c, seen, j) || Answers(c, tx, j)
  {
    var s := seen + [tx];
    if Met(c, seen, j) {
      var k :| 0 <= k < |seen| && Answers(c, seen[k], j);
      assert Answers(c, s[k], j);
    }
    if Answers(c, tx, j) { assert s[|seen|] == tx; }
    if Met(c, s, j) {
      var k :| 0 <= k < |s| && Answers(c, s[k], j);
      if k < |seen| { assert Answers(c, seen[k], j); }
    }
  }

  // ----- how one more transaction changes what is unambiguous

  /** In the mempool, a second answer spoils the slot. */
  lemma OneInPool(c: Compact, pool: seq<Tx>, tx: Tx, j: nat)
    requires j < |c.shortIds|
    ensures Unambiguous(c, pool + [tx], [], j) <==>
              if Answers(c, tx, j) then !Met(c, pool, j) else Unambiguous(c, pool, [], j)
  {
    var all := pool + [tx];
    assert all + [] == all && pool + [] == pool && all[|pool|] == tx;
    if Answers(c, tx, j) && Met(c, pool, j) {
      var k :| 0 <= k < |pool| && Answers(c, pool[k], j);
      assert Answers(c, all[k], j) && Answers(c, all[|pool|], j);
    }
    if !Answers(c, tx, j) && Unambiguous(c, all, [], j) {
      forall k, l | 0 <= k < l < |pool| && Answers(c, pool[k], j) ensures !Answers(c, pool[l], j) {
        assert Answers(c, all[k], j) && all[l] == pool[l];
      }
      forall x, y | x in pool && y in pool && Answers(c, x, j) && Answers(c, y, j) ensures x.wtxid == y.wtxid {
        assert x in all + [] && y in all + [];
      }
    }
  }

  /** Among the extra transactions, only a different one spoils it. */
  lemma OneInExtra(c: Compact, pool: seq<Tx>, extra: seq<Tx>, tx: Tx, j: nat)
    requires j < |c.shortIds|
    ensures !Answers(c, tx, j) || !Met(c, pool + extra, j) ==>
              (Unambiguous(c, pool, extra + [tx], j) <==> !Met(c, pool + extra, j) || Unambiguous(c, pool, extra, j))
    ensures forall x :: Answers(c, tx, j) && x in pool + extra && Answers(c, x, j) ==>
              (Unambiguous(c, pool, extra + [tx], j) <==> Unambiguous(c, pool, extra, j) && x.wtxid == tx.wtxid)
  {
    var seen, all := pool + extra, pool + (extra + [tx]);
    assert forall x :: x in all <==> x in seen || x == tx;
    if !Met(c, seen, j) { NoneAnswers(c, pool, extra, j); }
    if Unambiguous(c, pool, extra + [tx], j) {
      forall x, y | x in seen && y in seen && Answers(c, x, j) && Answers(c, y, j) ensures x.wtxid == y.wtxid {
        assert x in all && y in all;
      }
    }
  }

  lemma NoneAnswers(c: Compact, pool: seq<Tx>, extra: seq<Tx>, j: nat)
    requires j < |c.shortIds| && !Met(c, pool + extra, j)
    ensures forall x :: x in pool + extra ==> !Answers(c, x, j)
    ensures forall k :: 0 <= k < |pool| ==> !Answers(c, pool[k], j)
  {
    var seen := pool + extra;
    forall x | x in seen ensures !Answers(c, x, j) {
      var k :| 0 <= k < |seen| && seen[k] == x;
    }
    forall k | 0 <= k < |pool| ensures !Answers(c, pool[k], j) { assert seen[k] == pool[k]; }
  }

  /** The matching after slot `j` got `x`. */
  ghost predicate Changed(m: Matching, k: nat, x: Option<Tx>, m': Matching) {
    && k < |m.slots| == |m.have| && m'.slots == m.slots[k := x] && m'.have == m.have[k := true]
    && m'.count == m.count + (if x.Some? then 1 else 0) - (if m.slots[k].Some? then 1 else 0)
  }

  /** One more transaction has been scanned; the mempool comes first. */
  ghost predicate Scanned(pool: seq<Tx>, extra: seq<Tx>, tx: Tx, pool': seq<Tx>, extra': seq<Tx>) {
    (pool' == pool + [tx] && extra == extra' == []) || (pool' == pool && extra' == extra + [tx])
  }

  /** A slot that the transaction does not answer to stays as it is. */
  lemma SlotKept(c: Compact, at: seq<nat>, m: Matching, m': Matching, j: nat, pool: seq<Tx>, extra: seq<Tx>, tx: Tx,
                 pool': seq<Tx>, extra': seq<Tx>)
    requires |at| == |c.shortIds| && j < |at| && at[j] < |m.slots| == |m.have| == |m'.slots| == |m'.have|
    requires SlotOk(c, at, m, j, pool, extra) && Scanned(pool, extra, tx, pool', extra') && !Answers(c, tx, j)
    requires m'.slots[at[j]] == m.slots[at[j]] && m'.have[at[j]] == m.have[at[j]]
    ensures SlotOk(c, at, m', j, pool', extra')
  {
    assert pool' + extra' == pool + extra + [tx];
    MetNext(c, pool + extra, tx, j);
    if pool' == pool { OneInExtra(c, pool, extra, tx, j); } else { OneInPool(c, pool, tx, j); }
  }

  lemma MatchMiss(c: Compact, base: Slots, at: seq<nat>, m: Matching, pool: seq<Tx>, extra: seq<Tx>, tx: Tx,
                  pool': seq<Tx>, extra': seq<Tx>, c0: nat)
    requires MatchOk(c, base, at, m, pool, extra, c0) && Scanned(pool, extra, tx, pool', extra')
    requires forall j :: 0 <= j < |at| ==> !Answers(c, tx, j)
    ensures MatchOk(c, base, at, m, pool', extra', c0)
  {
    forall j | 0 <= j < |at| ensures SlotOk(c, at, m, j, pool', extra') {
      SlotKept(c, at, m, m, j, pool, extra, tx, pool', extra');
    }
  }

  /** A transaction that answers to slot `j`. */
  lemma MatchHit(c: Compact, base: Slots, at: seq<nat>, m: Matching, pool: seq<Tx>, extra: seq<Tx>, tx: Tx,
                 pool': seq<Tx>, extra': seq<Tx>, c0: nat, j: nat, x: Option<Tx>, m': Matching)
    requires MatchOk(c, base, at, m, pool, extra, c0) && Scanned(pool, extra, tx, pool', extra')
    requires j < |at| && Answers(c, tx, j) && Distinct(c.shortIds) && Changed(m, at[j], x, m')
    requires x.Some? ==> x.value in pool' + extra' && Answers(c, x.value, j)
    requires x.Some? <==> Unambiguous(c, pool', extra', j)
    ensures MatchOk(c, base, at, m', pool', extra', c0)
  {
    GainedChange(base, at, m.slots, j, x, |at|);
    assert base[at[j]].None?;
    assert pool' + extra' == pool + extra + [tx];
    forall i | 0 <= i < |at| ensures SlotOk(c, at, m', i, pool', extra') {
      if i == j {
        MetNext(c, pool + extra, tx, j);
      } else {
        if at[i] == at[j] { AtDistinct(base, at, i, j); }
        assert SlotOk(c, at, m, i, pool, extra);
        SlotKept(c, at, m, m', i, pool, extra, tx, pool', extra');
      }
    }
  }

  /** Which slot a transaction answers to. */
  lemma HitSlot(c: Compact, base: Slots, at: seq<nat>, t: map<nat, nat>, tx: Tx) returns (j: nat)
    requires OneToOne(c, base, at, t)
    ensures if c.shortId(tx.wtxid) in t then j < |at| && Answers(c, tx, j) && t[c.shortId(tx.wtxid)] == at[j]
            else forall i :: 0 <= i < |at| ==> !Answers(c, tx, i)
  {
    j := 0;
    if c.shortId(tx.wtxid) in t {
      j :| 0 <= j < |c.shortIds| && c.shortIds[j] == c.shortId(tx.wtxid);
    } else {
      forall i | 0 <= i < |at| ensures !Answers(c, tx, i) { assert c.shortIds[i] in c.shortIds; }
    }
  }

  /** One turn of the mempool loop. */
  method MatchPool(c: Compact, t: map<nat, nat>, m0: Matching, tx: Tx, ghost base: Slots, ghost at: seq<nat>,
                   ghost pool: seq<Tx>, ghost c0: nat)
    returns (m: Matching)
    requires OneToOne(c, base, at, t) && MatchOk(c, base, at, m0, pool, [], c0)
    ensures MatchOk(c, base, at, m, pool + [tx], [], c0)
  {
    m := m0;
    ghost var j := HitSlot(c, base, at, t, tx);
    var id := c.shortId(tx.wtxid);
    if id in t {
      var k := t[id];
      SlotFacts(c, base, at, m0, pool, [], c0, j);
      OneInPool(c, pool, tx, j);
      if !m.have[k] {
        m := Matching(m.slots[k := Some(tx)], m.have[k := true], m.count + 1);
        MatchHit(c, base, at, m0, pool, [], tx, pool + [tx], [], c0, j, Some(tx), m);
      } else {
        if m.slots[k].Some? {
          m := Matching(m.slots[k := None], m.have, m.count - 1);
        }
        MatchHit(c, base, at, m0, pool, [], tx, pool + [tx], [], c0, j, None, m);
      }
    } else {
      MatchMiss(c, base, at, m0, pool, [], tx, pool + [tx], [], c0);
    }
  }

  lemma SlotFacts(c: Compact, base: Slots, at: seq<nat>, m: Matching, pool: seq<Tx>, extra: seq<Tx>, c0: nat, j: nat)
    requires MatchOk(c, base, at, m, pool, extra, c0) && j < |at|
    ensures at[j] < |m.slots| && SlotOk(c, at, m, j, pool, extra) && (m.slots[at[j]].Some? ==> m.count > 0)
    ensures pool + [] == pool
  {
    assert SlotOk(c, at, m, j, pool, extra);
    GainedAll(m.slots, at, |at|);
  }

  /** One turn of the loop over the extra transactions. */
  method MatchExtra(c: Compact, t: map<nat, nat>, m0: Matching, tx: Tx, ghost base: Slots, ghost at: seq<nat>,
                    ghost pool: seq<Tx>, ghost extra: seq<Tx>, ghost c0: nat)
    returns (m: Matching)
    requires OneToOne(c, base, at, t) && MatchOk(c, base, at, m0, pool, extra, c0)
    ensures MatchOk(c, base, at, m, pool, extra + [tx], c0)
  {
    m := m0;
    ghost var j := HitSlot(c, base, at, t, tx);
    var id := c.shortId(tx.wtxid);
    if id in t {
      var k := t[id];
      SlotFacts(c, base, at, m0, pool, extra, c0, j);
      ExtraTurn(c, pool, extra, tx, j, m.slots[k]);
      if !m.have[k] {
        m := Matching(m.slots[k := Some(tx)], m.have[k := true], m.count + 1);
        MatchHit(c, base, at, m0, pool, extra, tx, pool, extra + [tx], c0, j, Some(tx), m);
      } else {
        if m.slots[k].Some? && m.slots[k].value.wtxid != tx.wtxid {
          m := Matching(m.slots[k := None], m.have, m.count - 1);
        }
        MatchHit(c, base, at, m0, pool, extra, tx, pool, extra + [tx], c0, j, m.slots[k], m);
      }
    } else {
      MatchMiss(c, base, at, m0, pool, extra, tx, pool, extra + [tx], c0);
    }
  }

  /** What an answer among the extra transactions does to a slot that holds `x`. */
  lemma ExtraTurn(c: Compact, pool: seq<Tx>, extra: seq<Tx>, tx: Tx, j: nat, x: Option<Tx>)
    requires j < |c.shortIds| && Answers(c, tx, j)
    requires x.Some? ==> x.value in pool + extra && Answers(c, x.value, j)
    requires x.Some? <==> Met(c, pool + extra, j) && Unambiguous(c, pool, extra, j)
    ensures Unambiguous(c, pool, extra + [tx], j) <==>
              !Met(c, pool + extra, j) || (x.Some? && x.value.wtxid == tx.wtxid)
    ensures tx in pool + (extra + [tx]) && (x.Some? ==> x.value in pool + (extra + [tx]))
  {
    OneInExtra(c, pool, extra, tx, j);
    if Met(c, pool + extra, j) {
      var k :| 0 <= k < |pool + extra| && Answers(c, (pool + extra)[k], j);
      assert (pool + extra)[k] in pool + extra;
    }
    assert pool + (extra + [tx]) == pool + extra + [tx];
  }

  // ----- the two loops

  /** Every free slot has its transaction. */
  ghost predicate AllFilled(at: seq<nat>, slots: Slots) {
    forall j :: 0 <= j < |at| ==> at[j] < |slots| && slots[at[j]].Some?
  }

  method MatchFromPool(c: Compact, t: map<nat, nat>, base: Slots, pool: seq<Tx>, c0: nat, ghost at: seq<nat>)
    returns (m: Matching, ghost p: nat)
    requires OneToOne(c, base, at, t)
    ensures p <= |pool| && MatchOk(c, base, at, m, pool[..p], [], c0)
    ensures c0 == 0 ==> p == |pool| || AllFilled(at, m.slots)
  {
    m := Matching(base, seq(|base|, _ => false), c0);
    MatchStart(c, base, at, c0);
    TableCount(c, base, at, t);
    var i := 0;
    assert pool[..0] == [];
    while i < |pool|
      invariant i <= |pool| && MatchOk(c, base, at, m, pool[..i], [], c0)
    {
      m := MatchPool(c, t, m, pool[i], base, at, pool[..i], c0);
      assert pool[..i + 1] == pool[..i] + [pool[i]];
      i := i + 1;
      if m.count == |t| { break; }
    }
    p := i;
    if p < |pool| && c0 == 0 { GainedAll(m.slots, at, |at|); }
  }

  method MatchFromExtra(c: Compact, t: map<nat, nat>, m0: Matching, extra: seq<Tx>, ghost base: Slots, ghost c0: nat,
                        ghost pool: seq<Tx>, ghost at: seq<nat>)
    returns (m: Matching, ghost e: nat)
    requires OneToOne(c, base, at, t) && MatchOk(c, base, at, m0, pool, [], c0)
    ensures e <= |extra| && MatchOk(c, base, at, m, pool, extra[..e], c0)
    ensures c0 == 0 ==> e == |extra| || AllFilled(at, m.slots)
  {
    TableCount(c, base, at, t);
    m := m0;
    var i := 0;
    assert extra[..0] == [];
    while i < |extra|
      invariant i <= |extra| && MatchOk(c, base, at, m, pool, extra[..i], c0)
    {
      m := MatchExtra(c, t, m, extra[i], base, at, pool, extra[..i], c0);
      assert extra[..i + 1] == extra[..i] + [extra[i]];
      i := i + 1;
      if m.count == |t| { break; }
    }
    e := i;
    if e < |extra| && c0 == 0 { GainedAll(m.slots, at, |at|); }
  }

  lemma TableCount(c: Compact, base: Slots, at: seq<nat>, t: map<nat, nat>)
    requires OneToOne(c, base, at, t)
    ensures |t| == |at|
  {
    assert t.Keys == SetOf(c.shortIds);
    assert |t| == |t.Keys|;
    SetSize(c.shortIds);
  }

  // ----- what reconstruction guarantees

  /**
   Slot `k` of a compact block after InitData: prefilled, or free or holding a transaction with the announced short id.
   */
  ghost predicate Matches(c: Compact, base: Slots, at: seq<nat>, slots: Slots, pool: seq<Tx>, extra: seq<Tx>) {
    && |at| == |c.shortIds| && Numbered(base, at) && |slots| == |base|
    && (forall k :: 0 <= k < |base| && base[k].Some? ==> slots[k] == base[k])
    && (forall j :: 0 <= j < |at| && slots[at[j]].Some? ==>
          slots[at[j]].value in pool + extra && Answers(c, slots[at[j]].value, j))
  }

  /** Whatever answers unambiguously has been found. */
  ghost predicate Complete(c: Compact, at: seq<nat>, slots: Slots, pool: seq<Tx>, extra: seq<Tx>) {
    && |at| == |c.shortIds|
    && (forall j :: 0 <= j < |at| && Unambiguous(c, pool, extra, j) && Met(c, pool + extra, j) ==>
          at[j] < |slots| && slots[at[j]].Some?)
  }

  /** Slot by slot, what `pool` and `extra` have answered: one transaction fills the slot, several leave it free. */
  ghost predicate Resolves(c: Compact, at: seq<nat>, slots: Slots, pool: seq<Tx>, extra: seq<Tx>) {
    && |at| == |c.shortIds|
    && forall j :: 0 <= j < |at| ==>
         at[j] < |slots| && (slots[at[j]].Some? <==> Met(c, pool + extra, j) && Unambiguous(c, pool, extra, j))
  }

  /**
   The slots after the first `p` of the mempool and the first `e` of the extra pool.  The scan of the mempool ends early
   only if every slot had its transaction then, and the scan of the extra pool only if every slot has it in the end.
   */
  ghost predicate FoundBy(c: Compact, at: seq<nat>, slots: Slots, pool: seq<Tx>, extra: seq<Tx>, p: nat, e: nat) {
    && p <= |pool| && e <= |extra| && Resolves(c, at, slots, pool[..p], extra[..e])
    && (p < |pool| ==> forall j :: 0 <= j < |c.shortIds| ==> Met(c, pool[..p], j) && Unambiguous(c, pool[..p], [], j))
    && (e < |extra| ==> AllFilled(at, slots))
  }

  ghost predicate Found(c: Compact, at: seq<nat>, slots: Slots, pool: seq<Tx>, extra: seq<Tx>) {
    exists p: nat, e: nat :: FoundBy(c, at, slots, pool, extra, p, e)
  }

  lemma MatchesNow(c: Compact, base: Slots, at: seq<nat>, m: Matching, pool: seq<Tx>, extra: seq<Tx>, p: nat, e: nat,
                   c0: nat)
    requires p <= |pool| && e <= |extra| && MatchOk(c, base, at, m, pool[..p], extra[..e], c0)
    ensures Matches(c, base, at, m.slots, pool, extra) && Resolves(c, at, m.slots, pool[..p], extra[..e])
  {
    forall j | 0 <= j < |at|
      ensures m.slots[at[j]].Some? ==> m.slots[at[j]].value in pool + extra && Answers(c, m.slots[at[j]].value, j)
      ensures m.slots[at[j]].Some? <==> Met(c, pool[..p] + extra[..e], j) && Unambiguous(c, pool[..p], extra[..e], j)
    {
      assert SlotOk(c, at, m, j, pool[..p], extra[..e]);
    }
  }

  /** Once the mempool has filled every slot. */
  lemma FilledByPool(c: Compact, base: Slots, at: seq<nat>, m: Matching, pool: seq<Tx>, c0: nat)
    requires MatchOk(c, base, at, m, pool, [], c0) && AllFilled(at, m.slots)
    ensures forall j :: 0 <= j < |c.shortIds| ==> Met(c, pool, j) && Unambiguous(c, pool, [], j)
  {
    assert pool + [] == pool;
    forall j | 0 <= j < |c.shortIds| ensures Met(c, pool, j) && Unambiguous(c, pool, [], j) {
      assert SlotOk(c, at, m, j, pool, []);
    }
  }

  lemma PrefixUnambiguous(c: Compact, pool: seq<Tx>, extra: seq<Tx>, p: nat, e: nat, j: nat)
    requires p <= |pool| && e <= |extra| && j < |c.shortIds| && Unambiguous(c, pool, extra, j)
    ensures Unambiguous(c, pool[..p], extra[..e], j)
  {
    forall x | x in pool[..p] + extra[..e] ensures x in pool + extra {}
  }

  lemma MetInPrefix(c: Compact, pool: seq<Tx>, extra: seq<Tx>, e: nat, j: nat)
    requires e <= |extra| && j < |c.shortIds| && Met(c, pool, j)
    ensures Met(c, pool + extra[..e], j)
  {
    var k :| 0 <= k < |pool| && Answers(c, pool[k], j);
    assert Answers(c, (pool + extra[..e])[k], j);
  }

  /** Whatever answers unambiguously has been found. */
  lemma FoundIsComplete(c: Compact, at: seq<nat>, slots: Slots, pool: seq<Tx>, extra: seq<Tx>)
    requires Found(c, at, slots, pool, extra)
    ensures Complete(c, at, slots, pool, extra)
  {
    var p: nat, e: nat :| FoundBy(c, at, slots, pool, extra, p, e);
    forall j | 0 <= j < |at| && Unambiguous(c, pool, extra, j) && Met(c, pool + extra, j)
      ensures at[j] < |slots| && slots[at[j]].Some?
    {
      PrefixUnambiguous(c, pool, extra, p, e, j);
      if p < |pool| {
        MetInPrefix(c, pool[..p], extra, e, j);
      } else if e == |extra| {
        assert pool[..p] == pool && extra[..e] == extra;
      }
    }
  }

  // ----- the object

  /** What FillBlock puts into slot `k`. */
  function FilledSlot(slots: Slots, missing: seq<Tx>, k: nat): Tx
    requires k < |slots| && Free(slots, |slots|) <= |missing|
  {
    if slots[k].Some? then slots[k].value else FreeMonotone(slots, k + 1, |slots|); missing[Free(slots, k)]
  }

  ghost function Rebuilt(slots: Slots, missing: seq<Tx>): (vtx: seq<Tx>)
    requires Free(slots, |slots|) <= |missing|
    ensures |vtx| == |slots| && forall k :: 0 <= k < |slots| ==> vtx[k] == FilledSlot(slots, missing, k)
  {
    seq(|slots|, k requires 0 <= k < |slots| => FilledSlot(slots, missing, k))
  }

  /** The checks made before anything is stored. */
  predicate Plausible(c: Compact) {
    c.header != 0 && TxCount(c) > 0 && TxCount(c) <= MAX_BLOCK_WEIGHT / MIN_SERIALIZABLE_TRANSACTION_WEIGHT
  }

  ghost predicate Acceptable(c: Compact) {
    Plausible(c) && forall i :: 0 <= i < |c.prefilled| ==> PlaceOk(c, i)
  }

  /** The slots before `i` moved out. */
  ghost function Emptied(a: Slots, i: nat): (r: Slots)
    requires i <= |a|
    ensures |r| == |a| && forall k :: 0 <= k < |a| ==> r[k] == if k < i then None else a[k]
  {
    seq(|a|, k requires 0 <= k < |a| => if k < i then None else a[k])
  }

  lemma EmptiedNone(a: Slots)
    ensures Emptied(a, 0) == a
  {
  }

  lemma EmptiedNext(a: Slots, i: nat)
    requires i < |a|
    ensures Emptied(a, i)[i := None] == Emptied(a, i + 1) && (a[i].None? ==> Emptied(a, i) == Emptied(a, i + 1))
  {
  }

  /** Filling stopped at the first empty slot for which no transaction was left; the slots before it are moved out. */
  ghost predicate StuckAt(a: Slots, given: nat, a': Slots) {
    exists i :: 0 <= i < |a| && a[i].None? && Free(a, i) == given && a' == Emptied(a, i)
  }

  /** Once too few transactions have arrived, those moved out are missing as well. */
  lemma {:induction false} LostIsMissing(a: Slots, i: nat, k: nat)
    requires i <= |a| && k <= |a|
    ensures Free(Emptied(a, i), k) == if k <= i then k else Free(a, k) + (i - Free(a, i))
  {
    if k > 0 { LostIsMissing(a, i, k - 1); }
  }

  lemma {:induction false} AllFree(a: Slots, k: nat)
    requires k <= |a| && Free(a, k) == k
    ensures forall j :: 0 <= j < k ==> a[j].None?
  {
    if k > 0 { AllFree(a, k - 1); }
  }

  lemma {:induction false} FreeStart(a: Slots, k: nat)
    requires k <= |a| && forall j :: 0 <= j < k ==> a[j].None?
    ensures Free(a, k) == k
  {
    if k > 0 { FreeStart(a, k - 1); }
  }

  /** Filling with `given` transactions stops before it has moved anything out. */
  predicate StopsAtOnce(a: Slots, given: nat) { given < |a| && forall k :: 0 <= k <= given ==> a[k].None? }

  /**
   The slot that stops the filling comes after as many others as there are transactions only if all of them are empty.
   */
  lemma StopsWhere(a: Slots, given: nat, i: nat)
    requires i < |a| && a[i].None? && Free(a, i) == given
    ensures i == given <==> StopsAtOnce(a, given)
  {
    if i == given {
      AllFree(a, i);
    } else if StopsAtOnce(a, given) {
      FreeStart(a, given + 1);
      FreeMonotone(a, given + 1, i);
    }
  }

  /**
   Asking again for what was missing at first is enough exactly if the filling stopped at once: otherwise the
   transactions that were moved out are missing as well.
   */
  lemma RetryNeedsMore(a: Slots, given: nat, a': Slots)
    requires StuckAt(a, given, a')
    ensures |a'| == |a| && Free(a', |a|) >= Free(a, |a|)
    ensures Free(a', |a|) == Free(a, |a|) <==> StopsAtOnce(a, given)
    ensures a' == a <==> StopsAtOnce(a, given)
  {
    var i :| 0 <= i < |a| && a[i].None? && Free(a, i) == given && a' == Emptied(a, i);
    LostIsMissing(a, i, |a|);
    StopsWhere(a, given, i);
    if Free(a, i) == i { AllFree(a, i); }
  }

  /** One transaction held, one missing and none delivered: afterwards two are missing. */
  lemma HeldTransactionIsLost(t: Tx)
    ensures StuckAt([Some(t), None], 0, [None, None]) && Free([Some(t), None], 2) == 1 && Free([None, None], 2) == 2
  {
    var a: Slots := [Some(t), None];
    assert Free(a, 0) == 0 && Free(a, 1) == 0 && Emptied(a, 1) == [None, None];
  }

  class PartiallyDownloadedBlock {
    var slots: Slots
    var header: nat
    var mempoolCount: nat

    constructor ()
      ensures slots == [] && header == 0 && mempoolCount == 0
    {
      slots := [];
      header := 0;
      mempoolCount := 0;
    }

    /** Within the 16-bit count limit every index used here fits its type. */
    method InitData(c: Compact, pool: seq<Tx>, extra: seq<Tx>, uneven: nat -> bool)
      returns (status: Status, ghost base: Slots, ghost at: seq<nat>)
      requires TxCount(c) <= MAX_UINT16
      modifies this
      ensures status == Invalid <==> !Acceptable(c) || old(header) != 0 || old(slots) != []
      ensures status == Ok <==>
                status != Invalid && Distinct(c.shortIds) && forall i :: 0 <= i < |c.shortIds| ==> !uneven(i)
      ensures status == Ok ==>
                header == c.header && Placed(c, base, |c.prefilled|) && Matches(c, base, at, slots, pool, extra)
      ensures status == Ok && old(mempoolCount) == 0 ==>
                && Found(c, at, slots, pool, extra) && Complete(c, at, slots, pool, extra)
                && mempoolCount == Gained(slots, at, |at|) <= |c.shortIds|
      ensures !Plausible(c) || old(header) != 0 || old(slots) != [] ==> header == old(header) && slots == old(slots)
      ensures Plausible(c) && old(header) == 0 && old(slots) == [] ==>
                && header == c.header
                && (status == Invalid ==> PlacedInPart(c, slots))
                && (status == Failed ==> Placed(c, slots, |c.prefilled|))
      ensures status != Ok ==> mempoolCount == old(mempoolCount)
    {
      base, at := [], [];
      if c.header == 0 || (|c.shortIds| == 0 && |c.prefilled| == 0) { return Invalid, base, at; }
      if |c.shortIds| + |c.prefilled| > MAX_BLOCK_WEIGHT / MIN_SERIALIZABLE_TRANSACTION_WEIGHT {
        return Invalid, base, at;
      }
      if header != 0 || slots != [] { return Invalid, base, at; }
      header := c.header;
      var ok;
      ok, slots := PlacePrefilled(c);
      if !ok { return Invalid, base, at; }
      base := slots;
      var t;
      status, t, at := NumberSlots(c, slots, uneven);
      if status != Ok { return; }
      ghost var c0 := mempoolCount;
      var m;
      ghost var p, e;
      m, p := MatchFromPool(c, t, slots, pool, mempoolCount, at);
      if p < |pool| && c0 == 0 { FilledByPool(c, base, at, m, pool[..p], c0); }
      m, e := MatchFromExtra(c, t, m, extra, base, c0, pool[..p], at);
      slots := m.slots;
      mempoolCount := m.count;
      MatchesNow(c, base, at, m, pool, extra, p, e, c0);
      if c0 == 0 {
        assert FoundBy(c, at, slots, pool, extra, p, e);
        FoundIsComplete(c, at, slots, pool, extra);
        GainedAll(m.slots, at, |at|);
      }
    }

    method IsTxAvailable(index: nat) returns (r: bool)
      requires header != 0 ==> index < |slots|
      ensures r <==> header != 0 && slots[index].Some?
    {
      if header == 0 { return false; }
      return slots[index].Some?;
    }

    /** The loop of FillBlock: slots are moved out in order, until a transaction is missing that did not come. */
    method TakeOver(missing: seq<Tx>) returns (ok: bool, offset: nat, vtx: seq<Tx>)
      modifies this`slots
      ensures ok <==> Free(old(slots), |old(slots)|) <= |missing|
      ensures ok ==> offset == Free(old(slots), |old(slots)|) && vtx == Rebuilt(old(slots), missing)
      ensures !ok ==> StuckAt(old(slots), |missing|, slots)
    {
      ghost var all := slots;
      offset, vtx := 0, [];
      EmptiedNone(all);
      for i := 0 to |slots|
        invariant |vtx| == i && offset == Free(all, i) && offset <= |missing| && slots == Emptied(all, i)
        invariant forall k :: 0 <= k < i && all[k].None? ==> Free(all, k) < offset
        invariant forall k :: 0 <= k < i ==> vtx[k] == if all[k].Some? then all[k].value else missing[Free(all, k)]
      {
        EmptiedNext(all, i);
        if slots[i].None? {
          if offset >= |missing| {
            FreeMonotone(all, i + 1, |all|);
            return false, offset, vtx;
          }
          vtx := vtx + [missing[offset]];
          offset := offset + 1;
        } else {
          vtx := vtx + [slots[i].value];
          slots := slots[i := None];
        }
      }
      ok := true;
    }

    /** What is missing comes from `missing`, in order. */
    method FillBlock(missing: seq<Tx>, mutated: Block -> bool) returns (status: Status, block: Block)
      modifies this
      ensures old(header) == 0 ==> status == Invalid && slots == old(slots) && header == 0
      ensures old(header) != 0 && Free(old(slots), |old(slots)|) > |missing| ==>
                && status == Invalid && header == old(header)
                && StuckAt(old(slots), |missing|, slots)
      ensures old(header) != 0 && Free(old(slots), |old(slots)|) <= |missing| ==>
                header == 0 && slots == [] && block == Block(old(header), Rebuilt(old(slots), missing))
      ensures status == Ok <==> old(header) != 0 && Free(old(slots), |old(slots)|) == |missing| && !mutated(block)
      ensures mempoolCount == old(mempoolCount)
    {
      block := Block(header, []);
      if header == 0 { return Invalid, block; }
      var ok, offset, vtx := TakeOver(missing);
      if !ok { return Invalid, block; }
      block := Block(header, vtx);
      header := 0;
      slots := [];
      if |missing| != offset { return Invalid, block; }
      if mutated(block) { return Failed, block; }
      return Ok, block;
    }
  }

  // ----- sender and receiver together

  /** The constructor from a block: the coinbase in full, the rest as short ids. */
  method Compress(block: Block, shortId: nat -> nat) returns (c: Compact)
    requires |block.vtx| > 0
    ensures c == Compressed(block, shortId)
  {
    var ids: seq<nat> := [];
    for i := 1 to |block.vtx|
      invariant ids == Compressed(block, shortId).shortIds[..i - 1]
    {
      ids := ids + [shortId(block.vtx[i].wtxid)];
    }
    c := Compact(block.header, shortId, ids, [Prefilled(0, block.vtx[0])]);
  }

  ghost function Compressed(block: Block, shortId: nat -> nat): (c: Compact)
    requires |block.vtx| > 0
    ensures TxCount(c) == |block.vtx| && c.shortId == shortId && c.header == block.header
    ensures c.prefilled == [Prefilled(0, block.vtx[0])]
    ensures forall i :: 0 <= i < |c.shortIds| ==> c.shortIds[i] == shortId(block.vtx[i + 1].wtxid)
  {
    Compact(block.header, shortId,
            seq<nat>(|block.vtx| - 1, i requires 0 <= i < |block.vtx| - 1 => shortId(block.vtx[i + 1].wtxid)),
            [Prefilled(0, block.vtx[0])])
  }

  /** The compact block was made for these transactions: prefilled ones in place, short ids of the others in order. */
  ghost predicate Describes(c: Compact, base: Slots, at: seq<nat>, vtx: seq<Tx>) {
    && |at| == |c.shortIds| && Numbered(base, at) && |base| == |vtx|
    && (forall k :: 0 <= k < |base| && base[k].Some? ==> base[k].value == vtx[k])
    && (forall j :: 0 <= j < |at| ==> Answers(c, vtx[at[j]], j))
  }

  /** No two different transactions among these have the same short id. */
  ghost predicate CollisionFree(c: Compact, txs: seq<Tx>) {
    forall x, y :: x in txs && y in txs && c.shortId(x.wtxid) == c.shortId(y.wtxid) ==> x == y
  }

  lemma {:induction false} SlotNumber(base: Slots, at: seq<nat>, k: nat)
    requires Numbered(base, at) && k < |base| && base[k].None? && |at| == Free(base, |base|)
    ensures Free(base, k) < |at| && at[Free(base, k)] == k
  {
    FreeMonotone(base, k + 1, |base|);
    var j := Free(base, k);
    if at[j] < k {
      FreeMonotone(base, at[j] + 1, k);
    } else if at[j] > k {
      FreeMonotone(base, k + 1, at[j]);
    }
  }

  /** Every filled slot holds the block's own transaction. */
  lemma FilledRight(c: Compact, base: Slots, at: seq<nat>, slots: Slots, vtx: seq<Tx>, pool: seq<Tx>, extra: seq<Tx>,
                    k: nat)
    requires Placed(c, base, |c.prefilled|) && Matches(c, base, at, slots, pool, extra) && Describes(c, base, at, vtx)
    requires CollisionFree(c, vtx + pool + extra) && k < |slots| && slots[k].Some?
    ensures slots[k].value == vtx[k]
  {
    if base[k].None? {
      SlotNumber(base, at, k);
      var j := Free(base, k);
      var x, y := slots[k].value, vtx[k];
      assert Answers(c, x, j) && Answers(c, y, j);
      assert x in pool + extra && y in vtx;
      assert x in vtx + pool + extra && y in vtx + pool + extra;
    }
  }

  /** The transactions for the free slots, in order: what the receiver asks for. */
  ghost function Missing(slots: Slots, vtx: seq<Tx>, n: nat): (r: seq<Tx>)
    requires n <= |slots| == |vtx|
    ensures |r| == Free(slots, n)
  {
    if n == 0 then [] else Missing(slots, vtx, n - 1) + if slots[n - 1].None? then [vtx[n - 1]] else []
  }

  lemma {:induction false} MissingAt(slots: Slots, vtx: seq<Tx>, n: nat, k: nat)
    requires k < n <= |slots| == |vtx| && slots[k].None?
    ensures Free(slots, k) < Free(slots, n) && Missing(slots, vtx, n)[Free(slots, k)] == vtx[k]
  {
    FreeMonotone(slots, k + 1, n);
    if k < n - 1 { MissingAt(slots, vtx, n - 1, k); }
  }

  /** With the right transactions in the filled slots, the missing ones complete the block. */
  lemma RebuiltRight(slots: Slots, vtx: seq<Tx>)
    requires |slots| == |vtx| && forall k :: 0 <= k < |slots| && slots[k].Some? ==> slots[k].value == vtx[k]
    ensures Rebuilt(slots, Missing(slots, vtx, |slots|)) == vtx
  {
    forall k | 0 <= k < |slots| ensures Rebuilt(slots, Missing(slots, vtx, |slots|))[k] == vtx[k] {
      if slots[k].None? { MissingAt(slots, vtx, |slots|, k); }
    }
  }

  lemma CompressedDescribes(block: Block, c: Compact, base: Slots, at: seq<nat>)
    requires |block.vtx| > 0 && c == Compressed(block, c.shortId) && Placed(c, base, 1) && |at| == |c.shortIds|
    requires Numbered(base, at)
    ensures Describes(c, base, at, block.vtx)
  {
    assert InPlace(c, base, 0) && Position(c.prefilled, -1) == -1 && Position(c.prefilled, 0) == 0;
    forall k | 0 < k < |base| ensures base[k].None? {}
    forall k | 0 <= k < |base| && base[k].Some? ensures base[k].value == block.vtx[k] { assert k == 0; }
    forall j | 0 <= j < |at| ensures at[j] == j + 1 { FreeAfterFirst(base, at[j]); }
  }

  lemma {:induction false} FreeAfterFirst(base: Slots, k: nat)
    requires 0 < k <= |base| && base[0].Some? && forall i :: 0 < i < |base| ==> base[i].None?
    ensures Free(base, k) == k - 1
  {
    if k > 1 { FreeAfterFirst(base, k - 1); } else { assert Free(base, 0) == 0; }
  }

  lemma PrefillFits(block: Block, c: Compact)
    requires 0 < |block.vtx| <= MAX_UINT16 && c == Compressed(block, c.shortId) && block.header != 0
    requires !block.vtx[0].empty
    ensures Acceptable(c)
  {
    assert Position(c.prefilled, -1) == -1 && Position(c.prefilled, 0) == 0;
  }

  lemma ShortIdsDistinct(block: Block, c: Compact)
    requires |block.vtx| > 0 && c == Compressed(block, c.shortId) && CollisionFree(c, block.vtx)
    requires forall i, j :: 0 <= i < j < |block.vtx| ==> block.vtx[i] != block.vtx[j]
    ensures Distinct(c.shortIds)
  {
    forall i, j | 0 <= i < j < |c.shortIds| ensures c.shortIds[i] != c.shortIds[j] {
      assert block.vtx[i + 1] in block.vtx && block.vtx[j + 1] in block.vtx && block.vtx[i + 1] != block.vtx[j + 1];
    }
  }

  /** The answer to the request for the slots that are not available. */
  method Request(p: PartiallyDownloadedBlock, vtx: seq<Tx>) returns (missing: seq<Tx>)
    requires p.header != 0 && |p.slots| == |vtx|
    ensures missing == Missing(p.slots, vtx, |p.slots|)
  {
    missing := [];
    for i := 0 to |vtx|
      invariant missing == Missing(p.slots, vtx, i)
    {
      var have := p.IsTxAvailable(i);
      if !have { missing := missing + [vtx[i]]; }
    }
  }

  /** A block sent compactly is rebuilt exactly, in whatever order the mempool is scanned. */
  method Relay(block: Block, shortId: nat -> nat, pool: seq<Tx>, extra: seq<Tx>, uneven: nat -> bool,
               mutated: Block -> bool)
    returns (status: Status, rebuilt: Block, missing: seq<Tx>)
    requires 0 < |block.vtx| <= MAX_UINT16 && block.header != 0 && !block.vtx[0].empty
    requires forall i, j :: 0 <= i < j < |block.vtx| ==> block.vtx[i] != block.vtx[j]
    requires CollisionFree(Compressed(block, shortId), block.vtx + pool + extra)
    ensures status == Ok <==> !mutated(block) && forall i :: 0 <= i < |block.vtx| - 1 ==> !uneven(i)
    ensures status == Ok ==> rebuilt == block
    ensures status == Ok && (forall i, j :: 0 <= i < j < |pool| ==> pool[i] != pool[j]) ==>
              forall k :: 0 < k < |block.vtx| ==> (block.vtx[k] in missing <==> block.vtx[k] !in pool + extra)
  {
    rebuilt, missing := Block(0, []), [];
    var c := Compress(block, shortId);
    PrefillFits(block, c);
    SubsetFree(c, block.vtx, pool, extra);
    ShortIdsDistinct(block, c);
    var p := new PartiallyDownloadedBlock();
    ghost var base, at;
    status, base, at := p.InitData(c, pool, extra, uneven);
    if status != Ok { return; }
    CompressedDescribes(block, c, base, at);
    forall k | 0 <= k < |p.slots| && p.slots[k].Some? ensures p.slots[k].value == block.vtx[k] {
      FilledRight(c, base, at, p.slots, block.vtx, pool, extra, k);
    }
    missing := Request(p, block.vtx);
    RebuiltRight(p.slots, block.vtx);
    RequestExact(block, c, base, at, p.slots, pool, extra, missing);
    status, rebuilt := p.FillBlock(missing, mutated);
  }

  lemma SubsetFree(c: Compact, vtx: seq<Tx>, pool: seq<Tx>, extra: seq<Tx>)
    requires CollisionFree(c, vtx + pool + extra)
    ensures CollisionFree(c, vtx)
  {
    forall x, y | x in vtx && y in vtx && c.shortId(x.wtxid) == c.shortId(y.wtxid) ensures x == y {
      assert x in vtx + pool + extra && y in vtx + pool + extra;
    }
  }

  /** With a duplicate-free mempool, only transactions found nowhere are asked for. */
  lemma RequestExact(block: Block, c: Compact, base: Slots, at: seq<nat>, slots: Slots, pool: seq<Tx>, extra: seq<Tx>,
                     missing: seq<Tx>)
    requires |block.vtx| > 0 && |slots| == |block.vtx| && missing == Missing(slots, block.vtx, |slots|)
    requires c == Compressed(block, c.shortId) && Placed(c, base, 1) && Describes(c, base, at, block.vtx)
    requires Matches(c, base, at, slots, pool, extra) && Complete(c, at, slots, pool, extra)
    requires CollisionFree(c, block.vtx + pool + extra)
    requires forall i, j :: 0 <= i < j < |block.vtx| ==> block.vtx[i] != block.vtx[j]
    ensures (forall i, j :: 0 <= i < j < |pool| ==> pool[i] != pool[j]) ==>
              forall k :: 0 < k < |block.vtx| ==> (block.vtx[k] in missing <==> block.vtx[k] !in pool + extra)
  {
    if forall i, j :: 0 <= i < j < |pool| ==> pool[i] != pool[j] {
      forall k | 0 < k < |block.vtx| ensures block.vtx[k] in missing <==> block.vtx[k] !in pool + extra {
        SlotExact(block, c, base, at, slots, pool, extra, k);
        if slots[k].None? { MissingAt(slots, block.vtx, |slots|, k); }
        if block.vtx[k] in missing { MissingOnly(slots, block.vtx, |slots|, block.vtx[k]); }
      }
    }
  }

  lemma {:induction false} MissingOnly(slots: Slots, vtx: seq<Tx>, n: nat, x: Tx)
    requires n <= |slots| == |vtx| && x in Missing(slots, vtx, n)
    ensures exists k :: 0 <= k < n && slots[k].None? && vtx[k] == x
  {
    if n > 0 && x in Missing(slots, vtx, n - 1) { MissingOnly(slots, vtx, n - 1, x); }
  }

  /** A slot beyond the coinbase is filled exactly when its transaction is known. */
  lemma SlotExact(block: Block, c: Compact, base: Slots, at: seq<nat>, slots: Slots, pool: seq<Tx>, extra: seq<Tx>,
                  k: nat)
    requires 0 < k < |block.vtx| && |slots| == |block.vtx| && c == Compressed(block, c.shortId) && Placed(c, base, 1)
    requires Describes(c, base, at, block.vtx) && Matches(c, base, at, slots, pool, extra)
    requires Complete(c, at, slots, pool, extra)
    requires CollisionFree(c, block.vtx + pool + extra) && forall i, j :: 0 <= i < j < |pool| ==> pool[i] != pool[j]
    ensures slots[k].Some? <==> block.vtx[k] in pool + extra
  {
    assert Position(c.prefilled, -1) == -1 && Position(c.prefilled, 0) == 0 && base[k].None?;
    SlotNumber(base, at, k);
    var j := Free(base, k);
    if slots[k].Some? { FilledRight(c, base, at, slots, block.vtx, pool, extra, k); }
    if block.vtx[k] in pool + extra {
      var i :| 0 <= i < |pool + extra| && (pool + extra)[i] == block.vtx[k];
      assert Answers(c, (pool + extra)[i], j);
      ClearByFreedom(c, block.vtx, pool, extra, j, block.vtx[k]);
    }
  }

  lemma ClearByFreedom(c: Compact, vtx: seq<Tx>, pool: seq<Tx>, extra: seq<Tx>, j: nat, y: Tx)
    requires CollisionFree(c, vtx + pool + extra) && (forall i, l :: 0 <= i < l < |pool| ==> pool[i] != pool[l])
    requires j < |c.shortIds| && y in vtx && Answers(c, y, j)
    ensures Unambiguous(c, pool, extra, j)
  {
    forall x | x in pool + extra && Answers(c, x, j) ensures x == y {
      assert x in vtx + pool + extra && y in vtx + pool + extra;
    }
    forall i, l | 0 <= i < l < |pool| && Answers(c, pool[i], j) ensures !Answers(c, pool[l], j) {
      assert pool[i] in pool + extra && pool[l] in pool + extra;
    }
  }
}
