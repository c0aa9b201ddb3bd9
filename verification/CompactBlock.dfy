module CompactBlock {

  /**
   Compact block reconstruction (BIP 152, sections "HeaderAndShortIDs" and "Short transaction IDs"): placing the
   prefilled transactions and numbering the slots that are left.
   */

  import opened Common

  const MAX_BLOCK_WEIGHT := 4000000
  const MIN_SERIALIZABLE_TRANSACTION_WEIGHT := 40
  const MAX_UINT16 := 65535

  datatype Tx = Tx(wtxid: nat, empty: bool)

  /** A block; header 0 stands for the null header. */
  datatype Block = Block(header: nat, vtx: seq<Tx>)

  datatype Prefilled = Prefilled(index: nat, tx: Tx)

  /** `shortId` is the keyed hash chosen by header and nonce. */
  datatype Compact = Compact(header: nat, shortId: nat -> nat, shortIds: seq<nat>, prefilled: seq<Prefilled>)

  function TxCount(c: Compact): nat { |c.shortIds| + |c.prefilled| }

  datatype Status = Ok | Invalid | Failed

  type Slots = seq<Option<Tx>>

  // ----- counting free slots

  /** How many of the first `k` slots are free. */
  function Free(a: Slots, k: nat): (n: nat)
    requires k <= |a|
    ensures n <= k
  {
    if k == 0 then 0 else Free(a, k - 1) + if a[k - 1].None? then 1 else 0
  }

  lemma {:induction false} FreeMonotone(a: Slots, j: nat, k: nat)
    requires j <= k <= |a|
    ensures Free(a, j) <= Free(a, k) <= Free(a, j) + (k - j)
    decreases k
  {
    if j < k { FreeMonotone(a, j, k - 1); }
  }

  lemma {:induction false} FreeFilled(a: Slots, p: nat, x: Option<Tx>, k: nat)
    requires p < |a| && k <= |a| && a[p].None? && x.Some?
    ensures Free(a[p := x], k) == Free(a, k) - if p < k then 1 else 0
  {
    if k > 0 {
      FreeFilled(a, p, x, k - 1);
    }
  }

  function Empty(n: nat): (a: Slots)
    ensures |a| == n && forall i :: 0 <= i < n ==> a[i].None?
  {
    seq(n, _ => None)
  }

  lemma {:induction false} FreeEmpty(n: nat, k: nat)
    requires k <= n
    ensures Free(Empty(n), k) == k
  {
    if k > 0 { FreeEmpty(n, k - 1); }
  }

  // ----- prefilled transactions

  /** Where prefilled transaction number `i` goes: indexes are given as gaps. */
  function Position(pre: seq<Prefilled>, i: int): (p: int)
    requires -1 <= i < |pre|
    ensures p >= i
  {
    if i < 0 then -1 else Position(pre, i - 1) + pre[i].index + 1
  }

  /** An index is the number of places left out since the prefilled transaction before. */
  lemma PositionIs(pre: seq<Prefilled>, i: nat)
    requires i < |pre|
    ensures pre[i].index == if i == 0 then Position(pre, 0) else Position(pre, i) - Position(pre, i - 1) - 1
  {
    assert i == 0 ==> Position(pre, i - 1) == -1;
  }

  predicate PlaceOk(c: Compact, i: nat)
    requires i < |c.prefilled|
  {
    !c.prefilled[i].tx.empty && Position(c.prefilled, i) <= MAX_UINT16 && Position(c.prefilled, i) <= |c.shortIds| + i
  }

  /** Prefilled transaction `i` is in its place. */
  ghost predicate InPlace(c: Compact, a: Slots, i: nat)
    requires i < |c.prefilled|
  {
    PlaceOk(c, i) && Position(c.prefilled, i) < |a| && a[Position(c.prefilled, i)] == Some(c.prefilled[i].tx)
  }

  ghost predicate Prefills(c: Compact, k: nat, n: nat)
    requires n <= |c.prefilled|
  {
    exists i :: 0 <= i < n && Position(c.prefilled, i) == k
  }

  /** The first `n` prefilled transactions are in their places, and nothing else is there. */
  ghost predicate Placed(c: Compact, a: Slots, n: nat)
    requires n <= |c.prefilled|
  {
    && |a| == TxCount(c)
    && (forall i :: 0 <= i < n ==> InPlace(c, a, i))
    && (forall k :: 0 <= k < |a| && a[k].Some? ==> Prefills(c, k, n))
    && (forall k :: Position(c.prefilled, n - 1) < k < |a| ==> a[k].None?)
    && Free(a, |a|) == |a| - n
  }

  /** The prefilled transactions before the first one that cannot be placed are in their places. */
  ghost predicate PlacedInPart(c: Compact, a: Slots) {
    exists i :: 0 <= i < |c.prefilled| && FirstBad(c, i) && Placed(c, a, i)
  }

  ghost predicate FirstBad(c: Compact, i: nat)
    requires i < |c.prefilled|
  {
    !PlaceOk(c, i) && forall j :: 0 <= j < i ==> PlaceOk(c, j)
  }

  method PlacePrefilled(c: Compact) returns (ok: bool, a: Slots)
    ensures ok <==> forall i :: 0 <= i < |c.prefilled| ==> PlaceOk(c, i)
    ensures ok ==> Placed(c, a, |c.prefilled|)
    ensures !ok ==> PlacedInPart(c, a)
  {
    a := Empty(TxCount(c));
    FreeEmpty(TxCount(c), TxCount(c));
    var last := -1;
    for i := 0 to |c.prefilled|
      invariant last == Position(c.prefilled, i - 1) && Placed(c, a, i) && forall j :: 0 <= j < i ==> PlaceOk(c, j)
    {
      assert !PlaceOk(c, i) ==> FirstBad(c, i);
      if c.prefilled[i].tx.empty { return false, a; }
      last := last + c.prefilled[i].index + 1;
      assert last == Position(c.prefilled, i);
      if last > MAX_UINT16 { return false, a; }
      if last > |c.shortIds| + i { return false, a; }
      PlacedNext(c, a, i);
      a := a[last := Some(c.prefilled[i].tx)];
    }
    ok := true;
  }

  lemma PlacedNext(c: Compact, a: Slots, i: nat)
    requires i < |c.prefilled| && Placed(c, a, i) && PlaceOk(c, i)
    ensures Position(c.prefilled, i) < |a| && Placed(c, a[Position(c.prefilled, i) := Some(c.prefilled[i].tx)], i + 1)
  {
    var p, x := Position(c.prefilled, i), Some(c.prefilled[i].tx);
    assert p > Position(c.prefilled, i - 1) && a[p].None?;
    FreeFilled(a, p, x, |a|);
    var b := a[p := x];
    PlacedCover(c, a, i, p, b);
    forall j | 0 <= j < i + 1 ensures InPlace(c, b, j) {
      if j < i {
        assert InPlace(c, a, j);
        PositionsGrow(c.prefilled, j, i);
      }
    }
  }

  lemma PlacedCover(c: Compact, a: Slots, i: nat, p: nat, b: Slots)
    requires i < |c.prefilled| && p < |a| == |b| && p == Position(c.prefilled, i)
    requires forall k :: 0 <= k < |a| && k != p ==> b[k] == a[k]
    requires forall k :: 0 <= k < |a| && a[k].Some? ==> Prefills(c, k, i)
    ensures forall k :: 0 <= k < |b| && b[k].Some? ==> Prefills(c, k, i + 1)
  {
    forall k | 0 <= k < |b| && b[k].Some? ensures Prefills(c, k, i + 1) {
      if k != p {
        assert Prefills(c, k, i);
        var j :| 0 <= j < i && Position(c.prefilled, j) == k;
      }
    }
  }

  lemma {:induction false} PositionsGrow(pre: seq<Prefilled>, j: int, i: int)
    requires -1 <= j < i < |pre|
    ensures Position(pre, j) < Position(pre, i)
    decreases i
  {
    if j < i - 1 { PositionsGrow(pre, j, i - 1); }
  }

  // ----- short ids and free slots

  /** `at[j]` is free slot number `j` of `base`. */
  ghost predicate Numbered(base: Slots, at: seq<nat>) {
    && (forall j :: 0 <= j < |at| ==> at[j] < |base| && base[at[j]].None? && Free(base, at[j]) == j)
  }

  /** The table of the first `n` short ids. */
  ghost predicate Table(c: Compact, at: seq<nat>, m: map<nat, nat>, n: nat)
    requires n <= |c.shortIds| && n <= |at|
  {
    && (forall id :: id in m <==> id in c.shortIds[..n])
    && (forall id :: id in m ==> exists j :: 0 <= j < n && c.shortIds[j] == id && m[id] == at[j])
  }

  /** Distinct short ids, so the table is one-to-one with the free slots. */
  ghost predicate OneToOne(c: Compact, base: Slots, at: seq<nat>, m: map<nat, nat>) {
    && |at| == |c.shortIds| && Numbered(base, at)
    && (forall i, j :: 0 <= i < j < |c.shortIds| ==> c.shortIds[i] != c.shortIds[j])
    && (forall id :: id in m <==> id in c.shortIds)
    && (forall j :: 0 <= j < |at| ==> m[c.shortIds[j]] == at[j])
  }

  /** Next free slot from `start` on; there is one, because more are free than have been numbered. */
  method NextFree(base: Slots, i: nat, start: nat) returns (slot: nat)
    requires start <= |base| && Free(base, start) == i && i < Free(base, |base|)
    ensures start <= slot < |base| && base[slot].None? && Free(base, slot) == i && Free(base, slot + 1) == i + 1
  {
    slot := start;
    assert slot < |base|;
    while base[slot].Some?
      invariant start <= slot < |base| && Free(base, slot) == i
      decreases |base| - slot
    {
      slot := slot + 1;
      assert Free(base, slot) == i;
    }
  }

  lemma NumberedNext(base: Slots, at: seq<nat>, slot: nat)
    requires Numbered(base, at) && slot < |base| && base[slot].None? && Free(base, slot) == |at|
    ensures Numbered(base, at + [slot])
  {
  }

  method NumberSlots(c: Compact, base: Slots, uneven: nat -> bool)
    returns (status: Status, m: map<nat, nat>, ghost at: seq<nat>)
    requires Placed(c, base, |c.prefilled|)
    ensures status != Invalid
    ensures status == Ok ==> OneToOne(c, base, at, m)
    ensures status == Ok <==> Distinct(c.shortIds) && forall i :: 0 <= i < |c.shortIds| ==> !uneven(i)
  {
    m, at := map[], [];
    var next := 0;
    for i := 0 to |c.shortIds|
      invariant i <= next <= |base| && |at| == i && Free(base, next) == i && Numbered(base, at)
      invariant Table(c, at, m, i) && forall k :: 0 <= k < i ==> !uneven(k)
    {
      var slot := NextFree(base, i, next);
      TableNext(c, at, m, i, slot);
      NumberedNext(base, at, slot);
      m := m[c.shortIds[i] := slot];
      at := at + [slot];
      next := slot + 1;
      if uneven(i) { return Failed, m, at; }
    }
    TableSize(c, at, m);
    if |m| != |c.shortIds| { return Failed, m, at; }
    status := Ok;
    OneToOneHolds(c, base, at, m);
  }

  lemma TableNext(c: Compact, at: seq<nat>, m: map<nat, nat>, n: nat, slot: nat)
    requires n < |c.shortIds| && |at| == n && Table(c, at, m, n)
    ensures Table(c, at + [slot], m[c.shortIds[n] := slot], n + 1)
  {
    var m', at' := m[c.shortIds[n] := slot], at + [slot];
    assert c.shortIds[..n + 1] == c.shortIds[..n] + [c.shortIds[n]];
    forall id | id in m' ensures exists j :: 0 <= j < n + 1 && c.shortIds[j] == id && m'[id] == at'[j] {
      if id == c.shortIds[n] {
        assert c.shortIds[n] == id && m'[id] == at'[n];
      } else {
        var j :| 0 <= j < n && c.shortIds[j] == id && m[id] == at[j];
        assert m'[id] == at'[j];
      }
    }
  }

  ghost function SetOf(ids: seq<nat>): set<nat> { set x | x in ids }

  lemma {:induction false} SetSize(ids: seq<nat>)
    ensures |SetOf(ids)| <= |ids|
    ensures |SetOf(ids)| == |ids| <==> Distinct(ids)
  {
    if ids != [] {
      var l := |ids| - 1;
      SetSize(ids[..l]);
      assert SetOf(ids) == SetOf(ids[..l]) + {ids[l]};
      if Distinct(ids) {
        assert ids[l] !in ids[..l];
      } else if Distinct(ids[..l]) && ids[l] !in ids[..l] {
        DistinctAppend(ids);
      }
    }
  }

  lemma DistinctAppend(ids: seq<nat>)
    requires ids != [] && Distinct(ids[..|ids| - 1]) && ids[|ids| - 1] !in ids[..|ids| - 1]
    ensures Distinct(ids)
  {
    var l := |ids| - 1;
    var pre := ids[..l];
    forall i, j | 0 <= i < j < |ids| ensures ids[i] != ids[j] {
      assert pre[i] == ids[i] && pre[i] in pre;
      if j < l { assert pre[j] == ids[j]; }
    }
  }

  lemma TableSize(c: Compact, at: seq<nat>, m: map<nat, nat>)
    requires |at| == |c.shortIds| && Table(c, at, m, |at|)
    ensures |m| == |c.shortIds| <==> Distinct(c.shortIds)
  {
    assert c.shortIds[..|at|] == c.shortIds;
    assert m.Keys == SetOf(c.shortIds);
    assert |m| == |m.Keys|;
    SetSize(c.shortIds);
  }

  lemma OneToOneHolds(c: Compact, base: Slots, at: seq<nat>, m: map<nat, nat>)
    requires |at| == |c.shortIds| && Numbered(base, at) && Table(c, at, m, |at|) && Distinct(c.shortIds)
    ensures OneToOne(c, base, at, m)
  {
    assert c.shortIds[..|at|] == c.shortIds;
    forall j | 0 <= j < |at| ensures m[c.shortIds[j]] == at[j] {
      assert c.shortIds[j] in m;
      var k :| 0 <= k < |at| && c.shortIds[k] == c.shortIds[j] && m[c.shortIds[j]] == at[k];
    }
  }
}
