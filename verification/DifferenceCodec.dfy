module DifferenceCodec {

  /** The differential index encoding of compact block requests: each index as its distance from the one before. */

  import opened Common
  import opened Closed

  const MAX_UINT64 := 0xffff_ffff_ffff_ffff
  const MODULUS := 0x1_0000_0000_0000_0000

  /** The largest number that ReadCompactSize accepts; WriteCompactSize has no such limit. */
  const MAX_SIZE := 0x0200_0000

  /** DifferenceFormatter: one object per vector, its shift running along. */
  class Formatter {
    var shift: nat

    constructor ()
      ensures shift == 0
    {
      shift := 0;
    }

    /** Writes `v` as a distance; None stands for the overflow error. */
    method Ser(v: nat) returns (r: Option<nat>)
      requires v <= MAX_UINT64
      modifies this
      ensures r.Some? <==> old(shift) <= v < MAX_UINT64
      ensures r.Some? ==> r.value == v - old(shift) && shift == v + 1
      ensures r.None? ==> shift == old(shift)
    {
      if v < shift || v >= MAX_UINT64 { return None; }
      r := Some(v - shift);
      shift := v + 1;
    }

    /** Reads a distance into a value of a type with maximum `max`; the addition wraps around at 64 bits. */
    method Unser(n: nat, max: nat) returns (r: Option<nat>)
      requires n <= MAX_UINT64 && shift <= MAX_UINT64
      modifies this
      ensures r.Some? <==> n <= MAX_SIZE && old(shift) + n < MAX_UINT64 && old(shift) + n <= max
      ensures r.Some? ==> r.value == old(shift) + n && shift == r.value + 1
      ensures shift <= MAX_UINT64
    {
      if n > MAX_SIZE { return None; }
      shift := (shift + n) % MODULUS;
      if shift < n || shift >= MAX_UINT64 || shift > max { return None; }
      r := Some(shift);
      shift := shift + 1;
    }
  }

  /** Strictly ascending, and below the largest 64-bit value. */
  ghost predicate Ascending(vs: seq<nat>) {
    (forall i, j :: 0 <= i < j < |vs| ==> vs[i] < vs[j]) && forall i :: 0 <= i < |vs| ==> vs[i] < MAX_UINT64
  }

  ghost function After(vs: seq<nat>): nat { if vs == [] then 0 else vs[|vs| - 1] + 1 }

  /** The distances of a list of indexes. */
  ghost function Distances(vs: seq<nat>): (r: seq<int>)
    ensures |r| == |vs|
  {
    if vs == [] then [] else Distances(vs[..|vs| - 1]) + [vs[|vs| - 1] - After(vs[..|vs| - 1])]
  }

  /** Each index is written as the number of indexes left out since the one before. */
  lemma {:induction false} DistanceIs(vs: seq<nat>, i: nat)
    requires i < |vs|
    ensures vs[i] == Distances(vs)[i] + if i == 0 then 0 else vs[i - 1] + 1
    decreases |vs|
  {
    if i < |vs| - 1 { DistanceIs(vs[..|vs| - 1], i); }
  }

  method WriteAll(vs: seq<nat>) returns (r: Option<seq<nat>>)
    requires forall i :: 0 <= i < |vs| ==> vs[i] <= MAX_UINT64
    ensures r.Some? <==> Ascending(vs)
    ensures r.Some? ==> r.value == Distances(vs)
  {
    var f := new Formatter();
    var out: seq<nat> := [];
    WriteStart(vs);
    for i := 0 to |vs|
      invariant Wrote(vs, i, out, f.shift)
      invariant fresh(f)
    {
      WriteStep(vs, i, out, f.shift);
      var d := f.Ser(vs[i]);
      if d.None? { return None; }
      out := out + [d.value];
    }
    WriteDone(vs, out, f.shift);
    r := Some(out);
  }

  /** The first `n` indexes have been written; kept closed. */
  ghost predicate Wrote(vs: seq<nat>, n: nat, out: seq<nat>, shift: nat)
    requires n <= |vs|
  {
    forall key: int :: Key(0, key) ==> Ascending(vs[..n]) && shift == After(vs[..n]) && out == Distances(vs[..n])
  }

  lemma WriteStart(vs: seq<nat>)
    ensures Wrote(vs, 0, [], 0)
  {
  }

  lemma WriteStep(vs: seq<nat>, n: nat, out: seq<nat>, shift: nat)
    requires n < |vs| && Wrote(vs, n, out, shift)
    ensures shift <= vs[n] < MAX_UINT64 ==> Wrote(vs, n + 1, out + [vs[n] - shift], vs[n] + 1)
    ensures !(shift <= vs[n] < MAX_UINT64) ==> !Ascending(vs)
  {
    assert Key(0, 0);
    var pre, v := vs[..n], vs[n];
    assert vs[..n + 1] == pre + [v];
    AscendingNext(pre, v);
    DistancesNext(pre, v);
    if !(shift <= v < MAX_UINT64) { NotAscending(vs, n + 1); }
  }

  lemma WriteDone(vs: seq<nat>, out: seq<nat>, shift: nat)
    requires Wrote(vs, |vs|, out, shift)
    ensures Ascending(vs) && out == Distances(vs)
  {
    assert Key(0, 0);
    assert vs[..|vs|] == vs;
  }

  lemma DistancesNext(vs: seq<nat>, v: nat)
    ensures Distances(vs + [v]) == Distances(vs) + [v - After(vs)]
  {
    assert (vs + [v])[..|vs|] == vs;
  }

  lemma AscendingNext(vs: seq<nat>, v: nat)
    requires Ascending(vs)
    ensures Ascending(vs + [v]) <==> After(vs) <= v < MAX_UINT64
  {
    var ws := vs + [v];
    assert ws[|vs|] == v;
    if vs != [] { assert ws[|vs| - 1] == vs[|vs| - 1]; }
  }

  lemma NotAscending(vs: seq<nat>, n: nat)
    requires n <= |vs| && !Ascending(vs[..n])
    ensures !Ascending(vs)
  {
    if Ascending(vs) {
      forall i, j | 0 <= i < j < n ensures vs[..n][i] < vs[..n][j] {}
    }
  }

  /** No distance is too large to be read. */
  ghost predicate Readable(ds: seq<int>) { forall i :: 0 <= i < |ds| ==> ds[i] <= MAX_SIZE }

  method ReadAll(ds: seq<nat>, max: nat) returns (r: Option<seq<nat>>, ghost vs: seq<nat>)
    requires forall i :: 0 <= i < |ds| ==> ds[i] <= MAX_UINT64
    ensures r.Some? ==> r.value == vs && ReadNow(ds, vs, After(vs), max)
    ensures r.None? ==> !Readable(ds) || Exceeds(ds, max)
  {
    var f := new Formatter();
    var out: seq<nat> := [];
    vs := [];
    for i := 0 to |ds|
      invariant ReadSoFar(ds, i, out, f.shift, max) && f.shift <= MAX_UINT64
      invariant fresh(f)
    {
      ReadStep(ds, i, out, f.shift, max);
      var v := f.Unser(ds[i], max);
      if v.None? { return None, []; }
      out := out + [v.value];
    }
    ReadDone(ds, out, f.shift, max);
    vs := out;
    r := Some(out);
  }

  /** The first `n` distances have been read; kept closed. */
  ghost predicate ReadSoFar(ds: seq<nat>, n: nat, out: seq<nat>, shift: nat, max: nat)
    requires n <= |ds|
  {
    forall key: int :: Key(1, key) ==> ReadNow(ds[..n], out, shift, max)
  }

  /** Every list with these distances has an index beyond `max`. */
  ghost predicate Exceeds(ds: seq<nat>, max: nat) {
    forall ws :: Ascending(ws) && Distances(ws) == ds ==> exists i :: 0 <= i < |ws| && ws[i] > max
  }

  /** The list read has exactly these distances, which could all be read, and fits the type. */
  ghost predicate ReadNow(ds: seq<nat>, out: seq<nat>, shift: nat, max: nat) {
    && Ascending(out) && shift == After(out) && Distances(out) == ds
    && (forall k :: 0 <= k < |out| ==> out[k] <= max) && Readable(ds)
  }

  lemma ReadStep(ds: seq<nat>, n: nat, out: seq<nat>, shift: nat, max: nat)
    requires n < |ds| && ReadSoFar(ds, n, out, shift, max)
    ensures ds[n] <= MAX_SIZE && shift + ds[n] < MAX_UINT64 && shift + ds[n] <= max ==>
              ReadSoFar(ds, n + 1, out + [shift + ds[n]], shift + ds[n] + 1, max)
    ensures ds[n] > MAX_SIZE ==> !Readable(ds)
    ensures shift + ds[n] >= MAX_UINT64 || shift + ds[n] > max ==> Exceeds(ds, max)
  {
    assert Key(1, 0);
    assert ReadNow(ds[..n], out, shift, max);
    var v := shift + ds[n];
    if ds[n] <= MAX_SIZE && v < MAX_UINT64 && v <= max {
      ReadOne(ds[..n], out, shift, max, ds[n]);
      assert ds[..n + 1] == ds[..n] + [ds[n]];
    }
    if v >= MAX_UINT64 || v > max {
      forall ws | Ascending(ws) && Distances(ws) == ds ensures exists k :: 0 <= k < |ws| && ws[k] > max {
        TooLarge(ws, out, ds, n, max);
      }
    }
  }

  lemma ReadOne(ds: seq<nat>, out: seq<nat>, shift: nat, max: nat, d: nat)
    requires ReadNow(ds, out, shift, max) && d <= MAX_SIZE && shift + d < MAX_UINT64 && shift + d <= max
    ensures ReadNow(ds + [d], out + [shift + d], shift + d + 1, max)
  {
    AscendingNext(out, shift + d);
    DistancesNext(out, shift + d);
  }

  lemma ReadDone(ds: seq<nat>, out: seq<nat>, shift: nat, max: nat)
    requires ReadSoFar(ds, |ds|, out, shift, max)
    ensures ReadNow(ds, out, shift, max) && shift == After(out)
  {
    assert Key(1, 0);
    assert ds[..|ds|] == ds;
  }

  /** The distances determine the list. */
  lemma {:induction false} DistancesPrefix(ws: seq<nat>, n: nat)
    requires n <= |ws|
    ensures Distances(ws)[..n] == Distances(ws[..n])
    decreases |ws|
  {
    if n < |ws| {
      var l := |ws| - 1;
      DistancesPrefix(ws[..l], n);
      assert ws[..l][..n] == ws[..n];
    } else {
      assert ws[..n] == ws;
    }
  }

  lemma {:induction false} DistancesInjective(a: seq<nat>, b: seq<nat>)
    requires Distances(a) == Distances(b)
    ensures a == b
    decreases |a|
  {
    assert |a| == |Distances(a)| == |Distances(b)| == |b|;
    if a != [] {
      var l := |a| - 1;
      DistancesPrefix(a, l);
      DistancesPrefix(b, l);
      DistancesInjective(a[..l], b[..l]);
      assert Distances(a)[l] == Distances(b)[l];
      assert a == a[..l] + [a[l]] && b == b[..l] + [b[l]];
    }
  }

  lemma TooLarge(ws: seq<nat>, out: seq<nat>, ds: seq<nat>, i: nat, max: nat)
    requires Ascending(ws) && Distances(ws) == ds && i < |ds| && |out| == i && Distances(out) == ds[..i]
    requires After(out) + ds[i] >= MAX_UINT64 || After(out) + ds[i] > max
    ensures exists k :: 0 <= k < |ws| && ws[k] > max
  {
    assert |ws| == |ds|;
    DistancesPrefix(ws, i);
    DistancesInjective(ws[..i], out);
    DistancesPrefix(ws, i + 1);
    assert ws[..i + 1][..i] == ws[..i];
    assert Distances(ws[..i + 1])[i] == ws[i] - After(ws[..i]);
    assert ws[i] == After(out) + ds[i];
  }

  /** Indexes are read back exactly if they can be written and no distance is beyond what can be read. */
  method RoundTrip(vs: seq<nat>, max: nat) returns (r: Option<seq<nat>>)
    requires forall i :: 0 <= i < |vs| ==> vs[i] <= max <= MAX_UINT64
    ensures r == if Ascending(vs) && Readable(Distances(vs)) then Some(vs) else None
  {
    var w := WriteAll(vs);
    if w.None? { return None; }
    DistancesSmall(vs);
    ghost var out;
    r, out := ReadAll(w.value, max);
    if r.Some? { DistancesInjective(out, vs); }
  }

  /** The indexes of a request have 16 bits, so for them every list that is written is read back. */
  lemma ShortIndexesReadBack(vs: seq<nat>)
    requires Ascending(vs) && forall i :: 0 <= i < |vs| ==> vs[i] <= 0xffff
    ensures Readable(Distances(vs))
  {
    DistancesSmall(vs);
  }

  /** A wider index can be written and not read. */
  lemma WideIndexIsLost()
    ensures Ascending([MAX_SIZE + 1]) && !Readable(Distances([MAX_SIZE + 1]))
  {
    assert Distances([MAX_SIZE + 1])[0] == MAX_SIZE + 1;
  }

  lemma {:induction false} DistancesSmall(vs: seq<nat>)
    requires Ascending(vs)
    ensures forall i :: 0 <= i < |vs| ==> 0 <= Distances(vs)[i] <= vs[i] < MAX_UINT64
  {
    if vs != [] {
      var l := |vs| - 1;
      DistancesSmall(vs[..l]);
      if l > 0 { assert vs[l - 1] < vs[l]; }
    }
  }
}
