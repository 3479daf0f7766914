/** Cluster chains in the allocation table: runs of k entries that are used together, and the chains of files (fs/fatfs.c). */
module FatChains {
  import opened Arithmetic

  const USED: nat := 0xFFFF_FFFF
  const BY2PG: nat := 4096
  const E_NO_DISK: int := 8

  /** Entries handed out together: a page's worth of clusters, or one when a cluster fills a page. */
  function RunLength(bytsPerCluster: nat): (k: nat)
    requires bytsPerCluster > 0
    ensures k > 0 && k - 1 <= (k - 1) * bytsPerCluster < BY2PG
    ensures bytsPerCluster < BY2PG ==> k * bytsPerCluster <= BY2PG < (k + 1) * bytsPerCluster
  {
    if bytsPerCluster >= BY2PG then 1 else Whole(BY2PG, bytsPerCluster)
  }

  function Whole(a: nat, b: nat): (q: nat)
    requires 0 < b <= a
    ensures q > 0 && q * b <= a < (q + 1) * b
  {
    Quotient(a, b);
    a / b
  }

  lemma Quotient(a: nat, b: nat)
    requires 0 < b <= a
    ensures a / b > 0 && a / b * b <= a < (a / b + 1) * b
  {
    var q := a / b;
    assert a == q * b + a % b;
    assert (q + 1) * b == q * b + b;
  }

  /** Where entry c stands in its run; runs start at entry 2. */
  function Off(c: nat, k: nat): (o: nat)
    requires c >= 2 && k > 0
    ensures o < k
  {
    (c - 2) % k
  }

  lemma OffNext(c: nat, k: nat)
    requires c >= 2 && k > 0
    ensures Off(c + 1, k) == if Off(c, k) + 1 < k then Off(c, k) + 1 else 0
  {
    var q, o := (c - 2) / k, (c - 2) % k;
    assert c - 2 == q * k + o;
    if o + 1 < k {
      Remainder(q, k, o + 1);
    } else {
      assert c + 1 - 2 == (q + 1) * k + 0;
      Remainder(q + 1, k, 0);
    }
  }

  /** Entry c agrees with the next entry of its run: both free, or c points to it. */
  predicate Joined(fats: seq<nat>, tot: nat, k: nat, c: nat)
    requires 2 <= c < tot <= |fats| && k > 0
  {
    Off(c, k) + 1 < k ==> c + 1 < tot && (if fats[c] == 0 then fats[c + 1] == 0 else fats[c] == c + 1 && fats[c + 1] != 0)
  }

  /** Every run of k entries from 2 on is all free or one linked run. */
  ghost predicate Shape(fats: seq<nat>, tot: nat, k: nat) {
    && k > 0 && 2 <= tot <= |fats| && tot <= 0x8000_0000
    && forall c {:trigger fats[c]} :: 2 <= c < tot ==> Joined(fats, tot, k, c)
  }

  /** The same said run by run: entries base to base+k-1 are all free, or each but the last points to the next. */
  ghost predicate RunFree(fats: seq<nat>, base: nat, k: nat) {
    base + k <= |fats| && forall e {:trigger fats[e]} :: base <= e < base + k ==> fats[e] == 0
  }

  ghost predicate RunLinked(fats: seq<nat>, base: nat, k: nat) {
    base + k <= |fats| && forall e {:trigger fats[e]} :: base <= e < base + k ==> if e == base + k - 1 then fats[e] != 0 else fats[e] == e + 1
  }

  lemma {:induction false} RunAt(fats: seq<nat>, tot: nat, k: nat, base: nat, i: nat)
    requires Shape(fats, tot, k) && 2 <= base < tot && Off(base, k) == 0 && i < k
    ensures base + i < tot && Off(base + i, k) == i
    ensures fats[base] == 0 <==> fats[base + i] == 0
    ensures fats[base] != 0 && i + 1 < k ==> fats[base + i] == base + i + 1
  {
    hide Off;
    if i > 0 {
      RunAt(fats, tot, k, base, i - 1);
      OffNext(base + (i - 1), k);
      assert fats[base + (i - 1)] >= 0;
    }
    assert fats[base + i] >= 0;
  }

  /** The local shape is the shape of whole runs. */
  lemma RunShape(fats: seq<nat>, tot: nat, k: nat, base: nat)
    requires Shape(fats, tot, k) && 2 <= base < tot && Off(base, k) == 0
    ensures base + k <= tot
    ensures if fats[base] == 0 then RunFree(fats, base, k) else RunLinked(fats, base, k)
  {
    RunAt(fats, tot, k, base, k - 1);
    hide Shape, Off;
    forall e | base <= e < base + k
      ensures fats[base] == 0 <==> fats[e] == 0
      ensures fats[base] != 0 && e + 1 < base + k ==> fats[e] == e + 1
    {
      RunAt(fats, tot, k, base, e - base);
    }
  }

  /** The table follows the chain cs to its end, and the chain enters each run at its first entry. */
  ghost predicate IsChain(fats: seq<nat>, tot: nat, k: nat, cs: seq<nat>)
    requires k > 0
  {
    && tot <= |fats|
    && (forall j {:trigger cs[j]} :: 0 <= j < |cs| ==> 2 <= cs[j] < tot)
    && (forall j {:trigger fats[cs[j]]} :: 0 <= j < |cs| ==> fats[cs[j]] == if j + 1 < |cs| then cs[j + 1] else USED)
    && (forall j {:trigger Off(cs[j], k)} :: 0 <= j < |cs| ==>
          (Off(cs[j], k) == 0 || (j > 0 && cs[j] == cs[j - 1] + 1)))
  }

  /** No cluster is in two places: chains do not meet, and no chain comes back to itself. */
  ghost predicate Disjoint(chains: seq<seq<nat>>) {
    forall f, j, g, i {:trigger chains[f][j], chains[g][i]} ::
      0 <= f < |chains| && 0 <= j < |chains[f]| && 0 <= g < |chains| && 0 <= i < |chains[g]| && chains[f][j] == chains[g][i] ==>
        f == g && j == i
  }

  /** `chains[f]` lists the clusters of file f. */
  ghost predicate Inv(fats: seq<nat>, tot: nat, k: nat, chains: seq<seq<nat>>) {
    && Shape(fats, tot, k) && Disjoint(chains)
    && forall f {:trigger chains[f]} :: 0 <= f < |chains| ==> IsChain(fats, tot, k, chains[f])
  }

  /** alloc_cluster_num's search. */
  function FirstFree(fats: seq<nat>, tot: nat, c: nat): (b: nat)
    requires tot <= |fats|
    ensures b >= c && (b < tot ==> fats[b] == 0) && forall i :: c <= i < b && i < tot ==> fats[i] != 0
    decreases tot - c
  {
    if c >= tot || fats[c] == 0 then c else FirstFree(fats, tot, c + 1)
  }

  /** A run at c, each entry pointing to the next and the last one marked as the end. */
  function TakeRun(fats: seq<nat>, c: nat, k: nat): (r: seq<nat>)
  {
    seq(|fats|, j requires 0 <= j < |fats| => if c <= j < c + k then (if j < c + k - 1 then j + 1 else USED) else fats[j])
  }

  function Run(c: nat, k: nat): seq<nat> {
    seq(k, i requires 0 <= i < k => c + i)
  }

  lemma FreeBefore(fats: seq<nat>, tot: nat, k: nat, c: nat)
    requires Shape(fats, tot, k) && 2 < c < tot && Off(c, k) != 0 && fats[c] == 0
    ensures fats[c - 1] == 0
  {
    OffNext(c - 1, k);
  }

  /** The first free entry starts a free run. */
  lemma FirstFreeStartsRun(fats: seq<nat>, tot: nat, k: nat)
    requires Shape(fats, tot, k) && FirstFree(fats, tot, 2) < tot
    ensures var c := FirstFree(fats, tot, 2);
            Off(c, k) == 0 && c + k <= tot && RunFree(fats, c, k)
  {
    assert Off(2, k) == 0;
    hide Off;
    var c := FirstFree(fats, tot, 2);
    if Off(c, k) != 0 {
      assert c > 2;
      FreeBefore(fats, tot, k, c);
      assert false;
    }
    RunShape(fats, tot, k, c);
  }

  lemma {:induction false} OffInRun(c: nat, k: nat, i: nat)
    requires c >= 2 && k > 0 && Off(c, k) == 0 && i < k
    ensures Off(c + i, k) == i
  {
    if i > 0 {
      OffInRun(c, k, i - 1);
      OffNext(c + (i - 1), k);
    }
  }

  /** A free run and a chain have no entry in common. */
  lemma FreeRunApart(fats: seq<nat>, tot: nat, k: nat, cs: seq<nat>, c: nat, j: nat)
    requires k > 0 && IsChain(fats, tot, k, cs) && RunFree(fats, c, k) && j < |cs|
    ensures !(c <= cs[j] < c + k)
  {
    hide Off;
    assert fats[cs[j]] != 0 by {
      assert j + 1 < |cs| ==> cs[j + 1] >= 2;
    }
  }

  lemma TakeShape(fats: seq<nat>, tot: nat, k: nat, c: nat)
    requires Shape(fats, tot, k) && 2 <= c < tot && Off(c, k) == 0 && c + k <= tot && RunFree(fats, c, k)
    ensures Shape(TakeRun(fats, c, k), tot, k)
  {
    hide Off;
    var fats' := TakeRun(fats, c, k);
    forall e | 2 <= e < tot ensures Joined(fats', tot, k, e) {
      assert fats[e] >= 0;
      assert Joined(fats, tot, k, e);
      if c <= e < c + k {
        OffInRun(c, k, e - c);
      } else if e + 1 == c {
        OffNext(e, k);
      }
    }
  }

  /** Taking a free run keeps the shape and every chain, and the run is a chain of its own apart from the others. */
  lemma TakeKeeps(fats: seq<nat>, tot: nat, k: nat, chains: seq<seq<nat>>, c: nat)
    requires Inv(fats, tot, k, chains) && 2 <= c < tot && Off(c, k) == 0 && c + k <= tot && RunFree(fats, c, k)
    ensures Inv(TakeRun(fats, c, k), tot, k, chains)
    ensures IsChain(TakeRun(fats, c, k), tot, k, Run(c, k)) && |Run(c, k)| == k && Run(c, k)[0] == c
    ensures |TakeRun(fats, c, k)| == |fats| && forall e :: 0 <= e < |fats| && !(c <= e < c + k) ==> TakeRun(fats, c, k)[e] == fats[e]
    ensures forall f, j {:trigger chains[f][j]} ::
              0 <= f < |chains| && 0 <= j < |chains[f]| ==> !(c <= chains[f][j] < c + k)
  {
    hide Off, RunFree;
    var fats' := TakeRun(fats, c, k);
    forall f, j | 0 <= f < |chains| && 0 <= j < |chains[f]| ensures !(c <= chains[f][j] < c + k) {
      FreeRunApart(fats, tot, k, chains[f], c, j);
    }
    TakeShape(fats, tot, k, c);
    hide Shape, Disjoint;
    forall f | 0 <= f < |chains| ensures IsChain(fats', tot, k, chains[f]) {
      assert IsChain(fats, tot, k, chains[f]);
    }
  }

  /** A chain ends at the end of a run. */
  lemma ChainEndsRun(fats: seq<nat>, tot: nat, k: nat, cs: seq<nat>)
    requires Shape(fats, tot, k) && IsChain(fats, tot, k, cs) && cs != []
    ensures Off(cs[|cs| - 1], k) == k - 1 && fats[cs[|cs| - 1]] == USED
  {
    assert fats[cs[|cs| - 1]] == USED;
    assert Joined(fats, tot, k, cs[|cs| - 1]);
  }

  /** Pointing the end of file f's chain at a run just taken makes the run the chain's continuation. */
  lemma AppendKeeps(fats: seq<nat>, tot: nat, k: nat, chains: seq<seq<nat>>, f: nat, c: nat)
    requires Inv(fats, tot, k, chains) && f < |chains| && 2 <= c < tot && Off(c, k) == 0 && c + k <= tot
    requires chains[f] != [] && IsChain(fats, tot, k, Run(c, k))
    requires forall g, j {:trigger chains[g][j]} ::
               0 <= g < |chains| && 0 <= j < |chains[g]| ==> !(c <= chains[g][j] < c + k)
    ensures var last := chains[f][|chains[f]| - 1];
            last < |fats| && Inv(fats[last := c], tot, k, chains[f := chains[f] + Run(c, k)])
  {
    var cs, more := chains[f], chains[f := chains[f] + Run(c, k)];
    ChainEndsRun(fats, tot, k, cs);
    hide Off;
    var last := cs[|cs| - 1];
    var fats' := fats[last := c];
    assert Shape(fats', tot, k) by {
      forall e | 2 <= e < tot ensures Joined(fats', tot, k, e) {
        assert fats[e] >= 0;
        assert Joined(fats, tot, k, e);
      }
    }
    assert DisjointMore(chains, f, Run(c, k)) by {
      AppendDisjoint(chains, f, c, k);
    }
    forall g | 0 <= g < |more| ensures IsChain(fats', tot, k, more[g]) {
      assert IsChain(fats, tot, k, chains[g]);
      if g != f {
        assert forall j :: 0 <= j < |chains[g]| ==> chains[g][j] != last;
      } else {
        AppendChain(fats, tot, k, cs, c);
      }
    }
  }

  /** The first run of a file that had none. */
  lemma StartKeeps(fats: seq<nat>, tot: nat, k: nat, chains: seq<seq<nat>>, f: nat, c: nat)
    requires Inv(fats, tot, k, chains) && 2 <= c < tot && Off(c, k) == 0 && c + k <= tot && RunFree(fats, c, k)
    requires f < |chains| && chains[f] == []
    ensures Inv(TakeRun(fats, c, k), tot, k, chains[f := Run(c, k)])
  {
    TakeKeeps(fats, tot, k, chains, c);
    AppendDisjoint(chains, f, c, k);
    assert chains[f] + Run(c, k) == Run(c, k);
    hide Disjoint, Shape, IsChain, TakeRun, Run, RunFree, Off;
  }

  ghost predicate DisjointMore(chains: seq<seq<nat>>, f: nat, run: seq<nat>)
    requires f < |chains|
  {
    Disjoint(chains[f := chains[f] + run])
  }

  lemma AppendDisjoint(chains: seq<seq<nat>>, f: nat, c: nat, k: nat)
    requires Disjoint(chains) && f < |chains|
    requires forall g, j {:trigger chains[g][j]} ::
               0 <= g < |chains| && 0 <= j < |chains[g]| ==> !(c <= chains[g][j] < c + k)
    ensures DisjointMore(chains, f, Run(c, k))
  {
    var more := chains[f := chains[f] + Run(c, k)];
    forall g, j, h, i | 0 <= g < |more| && 0 <= j < |more[g]| && 0 <= h < |more| && 0 <= i < |more[h]| && more[g][j] == more[h][i]
      ensures g == h && j == i
    {
      var old1, old2 := j < |chains[g]|, i < |chains[h]|;
      assert old1 ==> more[g][j] == chains[g][j];
      assert old2 ==> more[h][i] == chains[h][i];
      assert !old1 ==> g == f && more[g][j] == c + (j - |chains[f]|);
      assert !old2 ==> h == f && more[h][i] == c + (i - |chains[f]|);
    }
  }

  lemma AppendChain(fats: seq<nat>, tot: nat, k: nat, cs: seq<nat>, c: nat)
    requires k > 0 && IsChain(fats, tot, k, cs) && IsChain(fats, tot, k, Run(c, k)) && cs != [] && 2 <= c && Off(c, k) == 0
    requires forall j {:trigger cs[j]} :: 0 <= j < |cs| ==> !(c <= cs[j] < c + k)
    requires forall j, i {:trigger cs[j], cs[i]} :: 0 <= j < |cs| && 0 <= i < |cs| && cs[j] == cs[i] ==> j == i
    ensures IsChain(fats[cs[|cs| - 1] := c], tot, k, cs + Run(c, k))
  {
    hide Off;
    var both, fats' := cs + Run(c, k), fats[cs[|cs| - 1] := c];
    forall j | 0 <= j < |both|
      ensures 2 <= both[j] < tot && fats'[both[j]] == (if j + 1 < |both| then both[j + 1] else USED)
      ensures Off(both[j], k) == 0 || (j > 0 && both[j] == both[j - 1] + 1)
    {
      if j >= |cs| {
        var i := j - |cs|;
        assert both[j] == Run(c, k)[i] && both[j] != cs[|cs| - 1];
      } else {
        assert both[j] == cs[j];
      }
    }
  }

  /** deleteUpdateFat: every entry of the chain becomes free. */
  function FreeAll(fats: seq<nat>, cs: seq<nat>): (r: seq<nat>)
  {
    seq(|fats|, j requires 0 <= j < |fats| => if j in cs then 0 else fats[j])
  }

  /** A chain takes whole runs: with an entry it holds the next entry of the run. */
  lemma ChainTakesNext(fats: seq<nat>, tot: nat, k: nat, cs: seq<nat>, e: nat)
    requires Shape(fats, tot, k) && IsChain(fats, tot, k, cs) && 2 <= e < tot && Off(e, k) + 1 < k
    requires forall j, i {:trigger cs[j], cs[i]} :: 0 <= j < |cs| && 0 <= i < |cs| && cs[j] == cs[i] ==> j == i
    ensures e in cs <==> e + 1 in cs
  {
    assert fats[e] >= 0;
    OffNext(e, k);
    hide Off;
    if e in cs {
      var j :| 0 <= j < |cs| && cs[j] == e;
      assert fats[cs[j]] == e + 1;
      assert cs[j + 1] == e + 1;
    }
    if e + 1 in cs {
      var j :| 0 <= j < |cs| && cs[j] == e + 1;
      assert Off(cs[j], k) != 0;
      assert cs[j - 1] == e;
    }
  }

  /** Deleting file f's chain frees its entries and keeps the shape and every other chain. */
  lemma DeleteKeeps(fats: seq<nat>, tot: nat, k: nat, chains: seq<seq<nat>>, f: nat)
    requires Inv(fats, tot, k, chains) && f < |chains|
    ensures Inv(FreeAll(fats, chains[f]), tot, k, chains[f := []])
  {
    var cs, left, fats' := chains[f], chains[f := []], FreeAll(fats, chains[f]);
    hide Off;
    DeleteShape(fats, tot, k, cs);
    hide Shape;
    forall g | 0 <= g < |left| ensures IsChain(fats', tot, k, left[g]) {
      if g != f {
        assert forall j {:trigger chains[g][j]} :: 0 <= j < |chains[g]| ==> chains[g][j] !in cs;
        ChainKept(fats, tot, k, chains[g], fats');
      }
    }
    assert Disjoint(left);
  }

  lemma ChainKept(fats: seq<nat>, tot: nat, k: nat, cs: seq<nat>, fats': seq<nat>)
    requires k > 0 && IsChain(fats, tot, k, cs) && tot <= |fats'|
    requires forall j {:trigger cs[j]} :: 0 <= j < |cs| ==> fats'[cs[j]] == fats[cs[j]]
    ensures IsChain(fats', tot, k, cs)
  {
    hide Off;
  }

  lemma DeleteShape(fats: seq<nat>, tot: nat, k: nat, cs: seq<nat>)
    requires Shape(fats, tot, k) && IsChain(fats, tot, k, cs)
    requires forall j, i {:trigger cs[j], cs[i]} :: 0 <= j < |cs| && 0 <= i < |cs| && cs[j] == cs[i] ==> j == i
    ensures Shape(FreeAll(fats, cs), tot, k)
  {
    hide Off, IsChain;
    var fats' := FreeAll(fats, cs);
    forall e | 2 <= e < tot ensures Joined(fats', tot, k, e) {
      assert fats[e] >= 0;
      assert Joined(fats, tot, k, e);
      if Off(e, k) + 1 < k {
        ChainTakesNext(fats, tot, k, cs, e);
      }
    }
  }

  /** Undoing an allocation by freeing only its first entry leaves half a run unless runs are single entries. */
  lemma RollbackExact(fats: seq<nat>, tot: nat, k: nat, c: nat)
    requires Shape(fats, tot, k) && 2 <= c < tot && Off(c, k) == 0 && c + k <= tot && RunFree(fats, c, k)
    ensures Shape(TakeRun(fats, c, k)[c := 0], tot, k) <==> k == 1
  {
    var taken := TakeRun(fats, c, k);
    TakeShape(fats, tot, k, c);
    if k == 1 {
      hide Off;
      var back := taken[c := 0];
      forall e | 2 <= e < tot ensures Joined(back, tot, 1, e) {
        assert Off(e, 1) < 1;
      }
      assert Shape(back, tot, 1);
    } else {
      assert taken[c + 1] != 0;
      assert !Joined(taken[c := 0], tot, k, c);
      assert !Shape(taken[c := 0], tot, k) by {
        assert taken[c := 0][c] == 0;
      }
    }
  }

  /** A table of free entries has the shape exactly when runs of k fill it. */
  lemma FreshShape(fats: seq<nat>, tot: nat, k: nat)
    requires k > 0 && 2 <= tot <= |fats| && tot <= 0x8000_0000
    requires forall c :: 2 <= c < tot ==> fats[c] == 0
    ensures Inv(fats, tot, k, []) <==> Off(tot, k) == 0
  {
    if Off(tot, k) == 0 {
      forall c | 2 <= c < tot ensures Joined(fats, tot, k, c) {
        OffNext(c, k);
      }
    } else {
      OffNext(tot - 1, k);
      assert fats[tot - 1] == 0 && !Joined(fats, tot, k, tot - 1);
    }
  }

  lemma {:induction false} OffBack(c: nat, k: nat, i: nat)
    requires c >= 2 && k > 0 && i <= Off(c, k)
    ensures c - i >= 2 && Off(c - i, k) == Off(c, k) - i
  {
    if i > 0 {
      OffBack(c, k, i - 1);
      assert c - (i - 1) >= 3;
      OffNext(c - i, k);
    }
  }

  /** Otherwise the last run that the search hands out reaches past the table. */
  lemma LastRunSpills(fats: seq<nat>, tot: nat, k: nat)
    requires k > 0 && 2 <= tot <= |fats| && Off(tot, k) != 0
    requires forall c :: 2 <= c < tot ==> (fats[c] == 0 <==> c >= tot - Off(tot, k))
    ensures var c := FirstFree(fats, tot, 2); c == tot - Off(tot, k) && Off(c, k) == 0 && c < tot < c + k
  {
    OffBack(tot, k, Off(tot, k));
    hide Off;
    assert fats[tot - Off(tot, k)] == 0;
  }

  // ---- deleteUpdateFat as a walk

  /** The table and the current entry after n turns of deleteUpdateFat's loop; outside the table nothing is modelled. */
  function Walk(fats: seq<nat>, c: nat, n: nat): (r: (seq<nat>, nat))
    decreases n
  {
    if n == 0 || c >= |fats| then (fats, c) else Walk(fats[c := 0], fats[c], n - 1)
  }

  /** The loop leaves after its n-th turn. */
  ghost predicate Stops(fats: seq<nat>, c: nat, n: nat) {
    n > 0 && Walk(fats, c, n).1 == USED && forall m :: 0 < m < n ==> Walk(fats, c, m).1 != USED
  }

  /** A file's first cluster, 0 when it has none. */
  function First(cs: seq<nat>): nat {
    if cs == [] then 0 else cs[0]
  }

  /** From the j-th cluster on the walk frees the rest of the chain, and only its last turn reads the end mark. */
  lemma {:induction false} WalkChain(fats: seq<nat>, tot: nat, k: nat, cs: seq<nat>, j: nat)
    requires k > 0 && tot <= 0x8000_0000 && IsChain(fats, tot, k, cs) && j < |cs|
    requires forall a, b {:trigger cs[a], cs[b]} :: 0 <= a < |cs| && 0 <= b < |cs| && cs[a] == cs[b] ==> a == b
    ensures Walk(FreeAll(fats, cs[..j]), cs[j], |cs| - j) == (FreeAll(fats, cs), USED)
    ensures forall m :: 0 < m < |cs| - j ==> Walk(FreeAll(fats, cs[..j]), cs[j], m).1 != USED
    decreases |cs| - j
  {
    hide Off;
    var here, next := FreeAll(fats, cs[..j]), FreeAll(fats, cs[..j + 1]);
    assert cs[j] !in cs[..j];
    assert here[cs[j]] == fats[cs[j]];
    assert cs[..j + 1] == cs[..j] + [cs[j]];
    assert here[cs[j] := 0] == next;
    if j + 1 < |cs| {
      WalkChain(fats, tot, k, cs, j + 1);
      forall m | 0 < m < |cs| - j ensures Walk(here, cs[j], m).1 != USED {
        assert Walk(here, cs[j], m) == Walk(next, cs[j + 1], m - 1);
      }
    } else {
      assert cs[..j + 1] == cs;
    }
  }

  lemma {:induction false} ZeroStays(fats: seq<nat>, c: nat, n: nat, e: nat)
    requires e < |fats| && fats[e] == 0
    ensures |Walk(fats, c, n).0| == |fats| && Walk(fats, c, n).0[e] == 0
    decreases n
  {
    if n > 0 && c < |fats| {
      ZeroStays(fats[c := 0], fats[c], n - 1, e);
    }
  }

  /** With entry 0 free, the walk from entry 0 stays there for ever. */
  lemma {:induction false} EmptyLoops(fats: seq<nat>, n: nat)
    requires fats != [] && fats[0] == 0
    ensures Walk(fats, 0, n) == (fats, 0) && !Stops(fats, 0, n)
    decreases n
  {
    assert fats[0 := 0] == fats;
    if n > 0 {
      EmptyLoops(fats, n - 1);
    }
  }

  /** On the table of reInitFat, deleting a file without clusters frees entry 0, and deleting another never ends. */
  lemma EmptyTwice(fats: seq<nat>)
    requires fats != [] && fats[0] == USED
    ensures Stops(fats, 0, 1) && Walk(fats, 0, 1).0 == fats[0 := 0]
    ensures var after := fats[0 := 0]; forall n: nat :: !Stops(after, 0, n)
  {
    assert Walk(fats, 0, 1) == Walk(fats[0 := 0], USED, 0);
    var after := fats[0 := 0];
    forall n: nat ensures !Stops(after, 0, n) {
      EmptyLoops(after, n);
    }
  }

  /** deleteUpdateFat comes to an end having freed exactly the file's clusters if and only if the file has any. */
  lemma DeleteExact(fats: seq<nat>, tot: nat, k: nat, chains: seq<seq<nat>>, f: nat)
    requires Inv(fats, tot, k, chains) && f < |chains|
    ensures (exists n: nat :: Stops(fats, First(chains[f]), n) && Walk(fats, First(chains[f]), n).0 == FreeAll(fats, chains[f]))
            <==> chains[f] != []
  {
    var cs := chains[f];
    assert IsChain(fats, tot, k, cs);
    if cs != [] {
      assert FreeAll(fats, cs[..0]) == fats;
      WalkChain(fats, tot, k, cs, 0);
      assert Walk(fats, cs[0], |cs|) == (FreeAll(fats, cs), USED);
      assert Stops(fats, First(cs), |cs|);
    } else {
      forall n: nat | Stops(fats, 0, n) ensures Walk(fats, 0, n).0 != FreeAll(fats, []) {
        assert FreeAll(fats, []) == fats;
        if fats[0] == 0 {
          EmptyLoops(fats, n);
        } else {
          ZeroStays(fats[0 := 0], fats[0], n - 1, 0);
        }
      }
    }
  }
}

/** The allocation table updated in place (fs/fatfs.c). */
module FatTable {
  import opened FatChains

  /** alloc_cluster_num. */
  method AllocClusterNum(fats: array<nat>, tot: nat, bytsPerCluster: nat) returns (r: int)
    requires bytsPerCluster > 0 && Shape(fats[..], tot, RunLength(bytsPerCluster))
    modifies fats
    ensures var c, k := FirstFree(old(fats[..]), tot, 2), RunLength(bytsPerCluster);
            if c >= tot then r == -E_NO_DISK && fats[..] == old(fats[..])
            else r == c && c + k <= tot && Off(c, k) == 0 && RunFree(old(fats[..]), c, k) && fats[..] == TakeRun(old(fats[..]), c, k)
  {
    ghost var was, k := fats[..], RunLength(bytsPerCluster);
    assert 2 <= tot <= fats.Length;
    hide Shape, RunFree, Off;
    for c := 2 to tot
      invariant fats[..] == was && FirstFree(was, tot, 2) == FirstFree(was, tot, c)
    {
      if fats[c] == 0 {
        FirstFreeStartsRun(was, tot, k);
        if bytsPerCluster >= BY2PG {
          fats[c] := USED;
          assert fats[..] == TakeRun(was, c, 1);
        } else {
          LinkRun(fats, c, Whole(BY2PG, bytsPerCluster));
        }
        return c;
      }
    }
    return -E_NO_DISK;
  }

  /** The inner loop: n entries from c on, each pointing to the next. */
  method LinkRun(fats: array<nat>, c: nat, n: nat)
    requires c + n <= fats.Length
    modifies fats
    ensures fats[..] == TakeRun(old(fats[..]), c, n)
  {
    for i := 0 to n
      invariant forall j :: 0 <= j < fats.Length ==>
                  fats[j] == if c <= j < c + i then (if j < c + n - 1 then j + 1 else USED) else old(fats[j])
    {
      fats[c + i] := if i < n - 1 then c + i + 1 else USED;
    }
  }

  /** alloc_cluster: `mapped` is what map_cluster returns; on failure only the first entry is freed. */
  method AllocCluster(fats: array<nat>, tot: nat, bytsPerCluster: nat, mapped: int) returns (r: int)
    requires bytsPerCluster > 0 && Shape(fats[..], tot, RunLength(bytsPerCluster))
    modifies fats
    ensures var c, k := FirstFree(old(fats[..]), tot, 2), RunLength(bytsPerCluster);
            if c >= tot then r == -E_NO_DISK && fats[..] == old(fats[..])
            else
              c + k <= tot && Off(c, k) == 0 && RunFree(old(fats[..]), c, k) &&
              if mapped < 0 then r == mapped && fats[..] == TakeRun(old(fats[..]), c, k)[c := 0]
              else r == c && fats[..] == TakeRun(old(fats[..]), c, k)
  {
    r := AllocClusterNum(fats, tot, bytsPerCluster);
    if r >= 0 && mapped < 0 {
      fats[r] := 0;
      r := mapped;
    }
  }

  /** The append in fatfile_cluster_walk at the end `cur` of file f's chain. On a full disk the error number is stored
      as if it were a cluster, and the chain has no end any more. */
  method AppendCluster(fats: array<nat>, tot: nat, bytsPerCluster: nat, ghost chains: seq<seq<nat>>, ghost f: nat, cur: nat)
    returns (r: int)
    requires bytsPerCluster > 0 && Inv(fats[..], tot, RunLength(bytsPerCluster), chains)
    requires f < |chains| && chains[f] != [] && cur == chains[f][|chains[f]| - 1]
    modifies fats
    ensures var c, k := FirstFree(old(fats[..]), tot, 2), RunLength(bytsPerCluster);
            if c < tot then r == c && Inv(fats[..], tot, k, chains[f := chains[f] + Run(c, k)])
            else r == -E_NO_DISK && fats[..] == old(fats[..])[cur := 0x1_0000_0000 - E_NO_DISK] &&
                 forall cs :: cur in cs ==> !IsChain(fats[..], tot, k, cs)
  {
    ghost var was, k := fats[..], RunLength(bytsPerCluster);
    assert IsChain(was, tot, k, chains[f]);
    assert 2 <= cur < tot;
    r := AllocCluster(fats, tot, bytsPerCluster, 0);
    ghost var taken := fats[..];
    if r >= 0 {
      TakeKeeps(was, tot, k, chains, r);
      AppendKeeps(taken, tot, k, chains, f, r);
    }
    fats[cur] := if r >= 0 then r else 0x1_0000_0000 + r;
    assert fats[..] == taken[cur := fats[cur]];
  }

  /** deleteUpdateFat walks the chain from its first cluster, frees exactly its entries, and stops. */
  method DeleteUpdateFat(fats: array<nat>, ghost tot: nat, ghost k: nat, ghost chains: seq<seq<nat>>, ghost f: nat, first: nat)
    requires Inv(fats[..], tot, k, chains) && f < |chains| && chains[f] != [] && first == chains[f][0]
    modifies fats
    ensures fats[..] == FreeAll(old(fats[..]), chains[f])
    ensures forall e :: 0 <= e < fats.Length ==> fats[e] == if e in chains[f] then 0 else old(fats[e])
    ensures Inv(fats[..], tot, k, chains[f := []])
  {
    ghost var was, cs, j := fats[..], chains[f], 0;
    assert IsChain(was, tot, k, cs);
    DeleteKeeps(was, tot, k, chains, f);
    var cluno := first;
    while true
      invariant 0 <= j < |cs| && cluno == cs[j]
      invariant forall e :: 0 <= e < fats.Length ==> fats[e] == if e in cs[..j] then 0 else was[e]
      decreases |cs| - j
    {
      assert cs[j] !in cs[..j];
      var t := fats[cluno];
      assert t == was[cs[j]];
      fats[cluno] := 0;
      assert cs[..j + 1] == cs[..j] + [cs[j]];
      cluno := t;
      j := j + 1;
      if cluno == USED {
        break;
      }
    }
    assert j == |cs| && cs[..j] == cs;
    assert fats[..] == FreeAll(was, cs);
  }
}
