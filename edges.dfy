/**
 * Which edges `write_dot_file` emits, without the text: for each movie in
 * array order and each entry of its neighbor list in list order, the pair
 * (movie position, position of the neighbor's movie) when the entry resolves.
 */
module Edges {
  import opened Options
  import opened Lookup
  import opened Linking

  /**
   * The edge for neighbor entry `x` of the movie at position `i`: one pair,
   * to the first movie carrying `x`, when `x` resolves; none otherwise.
   */
  function EdgeOf(ids: seq<int>, i: nat, x: int): (r: seq<(nat, nat)>)
    ensures |r| <= 1
    ensures r != [] <==> Resolves(ids, x)
    ensures r != [] ==> r[0].0 == i && r[0].1 < |ids| && ids[r[0].1] == x && forall j :: 0 <= j < r[0].1 ==> ids[j] != x
  {
    match FindIndex(ids, x)
    case Some(j) => [(i, j)]
    case None => []
  }

  /**
   * The edges emitted for the first `n` entries of the neighbor list `l` of the
   * movie at position `i`, walking the list from its head.
   */
  function RowEdges(ids: seq<int>, i: nat, l: seq<int>, n: nat): (r: seq<(nat, nat)>)
    requires n <= |l|
    ensures |r| <= n
    ensures forall t :: 0 <= t < |r| ==> r[t].0 == i && r[t].1 < |ids|
  {
    if n == 0 then [] else RowEdges(ids, i, l, n - 1) + EdgeOf(ids, i, l[n - 1])
  }

  /**
   * Each edge of a row leads to an entry of the list, and to the first movie
   * carrying that entry's identifier: the one `find_movie_by_id` returns.
   */
  lemma {:induction false} RowEdgesResolve(ids: seq<int>, i: nat, l: seq<int>, n: nat)
    requires n <= |l|
    ensures forall t :: 0 <= t < |RowEdges(ids, i, l, n)| ==>
              var j := RowEdges(ids, i, l, n)[t].1;
              ids[j] in l && FindIndex(ids, ids[j]) == Some(j)
  {
    if n > 0 {
      RowEdgesResolve(ids, i, l, n - 1);
      if FindIndex(ids, l[n - 1]).Some? {
        FindIndexStable(ids, l[n - 1]);
      }
    }
  }

  /** When every entry of `l` resolves, the edges name its entries one for one, in list order. */
  lemma {:induction false} RowEdgesAllResolve(ids: seq<int>, i: nat, l: seq<int>, n: nat)
    requires n <= |l|
    requires forall t :: 0 <= t < |l| ==> Resolves(ids, l[t])
    ensures |RowEdges(ids, i, l, n)| == n
    ensures forall t :: 0 <= t < n ==> ids[RowEdges(ids, i, l, n)[t].1] == l[t]
  {
    if n > 0 {
      RowEdgesAllResolve(ids, i, l, n - 1);
    }
  }

  /** Entries that do not resolve are skipped: a list none of whose entries resolves emits nothing. */
  lemma {:induction false} RowEdgesNoneResolve(ids: seq<int>, i: nat, l: seq<int>, n: nat)
    requires n <= |l|
    requires forall t :: 0 <= t < |l| ==> !Resolves(ids, l[t])
    ensures RowEdges(ids, i, l, n) == []
  {
    hide FindIndex;
    if n > 0 {
      RowEdgesNoneResolve(ids, i, l, n - 1);
      assert EdgeOf(ids, i, l[n - 1]) == [];
    }
  }

  /** The number of entries among the first `n` of `l` that resolve. */
  function Resolving(ids: seq<int>, l: seq<int>, n: nat): (r: nat)
    requires n <= |l|
    ensures r <= n
  {
    if n == 0 then 0 else Resolving(ids, l, n - 1) + if Resolves(ids, l[n - 1]) then 1 else 0
  }

  lemma {:induction false} ResolvingGrows(ids: seq<int>, l: seq<int>, t: nat, n: nat)
    requires t < n <= |l| && Resolves(ids, l[t])
    ensures Resolving(ids, l, t) < Resolving(ids, l, n)
    decreases n
  {
    if t < n - 1 {
      ResolvingGrows(ids, l, t, n - 1);
    }
  }

  /**
   * A row emits exactly one edge per resolving entry, and nothing else: the
   * edge of a resolving entry t comes right after those of the resolving
   * entries before it, and leads to the first movie carrying the entry.
   */
  lemma {:induction false} RowEdgesExact(ids: seq<int>, i: nat, l: seq<int>, n: nat)
    requires n <= |l|
    ensures |RowEdges(ids, i, l, n)| == Resolving(ids, l, n)
    ensures forall t :: 0 <= t < n && Resolves(ids, l[t]) ==>
              Resolving(ids, l, t) < |RowEdges(ids, i, l, n)| &&
              RowEdges(ids, i, l, n)[Resolving(ids, l, t)] == (i, FindIndex(ids, l[t]).value)
  {
    hide FindIndex;
    if n > 0 {
      RowEdgesExact(ids, i, l, n - 1);
      var prev := RowEdges(ids, i, l, n - 1);
      assert RowEdges(ids, i, l, n) == prev + EdgeOf(ids, i, l[n - 1]);
      forall t | 0 <= t < n && Resolves(ids, l[t])
        ensures Resolving(ids, l, t) < |RowEdges(ids, i, l, n)|
        ensures RowEdges(ids, i, l, n)[Resolving(ids, l, t)] == (i, FindIndex(ids, l[t]).value)
      {
        ResolvingGrows(ids, l, t, n);
      }
    }
  }

  /** Every resolving entry emits its edge. */
  lemma RowEdgesComplete(ids: seq<int>, i: nat, l: seq<int>, n: nat)
    requires n <= |l|
    ensures forall t :: 0 <= t < n && Resolves(ids, l[t]) ==> (i, FindIndex(ids, l[t]).value) in RowEdges(ids, i, l, n)
  {
    RowEdgesExact(ids, i, l, n);
  }

  /** The edges emitted for the first `n` movies, whose neighbor lists are in `nbs`, in array order. */
  function EdgeIndices(ids: seq<int>, nbs: Lists, n: nat): (r: seq<(nat, nat)>)
    requires n <= |nbs|
    ensures forall t :: 0 <= t < |r| ==> r[t].0 < n && r[t].1 < |ids|
  {
    if n == 0 then [] else EdgeIndices(ids, nbs, n - 1) + RowEdges(ids, n - 1, nbs[n - 1], |nbs[n - 1]|)
  }

  /**
   * Every emitted edge (k, j) joins movie k to the first movie j carrying one
   * of k's neighbor entries, and the edges come in array order of k.
   */
  lemma {:induction false} EdgeIndicesSound(ids: seq<int>, nbs: Lists, n: nat)
    requires n <= |nbs|
    ensures forall t :: 0 <= t < |EdgeIndices(ids, nbs, n)| ==>
              var e := EdgeIndices(ids, nbs, n)[t];
              ids[e.1] in nbs[e.0] && FindIndex(ids, ids[e.1]) == Some(e.1)
    ensures forall s, t :: 0 <= s < t < |EdgeIndices(ids, nbs, n)| ==> EdgeIndices(ids, nbs, n)[s].0 <= EdgeIndices(ids, nbs, n)[t].0
  {
    if n > 0 {
      EdgeIndicesSound(ids, nbs, n - 1);
      RowEdgesResolve(ids, n - 1, nbs[n - 1], |nbs[n - 1]|);
    }
  }

  /** The number of resolving neighbor entries of the first `n` movies. */
  function ResolvingAll(ids: seq<int>, nbs: Lists, n: nat): nat
    requires n <= |nbs|
  {
    if n == 0 then 0 else ResolvingAll(ids, nbs, n - 1) + Resolving(ids, nbs[n - 1], |nbs[n - 1]|)
  }

  /**
   * The edge loop emits exactly one edge per resolving neighbor entry: the
   * edge of entry t of movie k comes after those of the earlier movies and of
   * k's earlier resolving entries, and leads to the first movie carrying it.
   */
  lemma {:induction false} EdgeIndicesExact(ids: seq<int>, nbs: Lists, n: nat)
    requires n <= |nbs|
    ensures |EdgeIndices(ids, nbs, n)| == ResolvingAll(ids, nbs, n)
    ensures forall k, t :: 0 <= k < n && 0 <= t < |nbs[k]| && Resolves(ids, nbs[k][t]) ==>
              ResolvingAll(ids, nbs, k) + Resolving(ids, nbs[k], t) < |EdgeIndices(ids, nbs, n)| &&
              EdgeIndices(ids, nbs, n)[ResolvingAll(ids, nbs, k) + Resolving(ids, nbs[k], t)] == (k, FindIndex(ids, nbs[k][t]).value)
  {
    hide FindIndex, RowEdges, Resolving, EdgeOf;
    if n > 0 {
      EdgeIndicesExact(ids, nbs, n - 1);
      var prev, row := EdgeIndices(ids, nbs, n - 1), RowEdges(ids, n - 1, nbs[n - 1], |nbs[n - 1]|);
      RowEdgesExact(ids, n - 1, nbs[n - 1], |nbs[n - 1]|);
      assert EdgeIndices(ids, nbs, n) == prev + row;
      forall k, t | 0 <= k < n && 0 <= t < |nbs[k]| && Resolves(ids, nbs[k][t])
        ensures ResolvingAll(ids, nbs, k) + Resolving(ids, nbs[k], t) < |EdgeIndices(ids, nbs, n)|
        ensures EdgeIndices(ids, nbs, n)[ResolvingAll(ids, nbs, k) + Resolving(ids, nbs[k], t)] == (k, FindIndex(ids, nbs[k][t]).value)
      {
        var x := ResolvingAll(ids, nbs, k) + Resolving(ids, nbs[k], t);
        if k < n - 1 {
          assert (prev + row)[x] == prev[x];
        } else {
          assert ResolvingAll(ids, nbs, k) == |prev|;
          assert (prev + row)[x] == row[Resolving(ids, nbs[k], t)];
        }
      }
    }
  }

  /** Every resolving neighbor entry of every scanned movie emits its edge. */
  lemma EdgeIndicesComplete(ids: seq<int>, nbs: Lists, n: nat)
    requires n <= |nbs|
    ensures forall k, t :: 0 <= k < n && 0 <= t < |nbs[k]| && Resolves(ids, nbs[k][t]) ==>
              (k, FindIndex(ids, nbs[k][t]).value) in EdgeIndices(ids, nbs, n)
  {
    EdgeIndicesExact(ids, nbs, n);
  }

  /** When every neighbor entry resolves, one edge is emitted per entry, duplicates included. */
  lemma {:induction false} EdgesOfResolvedLists(ids: seq<int>, nbs: Lists, n: nat)
    requires n <= |nbs|
    requires forall k, t :: 0 <= k < |nbs| && 0 <= t < |nbs[k]| ==> Resolves(ids, nbs[k][t])
    ensures |EdgeIndices(ids, nbs, n)| == Total(nbs[..n])
  {
    if n > 0 {
      EdgesOfResolvedLists(ids, nbs, n - 1);
      RowEdgesAllResolve(ids, n - 1, nbs[n - 1], |nbs[n - 1]|);
      assert nbs[..n][..n - 1] == nbs[..n - 1];
    }
  }

  /** The neighbor lists as the reader leaves them: all empty. */
  function EmptyLists(n: nat): (r: Lists)
    ensures |r| == n && forall k :: 0 <= k < n ==> r[k] == []
  {
    seq(n, k => [])
  }

  lemma {:induction false} TotalEmpty(n: nat)
    ensures Total(EmptyLists(n)) == 0
  {
    if n > 0 {
      assert EmptyLists(n)[..n - 1] == EmptyLists(n - 1);
      TotalEmpty(n - 1);
    }
  }

  /**
   * From the lists the reader leaves (all empty), building the cliques and then
   * selecting the edges emits exactly two edges per resolved position pair,
   * summed over the actors.
   */
  lemma EdgesAfterCliques(ids: seq<int>, lists: seq<seq<int>>)
    ensures |EdgeIndices(ids, Cliques(ids, EmptyLists(|ids|), lists), |ids|)| == 2 * ResolvedPairsAll(ids, lists)
  {
    var nb := EmptyLists(|ids|);
    var r := Cliques(ids, nb, lists);
    CliquesGrows(ids, nb, lists);
    CliquesTotal(ids, nb, lists);
    TotalEmpty(|ids|);
    EdgesOfResolvedLists(ids, r, |r|);
    assert r[..|r|] == r;
  }
}
