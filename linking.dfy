/**
 * The effect of `form_cliques` on the neighbor lists, stated on values.
 *
 * A movie collection is seen as its identifiers `ids` (array order) and its
 * neighbor lists `nb` (same order, each list head first, so prepending is
 * `[x] + l`). Identifiers are resolved by the first-match scan FindIndex.
 * RowLinks, ListLinks and Cliques follow the three loops of the code;
 * LinkPairs is the reference definition that applies the enumerated position
 * pairs of module Pairs one after another.
 */
module Linking {
  import opened Options
  import opened Lookup
  import opened Pairs

  /** Neighbor lists by position in the movie array, each list head first. */
  type Lists = seq<seq<int>>

  // ----- One visited pair -----

  /**
   * The body of the inner walk for identifiers x and y: when both resolve, to
   * the movies at positions i and j, j's identifier is prepended to i's list
   * and then i's identifier to j's list; otherwise nothing changes.
   */
  function Link(ids: seq<int>, nb: Lists, x: int, y: int): (r: Lists)
    requires |nb| == |ids|
    ensures |r| == |ids|
  {
    match (FindIndex(ids, x), FindIndex(ids, y))
    case (Some(i), Some(j)) =>
      var r1 := nb[i := [ids[j]] + nb[i]];
      r1[j := [ids[i]] + r1[j]]
    case _ => nb
  }

  /** A resolved pair adds an edge in both directions and touches no other list. */
  lemma LinkBothWays(ids: seq<int>, nb: Lists, x: int, y: int, i: nat, j: nat)
    requires |nb| == |ids|
    requires FindIndex(ids, x) == Some(i) && FindIndex(ids, y) == Some(j)
    ensures ids[i] == x && ids[j] == y
    ensures i != j ==> Link(ids, nb, x, y)[i] == [y] + nb[i] && Link(ids, nb, x, y)[j] == [x] + nb[j]
    ensures i == j ==> Link(ids, nb, x, y)[i] == [x, x] + nb[i]
    ensures forall k :: 0 <= k < |ids| && k != i && k != j ==> Link(ids, nb, x, y)[k] == nb[k]
  {
  }

  /** The two prepends of a resolved pair, the first to i's list and then to j's. */
  lemma LinkUnfold(ids: seq<int>, nb: Lists, x: int, y: int, i: nat, j: nat)
    requires |nb| == |ids|
    requires FindIndex(ids, x) == Some(i) && FindIndex(ids, y) == Some(j)
    ensures ids[i] == x && ids[j] == y
    ensures Link(ids, nb, x, y) == nb[i := [ids[j]] + nb[i]][j := [ids[i]] + nb[i := [ids[j]] + nb[i]][j]]
  {
  }

  /** A pair with an identifier that does not resolve changes no list. */
  lemma LinkUnresolved(ids: seq<int>, nb: Lists, x: int, y: int)
    requires |nb| == |ids|
    requires !Resolves(ids, x) || !Resolves(ids, y)
    ensures Link(ids, nb, x, y) == nb
  {
  }

  // ----- The loops of form_cliques -----

  /** The inner walk for outer position p, from position q to the end of the list. */
  function RowLinks(ids: seq<int>, nb: Lists, list: seq<int>, p: nat, q: nat): (r: Lists)
    requires |nb| == |ids| && p < |list| && q <= |list|
    ensures |r| == |ids|
    decreases |list| - q
  {
    if q == |list| then nb
    else RowLinks(ids, Link(ids, nb, list[p], list[q]), list, p, q + 1)
  }

  /** The outer walk from position p to the end of the list. */
  function ListLinks(ids: seq<int>, nb: Lists, list: seq<int>, p: nat): (r: Lists)
    requires |nb| == |ids| && p <= |list|
    ensures |r| == |ids|
    decreases |list| - p
  {
    if p == |list| then nb
    else ListLinks(ids, RowLinks(ids, nb, list, p, p + 1), list, p + 1)
  }

  /** What one actor's iteration of form_cliques does to the neighbor lists. */
  function ActorLinks(ids: seq<int>, nb: Lists, list: seq<int>): (r: Lists)
    requires |nb| == |ids|
    ensures |r| == |ids|
  {
    ListLinks(ids, nb, list, 0)
  }

  /** What form_cliques does for the actors' movie lists `lists`, taken in array order. */
  function Cliques(ids: seq<int>, nb: Lists, lists: seq<seq<int>>): (r: Lists)
    requires |nb| == |ids|
    ensures |r| == |ids|
    decreases |lists|
  {
    if lists == [] then nb
    else Cliques(ids, ActorLinks(ids, nb, lists[0]), lists[1..])
  }

  // ----- The loops visit the enumerated position pairs -----

  /** The pairs `ps` of positions of `list`, applied one after another. */
  function LinkPairs(ids: seq<int>, nb: Lists, list: seq<int>, ps: seq<(nat, nat)>): (r: Lists)
    requires |nb| == |ids|
    requires PairsWithin(|list|, ps)
    ensures |r| == |ids|
    decreases |ps|
  {
    if ps == [] then nb
    else LinkPairs(ids, Link(ids, nb, list[ps[0].0], list[ps[0].1]), list, ps[1..])
  }

  lemma {:induction false} LinkPairsAppend(ids: seq<int>, nb: Lists, list: seq<int>, a: seq<(nat, nat)>, b: seq<(nat, nat)>)
    requires |nb| == |ids|
    requires PairsWithin(|list|, a) && PairsWithin(|list|, b)
    ensures PairsWithin(|list|, a + b)
    ensures LinkPairs(ids, nb, list, a + b) == LinkPairs(ids, LinkPairs(ids, nb, list, a), list, b)
    decreases |a|
  {
    if a != [] {
      assert (a + b)[0] == a[0];
      assert (a + b)[1..] == a[1..] + b;
      LinkPairsAppend(ids, Link(ids, nb, list[a[0].0], list[a[0].1]), list, a[1..], b);
    } else {
      assert a + b == b;
    }
  }

  lemma {:induction false} RowLinksVisitsRow(ids: seq<int>, nb: Lists, list: seq<int>, p: nat, q: nat)
    requires |nb| == |ids| && p < |list| && q <= |list|
    ensures PairsWithin(|list|, RowFrom(|list|, p, q))
    ensures RowLinks(ids, nb, list, p, q) == LinkPairs(ids, nb, list, RowFrom(|list|, p, q))
    decreases |list| - q
  {
    if q < |list| {
      RowLinksVisitsRow(ids, Link(ids, nb, list[p], list[q]), list, p, q + 1);
      assert RowFrom(|list|, p, q)[1..] == RowFrom(|list|, p, q + 1);
    }
  }

  lemma {:induction false} ListLinksVisitsPairs(ids: seq<int>, nb: Lists, list: seq<int>, p: nat)
    requires |nb| == |ids| && p <= |list|
    ensures PairsWithin(|list|, PairsFrom(|list|, p))
    ensures ListLinks(ids, nb, list, p) == LinkPairs(ids, nb, list, PairsFrom(|list|, p))
    decreases |list| - p
  {
    hide Link, RowLinks;
    if p < |list| {
      var row := RowFrom(|list|, p, p + 1);
      var rowDone := RowLinks(ids, nb, list, p, p + 1);
      RowLinksVisitsRow(ids, nb, list, p, p + 1);
      ListLinksVisitsPairs(ids, rowDone, list, p + 1);
      LinkPairsAppend(ids, nb, list, row, PairsFrom(|list|, p + 1));
    }
  }

  /**
   * One actor's iteration of form_cliques applies exactly the enumerated position
   * pairs of its list, in order: every p < q once (Pairs.PositionPairsExactlyOnce).
   */
  lemma ActorLinksVisitsPositionPairs(ids: seq<int>, nb: Lists, list: seq<int>)
    requires |nb| == |ids|
    ensures PairsWithin(|list|, PositionPairs(|list|))
    ensures ActorLinks(ids, nb, list) == LinkPairs(ids, nb, list, PositionPairs(|list|))
  {
    ListLinksVisitsPairs(ids, nb, list, 0);
  }

  // ----- Growth: lists only gain entries at their heads, and only resolvable ones -----

  /** `l` is `base` with zero or more entries prepended. */
  predicate Extends(base: seq<int>, l: seq<int>) {
    |base| <= |l| && l[|l| - |base|..] == base
  }

  /** Every list of `r` is its `nb` counterpart with entries prepended, each the identifier of a movie. */
  predicate Grows(ids: seq<int>, nb: Lists, r: Lists) {
    && |nb| == |ids| && |r| == |ids|
    && (forall k :: 0 <= k < |ids| ==> Extends(nb[k], r[k]))
    && (forall k, t :: 0 <= k < |ids| && 0 <= t < |r[k]| - |nb[k]| ==> Resolves(ids, r[k][t]))
  }

  /** No list of `r` gained the identifier of its own movie. */
  predicate NoSelfGain(ids: seq<int>, nb: Lists, r: Lists)
    requires |nb| == |ids| && |r| == |ids|
  {
    forall k, t :: 0 <= k < |ids| && 0 <= t < |r[k]| - |nb[k]| ==> r[k][t] != ids[k]
  }

  predicate NoRepeats(s: seq<int>) {
    forall i, j :: 0 <= i < j < |s| ==> s[i] != s[j]
  }

  lemma GrowsRefl(ids: seq<int>, nb: Lists)
    requires |nb| == |ids|
    ensures Grows(ids, nb, nb) && NoSelfGain(ids, nb, nb)
  {
    assert forall k :: 0 <= k < |ids| ==> nb[k][|nb[k]| - |nb[k]|..] == nb[k];
  }

  lemma {:induction false} ExtendsTrans(a: seq<int>, b: seq<int>, c: seq<int>, t: nat)
    requires Extends(a, b) && Extends(b, c)
    requires |c| - |b| <= t < |c| - |a|
    ensures Extends(a, c)
    ensures c[t] == b[t - (|c| - |b|)]
  {
    assert c[|c| - |b|..][t - (|c| - |b|)] == c[t];
    var d := |c| - |b|;
    assert forall u :: 0 <= u < |a| ==> c[|c| - |a| + u] == c[d..][|b| - |a| + u] == b[|b| - |a| + u] == a[u];
  }

  lemma {:induction false} GrowsTrans(ids: seq<int>, a: Lists, b: Lists, c: Lists)
    requires Grows(ids, a, b) && Grows(ids, b, c)
    ensures Grows(ids, a, c)
    ensures NoSelfGain(ids, a, b) && NoSelfGain(ids, b, c) ==> NoSelfGain(ids, a, c)
  {
    forall k | 0 <= k < |ids|
      ensures Extends(a[k], c[k])
      ensures forall t :: 0 <= t < |c[k]| - |a[k]| ==> Resolves(ids, c[k][t])
      ensures NoSelfGain(ids, a, b) && NoSelfGain(ids, b, c) ==>
                forall t :: 0 <= t < |c[k]| - |a[k]| ==> c[k][t] != ids[k]
    {
      if |c[k]| - |b[k]| < |c[k]| - |a[k]| {
        ExtendsTrans(a[k], b[k], c[k], |c[k]| - |b[k]|);
      } else {
        assert |a[k]| == |b[k]| && b[k] == a[k];
      }
      forall t | |c[k]| - |b[k]| <= t < |c[k]| - |a[k]|
        ensures c[k][t] == b[k][t - (|c[k]| - |b[k]|)]
      {
        ExtendsTrans(a[k], b[k], c[k], t);
      }
    }
  }

  /** Prepending `pre` to `l` extends `l`, and the gained entries are those of `pre`. */
  lemma PrependExtends(pre: seq<int>, l: seq<int>)
    ensures Extends(l, pre + l)
    ensures forall t :: 0 <= t < |pre| ==> (pre + l)[t] == pre[t]
  {
    assert (pre + l)[|pre|..] == l;
  }

  /** One list under Link: it only gains resolvable entries at its head, and not its own identifier when x != y. */
  lemma LinkGrowsAt(ids: seq<int>, nb: Lists, x: int, y: int, k: nat)
    requires |nb| == |ids| && k < |ids|
    ensures Extends(nb[k], Link(ids, nb, x, y)[k])
    ensures forall t :: 0 <= t < |Link(ids, nb, x, y)[k]| - |nb[k]| ==> Resolves(ids, Link(ids, nb, x, y)[k][t])
    ensures x != y ==> forall t :: 0 <= t < |Link(ids, nb, x, y)[k]| - |nb[k]| ==> Link(ids, nb, x, y)[k][t] != ids[k]
  {
    var l := Link(ids, nb, x, y)[k];
    if FindIndex(ids, x).Some? && FindIndex(ids, y).Some? {
      var i, j := FindIndex(ids, x).value, FindIndex(ids, y).value;
      LinkBothWays(ids, nb, x, y, i, j);
      var pre := if k == i && k == j then [x, x] else if k == i then [y] else if k == j then [x] else [];
      assert l == pre + nb[k];
      PrependExtends(pre, nb[k]);
    } else {
      LinkUnresolved(ids, nb, x, y);
      PrependExtends([], nb[k]);
      assert [] + nb[k] == nb[k];
    }
  }

  lemma LinkGrows(ids: seq<int>, nb: Lists, x: int, y: int)
    requires |nb| == |ids|
    ensures Grows(ids, nb, Link(ids, nb, x, y))
    ensures x != y ==> NoSelfGain(ids, nb, Link(ids, nb, x, y))
  {
    forall k | 0 <= k < |ids|
      ensures Extends(nb[k], Link(ids, nb, x, y)[k])
      ensures forall t :: 0 <= t < |Link(ids, nb, x, y)[k]| - |nb[k]| ==> Resolves(ids, Link(ids, nb, x, y)[k][t])
      ensures x != y ==> forall t :: 0 <= t < |Link(ids, nb, x, y)[k]| - |nb[k]| ==> Link(ids, nb, x, y)[k][t] != ids[k]
    {
      LinkGrowsAt(ids, nb, x, y, k);
    }
  }

  lemma {:induction false} LinkPairsGrows(ids: seq<int>, nb: Lists, list: seq<int>, ps: seq<(nat, nat)>)
    requires |nb| == |ids|
    requires PairsWithin(|list|, ps)
    ensures Grows(ids, nb, LinkPairs(ids, nb, list, ps))
    ensures NoRepeats(list) && (forall t :: 0 <= t < |ps| ==> ps[t].0 != ps[t].1) ==>
              NoSelfGain(ids, nb, LinkPairs(ids, nb, list, ps))
    decreases |ps|
  {
    if ps == [] {
      GrowsRefl(ids, nb);
    } else {
      var next := Link(ids, nb, list[ps[0].0], list[ps[0].1]);
      LinkGrows(ids, nb, list[ps[0].0], list[ps[0].1]);
      LinkPairsGrows(ids, next, list, ps[1..]);
      GrowsTrans(ids, nb, next, LinkPairs(ids, nb, list, ps));
    }
  }

  /**
   * Every entry an actor adds is the identifier of a movie of the collection,
   * and lists only gain entries at their heads. If the actor's list repeats no
   * identifier, no movie gains its own identifier from that actor.
   */
  lemma ActorLinksGrows(ids: seq<int>, nb: Lists, list: seq<int>)
    requires |nb| == |ids|
    ensures Grows(ids, nb, ActorLinks(ids, nb, list))
    ensures NoRepeats(list) ==> NoSelfGain(ids, nb, ActorLinks(ids, nb, list))
  {
    ActorLinksVisitsPositionPairs(ids, nb, list);
    PositionPairsExactlyOnce(|list|);
    LinkPairsGrows(ids, nb, list, PositionPairs(|list|));
  }

  /** The same over all actors: only resolvable identifiers are added, and no self-neighbor arises
      when no actor's list repeats an identifier. */
  lemma {:induction false} CliquesGrows(ids: seq<int>, nb: Lists, lists: seq<seq<int>>)
    requires |nb| == |ids|
    ensures Grows(ids, nb, Cliques(ids, nb, lists))
    ensures (forall a :: 0 <= a < |lists| ==> NoRepeats(lists[a])) ==>
              NoSelfGain(ids, nb, Cliques(ids, nb, lists))
    decreases |lists|
  {
    if lists == [] {
      GrowsRefl(ids, nb);
    } else {
      var next := ActorLinks(ids, nb, lists[0]);
      ActorLinksGrows(ids, nb, lists[0]);
      CliquesGrows(ids, next, lists[1..]);
      assert forall a :: 0 <= a < |lists[1..]| ==> lists[1..][a] == lists[a + 1];
      GrowsTrans(ids, nb, next, Cliques(ids, nb, lists));
    }
  }

  // ----- End state: which movie gains which neighbor -----

  /** An entry of `base` is still there after entries are prepended. */
  lemma ExtendsKeeps(base: seq<int>, l: seq<int>, v: int)
    requires Extends(base, l) && v in base
    ensures v in l
  {
    var u :| 0 <= u < |base| && base[u] == v;
    assert l[|l| - |base|..][u] == v;
  }

  /**
   * Positions p and q of an actor's list co-occur for movie k and identifier v:
   * one of them resolves to movie k and the other carries v, which resolves.
   */
  predicate CoOccur(ids: seq<int>, list: seq<int>, p: nat, q: nat, k: nat, v: int) {
    && p < |list| && q < |list|
    && ((FindIndex(ids, list[p]) == Some(k) && Resolves(ids, list[q]) && v == list[q])
        || (FindIndex(ids, list[q]) == Some(k) && Resolves(ids, list[p]) && v == list[p]))
  }

  /** A pair of the run whose two identifiers resolve links its movies both ways in the final lists. */
  lemma {:induction false} LinkPairsLinksPair(ids: seq<int>, nb: Lists, list: seq<int>, ps: seq<(nat, nat)>, s: nat, i: nat, j: nat)
    requires |nb| == |ids|
    requires PairsWithin(|list|, ps) && s < |ps|
    requires FindIndex(ids, list[ps[s].0]) == Some(i) && FindIndex(ids, list[ps[s].1]) == Some(j)
    ensures ids[j] in LinkPairs(ids, nb, list, ps)[i] && ids[i] in LinkPairs(ids, nb, list, ps)[j]
    decreases |ps|
  {
    var x, y := list[ps[0].0], list[ps[0].1];
    var next := Link(ids, nb, x, y);
    if s == 0 {
      LinkBothWays(ids, nb, x, y, i, j);
      assert ids[j] in next[i] && ids[i] in next[j];
      LinkPairsGrows(ids, next, list, ps[1..]);
      ExtendsKeeps(next[i], LinkPairs(ids, nb, list, ps)[i], ids[j]);
      ExtendsKeeps(next[j], LinkPairs(ids, nb, list, ps)[j], ids[i]);
    } else {
      LinkPairsLinksPair(ids, next, list, ps[1..], s - 1, i, j);
    }
  }

  /**
   * After form_cliques, two movies whose identifiers resolve at positions p < q
   * of some actor's list each hold the other's identifier (main.c:183-185).
   */
  lemma {:induction false} CliquesLinksCoOccurring(ids: seq<int>, nb: Lists, lists: seq<seq<int>>, a: nat, p: nat, q: nat, i: nat, j: nat)
    requires |nb| == |ids|
    requires a < |lists| && p < q < |lists[a]|
    requires FindIndex(ids, lists[a][p]) == Some(i) && FindIndex(ids, lists[a][q]) == Some(j)
    ensures ids[j] in Cliques(ids, nb, lists)[i] && ids[i] in Cliques(ids, nb, lists)[j]
    decreases |lists|
  {
    var next := ActorLinks(ids, nb, lists[0]);
    if a == 0 {
      var list := lists[0];
      var ps := PositionPairs(|list|);
      ActorLinksVisitsPositionPairs(ids, nb, list);
      PositionPairsExactlyOnce(|list|);
      assert (p, q) in ps;
      var s :| 0 <= s < |ps| && ps[s] == (p, q);
      LinkPairsLinksPair(ids, nb, list, ps, s, i, j);
      CliquesGrows(ids, next, lists[1..]);
      ExtendsKeeps(next[i], Cliques(ids, nb, lists)[i], ids[j]);
      ExtendsKeeps(next[j], Cliques(ids, nb, lists)[j], ids[i]);
    } else {
      assert lists[1..][a - 1] == lists[a];
      CliquesLinksCoOccurring(ids, next, lists[1..], a - 1, p, q, i, j);
    }
  }

  /** Every entry a run of pairs adds to list k comes from one of its pairs, co-occurring for k. */
  lemma {:induction false} LinkPairsGainedFrom(ids: seq<int>, nb: Lists, list: seq<int>, ps: seq<(nat, nat)>, k: nat, t: nat)
    requires |nb| == |ids|
    requires PairsWithin(|list|, ps)
    requires k < |ids| && t < |LinkPairs(ids, nb, list, ps)[k]| - |nb[k]|
    ensures exists s :: 0 <= s < |ps| && CoOccur(ids, list, ps[s].0, ps[s].1, k, LinkPairs(ids, nb, list, ps)[k][t])
    decreases |ps|
  {
    var r := LinkPairs(ids, nb, list, ps);
    var x, y := list[ps[0].0], list[ps[0].1];
    var next := Link(ids, nb, x, y);
    LinkGrows(ids, nb, x, y);
    LinkPairsGrows(ids, next, list, ps[1..]);
    if t < |r[k]| - |next[k]| {
      LinkPairsGainedFrom(ids, next, list, ps[1..], k, t);
      var s :| 0 <= s < |ps[1..]| && CoOccur(ids, list, ps[1..][s].0, ps[1..][s].1, k, r[k][t]);
      assert ps[1..][s] == ps[s + 1];
    } else {
      var t' := t - (|r[k]| - |next[k]|);
      ExtendsTrans(nb[k], next[k], r[k], t);
      if FindIndex(ids, x).Some? && FindIndex(ids, y).Some? {
        var i, j := FindIndex(ids, x).value, FindIndex(ids, y).value;
        LinkBothWays(ids, nb, x, y, i, j);
        assert CoOccur(ids, list, ps[0].0, ps[0].1, k, r[k][t]);
      } else {
        LinkUnresolved(ids, nb, x, y);
      }
    }
  }

  /** Every entry form_cliques adds to list k comes from two co-occurring positions of some actor's list. */
  lemma {:induction false} CliquesGainedFrom(ids: seq<int>, nb: Lists, lists: seq<seq<int>>, k: nat, t: nat)
    requires |nb| == |ids|
    requires k < |ids| && t < |Cliques(ids, nb, lists)[k]| - |nb[k]|
    ensures exists a, p, q :: 0 <= a < |lists| && p < q && CoOccur(ids, lists[a], p, q, k, Cliques(ids, nb, lists)[k][t])
    decreases |lists|
  {
    var r := Cliques(ids, nb, lists);
    var list := lists[0];
    var next := ActorLinks(ids, nb, list);
    ActorLinksGrows(ids, nb, list);
    CliquesGrows(ids, next, lists[1..]);
    if t < |r[k]| - |next[k]| {
      CliquesGainedFrom(ids, next, lists[1..], k, t);
      var a, p, q :| 0 <= a < |lists[1..]| && p < q && CoOccur(ids, lists[1..][a], p, q, k, r[k][t]);
      assert lists[1..][a] == lists[a + 1];
    } else {
      var ps := PositionPairs(|list|);
      ExtendsTrans(nb[k], next[k], r[k], t);
      ActorLinksVisitsPositionPairs(ids, nb, list);
      PositionPairsExactlyOnce(|list|);
      LinkPairsGainedFrom(ids, nb, list, ps, k, t - (|r[k]| - |next[k]|));
      var s :| 0 <= s < |ps| && CoOccur(ids, list, ps[s].0, ps[s].1, k, next[k][t - (|r[k]| - |next[k]|)]);
      assert CoOccur(ids, lists[0], ps[s].0, ps[s].1, k, r[k][t]);
    }
  }

  /** An entry of movie k's final list was there before or comes from two co-occurring positions. */
  lemma CliquesNeighborsFrom(ids: seq<int>, nb: Lists, lists: seq<seq<int>>, k: nat, v: int)
    requires |nb| == |ids| && k < |ids|
    requires v in Cliques(ids, nb, lists)[k]
    ensures v in nb[k] || exists a, p, q :: 0 <= a < |lists| && p < q && CoOccur(ids, lists[a], p, q, k, v)
  {
    hide Cliques, CoOccur;
    var r := Cliques(ids, nb, lists);
    CliquesGrows(ids, nb, lists);
    assert Extends(nb[k], r[k]);
    var u :| 0 <= u < |r[k]| && r[k][u] == v;
    if u < |r[k]| - |nb[k]| {
      CliquesGainedFrom(ids, nb, lists, k, u);
    } else {
      assert r[k][|r[k]| - |nb[k]|..][u - (|r[k]| - |nb[k]|)] == v;
    }
  }

  /** Two co-occurring positions for movie k and identifier v put v into k's final list. */
  lemma CliquesNeighborsTo(ids: seq<int>, nb: Lists, lists: seq<seq<int>>, k: nat, v: int, a: nat, p: nat, q: nat)
    requires |nb| == |ids| && k < |ids|
    requires a < |lists| && p < q && CoOccur(ids, lists[a], p, q, k, v)
    ensures v in Cliques(ids, nb, lists)[k]
  {
    hide Cliques;
    var list := lists[a];
    if FindIndex(ids, list[p]) == Some(k) && Resolves(ids, list[q]) && v == list[q] {
      CliquesLinksCoOccurring(ids, nb, lists, a, p, q, k, FindIndex(ids, list[q]).value);
    } else {
      CliquesLinksCoOccurring(ids, nb, lists, a, p, q, FindIndex(ids, list[p]).value, k);
    }
  }

  /**
   * The neighbor relation form_cliques leaves: v is among movie k's neighbors
   * exactly when it was before, or two positions of some actor's list co-occur
   * for k and v (main.c:175-192).
   */
  lemma CliquesNeighbors(ids: seq<int>, nb: Lists, lists: seq<seq<int>>, k: nat, v: int)
    requires |nb| == |ids| && k < |ids|
    ensures v in Cliques(ids, nb, lists)[k] <==>
              v in nb[k] || exists a, p, q :: 0 <= a < |lists| && p < q && CoOccur(ids, lists[a], p, q, k, v)
  {
    hide Cliques, CoOccur;
    var r := Cliques(ids, nb, lists);
    if v in r[k] {
      CliquesNeighborsFrom(ids, nb, lists, k, v);
    }
    if v in nb[k] {
      CliquesGrows(ids, nb, lists);
      ExtendsKeeps(nb[k], r[k], v);
    }
    if exists a, p, q :: 0 <= a < |lists| && p < q && CoOccur(ids, lists[a], p, q, k, v) {
      var a, p, q :| 0 <= a < |lists| && p < q && CoOccur(ids, lists[a], p, q, k, v);
      CliquesNeighborsTo(ids, nb, lists, k, v, a, p, q);
    }
  }

  /** Pairing is by position, not by identifier: an actor listing the same movie twice makes it its own neighbor. */
  lemma RepeatedMovieIsOwnNeighbor()
    ensures ActorLinks([10], [[]], [10, 10]) == [[10, 10]]
  {
    assert FindIndex([10], 10) == Some(0);
    LinkBothWays([10], [[]], 10, 10, 0, 0);
    var r := Link([10], [[]], 10, 10);
    assert r[0] == [10, 10] + [];
    assert [10, 10] + [] == [10, 10];
    assert r == [[10, 10]];
    assert RowLinks([10], [[]], [10, 10], 0, 1) == r;
    assert RowLinks([10], r, [10, 10], 1, 2) == r;
  }

  // ----- Counting: no deduplication -----

  /** The number of entries over all lists. */
  function Total(nb: Lists): nat {
    if nb == [] then 0 else Total(nb[..|nb| - 1]) + |nb[|nb| - 1]|
  }

  lemma {:induction false} TotalUpdate(nb: Lists, i: nat, s: seq<int>)
    requires i < |nb|
    ensures Total(nb[i := s]) == Total(nb) - |nb[i]| + |s|
    decreases |nb|
  {
    var n := |nb|;
    if i < n - 1 {
      assert nb[i := s][..n - 1] == nb[..n - 1][i := s];
      TotalUpdate(nb[..n - 1], i, s);
    } else {
      assert nb[i := s][..n - 1] == nb[..n - 1];
    }
  }

  /** The number of pairs among `ps` whose two identifiers both resolve. */
  function ResolvedCount(ids: seq<int>, list: seq<int>, ps: seq<(nat, nat)>): nat
    requires PairsWithin(|list|, ps)
    decreases |ps|
  {
    if ps == [] then 0
    else
      (if Resolves(ids, list[ps[0].0]) && Resolves(ids, list[ps[0].1]) then 1 else 0)
        + ResolvedCount(ids, list, ps[1..])
  }

  /** The number of resolved position pairs of one actor's list. */
  function ResolvedPairs(ids: seq<int>, list: seq<int>): nat {
    PositionPairsExactlyOnce(|list|);
    ResolvedCount(ids, list, PositionPairs(|list|))
  }

  /** The number of resolved position pairs, summed over the actors. */
  function ResolvedPairsAll(ids: seq<int>, lists: seq<seq<int>>): nat {
    if lists == [] then 0
    else ResolvedPairs(ids, lists[0]) + ResolvedPairsAll(ids, lists[1..])
  }

  lemma LinkTotal(ids: seq<int>, nb: Lists, x: int, y: int)
    requires |nb| == |ids|
    ensures Total(Link(ids, nb, x, y)) == Total(nb) + if Resolves(ids, x) && Resolves(ids, y) then 2 else 0
  {
    match (FindIndex(ids, x), FindIndex(ids, y))
    case (Some(i), Some(j)) =>
      var r1 := nb[i := [ids[j]] + nb[i]];
      TotalUpdate(nb, i, [ids[j]] + nb[i]);
      TotalUpdate(r1, j, [ids[i]] + r1[j]);
    case _ =>
  }

  lemma {:induction false} LinkPairsTotal(ids: seq<int>, nb: Lists, list: seq<int>, ps: seq<(nat, nat)>)
    requires |nb| == |ids|
    requires PairsWithin(|list|, ps)
    ensures Total(LinkPairs(ids, nb, list, ps)) == Total(nb) + 2 * ResolvedCount(ids, list, ps)
    decreases |ps|
  {
    if ps != [] {
      LinkTotal(ids, nb, list[ps[0].0], list[ps[0].1]);
      LinkPairsTotal(ids, Link(ids, nb, list[ps[0].0], list[ps[0].1]), list, ps[1..]);
    }
  }

  /** There is no deduplication: form_cliques adds exactly two entries per resolved position pair, over all actors. */
  lemma {:induction false} CliquesTotal(ids: seq<int>, nb: Lists, lists: seq<seq<int>>)
    requires |nb| == |ids|
    ensures Total(Cliques(ids, nb, lists)) == Total(nb) + 2 * ResolvedPairsAll(ids, lists)
    decreases |lists|
  {
    if lists != [] {
      var list := lists[0];
      ActorLinksVisitsPositionPairs(ids, nb, list);
      LinkPairsTotal(ids, nb, list, PositionPairs(|list|));
      CliquesTotal(ids, ActorLinks(ids, nb, list), lists[1..]);
    }
  }
}
