/**
 * The position pairs that `form_cliques` visits in one actor's movie list:
 * the outer walk takes each position p from the head, the inner walk each
 * later position q, starting at `movie1->next`. Pairs are listed in that
 * order, row p before row p + 1.
 */
module Pairs {

  /** Row p of the walk from position q on: (p, q), (p, q + 1), ..., (p, len - 1). */
  function RowFrom(len: nat, p: nat, q: nat): (r: seq<(nat, nat)>)
    requires q <= len
    ensures |r| == len - q
    ensures forall t :: 0 <= t < |r| ==> r[t] == (p, q + t)
    decreases len - q
  {
    if q == len then [] else [(p, q)] + RowFrom(len, p, q + 1)
  }

  /** The rows p, p + 1, ..., len - 1 of the walk, each starting just after its outer position. */
  function PairsFrom(len: nat, p: nat): (r: seq<(nat, nat)>)
    requires p <= len
    ensures forall t :: 0 <= t < |r| ==> p <= r[t].0 < r[t].1 < len
    decreases len - p
  {
    if p == len then [] else RowFrom(len, p, p + 1) + PairsFrom(len, p + 1)
  }

  /** Every position pair the walk visits in a list of length `len`. */
  function PositionPairs(len: nat): seq<(nat, nat)> {
    PairsFrom(len, 0)
  }

  /** The pairs `ps` name positions of a list of length `len`. */
  predicate PairsWithin(len: nat, ps: seq<(nat, nat)>) {
    forall t :: 0 <= t < |ps| ==> ps[t].0 < len && ps[t].1 < len
  }

  /** Rows p and later visit every pair whose first position is p or later. */
  lemma {:induction false} PairsFromComplete(len: nat, p: nat)
    requires p <= len
    ensures forall a: nat, b: nat :: p <= a < b < len ==> (a, b) in PairsFrom(len, p)
    decreases len - p
  {
    if p < len {
      PairsFromComplete(len, p + 1);
      var row, rest := RowFrom(len, p, p + 1), PairsFrom(len, p + 1);
      forall a: nat, b: nat | p <= a < b < len
        ensures (a, b) in row + rest
      {
        if a == p {
          assert row[b - p - 1] == (a, b);
        } else {
          assert (a, b) in rest;
        }
      }
    }
  }

  /** Rows p and later visit no pair twice. */
  lemma {:induction false} PairsFromNoRepeats(len: nat, p: nat)
    requires p <= len
    ensures forall s, t :: 0 <= s < t < |PairsFrom(len, p)| ==> PairsFrom(len, p)[s] != PairsFrom(len, p)[t]
    decreases len - p
  {
    if p < len {
      PairsFromNoRepeats(len, p + 1);
      var row, rest := RowFrom(len, p, p + 1), PairsFrom(len, p + 1);
      var all := row + rest;
      forall s, t | 0 <= s < t < |all|
        ensures all[s] != all[t]
      {
        if t >= |row| {
          assert all[t] == rest[t - |row|];
          if s >= |row| {
            assert all[s] == rest[s - |row|];
          }
        }
      }
    }
  }

  /** The walk visits every position pair p < q of the list exactly once, and no other pair. */
  lemma PositionPairsExactlyOnce(len: nat)
    ensures forall t :: 0 <= t < |PositionPairs(len)| ==> PositionPairs(len)[t].0 < PositionPairs(len)[t].1 < len
    ensures forall a: nat, b: nat :: a < b < len ==> (a, b) in PositionPairs(len)
    ensures forall s, t :: 0 <= s < t < |PositionPairs(len)| ==> PositionPairs(len)[s] != PositionPairs(len)[t]
  {
    PairsFromComplete(len, 0);
    PairsFromNoRepeats(len, 0);
  }
}
