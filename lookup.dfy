/**
 * Identifier resolution, as `find_movie_by_id` does it: a linear scan of the
 * movie collection that stops at the first movie carrying the identifier.
 * Here the collection is seen through its identifiers, in array order.
 */
module Lookup {
  import opened Options

  /** The position of the first entry of `ids` equal to `id`, or None when there is none. */
  function FindIndex(ids: seq<int>, id: int): (r: Option<nat>)
    ensures r.Some? ==> r.value < |ids| && ids[r.value] == id
    ensures r.Some? ==> forall j :: 0 <= j < r.value ==> ids[j] != id
    ensures r.None? <==> forall j :: 0 <= j < |ids| ==> ids[j] != id
  {
    if |ids| == 0 then None
    else if ids[0] == id then Some(0)
    else match FindIndex(ids[1..], id)
      case None => None
      case Some(k) => Some(k + 1)
  }

  /** An identifier resolves when some movie of the collection carries it. */
  predicate Resolves(ids: seq<int>, id: int) {
    FindIndex(ids, id).Some?
  }

  /** Whatever position the scan stops at, looking up the identifier found there stops there again. */
  lemma {:induction false} FindIndexStable(ids: seq<int>, id: int)
    requires FindIndex(ids, id).Some?
    ensures FindIndex(ids, ids[FindIndex(ids, id).value]) == FindIndex(ids, id)
  {
  }

  /** With pairwise distinct identifiers the scan finds every position by its own identifier. */
  lemma FindIndexOfDistinct(ids: seq<int>, k: nat)
    requires k < |ids|
    requires forall i, j :: 0 <= i < j < |ids| ==> ids[i] != ids[j]
    ensures FindIndex(ids, ids[k]) == Some(k)
  {
  }

  /** A position that carries `id` and follows no other such position is the one the scan finds. */
  lemma FirstMatch(ids: seq<int>, id: int, i: nat)
    requires i < |ids| && ids[i] == id
    requires forall j :: 0 <= j < i ==> ids[j] != id
    ensures FindIndex(ids, id) == Some(i)
  {
  }
}
