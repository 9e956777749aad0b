/**
 * The graph-building procedures of main.c over the heap: the lookup scan,
 * the clique formation over all actors, and the edge selection of the
 * output writer. Each is proved against the value-level definitions of
 * modules Lookup, Linking and Edges.
 */
module Graph {
  import opened Options
  import opened Lookup
  import opened Linking
  import opened Edges
  import opened Entities

  /**
   * The scan of `find_movie_by_id`: the first of the first `numMovies` movies
   * whose identifier is `id`, or null when there is none. FindIndex states
   * what "first" means.
   */
  method FindMovieById(movies: array<Movie>, numMovies: nat, id: int) returns (m: Movie?)
    requires numMovies <= movies.Length
    ensures FindIndex(Ids(movies, numMovies), id).None? ==> m == null
    ensures FindIndex(Ids(movies, numMovies), id).Some? ==> m == movies[FindIndex(Ids(movies, numMovies), id).value]
  {
    ghost var ids := Ids(movies, numMovies);
    var i := 0;
    while i < numMovies
      invariant i <= numMovies
      invariant forall j :: 0 <= j < i ==> ids[j] != id
    {
      if movies[i].id == id {
        FirstMatch(ids, id, i);
        return movies[i];
      }
      i := i + 1;
    }
    return null;
  }

  /** The first `n` movies carry the identifiers `ids` and the neighbor lists `nb`, position by position. */
  ghost predicate Agrees(movies: array<Movie>, n: nat, ids: seq<int>, nb: Lists)
    requires n <= movies.Length
    reads movies, set k | 0 <= k < n :: movies[k]
  {
    |ids| == n && |nb| == n && forall k :: 0 <= k < n ==> movies[k].id == ids[k] && movies[k].neighbors == nb[k]
  }

  /**
   * The loops of `form_cliques`: for every actor in array order, every pair of
   * positions p < q of its movie list whose two identifiers both resolve makes
   * each of the two movies a neighbor of the other. Only neighbor lists change.
   */
  method FormCliques(actors: array<Actor>, numActors: nat, movies: array<Movie>, numMovies: nat)
    requires numActors <= actors.Length && numMovies <= movies.Length
    requires DistinctMovies(movies, numMovies)
    modifies (set k | 0 <= k < numMovies :: movies[k])`neighbors
    ensures NeighborLists(movies, numMovies) ==
            Cliques(old(Ids(movies, numMovies)), old(NeighborLists(movies, numMovies)), old(MovieLists(actors, numActors)))
    ensures Ids(movies, numMovies) == old(Ids(movies, numMovies))
    ensures MovieLists(actors, numActors) == old(MovieLists(actors, numActors))
    ensures forall k :: 0 <= k < numMovies ==> movies[k].title == old(movies[k].title)
  {
    hide Ids, NeighborLists, MovieLists, ActorLinks, FindIndex;
    ghost var ids := Ids(movies, numMovies);
    ghost var lists := MovieLists(actors, numActors);
    ghost var nb := NeighborLists(movies, numMovies);
    ghost var goal := Cliques(ids, nb, lists);
    ghost var ms := MovieSet(movies, numMovies);
    var i := 0;
    while i < numActors
      invariant i <= numActors
      invariant forall a :: 0 <= a < numActors ==> actors[a].movies == lists[a]
      invariant Agrees(movies, numMovies, ids, nb)
      invariant Cliques(ids, nb, lists[i..]) == goal
    {
      CliquesStep(ids, nb, lists, i);
      LinkActor(actors[i].movies, movies, numMovies, ids, nb, ms);
      nb := ActorLinks(ids, nb, actors[i].movies);
      i := i + 1;
    }
    assert Ids(movies, numMovies) == ids;
    assert NeighborLists(movies, numMovies) == nb;
    assert MovieLists(actors, numActors) == lists;
  }

  lemma CliquesStep(ids: seq<int>, nb: Lists, lists: seq<seq<int>>, i: nat)
    requires |nb| == |ids| && i < |lists|
    ensures Cliques(ids, nb, lists[i..]) == Cliques(ids, ActorLinks(ids, nb, lists[i]), lists[i + 1..])
  {
    assert lists[i..][0] == lists[i] && lists[i..][1..] == lists[i + 1..];
  }

  /** One actor's iteration: the outer walk over its movie list `list`. */
  method LinkActor(list: seq<int>, movies: array<Movie>, numMovies: nat, ghost ids: seq<int>, ghost start: Lists, ghost ms: set<Movie>)
    requires numMovies <= movies.Length && DistinctMovies(movies, numMovies)
    requires Agrees(movies, numMovies, ids, start)
    requires forall k :: 0 <= k < numMovies ==> movies[k] in ms
    requires ms <= set k | 0 <= k < numMovies :: movies[k]
    modifies ms`neighbors
    ensures Agrees(movies, numMovies, ids, ActorLinks(ids, start, list))
  {
    ghost var nb := start;
    var p := 0;
    while p < |list|
      invariant p <= |list|
      invariant Agrees(movies, numMovies, ids, nb)
      invariant ListLinks(ids, nb, list, p) == ActorLinks(ids, start, list)
    {
      LinkRow(list, p, movies, numMovies, ids, nb, ms);
      nb := RowLinks(ids, nb, list, p, p + 1);
      p := p + 1;
    }
  }

  /** The inner walk for outer position p: every later position q of `list`. */
  method LinkRow(list: seq<int>, p: nat, movies: array<Movie>, numMovies: nat, ghost ids: seq<int>, ghost start: Lists, ghost ms: set<Movie>)
    requires p < |list|
    requires numMovies <= movies.Length && DistinctMovies(movies, numMovies)
    requires Agrees(movies, numMovies, ids, start)
    requires forall k :: 0 <= k < numMovies ==> movies[k] in ms
    requires ms <= set k | 0 <= k < numMovies :: movies[k]
    modifies ms`neighbors
    ensures Agrees(movies, numMovies, ids, RowLinks(ids, start, list, p, p + 1))
  {
    hide Link;
    ghost var nb := start;
    var q := p + 1;
    while q < |list|
      invariant p + 1 <= q <= |list|
      invariant Agrees(movies, numMovies, ids, nb)
      invariant RowLinks(ids, nb, list, p, q) == RowLinks(ids, start, list, p, p + 1)
    {
      ghost var next := Link(ids, nb, list[p], list[q]);
      assert RowLinks(ids, nb, list, p, q) == RowLinks(ids, next, list, p, q + 1);
      LinkPair(movies, numMovies, list[p], list[q], ids, nb, ms);
      assert Agrees(movies, numMovies, ids, next);
      nb, q := next, q + 1;
    }
  }

  /**
   * The body of the inner walk for the identifiers x and y: when both resolve,
   * each movie's identifier is prepended to the other's neighbor list.
   */
  method LinkPair(movies: array<Movie>, numMovies: nat, x: int, y: int, ghost ids: seq<int>, ghost nb: Lists, ghost ms: set<Movie>)
    requires numMovies <= movies.Length && DistinctMovies(movies, numMovies)
    requires Agrees(movies, numMovies, ids, nb)
    requires forall k :: 0 <= k < numMovies ==> movies[k] in ms
    requires ms <= set k | 0 <= k < numMovies :: movies[k]
    modifies ms`neighbors
    ensures Agrees(movies, numMovies, ids, Link(ids, nb, x, y))
  {
    hide Link, DistinctMovies, Ids, FindIndex;
    assert Ids(movies, numMovies) == ids;
    var m1 := FindMovieById(movies, numMovies, x);
    var m2 := FindMovieById(movies, numMovies, y);
    if m1 != null && m2 != null {
      ghost var i, j := FindIndex(ids, x).value, FindIndex(ids, y).value;
      LinkUnfold(ids, nb, x, y, i, j);
      assert m1 == movies[i] && m2 == movies[j];
      ghost var r1 := nb[i := [ids[j]] + nb[i]];
      PrependNeighbor(m1, m2.id, movies, numMovies, i, ids, nb, ms);
      PrependNeighbor(m2, m1.id, movies, numMovies, j, ids, r1, ms);
    } else {
      LinkUnresolved(ids, nb, x, y);
    }
  }

  /** `add_neighbor` on movie m, at position i: its list gains v at the head, and no other movie changes. */
  method PrependNeighbor(m: Movie, v: int, movies: array<Movie>, numMovies: nat, ghost i: nat, ghost ids: seq<int>, ghost nb: Lists, ghost ms: set<Movie>)
    requires numMovies <= movies.Length && DistinctMovies(movies, numMovies) && i < numMovies && movies[i] == m
    requires Agrees(movies, numMovies, ids, nb)
    requires forall k :: 0 <= k < numMovies ==> movies[k] in ms
    requires ms <= set k | 0 <= k < numMovies :: movies[k]
    modifies ms`neighbors
    ensures Agrees(movies, numMovies, ids, nb[i := [v] + nb[i]])
  {
    hide DistinctMovies;
    m.AddNeighbor(v);
    forall k | 0 <= k < numMovies
      ensures movies[k].id == ids[k] && movies[k].neighbors == nb[i := [v] + nb[i]][k]
    {
      if k != i {
        DistinctAt(movies, numMovies, k, i);
      }
    }
  }

  /** `edges` holds the movie objects named by the position pairs `es`: each movie with its neighbor's movie. */
  ghost predicate EdgesName(movies: array<Movie>, edges: seq<(Movie, Movie)>, es: seq<(nat, nat)>)
    reads movies
  {
    && |edges| == |es|
    && forall t :: 0 <= t < |es| ==>
         es[t].0 < movies.Length && es[t].1 < movies.Length && edges[t] == (movies[es[t].0], movies[es[t].1])
  }

  lemma EdgesNameEmpty(movies: array<Movie>)
    ensures EdgesName(movies, [], [])
  {
  }

  lemma EdgesNameOne(movies: array<Movie>, a: nat, b: nat)
    requires a < movies.Length && b < movies.Length
    ensures EdgesName(movies, [(movies[a], movies[b])], [(a, b)])
  {
  }

  lemma EdgesNameAppend(movies: array<Movie>, e1: seq<(Movie, Movie)>, s1: seq<(nat, nat)>, e2: seq<(Movie, Movie)>, s2: seq<(nat, nat)>)
    requires EdgesName(movies, e1, s1) && EdgesName(movies, e2, s2)
    ensures EdgesName(movies, e1 + e2, s1 + s2)
  {
    forall t | |s1| <= t < |s1 + s2|
      ensures (s1 + s2)[t] == s2[t - |s1|] && (e1 + e2)[t] == e2[t - |s1|]
    {
    }
  }

  /**
   * The edge loop of `write_dot_file`, without the text: for each of the first
   * `numMovies` movies in array order, and each entry of its neighbor list from
   * the head, the pair (movie, movie the entry resolves to), skipping entries
   * that resolve to no movie. Output line t names the titles of pair t.
   */
  method DotEdges(movies: array<Movie>, numMovies: nat) returns (edges: seq<(Movie, Movie)>)
    requires numMovies <= movies.Length
    ensures EdgesName(movies, edges, EdgeIndices(Ids(movies, numMovies), NeighborLists(movies, numMovies), numMovies))
  {
    hide EdgesName, Ids, NeighborLists, RowEdges, FindIndex;
    ghost var ids := Ids(movies, numMovies);
    ghost var nbs := NeighborLists(movies, numMovies);
    edges := [];
    EdgesNameEmpty(movies);
    var i := 0;
    while i < numMovies
      invariant i <= numMovies
      invariant EdgesName(movies, edges, EdgeIndices(ids, nbs, i))
    {
      var row := RowDotEdges(movies, numMovies, i);
      EdgesNameAppend(movies, edges, EdgeIndices(ids, nbs, i), row, RowEdges(ids, i, nbs[i], |nbs[i]|));
      edges := edges + row;
      i := i + 1;
    }
  }

  /** The inner walk of the edge loop: the pairs for the neighbor list of the movie at position i. */
  method RowDotEdges(movies: array<Movie>, numMovies: nat, i: nat) returns (row: seq<(Movie, Movie)>)
    requires i < numMovies <= movies.Length
    ensures EdgesName(movies, row, RowEdges(Ids(movies, numMovies), i, movies[i].neighbors, |movies[i].neighbors|))
  {
    hide EdgesName, Ids, FindIndex;
    ghost var ids := Ids(movies, numMovies);
    var neighbors := movies[i].neighbors;
    row := [];
    EdgesNameEmpty(movies);
    var t := 0;
    while t < |neighbors|
      invariant t <= |neighbors|
      invariant EdgesName(movies, row, RowEdges(ids, i, neighbors, t))
    {
      var m := FindMovieById(movies, numMovies, neighbors[t]);
      assert Ids(movies, numMovies) == ids;
      if m != null {
        ghost var j := FindIndex(ids, neighbors[t]).value;
        assert RowEdges(ids, i, neighbors, t + 1) == RowEdges(ids, i, neighbors, t) + [(i, j)];
        EdgesNameOne(movies, i, j);
        EdgesNameAppend(movies, row, RowEdges(ids, i, neighbors, t), [(movies[i], m)], [(i, j)]);
        row := row + [(movies[i], m)];
        assert EdgesName(movies, row, RowEdges(ids, i, neighbors, t + 1));
      } else {
        assert RowEdges(ids, i, neighbors, t + 1) == RowEdges(ids, i, neighbors, t);
      }
      t := t + 1;
    }
  }
}
