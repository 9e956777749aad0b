/**
 * The records of main.c whose lists are changed in place: an actor with the
 * list of its movies' identifiers, and a movie with the list of its
 * neighbors' identifiers. Each singly linked list is kept as a sequence whose
 * index 0 is the head, so prepending a node is `[x] + list`.
 */
module Entities {

  class Actor {
    var id: int
    var name: string
    /** The movie identifiers of this actor, head first. */
    var movies: seq<int>

    /** An actor as the reader starts it, before any movie is added. */
    constructor (id: int, name: string)
      ensures this.id == id && this.name == name && movies == []
    {
      this.id := id;
      this.name := name;
      movies := [];
    }

    /** Prepends `movieId` to the actor's movie list. */
    method AddMovie(movieId: int)
      modifies this`movies
      ensures movies == [movieId] + old(movies)
      ensures |movies| == |old(movies)| + 1
      ensures id == old(id) && name == old(name)
    {
      movies := [movieId] + movies;
    }
  }

  class Movie {
    var id: int
    var title: string
    /** The identifiers of this movie's neighbors, head first; duplicates are kept. */
    var neighbors: seq<int>

    /** A movie as the reader stores it, with no neighbors yet. */
    constructor (id: int, title: string)
      ensures this.id == id && this.title == title && neighbors == []
    {
      this.id := id;
      this.title := title;
      neighbors := [];
    }

    /** Prepends `neighborId` to the movie's neighbor list. */
    method AddNeighbor(neighborId: int)
      modifies this`neighbors
      ensures neighbors == [neighborId] + old(neighbors)
      ensures |neighbors| == |old(neighbors)| + 1
      ensures id == old(id) && title == old(title)
    {
      neighbors := [neighborId] + neighbors;
    }
  }

  /** The first `n` entries of the movie array are pairwise different objects. */
  ghost predicate DistinctMovies(movies: array<Movie>, n: nat)
    requires n <= movies.Length
    reads movies
  {
    forall i, j :: 0 <= i < j < n ==> movies[i] != movies[j]
  }

  lemma DistinctAt(movies: array<Movie>, n: nat, a: nat, b: nat)
    requires n <= movies.Length && DistinctMovies(movies, n)
    requires a < n && b < n && a != b
    ensures movies[a] != movies[b]
  {
  }

  /** The first `n` movies of the array, as a set of objects. */
  ghost function MovieSet(movies: array<Movie>, n: nat): (r: set<Movie>)
    requires n <= movies.Length
    reads movies
    ensures forall k :: 0 <= k < n ==> movies[k] in r
    ensures r <= set k | 0 <= k < n :: movies[k]
  {
    if n == 0 then {} else MovieSet(movies, n - 1) + {movies[n - 1]}
  }

  /** The identifiers of the first `n` movies, in array order. */
  ghost function Ids(movies: array<Movie>, n: nat): (r: seq<int>)
    requires n <= movies.Length
    reads movies, (set k | 0 <= k < n :: movies[k])`id
    ensures |r| == n && forall k :: 0 <= k < n ==> r[k] == movies[k].id
  {
    if n == 0 then [] else Ids(movies, n - 1) + [movies[n - 1].id]
  }

  /** The neighbor lists of the first `n` movies, in array order. */
  ghost function NeighborLists(movies: array<Movie>, n: nat): (r: seq<seq<int>>)
    requires n <= movies.Length
    reads movies, (set k | 0 <= k < n :: movies[k])`neighbors
    ensures |r| == n && forall k :: 0 <= k < n ==> r[k] == movies[k].neighbors
  {
    if n == 0 then [] else NeighborLists(movies, n - 1) + [movies[n - 1].neighbors]
  }

  /** The movie lists of the first `n` actors, in array order. */
  ghost function MovieLists(actors: array<Actor>, n: nat): (r: seq<seq<int>>)
    requires n <= actors.Length
    reads actors, (set a | 0 <= a < n :: actors[a])`movies
    ensures |r| == n && forall a :: 0 <= a < n ==> r[a] == actors[a].movies
  {
    if n == 0 then [] else MovieLists(actors, n - 1) + [actors[n - 1].movies]
  }
}
