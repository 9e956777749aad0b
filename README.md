# Movie co-occurrence graph builder of `grafo_imdb_c`, modelled in Dafny

This project models the graph-building part of `main.c`. Actors and movies are
records. An actor carries the identifiers of its movies. A movie carries the
identifiers of its neighbors: the movies that share an actor with it. Both
lists are singly linked, and every insertion is a prepend at the head.

`form_cliques` walks each actor's movie list. For every position pair
(earlier, later) it looks up both identifiers in the movie array with the
first-match scan `find_movie_by_id`. When both resolve, each movie's
identifier is prepended to the other's neighbor list. `write_dot_file` then
emits one edge per neighbor entry that resolves.

Layout:

- `entities.dfy` (module `Entities`): classes `Actor` and `Movie`, whose list
  fields are `seq<int>` with index 0 as the head. It also holds ghost views
  of an array of them (`Ids`, `NeighborLists`, `MovieLists`).
- `lookup.dfy` (module `Lookup`): `FindIndex`, the first-match scan over
  identifiers.
- `pairs.dfy` (module `Pairs`): the position pairs the two nested walks visit.
- `linking.dfy` (module `Linking`): the effect of `form_cliques` on the
  neighbor lists, stated on values. `Link` is one visited pair; `RowLinks`,
  `ListLinks`, `ActorLinks` and `Cliques` are the loops. `LinkPairs` is a
  reference definition that applies enumerated pairs. The module also has
  lemmas on growth, self-neighbors, counting and the final neighbor relation.
- `edges.dfy` (module `Edges`): which (movie position, neighbor position) pairs
  the edge loop of `write_dot_file` emits, and what is proved about them.
- `graph.dfy` (module `Graph`): the imperative procedures over the movie array
  (`FindMovieById`, `FormCliques` with its inner walks, `DotEdges`). Each is
  proved against the value-level definitions.
- `scenarios.dfy` (module `Scenarios`): small worked cases of `form_cliques`.

## Model

| member | source | states |
|---|---|---|
| Entities.Actor.constructor | main.c:68-69 | a new actor has the given id and name and an empty movie list |
| Entities.Actor.AddMovie | main.c:24-33 | the movie list becomes `[movieId]` followed by the old list; its length grows by one; id and name are unchanged; only this actor's list changes |
| Entities.Movie.constructor | main.c:126-128 | a new movie has the given id and title and an empty neighbor list |
| Entities.Movie.AddNeighbor | main.c:35-44 | the neighbor list becomes `[neighborId]` followed by the old list; its length grows by one; id and title are unchanged; no other movie is touched |
| Lookup.FindIndex | main.c:166-173 | a found position holds the identifier, and no earlier position does; None exactly when no position holds it |
| Lookup.FindIndexStable | main.c:166-173 | looking up the identifier at the found position finds that same position again |
| Lookup.FindIndexOfDistinct | main.c:166-173 | with pairwise distinct identifiers, every position is found by its own identifier |
| Lookup.FirstMatch | main.c:167-169 | the first position carrying the identifier is the one the scan returns |
| Graph.FindMovieById | main.c:166-173 | returns the movie at the first position among the first `numMovies` whose id matches, and null exactly when none matches; changes nothing |
| Pairs.RowFrom | main.c:179-188 | the inner walk from position q visits (p, q), (p, q+1), ... up to the end of the list, in order |
| Pairs.PairsFrom | main.c:178-190 | every pair the walks visit from outer position p on has p <= first < second < length |
| Pairs.PairsFromComplete | main.c:178-190 | the walks from outer position p on visit every pair a < b with a >= p |
| Pairs.PairsFromNoRepeats | main.c:178-190 | the walks from outer position p on visit no pair twice |
| Pairs.PositionPairsExactlyOnce | main.c:177-190 | one actor's walks visit every position pair p < q of its list exactly once, and no other pair |
| Linking.LinkBothWays | main.c:181-186 | a resolved pair prepends y to the neighbor list of x's movie and x to that of y's movie, or `[x, x]` when both are the same movie, and touches no other list |
| Linking.Link | main.c:181-186 | the body of the inner walk for one pair; its contract states only that the number of lists is kept; `LinkBothWays`, `LinkUnresolved`, `LinkGrows` and `LinkTotal` carry the substance |
| Linking.LinkUnfold | main.c:184-185 | helper of `LinkPair` and the scenarios: `Link` of a resolved pair unfolded as the prepend to m1's list followed by the prepend to m2's list |
| Linking.LinkUnresolved | main.c:183 | when either identifier does not resolve, no list changes |
| Linking.LinkPairsAppend | main.c:176-191 | applying two runs of pairs one after the other equals applying their concatenation |
| Linking.RowLinks | main.c:180-188 | the inner walk for outer position p; its contract states only that the number of lists is kept; `RowLinksVisitsRow` carries the substance |
| Linking.ListLinks | main.c:178-190 | the outer walk from position p; its contract states only that the number of lists is kept; `ListLinksVisitsPairs` carries the substance |
| Linking.ActorLinks | main.c:177-190 | one actor's iteration; its contract states only that the number of lists is kept; `ActorLinksVisitsPositionPairs`, `ActorLinksGrows` and `CliquesTotal` carry the substance |
| Linking.Cliques | main.c:176-191 | all actors' iterations in array order; its contract states only that the number of lists is kept; `CliquesNeighbors`, `CliquesGrows`, `CliquesTotal` and `Graph.FormCliques` carry the substance |
| Linking.RowLinksVisitsRow | main.c:180-188 | the inner walk applies exactly the pairs of its row, in order |
| Linking.ListLinksVisitsPairs | main.c:178-190 | the outer walk from p applies exactly the pairs of rows p and later, in order |
| Linking.ActorLinksVisitsPositionPairs | main.c:177-190 | one actor's iteration applies exactly the enumerated position pairs of its list, in order |
| Linking.GrowsRefl | main.c:175-192 | helper of `LinkPairsGrows` and `CliquesGrows` (their base case): lists are grown from themselves with no self-identifier |
| Linking.ExtendsTrans | main.c:184-185 | helper of `GrowsTrans`: two prepends compose into one prepend, and the entries of the second sit at the head |
| Linking.GrowsTrans | main.c:175-192 | helper of `LinkPairsGrows` and `CliquesGrows`: growth by resolvable prepends without self-identifiers composes |
| Linking.PrependExtends | main.c:41-43 | helper of `LinkGrowsAt`: a prepend keeps the old list as the tail and puts the new entries at the head |
| Linking.LinkGrowsAt | main.c:181-186 | one pair only prepends to a list, only resolvable identifiers, and never the list's own movie identifier when x != y |
| Linking.LinkGrows | main.c:181-186 | the same for every list at once |
| Linking.LinkPairsGrows | main.c:176-191 | any run of position pairs only prepends resolvable identifiers, and no self-identifier when the list repeats no identifier and no pair repeats a position |
| Linking.ActorLinksGrows | main.c:177-190 | one actor only prepends identifiers of movies in the collection; if its list repeats no identifier, no movie gains its own identifier from it |
| Linking.CliquesGrows | main.c:175-192 | over all actors, neighbor lists only gain entries at their heads, each the identifier of a movie of the collection, and none gains its own identifier when no actor's list repeats one |
| Linking.ExtendsKeeps | main.c:41-43 | helper of `LinkPairsLinksPair` and `CliquesLinksCoOccurring`: an entry of a list is still there after entries are prepended |
| Linking.LinkPairsLinksPair | main.c:181-186 | in a run of pairs, a pair whose two identifiers resolve to movies i and j leaves the identifier of j in i's final list and that of i in j's |
| Linking.CliquesLinksCoOccurring | main.c:175-192 | after all actors, two movies whose identifiers resolve at positions p < q of some actor's list each hold the other's identifier |
| Linking.LinkPairsGainedFrom | main.c:181-186 | every entry a run of pairs adds to list k comes from one of its pairs: one position resolves to movie k and the entry is the resolving identifier at the other position |
| Linking.CliquesGainedFrom | main.c:175-192 | every entry form_cliques adds to list k comes from two positions p < q of some actor's list, one resolving to movie k and the other carrying the entry, which resolves |
| Linking.CliquesNeighborsFrom | main.c:175-192 | an entry of movie k's final list was there before or comes from two co-occurring positions of some actor's list |
| Linking.CliquesNeighborsTo | main.c:175-192 | two co-occurring positions of some actor's list, for movie k and identifier v, put v into k's final list |
| Linking.CliquesNeighbors | main.c:175-192 | v is among movie k's final neighbors exactly when it was among them before, or some actor's list has positions p < q with one resolving to k and the other carrying v, which resolves |
| Linking.RepeatedMovieIsOwnNeighbor | main.c:179-185 | pairing is by position: an actor listing movie 10 twice makes 10 a neighbor of itself twice |
| Linking.TotalUpdate | main.c:41-43 | helper of `LinkTotal`: replacing one list changes the entry count by the difference of lengths |
| Linking.LinkTotal | main.c:183-186 | one pair adds exactly two entries when both identifiers resolve and none otherwise |
| Linking.LinkPairsTotal | main.c:176-191 | a run of pairs adds exactly twice the number of its resolved pairs |
| Linking.CliquesTotal | main.c:175-192 | no deduplication: form_cliques adds exactly two neighbor entries per resolved position pair, summed over all actors |
| Graph.CliquesStep | main.c:176-177 | helper of `FormCliques` (its loop step): the remaining actors' effect is the next actor's effect followed by the rest |
| Graph.LinkPair | main.c:181-186 | after the body of the inner walk, the movies' lists are those of `Link`, and their ids are unchanged |
| Graph.PrependNeighbor | main.c:184-185 | `add_neighbor` on the movie at position i: its list gains the identifier at its head, ids are kept, and every other movie's list is unchanged |
| Graph.LinkRow | main.c:179-188 | after the inner walk for p, the movies' lists are those of `RowLinks` |
| Graph.LinkActor | main.c:177-190 | after one actor's walks, the movies' lists are those of `ActorLinks` |
| Graph.FormCliques | main.c:175-192 | the new neighbor lists are `Cliques` of the old identifiers, neighbor lists and actor movie lists; actor lists, movie ids and titles are unchanged |
| Edges.RowEdges | main.c:206-213 | its contract bounds the row only: at most one edge per entry, each from that movie to a movie of the collection; `RowEdgesExact`, `RowEdgesComplete` and `RowEdgesResolve` carry the substance |
| Edges.RowEdgesResolve | main.c:207-211 | every emitted edge leads to an entry of the list, and to the first movie carrying it |
| Edges.RowEdgesAllResolve | main.c:207-213 | when every entry resolves, one edge per entry is emitted, in list order, duplicates included |
| Edges.RowEdgesNoneResolve | main.c:209 | entries that do not resolve emit nothing |
| Edges.EdgeOf | main.c:208-211 | one neighbor entry emits at most one edge, one exactly when the entry resolves, and that edge leads to the first movie carrying the entry |
| Edges.Resolving | main.c:208-209 | helper of `RowEdgesExact` and `EdgeIndicesExact`: the number of resolving entries among the first n, at most n |
| Edges.ResolvingGrows | main.c:208-209 | helper of `RowEdgesExact`: a resolving entry at t makes the count up to any later n exceed the count up to t |
| Edges.RowEdgesExact | main.c:206-213 | one movie's walk emits exactly one edge per resolving entry and no other; the edge of resolving entry t sits right after those of the earlier resolving entries and leads to the first movie carrying it |
| Edges.RowEdgesComplete | main.c:206-213 | every resolving entry of a list emits its edge, also when other entries do not resolve |
| Edges.EdgeIndices | main.c:204-214 | its contract bounds the edges only: each starts at a scanned movie and ends at a movie of the collection; `EdgeIndicesExact`, `EdgeIndicesComplete` and `EdgeIndicesSound` carry the substance |
| Edges.EdgeIndicesSound | main.c:204-214 | every edge (k, j) has the identifier of movie j among movie k's neighbors, j is its first match, and edges come in array order of k |
| Edges.EdgeIndicesExact | main.c:204-214 | the edge loop emits exactly one edge per resolving neighbor entry, in array order then list order: entry t of movie k has its edge after those of earlier movies and of k's earlier resolving entries |
| Edges.EdgeIndicesComplete | main.c:204-214 | every resolving neighbor entry of every scanned movie emits its edge |
| Edges.EdgesOfResolvedLists | main.c:204-214 | when all entries resolve, the number of edges equals the number of neighbor entries |
| Edges.EmptyLists | main.c:127 | the lists the reader leaves: all empty |
| Edges.TotalEmpty | main.c:127 | helper of `EdgesAfterCliques`: empty lists hold no entries |
| Edges.EdgesAfterCliques | main.c:175-214 | starting from empty lists, building the cliques and emitting edges gives exactly two edges per resolved position pair, over all actors |
| Graph.EdgesNameAppend | main.c:204-214 | helper of `DotEdges` and `RowDotEdges`: edge sequences named position by position can be concatenated |
| Graph.RowDotEdges | main.c:205-213 | the edges emitted for one movie are (movie, neighbor's movie) for each resolving entry, in list order, as `RowEdges` says |
| Graph.DotEdges | main.c:204-214 | the emitted edges, in output order, are the movie pairs named by `EdgeIndices` of the current identifiers and neighbor lists |
| Scenarios.ThreeSharedMovies | main.c:175-192 | one actor with movies 10, 20, 30: each gains the other two, once each |
| Scenarios.UnknownMovieSkipped | main.c:183 | an unknown movie 99 produces no edge, and movie 10 gains nothing |
| Scenarios.DuplicatesKept | main.c:175-192 | two actors sharing 10 and 20 make each hold the other twice |

## Left out

- `read_artists` and `read_movies` (main.c:46-164) are not modelled. They do file reading, tokenizing, `atoi` id extraction and filtering by the "movie" column. The constructors model only their creation of empty lists.
- `write_dot_file`'s file handling and text (main.c:194-203, 210, 216-217) is not modelled. `DotEdges` returns the sequence of (movie, neighbor's movie) pairs whose titles would be printed.
- `main` (main.c:220-265) is not modelled. It holds hard-coded paths, array allocation and the `free` loops.
- Allocation failure paths (`perror` + `exit`) are not modelled; allocation always succeeds.
- `avl_tree.h` is not part of this model. It declares tree operations with no bodies, and `main.c` does not use them. Lists follow the code's linked lists rather than balanced trees: each is a sequence with the head at index 0, and a prepend is `[x] + l`.
- Three behaviours of the code are easy to misread, and the model keeps each:
  - it keeps duplicate neighbor entries;
  - it does not exclude self-edges (`RepeatedMovieIsOwnNeighbor`);
  - it inserts both directions at pairing time.
- Graph.FormCliques requires that the first `numMovies` array entries are distinct objects (`DistinctMovies`). `read_movies` allocates a fresh record per movie, so the code guarantees it, but aliasing between array slots is not modelled.
- Linked nodes are modelled as `seq<int>` fields. Node identity and sharing between lists are not modelled: the code never shares nodes.
- Identifiers are C `int`s produced by `atoi`. No arithmetic is done on them, so they are modelled as unbounded `int`.
