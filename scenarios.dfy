/**
 * Small worked cases of form_cliques on values: three known movies shared by
 * one actor, an actor with an unknown movie, and two actors sharing the same
 * pair. Lists are head first, as the loops walk them.
 */
module Scenarios {
  import opened Options
  import opened Lookup
  import opened Linking

  /** One actor with movies 10, 20, 30, all known: every movie gains the other two, once each. */
  lemma ThreeSharedMovies()
    ensures Cliques([10, 20, 30], [[], [], []], [[10, 20, 30]]) == [[30, 20], [30, 10], [20, 10]]
  {
    var ids, list := [10, 20, 30], [10, 20, 30];
    FirstMatch(ids, 10, 0);
    FirstMatch(ids, 20, 1);
    FirstMatch(ids, 30, 2);
    var e: Lists := [[], [], []];
    var a := Link(ids, e, 10, 20);
    LinkUnfold(ids, e, 10, 20, 0, 1);
    assert [20] + [] == [20] && [10] + [] == [10];
    assert a[0] == [20] && a[1] == [10] && a[2] == [];
    assert a == [[20], [10], []];
    var b := Link(ids, a, 10, 30);
    LinkUnfold(ids, a, 10, 30, 0, 2);
    assert [10] + [] == [10];
    assert b[0] == [30, 20] && b[1] == [10] && b[2] == [10];
    assert b == [[30, 20], [10], [10]];
    var c := Link(ids, b, 20, 30);
    LinkUnfold(ids, b, 20, 30, 1, 2);
    assert c[0] == [30, 20] && c[1] == [30, 10] && c[2] == [20, 10];
    assert c == [[30, 20], [30, 10], [20, 10]];
    assert RowLinks(ids, e, list, 0, 1) == b;
    assert RowLinks(ids, b, list, 1, 2) == c;
    assert RowLinks(ids, c, list, 2, 3) == c;
    assert ListLinks(ids, c, list, 2) == c;
    assert ActorLinks(ids, e, list) == c;
  }

  /** Movie 99 is unknown: the pair (10, 99) is skipped and movie 10 gains nothing. */
  lemma UnknownMovieSkipped()
    ensures Cliques([10], [[]], [[10, 99]]) == [[]]
  {
    var ids, list := [10], [10, 99];
    assert !Resolves(ids, 99);
    LinkUnresolved(ids, [[]], 10, 99);
    assert RowLinks(ids, [[]], list, 0, 1) == [[]];
    assert ListLinks(ids, [[]], list, 1) == [[]];
  }

  /** Two actors sharing movies 10 and 20: each movie holds the other's identifier twice. */
  lemma DuplicatesKept()
    ensures Cliques([10, 20], [[], []], [[10, 20], [10, 20]]) == [[20, 20], [10, 10]]
  {
    var ids, list := [10, 20], [10, 20];
    FirstMatch(ids, 10, 0);
    FirstMatch(ids, 20, 1);
    var e: Lists := [[], []];
    var a := Link(ids, e, 10, 20);
    LinkUnfold(ids, e, 10, 20, 0, 1);
    assert [20] + [] == [20] && [10] + [] == [10];
    assert a[0] == [20] && a[1] == [10];
    assert a == [[20], [10]];
    var b := Link(ids, a, 10, 20);
    LinkUnfold(ids, a, 10, 20, 0, 1);
    assert b[0] == [20, 20] && b[1] == [10, 10];
    assert b == [[20, 20], [10, 10]];
    assert ActorLinks(ids, e, list) == a by {
      assert RowLinks(ids, e, list, 0, 1) == a;
      assert ListLinks(ids, a, list, 1) == a;
    }
    assert ActorLinks(ids, a, list) == b by {
      assert RowLinks(ids, a, list, 0, 1) == b;
      assert ListLinks(ids, b, list, 1) == b;
    }
    assert Cliques(ids, a, [[10, 20]]) == Cliques(ids, b, []);
  }
}
