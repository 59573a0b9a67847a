/** The `movie_actors` join table as a sequence of rows in storage order, and the
    effect of the statements the repository runs on it: selecting a movie's actor
    ids or an actor's movie ids, deleting a movie's rows, inserting one row per
    actor, and the delete-then-reinsert replacement `updateMovie` performs. */
module Associations {
  import opened Entities

  /** `SELECT actor_id FROM movie_actors WHERE movie_id=$1`: the actor ids linked to
      a movie, in the order of the join rows, duplicates kept. */
  function ActorsLinkedTo(links: seq<Link>, movieId: int): (ids: seq<int>)
    ensures |ids| <= |links|
    ensures forall a :: a in ids <==> Link(movieId, a) in links
  {
    if links == [] then []
    else (if links[0].movieId == movieId then [links[0].actorId] else [])
         + ActorsLinkedTo(links[1..], movieId)
  }

  /** `SELECT movie_id FROM movie_actors WHERE actor_id=$1`: the movie ids linked to
      an actor, in the order of the join rows, duplicates kept. */
  function MoviesLinkedTo(links: seq<Link>, actorId: int): (ids: seq<int>)
    ensures |ids| <= |links|
    ensures forall m :: m in ids <==> Link(m, actorId) in links
  {
    if links == [] then []
    else (if links[0].actorId == actorId then [links[0].movieId] else [])
         + MoviesLinkedTo(links[1..], actorId)
  }

  /** `DELETE FROM movie_actors WHERE movie_id=$1`: the other rows, in their order. */
  function WithoutMovie(links: seq<Link>, movieId: int): (kept: seq<Link>)
    ensures |kept| <= |links|
    ensures forall l :: l in kept <==> l in links && l.movieId != movieId
  {
    if links == [] then []
    else (if links[0].movieId != movieId then [links[0]] else [])
         + WithoutMovie(links[1..], movieId)
  }

  /** The rows one `INSERT INTO movie_actors` per listed actor adds, in list order. */
  function LinkRows(movieId: int, actorIds: seq<int>): (rows: seq<Link>)
    ensures |rows| == |actorIds|
    ensures forall i :: 0 <= i < |rows| ==> rows[i] == Link(movieId, actorIds[i])
  {
    seq(|actorIds|, i requires 0 <= i < |actorIds| => Link(movieId, actorIds[i]))
  }

  /** The join table after `updateMovie` has run to completion: every row of the
      movie deleted, then one row per listed actor appended. */
  function ReplaceLinks(links: seq<Link>, movieId: int, actorIds: seq<int>): (r: seq<Link>)
    ensures ActorsLinkedTo(r, movieId) == actorIds
    ensures forall other :: other != movieId ==> ActorsLinkedTo(r, other) == ActorsLinkedTo(links, other)
    ensures WithoutMovie(r, movieId) == WithoutMovie(links, movieId)
  {
    var kept := WithoutMovie(links, movieId);
    var rows := LinkRows(movieId, actorIds);
    ActorsLinkedToAppend(kept, rows, movieId);
    ActorsLinkedToWithout(links, movieId, movieId);
    ActorsLinkedToRows(movieId, actorIds, movieId);
    OtherMoviesKeepActors(links, movieId, actorIds);
    WithoutMovieAppend(kept, rows, movieId);
    WithoutMovieTwice(links, movieId);
    WithoutMovieOfRows(movieId, actorIds);
    assert kept + [] == kept;
    kept + rows
  }

  // ---------------------------------------------------------------------------
  // Lemmas
  // ---------------------------------------------------------------------------

  /** Selecting a movie's actors respects storage order: rows stored later come later. */
  lemma {:induction false} ActorsLinkedToAppend(a: seq<Link>, b: seq<Link>, movieId: int)
    ensures ActorsLinkedTo(a + b, movieId) == ActorsLinkedTo(a, movieId) + ActorsLinkedTo(b, movieId)
  {
    if a == [] {
      assert a + b == b;
    } else {
      assert (a + b)[1..] == a[1..] + b;
      ActorsLinkedToAppend(a[1..], b, movieId);
    }
  }

  /** Selecting an actor's movies respects storage order likewise. */
  lemma {:induction false} MoviesLinkedToAppend(a: seq<Link>, b: seq<Link>, actorId: int)
    ensures MoviesLinkedTo(a + b, actorId) == MoviesLinkedTo(a, actorId) + MoviesLinkedTo(b, actorId)
  {
    if a == [] {
      assert a + b == b;
    } else {
      assert (a + b)[1..] == a[1..] + b;
      MoviesLinkedToAppend(a[1..], b, actorId);
    }
  }

  lemma {:induction false} WithoutMovieAppend(a: seq<Link>, b: seq<Link>, movieId: int)
    ensures WithoutMovie(a + b, movieId) == WithoutMovie(a, movieId) + WithoutMovie(b, movieId)
  {
    if a == [] {
      assert a + b == b;
    } else {
      assert (a + b)[1..] == a[1..] + b;
      WithoutMovieAppend(a[1..], b, movieId);
    }
  }

  /** A movie that no join row names has no actors. */
  lemma {:induction false} UnlinkedMovieHasNoActors(links: seq<Link>, movieId: int)
    requires forall l :: l in links ==> l.movieId != movieId
    ensures ActorsLinkedTo(links, movieId) == []
  {
    if links != [] {
      assert links[0] in links;
      UnlinkedMovieHasNoActors(links[1..], movieId);
    }
  }

  /** The rows inserted for a movie name exactly the listed actors, in list order,
      and no other movie. */
  lemma {:induction false} ActorsLinkedToRows(movieId: int, actorIds: seq<int>, other: int)
    ensures ActorsLinkedTo(LinkRows(movieId, actorIds), movieId) == actorIds
    ensures other != movieId ==> ActorsLinkedTo(LinkRows(movieId, actorIds), other) == []
  {
    if actorIds != [] {
      var rows := LinkRows(movieId, actorIds);
      assert rows[1..] == LinkRows(movieId, actorIds[1..]);
      ActorsLinkedToRows(movieId, actorIds[1..], other);
    }
  }

  /** Deleting a movie's rows leaves it no actors and leaves every other movie's
      actors as they were. */
  lemma {:induction false} ActorsLinkedToWithout(links: seq<Link>, movieId: int, other: int)
    ensures ActorsLinkedTo(WithoutMovie(links, movieId), movieId) == []
    ensures other != movieId ==> ActorsLinkedTo(WithoutMovie(links, movieId), other) == ActorsLinkedTo(links, other)
  {
    if links != [] {
      ActorsLinkedToWithout(links[1..], movieId, other);
      var head := if links[0].movieId != movieId then [links[0]] else [];
      ActorsLinkedToAppend(head, WithoutMovie(links[1..], movieId), movieId);
      ActorsLinkedToAppend(head, WithoutMovie(links[1..], movieId), other);
    }
  }

  /** Deleting one movie's rows and appending new rows for it leaves every other
      movie's actors as they were. */
  lemma OtherMoviesKeepActors(links: seq<Link>, movieId: int, actorIds: seq<int>)
    ensures forall other :: other != movieId ==>
      ActorsLinkedTo(WithoutMovie(links, movieId) + LinkRows(movieId, actorIds), other) == ActorsLinkedTo(links, other)
  {
    forall other | other != movieId
      ensures ActorsLinkedTo(WithoutMovie(links, movieId) + LinkRows(movieId, actorIds), other) == ActorsLinkedTo(links, other)
    {
      ActorsLinkedToAppend(WithoutMovie(links, movieId), LinkRows(movieId, actorIds), other);
      ActorsLinkedToWithout(links, movieId, other);
      ActorsLinkedToRows(movieId, actorIds, other);
    }
  }

  /** Replacement is exhaustive: afterwards the movie's actors are exactly the new
      list, in order (an old actor missing from the list is gone), and the actors
      of every other movie are unchanged. */
  lemma ReplaceIsExhaustive(links: seq<Link>, movieId: int, actorIds: seq<int>, other: int)
    ensures ActorsLinkedTo(ReplaceLinks(links, movieId, actorIds), movieId) == actorIds
    ensures other != movieId ==>
      ActorsLinkedTo(ReplaceLinks(links, movieId, actorIds), other) == ActorsLinkedTo(links, other)
  {
  }

  /** Replacement keeps the rows of every other movie, in their order. */
  lemma ReplaceKeepsOtherRows(links: seq<Link>, movieId: int, actorIds: seq<int>, other: int)
    requires other != movieId
    ensures WithoutMovie(ReplaceLinks(links, movieId, actorIds), movieId) == WithoutMovie(links, movieId)
    ensures forall l: Link :: l.movieId == other ==> (l in ReplaceLinks(links, movieId, actorIds) <==> l in links)
  {
  }

  lemma {:induction false} WithoutMovieTwice(links: seq<Link>, movieId: int)
    ensures WithoutMovie(WithoutMovie(links, movieId), movieId) == WithoutMovie(links, movieId)
  {
    if links != [] {
      WithoutMovieTwice(links[1..], movieId);
      var head := if links[0].movieId != movieId then [links[0]] else [];
      WithoutMovieAppend(head, WithoutMovie(links[1..], movieId), movieId);
    }
  }

  lemma {:induction false} WithoutMovieOfRows(movieId: int, actorIds: seq<int>)
    ensures WithoutMovie(LinkRows(movieId, actorIds), movieId) == []
  {
    if actorIds != [] {
      var rows := LinkRows(movieId, actorIds);
      assert rows[1..] == LinkRows(movieId, actorIds[1..]);
      WithoutMovieOfRows(movieId, actorIds[1..]);
    }
  }

  /** Running the same replacement twice leaves the table as running it once. */
  lemma ReplaceIsIdempotent(links: seq<Link>, movieId: int, actorIds: seq<int>)
    ensures ReplaceLinks(ReplaceLinks(links, movieId, actorIds), movieId, actorIds)
         == ReplaceLinks(links, movieId, actorIds)
  {
  }

  /** After a movie's rows are appended, each listed actor lists the movie, after
      the movies it listed before. */
  lemma AddedMovieSeenByItsActors(links: seq<Link>, movieId: int, actorIds: seq<int>, actorId: int)
    requires actorId in actorIds
    ensures movieId in MoviesLinkedTo(links + LinkRows(movieId, actorIds), actorId)
    ensures |MoviesLinkedTo(links, actorId)| < |MoviesLinkedTo(links + LinkRows(movieId, actorIds), actorId)|
    ensures MoviesLinkedTo(links + LinkRows(movieId, actorIds), actorId)[..|MoviesLinkedTo(links, actorId)|]
         == MoviesLinkedTo(links, actorId)
  {
    MoviesLinkedToAppend(links, LinkRows(movieId, actorIds), actorId);
    var i :| 0 <= i < |actorIds| && actorIds[i] == actorId;
    assert LinkRows(movieId, actorIds)[i] == Link(movieId, actorId);
  }
}
