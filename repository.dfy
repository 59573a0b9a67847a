/** The repository functions of the movie service over an in-memory picture of its
    three tables. Each SQL statement becomes its effect on the tables; the id a
    `RETURNING id` clause hands back comes from a per-table counter. Storage
    failures are an input: `failAt` names the first statement of the call that the
    store rejects (None: every statement succeeds). As in the source, a call
    returns at the first failure and statements already run stay applied. */
module Repository {
  import opened Entities
  import opened Associations

  /** Every id in the list names a row of the table. */
  ghost predicate AllIn<R>(ids: seq<int>, table: map<int, R>)
  {
    forall i :: 0 <= i < |ids| ==> ids[i] in table
  }

  /** The actors loaded, one lookup per join row, for the given actor ids. */
  function PartnerActors(ids: seq<int>, table: map<int, ActorRow>): seq<Actor>
    requires AllIn(ids, table)
  {
    seq(|ids|, i requires 0 <= i < |ids| => PartnerActor(table[ids[i]]))
  }

  /** The movies loaded, one lookup per join row, for the given movie ids. */
  function PartnerMovies(ids: seq<int>, table: map<int, MovieRow>): seq<Movie>
    requires AllIn(ids, table)
  {
    seq(|ids|, i requires 0 <= i < |ids| => PartnerMovie(table[ids[i]]))
  }

  /** A movie row as the listing query returns it, before its actors are loaded. */
  datatype ListedMovie = ListedMovie(id: int, row: MovieRow)

  /** An actor row as `SELECT id, name, gender, date_of_birth FROM actors` returns it. */
  datatype ListedActor = ListedActor(id: int, row: ActorRow)

  class Store {
    var actors: map<int, ActorRow>
    var movies: map<int, MovieRow>
    var movieActors: seq<Link>
    /** The id the next INSERT INTO actors returns. */
    var nextActorId: int
    /** The id the next INSERT INTO movies returns. */
    var nextMovieId: int

    /** Stored ids are positive and below the counters, so an id handed out is new. */
    ghost predicate Valid()
      reads this
    {
      0 < nextActorId && 0 < nextMovieId
      && (forall id :: id in actors ==> 0 < id < nextActorId)
      && (forall id :: id in movies ==> 0 < id < nextMovieId)
    }

    constructor ()
      ensures Valid()
      ensures actors == map[] && movies == map[] && movieActors == []
    {
      actors, movies, movieActors := map[], map[], [];
      nextActorId, nextMovieId := 1, 1;
    }

    // -------------------------------------------------------------------------
    // Actors (main.go:36-88): scalar rows only, `movie_actors` never touched
    // -------------------------------------------------------------------------

    /** `addActor`: one INSERT ... RETURNING id; on success the new id is written back
        into the actor. */
    method AddActor(actor: Actor, failAt: Option<nat>) returns (outcome: Outcome, saved: Actor)
      requires Valid()
      modifies this
      ensures Valid()
      ensures outcome == FirstFailure(failAt, 1)
      ensures movies == old(movies) && movieActors == old(movieActors) && nextMovieId == old(nextMovieId)
      ensures outcome.Ok? ==>
        saved == actor.(id := saved.id) && 0 < saved.id && saved.id !in old(actors)
        && actors == old(actors)[saved.id := ActorRowOf(actor)]
      ensures outcome.StorageError? ==> saved == actor && actors == old(actors)
      ensures nextActorId == if outcome.Ok? then old(nextActorId) + 1 else old(nextActorId)
      ensures outcome.Ok? ==> saved.id == old(nextActorId)
    {
      outcome := FirstFailure(failAt, 1);
      saved := actor;
      if outcome.StorageError? {
        return;
      }
      saved := actor.(id := nextActorId);
      actors := actors[nextActorId := ActorRowOf(actor)];
      nextActorId := nextActorId + 1;
    }

    /** `updateActor`: one UPDATE by id; a missing id matches no row and is no error. */
    method UpdateActor(actor: Actor, failAt: Option<nat>) returns (outcome: Outcome)
      requires Valid()
      modifies this
      ensures Valid()
      ensures outcome == FirstFailure(failAt, 1)
      ensures movies == old(movies) && movieActors == old(movieActors)
      ensures nextActorId == old(nextActorId) && nextMovieId == old(nextMovieId)
      ensures actors == if outcome.Ok? && actor.id in old(actors)
                        then old(actors)[actor.id := ActorRowOf(actor)]
                        else old(actors)
    {
      outcome := FirstFailure(failAt, 1);
      if outcome.Ok? && actor.id in actors {
        actors := actors[actor.id := ActorRowOf(actor)];
      }
    }

    /** `deleteActor`: one DELETE by id; the actor's join rows are left behind. */
    method DeleteActor(id: int, failAt: Option<nat>) returns (outcome: Outcome)
      requires Valid()
      modifies this
      ensures Valid()
      ensures outcome == FirstFailure(failAt, 1)
      ensures movies == old(movies) && movieActors == old(movieActors)
      ensures nextActorId == old(nextActorId) && nextMovieId == old(nextMovieId)
      ensures actors == if outcome.Ok? then old(actors) - {id} else old(actors)
    {
      outcome := FirstFailure(failAt, 1);
      if outcome.Ok? {
        actors := actors - {id};
      }
    }

    // -------------------------------------------------------------------------
    // Movies (main.go:89-180)
    // -------------------------------------------------------------------------

    /** `addMovie`: statement 0 inserts the movie and writes its new id back; statement
        1 + i inserts the join row for the i-th actor of the payload. On a failure the
        movie row and the join rows inserted before it stay. */
    method AddMovie(movie: Movie, failAt: Option<nat>) returns (outcome: Outcome, saved: Movie)
      requires Valid()
      modifies this
      ensures Valid()
      ensures outcome == FirstFailure(failAt, 1 + |movie.actors|)
      ensures actors == old(actors) && nextActorId == old(nextActorId)
      ensures failAt == Some(0) ==>
        saved == movie && movies == old(movies) && movieActors == old(movieActors)
        && nextMovieId == old(nextMovieId)
      ensures failAt != Some(0) ==> saved.id == old(nextMovieId) && nextMovieId == old(nextMovieId) + 1
      ensures failAt != Some(0) ==>
        saved == movie.(id := saved.id) && 0 < saved.id && saved.id !in old(movies)
        && movies == old(movies)[saved.id := MovieRowOf(movie)]
        && movieActors == old(movieActors)
             + LinkRows(saved.id, ActorIds(movie.actors)[..Completed(failAt, 1 + |movie.actors|) - 1])
    {
      outcome := FirstFailure(failAt, 1);
      saved := movie;
      if outcome.StorageError? {
        return;
      }
      saved := movie.(id := nextMovieId);
      movies := movies[nextMovieId := MovieRowOf(movie)];
      nextMovieId := nextMovieId + 1;

      ghost var ids := ActorIds(movie.actors);
      var i := 0;
      while i < |movie.actors|
        invariant 0 <= i <= |movie.actors|
        invariant Valid()
        invariant failAt.Some? ==> failAt.value == 0 || failAt.value > i
        invariant movieActors == old(movieActors) + LinkRows(saved.id, ids[..i])
        invariant actors == old(actors) && nextActorId == old(nextActorId)
        invariant movies == old(movies)[saved.id := MovieRowOf(movie)]
        invariant saved.id == old(nextMovieId) && nextMovieId == old(nextMovieId) + 1
      {
        if failAt == Some(1 + i) {
          outcome := StorageError(1 + i);
          assert ids[..Completed(failAt, 1 + |movie.actors|) - 1] == ids[..i];
          return;
        }
        movieActors := movieActors + [Link(saved.id, movie.actors[i].id)];
        assert LinkRows(saved.id, ids[..i + 1]) == LinkRows(saved.id, ids[..i]) + [Link(saved.id, ids[i])];
        i := i + 1;
      }
      outcome := FirstFailure(failAt, 1 + |movie.actors|);
      assert ids[..Completed(failAt, 1 + |movie.actors|) - 1] == ids[..i];
    }

    /** `updateMovie`: statement 0 replaces the movie's scalar columns (no row matches
        a missing id, which is no error); statement 1 deletes all of the movie's join
        rows; statement 2 + i inserts the row for the i-th actor of the payload. The
        join-table statements run whether or not the movie row exists. */
    method UpdateMovie(movie: Movie, failAt: Option<nat>) returns (outcome: Outcome)
      requires Valid()
      modifies this
      ensures Valid()
      ensures outcome == FirstFailure(failAt, 2 + |movie.actors|)
      ensures actors == old(actors)
      ensures nextActorId == old(nextActorId) && nextMovieId == old(nextMovieId)
      ensures movies == if failAt != Some(0) && movie.id in old(movies)
                        then old(movies)[movie.id := MovieRowOf(movie)]
                        else old(movies)
      ensures failAt == Some(0) || failAt == Some(1) ==> movieActors == old(movieActors)
      ensures !(failAt == Some(0) || failAt == Some(1)) ==>
        movieActors == WithoutMovie(old(movieActors), movie.id)
          + LinkRows(movie.id, ActorIds(movie.actors)[..Completed(failAt, 2 + |movie.actors|) - 2])
      ensures outcome.Ok? ==> movieActors == ReplaceLinks(old(movieActors), movie.id, ActorIds(movie.actors))
    {
      outcome := FirstFailure(failAt, 1);
      if outcome.StorageError? {
        return;
      }
      if movie.id in movies {
        movies := movies[movie.id := MovieRowOf(movie)];
      }

      if failAt == Some(1) {
        outcome := StorageError(1);
        return;
      }
      movieActors := WithoutMovie(movieActors, movie.id);

      ghost var ids := ActorIds(movie.actors);
      var i := 0;
      while i < |movie.actors|
        invariant 0 <= i <= |movie.actors|
        invariant failAt.Some? ==> failAt.value < 2 || failAt.value > i + 1
        invariant failAt != Some(0) && failAt != Some(1)
        invariant movieActors == WithoutMovie(old(movieActors), movie.id) + LinkRows(movie.id, ids[..i])
        invariant actors == old(actors) && nextActorId == old(nextActorId) && nextMovieId == old(nextMovieId)
        invariant movies == if movie.id in old(movies) then old(movies)[movie.id := MovieRowOf(movie)] else old(movies)
      {
        if failAt == Some(2 + i) {
          outcome := StorageError(2 + i);
          assert ids[..Completed(failAt, 2 + |movie.actors|) - 2] == ids[..i];
          return;
        }
        movieActors := movieActors + [Link(movie.id, movie.actors[i].id)];
        assert LinkRows(movie.id, ids[..i + 1]) == LinkRows(movie.id, ids[..i]) + [Link(movie.id, ids[i])];
        i := i + 1;
      }
      outcome := FirstFailure(failAt, 2 + |movie.actors|);
      assert ids[..Completed(failAt, 2 + |movie.actors|) - 2] == ids[..i];
      assert ids[..i] == ids;
    }

    /** `deleteMovie`: one DELETE by id; the movie's join rows are left behind. */
    method DeleteMovie(id: int, failAt: Option<nat>) returns (outcome: Outcome)
      requires Valid()
      modifies this
      ensures Valid()
      ensures outcome == FirstFailure(failAt, 1)
      ensures actors == old(actors) && movieActors == old(movieActors)
      ensures nextActorId == old(nextActorId) && nextMovieId == old(nextMovieId)
      ensures movies == if outcome.Ok? then old(movies) - {id} else old(movies)
    {
      outcome := FirstFailure(failAt, 1);
      if outcome.Ok? {
        movies := movies - {id};
      }
    }

    // -------------------------------------------------------------------------
    // Relationship loading (main.go:212-341)
    // -------------------------------------------------------------------------

    /** The inner loop of `getMovies`: follow the movie's join rows in order and look
        each actor up by id. A lookup that finds no row fails the whole load. */
    method LoadActorsOf(movieId: int) returns (r: Option<seq<Actor>>)
      ensures r.Some? <==> AllIn(ActorsLinkedTo(movieActors, movieId), actors)
      ensures r.Some? ==> r.value == PartnerActors(ActorsLinkedTo(movieActors, movieId), actors)
    {
      var ids := ActorsLinkedTo(movieActors, movieId);
      var loaded: seq<Actor> := [];
      var i := 0;
      while i < |ids|
        invariant 0 <= i <= |ids|
        invariant AllIn(ids[..i], actors)
        invariant loaded == PartnerActors(ids[..i], actors)
      {
        if ids[i] !in actors {
          return None;
        }
        loaded := loaded + [PartnerActor(actors[ids[i]])];
        i := i + 1;
      }
      assert ids[..i] == ids;
      return Some(loaded);
    }

    /** The inner loop of `getActors`: follow the actor's join rows in order and look
        each movie up by id. A lookup that finds no row fails the whole load. */
    method LoadMoviesOf(actorId: int) returns (r: Option<seq<Movie>>)
      ensures r.Some? <==> AllIn(MoviesLinkedTo(movieActors, actorId), movies)
      ensures r.Some? ==> r.value == PartnerMovies(MoviesLinkedTo(movieActors, actorId), movies)
    {
      var ids := MoviesLinkedTo(movieActors, actorId);
      var loaded: seq<Movie> := [];
      var i := 0;
      while i < |ids|
        invariant 0 <= i <= |ids|
        invariant AllIn(ids[..i], movies)
        invariant loaded == PartnerMovies(ids[..i], movies)
      {
        if ids[i] !in movies {
          return None;
        }
        loaded := loaded + [PartnerMovie(movies[ids[i]])];
        i := i + 1;
      }
      assert ids[..i] == ids;
      return Some(loaded);
    }

    /** `getMovies` after its query has run: the listed rows, in order, each with its
        actors loaded. Any failed load makes the whole listing fail. */
    method GetMovies(listed: seq<ListedMovie>) returns (r: Option<seq<Movie>>)
      ensures r.Some? <==> forall k :: 0 <= k < |listed| ==> AllIn(ActorsLinkedTo(movieActors, listed[k].id), actors)
      ensures r.Some? ==> |r.value| == |listed|
      ensures r.Some? ==> forall k :: 0 <= k < |listed| ==>
        r.value[k].id == listed[k].id && MovieRowOf(r.value[k]) == listed[k].row
        && AllIn(ActorsLinkedTo(movieActors, listed[k].id), actors)
        && r.value[k].actors == PartnerActors(ActorsLinkedTo(movieActors, listed[k].id), actors)
    {
      var result: seq<Movie> := [];
      var k := 0;
      while k < |listed|
        invariant 0 <= k <= |listed|
        invariant |result| == k
        invariant forall j :: 0 <= j < k ==>
          result[j].id == listed[j].id && MovieRowOf(result[j]) == listed[j].row
          && AllIn(ActorsLinkedTo(movieActors, listed[j].id), actors)
          && result[j].actors == PartnerActors(ActorsLinkedTo(movieActors, listed[j].id), actors)
      {
        var row := listed[k].row;
        var loaded := LoadActorsOf(listed[k].id);
        if loaded.None? {
          return None;
        }
        result := result + [Movie(listed[k].id, row.name, row.description, row.releaseDate, row.rating, loaded.value)];
        k := k + 1;
      }
      return Some(result);
    }

    /** `getActors` after its query has run: the listed rows, in order, each with its
        movies loaded. Any failed load makes the whole listing fail. */
    method GetActors(listed: seq<ListedActor>) returns (r: Option<seq<Actor>>)
      ensures r.Some? <==> forall k :: 0 <= k < |listed| ==> AllIn(MoviesLinkedTo(movieActors, listed[k].id), movies)
      ensures r.Some? ==> |r.value| == |listed|
      ensures r.Some? ==> forall k :: 0 <= k < |listed| ==>
        r.value[k].id == listed[k].id && ActorRowOf(r.value[k]) == listed[k].row
        && AllIn(MoviesLinkedTo(movieActors, listed[k].id), movies)
        && r.value[k].movies == PartnerMovies(MoviesLinkedTo(movieActors, listed[k].id), movies)
    {
      var result: seq<Actor> := [];
      var k := 0;
      while k < |listed|
        invariant 0 <= k <= |listed|
        invariant |result| == k
        invariant forall j :: 0 <= j < k ==>
          result[j].id == listed[j].id && ActorRowOf(result[j]) == listed[j].row
          && AllIn(MoviesLinkedTo(movieActors, listed[j].id), movies)
          && result[j].movies == PartnerMovies(MoviesLinkedTo(movieActors, listed[j].id), movies)
      {
        var row := listed[k].row;
        var loaded := LoadMoviesOf(listed[k].id);
        if loaded.None? {
          return None;
        }
        result := result + [Actor(listed[k].id, row.name, row.gender, row.dateOfBirth, loaded.value)];
        k := k + 1;
      }
      return Some(result);
    }
  }

  /** Applying the same successful movie update twice leaves the tables as applying
      it once. */
  method UpdateTwiceIsUpdateOnce(s: Store, movie: Movie)
    requires s.Valid()
    modifies s
    ensures s.actors == old(s.actors)
    ensures s.movies == if movie.id in old(s.movies)
                        then old(s.movies)[movie.id := MovieRowOf(movie)]
                        else old(s.movies)
    ensures s.movieActors == ReplaceLinks(old(s.movieActors), movie.id, ActorIds(movie.actors))
  {
    var first := s.UpdateMovie(movie, None);
    var second := s.UpdateMovie(movie, None);
    ReplaceIsIdempotent(old(s.movieActors), movie.id, ActorIds(movie.actors));
  }

  /** A movie created without actors reads back with its columns and no actors,
      provided no join row already names the id it is about to receive. */
  method CreateThenRead(s: Store, movie: Movie) returns (saved: Movie, loaded: Option<seq<Actor>>)
    requires s.Valid() && movie.actors == []
    requires forall l :: l in s.movieActors ==> l.movieId < s.nextMovieId
    modifies s
    ensures saved == movie.(id := saved.id) && 0 < saved.id
    ensures saved.id in s.movies && s.movies[saved.id] == MovieRowOf(movie)
    ensures loaded == Some([])
  {
    var outcome;
    outcome, saved := s.AddMovie(movie, None);
    assert ActorIds(movie.actors)[..0] == [];
    assert s.movieActors == old(s.movieActors);
    UnlinkedMovieHasNoActors(s.movieActors, saved.id);
    loaded := s.LoadActorsOf(saved.id);

  }

  /** Nothing ties a join row to an existing movie: `updateMovie` on an id no movie
      has yet still writes the payload's join rows, and the movie that `addMovie`
      later gives that id inherits them, so a movie created without actors comes
      back with the earlier payload's actors. */
  method StaleRowsAdoptedByNewMovie(s: Store, movie: Movie, newMovie: Movie) returns (saved: Movie)
    requires s.Valid() && movie.id == s.nextMovieId && newMovie.actors == []
    modifies s
    ensures saved.id == movie.id && saved == newMovie.(id := saved.id)
    ensures ActorsLinkedTo(s.movieActors, saved.id) == ActorIds(movie.actors)
  {
    var updated := s.UpdateMovie(movie, None);
    ghost var afterUpdate := s.movieActors;
    assert afterUpdate == ReplaceLinks(old(s.movieActors), movie.id, ActorIds(movie.actors));
    var created;
    created, saved := s.AddMovie(newMovie, None);
    assert ActorIds(newMovie.actors)[..0] == [];
    assert LinkRows(saved.id, []) == [];
    assert s.movieActors == afterUpdate;
  }

  /** The rows of the outer `getActors` query are exactly the actors table: each
      listed row is the stored row of its id, no id is listed twice, and every
      stored actor is listed. */
  ghost predicate ListsTable(listed: seq<ListedActor>, table: map<int, ActorRow>)
  {
    (forall k :: 0 <= k < |listed| ==> listed[k].id in table && listed[k].row == table[listed[k].id])
    && (forall k, j :: 0 <= k < j < |listed| ==> listed[k].id != listed[j].id)
    && (forall id :: id in table ==> exists k :: 0 <= k < |listed| && listed[k].id == id)
  }

  /** `getActors` over the whole table: on success every stored actor appears
      exactly once, with its id and stored columns, and with its movies loaded. */
  method GetAllActors(s: Store, listed: seq<ListedActor>) returns (r: Option<seq<Actor>>)
    requires ListsTable(listed, s.actors)
    ensures r.Some? <==> forall k :: 0 <= k < |listed| ==> AllIn(MoviesLinkedTo(s.movieActors, listed[k].id), s.movies)
    ensures r.Some? ==> |r.value| == |s.actors|
    ensures r.Some? ==> forall id :: id in s.actors ==>
      exists k :: 0 <= k < |r.value| && r.value[k].id == id && ActorRowOf(r.value[k]) == s.actors[id]
    ensures r.Some? ==> forall k, j :: 0 <= k < j < |r.value| ==> r.value[k].id != r.value[j].id
  {
    r := s.GetActors(listed);
    if r.Some? {
      ListedIdsAreKeys(listed, s.actors);
      forall id | id in s.actors
        ensures exists k :: 0 <= k < |r.value| && r.value[k].id == id && ActorRowOf(r.value[k]) == s.actors[id]
      {
        var k :| 0 <= k < |listed| && listed[k].id == id;
        assert r.value[k].id == id && ActorRowOf(r.value[k]) == s.actors[id];
      }
    }
  }

  /** A listing of the whole table has one row per key. */
  lemma ListedIdsAreKeys(listed: seq<ListedActor>, table: map<int, ActorRow>)
    requires ListsTable(listed, table)
    ensures |listed| == |table|
  {
    var ids := set k | 0 <= k < |listed| :: listed[k].id;
    forall id | id in table.Keys
      ensures id in ids
    {
      var k :| 0 <= k < |listed| && listed[k].id == id;
    }
    assert ids == table.Keys;
    SizeOfDistinctIds(listed);
  }

  /** Distinct ids in a listing give a set of ids as large as the listing. */
  lemma {:induction false} SizeOfDistinctIds(listed: seq<ListedActor>)
    requires forall k, j :: 0 <= k < j < |listed| ==> listed[k].id != listed[j].id
    ensures |set k | 0 <= k < |listed| :: listed[k].id| == |listed|
  {
    if listed != [] {
      var rest := listed[..|listed| - 1];
      SizeOfDistinctIds(rest);
      var last := listed[|listed| - 1].id;
      assert (set k | 0 <= k < |listed| :: listed[k].id) == (set k | 0 <= k < |rest| :: rest[k].id) + {last};
      assert last !in (set k | 0 <= k < |rest| :: rest[k].id);
    }
  }
}
