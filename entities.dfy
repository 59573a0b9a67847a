/** The values the movie service exchanges with its store: the two entities, the
    rows kept for them in the `actors`, `movies` and `movie_actors` tables, and
    the outcome of a storage operation. */
module Entities {

  datatype Option<T> = None | Some(value: T)

  /** A timestamp (Go's time.Time), kept opaque: nothing here does date arithmetic. */
  datatype Time = Time(unixNanos: int)

  /** An actor as the service sees it; `movies` is filled only when listing actors. */
  datatype Actor = Actor(id: int, name: string, gender: string, dateOfBirth: Time, movies: seq<Movie>)

  /** A movie as the service sees it; `actors` is filled when listing, and on writes
      only the actors' ids are used, to maintain `movie_actors`. */
  datatype Movie = Movie(id: int, name: string, description: string, releaseDate: Time,
                         rating: int, actors: seq<Actor>)

  /** The scalar columns of a row of `actors` (its id is the key of the table). */
  datatype ActorRow = ActorRow(name: string, gender: string, dateOfBirth: Time)

  /** The scalar columns of a row of `movies` (its id is the key of the table). */
  datatype MovieRow = MovieRow(name: string, description: string, releaseDate: Time, rating: int)

  /** A row of the join table `movie_actors`. */
  datatype Link = Link(movieId: int, actorId: int)

  /** The error result of a repository operation: `StorageError(k)` says that the
      k-th SQL statement of the operation (counting from 0) was rejected. */
  datatype Outcome = Ok | StorageError(statement: nat)

  function ActorRowOf(a: Actor): ActorRow
  {
    ActorRow(a.name, a.gender, a.dateOfBirth)
  }

  function MovieRowOf(m: Movie): MovieRow
  {
    MovieRow(m.name, m.description, m.releaseDate, m.rating)
  }

  /** The actor ids of a movie payload, in payload order, duplicates kept. */
  function ActorIds(actors: seq<Actor>): (ids: seq<int>)
    ensures |ids| == |actors|
    ensures forall i :: 0 <= i < |ids| ==> ids[i] == actors[i].id
  {
    seq(|actors|, i requires 0 <= i < |actors| => actors[i].id)
  }

  /** An actor as loaded into a movie's `Actors`: only the three scanned columns are
      set; the id stays zero and the actor's own `Movies` stays empty. */
  function PartnerActor(row: ActorRow): (a: Actor)
    ensures a.id == 0 && a.movies == []
    ensures ActorRowOf(a) == row
  {
    Actor(0, row.name, row.gender, row.dateOfBirth, [])
  }

  /** A movie as loaded into an actor's `Movies`: only the four scanned columns are
      set; the id stays zero and the movie's own `Actors` stays empty. */
  function PartnerMovie(row: MovieRow): (m: Movie)
    ensures m.id == 0 && m.actors == []
    ensures MovieRowOf(m) == row
  {
    Movie(0, row.name, row.description, row.releaseDate, row.rating, [])
  }

  /** The outcome of an operation made of `statements` SQL statements run in order,
      returning at the first one that fails. */
  function FirstFailure(failAt: Option<nat>, statements: nat): (o: Outcome)
    ensures o.Ok? <==> !(failAt.Some? && failAt.value < statements)
    ensures o.StorageError? ==> o.statement == failAt.value
  {
    if failAt.Some? && failAt.value < statements then StorageError(failAt.value) else Ok
  }

  /** How many of those `statements` statements took effect before the operation returned. */
  function Completed(failAt: Option<nat>, statements: nat): (n: nat)
    ensures n <= statements
    ensures n == statements <==> FirstFailure(failAt, statements).Ok?
  {
    if failAt.Some? && failAt.value < statements then failAt.value else statements
  }
}
