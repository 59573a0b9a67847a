/** Construction of the movie listing query: `buildQuery` and the choice of filter
    made by `getMovies`. The query is opaque text handed to the database; what is
    modelled is how the text and its positional arguments are assembled. */
module QueryBuilder {

  /** The fixed part of the listing query, up to and including the space that
      precedes the WHERE text: the selected columns, then the two joins. */
  const ListingPrefix: string := MovieColumns + ActorColumns + Joins

  const MovieColumns: string := "SELECT m.id, m.name, m.description, " + "m.release_date, m.rating, "
  const ActorColumns: string := "a.id AS actor_id, a.name AS actor_name, " + "a.gender, a.date_of_birth "
  const Joins: string := "FROM movies m " + "JOIN movie_actors ma ON m.id = ma.movie_id "
                         + "JOIN actors a ON ma.actor_id = a.id "

  /** SQL text with its positional arguments ($1, $2, ...). */
  datatype Query = Query(text: string, args: seq<string>)

  /** A filter column (empty for none) and the value searched for in it. */
  datatype Filter = Filter(column: string, value: string)

  // ---------------------------------------------------------------------------
  // Decimal rendering of placeholder numbers (strconv.Itoa on a non-negative int)
  // ---------------------------------------------------------------------------

  function Digit(d: nat): (c: char)
    requires d < 10
    ensures '0' <= c <= '9'
    ensures (c as int) - ('0' as int) == d
  {
    (('0' as int) + d) as char
  }

  /** The decimal digits of `n`, most significant first, without leading zeros. */
  function Decimal(n: nat): (s: string)
    ensures 1 <= |s|
    ensures forall i :: 0 <= i < |s| ==> '0' <= s[i] <= '9'
    ensures |s| > 1 ==> s[0] != '0'
  {
    if n < 10 then [Digit(n)] else Decimal(n / 10) + [Digit(n % 10)]
  }

  /** The number a string of decimal digits denotes. */
  function DigitsValue(s: string): nat
    requires forall i :: 0 <= i < |s| ==> '0' <= s[i] <= '9'
  {
    if s == [] then 0
    else DigitsValue(s[..|s| - 1]) * 10 + ((s[|s| - 1] as int) - ('0' as int))
  }

  /** Rendering a placeholder number and reading it back gives the number. */
  lemma {:induction false} DecimalRoundTrip(n: nat)
    ensures DigitsValue(Decimal(n)) == n
  {
    if n >= 10 {
      DecimalRoundTrip(n / 10);
      var s := Decimal(n);
      assert s[..|s| - 1] == Decimal(n / 10);
    }
  }

  /** The positional placeholder for the n-th argument. */
  function Placeholder(n: nat): (p: string)
    ensures |p| >= 2 && p[0] == '$'
    ensures forall i :: 1 <= i < |p| ==> '0' <= p[i] <= '9'
  {
    "$" + Decimal(n)
  }

  // ---------------------------------------------------------------------------
  // Counting characters, to relate placeholders to arguments
  // ---------------------------------------------------------------------------

  function CountChar(s: string, c: char): nat
  {
    if s == [] then 0 else (if s[0] == c then 1 else 0) + CountChar(s[1..], c)
  }

  lemma {:induction false} CountCharAppend(a: string, b: string, c: char)
    ensures CountChar(a + b, c) == CountChar(a, c) + CountChar(b, c)
  {
    if a != [] {
      assert (a + b)[1..] == a[1..] + b;
      CountCharAppend(a[1..], b, c);
    } else {
      assert a + b == b;
    }
  }

  lemma {:induction false} CountCharAbsent(s: string, c: char)
    requires c !in s
    ensures CountChar(s, c) == 0
  {
    if s != [] {
      CountCharAbsent(s[1..], c);
    }
  }

  // ---------------------------------------------------------------------------
  // The clauses and the query (main.go:342-371)
  // ---------------------------------------------------------------------------

  /** The WHERE text and the arguments it consumes. An empty column means no
      filter; otherwise the column is matched with ILIKE against the value wrapped
      in `%` wildcards, passed as the query's first positional argument. */
  function Where(column: string, value: string): (clause: Query)
    ensures column == "" ==> clause == Query("", [])
    ensures column != "" ==> clause.text == "WHERE " + column + " ILIKE $1"
    ensures column != "" ==> clause.args == ["%" + value + "%"]
  {
    var args: seq<string> := [];
    if column == "" then Query("", args)
    else Query("WHERE " + column + " ILIKE " + Placeholder(|args| + 1), args + ["%" + value + "%"])
  }

  /** The ORDER BY text: the sort column is `name` by default and otherwise the
      caller's text, inserted as it is; the direction is descending exactly when the
      order parameter is the lower-case word `desc`. */
  function Order(sortBy: string, sortOrder: string): (clause: string)
    ensures |clause| == 9 + (if sortBy == "" then 4 else |sortBy|) + (if sortOrder == "desc" then 5 else 0)
    ensures clause[..9] == "ORDER BY "
    ensures sortBy == "" ==> clause[9..13] == "name"
    ensures sortBy != "" ==> clause[9..9 + |sortBy|] == sortBy
    ensures sortOrder == "desc" ==> clause[|clause| - 5..] == " DESC"
  {
    var order := if sortBy != "" then "ORDER BY " + sortBy else "ORDER BY name";
    if sortOrder == "desc" then order + " DESC" else order
  }

  /** The listing query for a filter column and value and a sort specification.
      (The source then prepares it on the database, which is not part of this model.) */
  function BuildQuery(column: string, value: string, sortBy: string, sortOrder: string): (q: Query)
    ensures q.args == Where(column, value).args
    ensures |q.args| == if column == "" then 0 else 1
    ensures q.text == ListingPrefix + Where(column, value).text + " " + Order(sortBy, sortOrder)
  {
    var where := Where(column, value);
    Query(ListingPrefix + where.text + " " + Order(sortBy, sortOrder), where.args)
  }

  /** The filter `getMovies` hands to `buildQuery` (main.go:193-199). */
  function ListingFilter(title: string, actor: string): (f: Filter)
    ensures title != "" ==> f == Filter("name", title)
    ensures title == "" && actor != "" ==> f == Filter("actor_name", actor)
    ensures title == "" && actor == "" ==> f == Filter("", "")
  {
    if title != "" then Filter("name", title)
    else if actor != "" then Filter("actor_name", actor)
    else Filter("", "")
  }

  /** The query `getMovies` runs for its four request parameters. */
  function MoviesQuery(sortBy: string, sortOrder: string, title: string, actor: string): (q: Query)
    ensures title != "" ==>
      q == Query(ListingPrefix + "WHERE name ILIKE $1 " + Order(sortBy, sortOrder), ["%" + title + "%"])
    ensures title == "" && actor != "" ==>
      q == Query(ListingPrefix + "WHERE actor_name ILIKE $1 " + Order(sortBy, sortOrder), ["%" + actor + "%"])
    ensures title == "" && actor == "" ==>
      q == Query(ListingPrefix + " " + Order(sortBy, sortOrder), [])
  {
    var f := ListingFilter(title, actor);
    BuildQuery(f.column, f.value, sortBy, sortOrder)
  }

  // ---------------------------------------------------------------------------
  // Properties
  // ---------------------------------------------------------------------------

  /** The filter value reaches the database only as an argument: the query text
      does not depend on it. */
  lemma FilterValueNotInText(column: string, v1: string, v2: string, sortBy: string, sortOrder: string)
    ensures BuildQuery(column, v1, sortBy, sortOrder).text == BuildQuery(column, v2, sortBy, sortOrder).text
  {
  }

  lemma MovieColumnsHaveNoDollar()
    ensures '$' !in MovieColumns
  {
  }

  lemma ActorColumnsHaveNoDollar()
    ensures '$' !in ActorColumns
  {
  }

  lemma JoinsHaveNoDollar()
    ensures '$' !in Joins
  {
  }

  lemma PrefixHasNoDollar()
    ensures '$' !in ListingPrefix
  {
    MovieColumnsHaveNoDollar();
    ActorColumnsHaveNoDollar();
    JoinsHaveNoDollar();
  }

  lemma PrefixHasNoPlaceholder()
    ensures CountChar(ListingPrefix, '$') == 0
  {
    PrefixHasNoDollar();
    CountCharAbsent(ListingPrefix, '$');
  }

  /** The ORDER BY text holds exactly the `$` characters of the sort column. */
  lemma OrderPlaceholders(sortBy: string, sortOrder: string)
    ensures CountChar(Order(sortBy, sortOrder), '$') == CountChar(sortBy, '$')
  {
    var order := if sortBy != "" then "ORDER BY " + sortBy else "ORDER BY name";
    if sortBy == "" {
      assert '$' !in "ORDER BY name";
      CountCharAbsent(order, '$');
    } else {
      assert '$' !in "ORDER BY ";
      CountCharAbsent("ORDER BY ", '$');
      CountCharAppend("ORDER BY ", sortBy, '$');
    }
    if sortOrder == "desc" {
      CountCharAbsent(" DESC", '$');
      CountCharAppend(order, " DESC", '$');
    }
  }

  /** The WHERE text holds one placeholder per argument it adds. */
  lemma WherePlaceholders(column: string, value: string)
    requires '$' !in column
    ensures CountChar(Where(column, value).text, '$') == |Where(column, value).args|
  {
    if column != "" {
      var head := "WHERE " + column + " ILIKE ";
      assert '$' !in head;
      CountCharAbsent(head, '$');
      assert CountChar("$1", '$') == 1;
      CountCharAppend(head, "$1", '$');
      assert " ILIKE $1" == " ILIKE " + "$1";
      assert Where(column, value).text == head + "$1";
    }
  }

  /** With a `$`-free filter column, the query holds one placeholder per argument
      plus every `$` the caller put in the sort column. */
  lemma QueryPlaceholders(column: string, value: string, sortBy: string, sortOrder: string)
    requires '$' !in column
    ensures CountChar(BuildQuery(column, value, sortBy, sortOrder).text, '$')
         == |BuildQuery(column, value, sortBy, sortOrder).args| + CountChar(sortBy, '$')
  {
    var where := Where(column, value);
    var order := Order(sortBy, sortOrder);
    PrefixHasNoPlaceholder();
    OrderPlaceholders(sortBy, sortOrder);
    WherePlaceholders(column, value);
    CountCharAppend(ListingPrefix, where.text, '$');
    CountCharAppend(ListingPrefix + where.text, " ", '$');
    CountCharAppend(ListingPrefix + where.text + " ", order, '$');
  }

  /** When neither the filter column nor the sort column contains a `$`, the query
      text holds exactly one placeholder per argument. */
  lemma PlaceholdersMatchArgs(column: string, value: string, sortBy: string, sortOrder: string)
    requires '$' !in column && '$' !in sortBy
    ensures CountChar(BuildQuery(column, value, sortBy, sortOrder).text, '$') == |BuildQuery(column, value, sortBy, sortOrder).args|
  {
    QueryPlaceholders(column, value, sortBy, sortOrder);
    CountCharAbsent(sortBy, '$');
  }

  /** The sort column comes straight from the request, so a `$` in it breaks the
      match: a title filter sorted by `$2` gives two placeholders for one argument. */
  lemma DollarInSortColumnAddsPlaceholder(value: string, sortOrder: string)
    ensures |BuildQuery("name", value, "$2", sortOrder).args| == 1
    ensures CountChar(BuildQuery("name", value, "$2", sortOrder).text, '$') == 2
  {
    QueryPlaceholders("name", value, "$2", sortOrder);
    assert CountChar("$2", '$') == 1;
  }

  /** Any sort order other than exactly `desc` (`DESC`, `asc`, empty, ...) gives the
      same, ascending, ORDER BY text. */
  lemma OnlyLowerCaseDescSortsDescending(sortBy: string, o1: string, o2: string)
    requires o1 != "desc" && o2 != "desc"
    ensures Order(sortBy, o1) == Order(sortBy, o2)
    ensures Order(sortBy, o1) == Order(sortBy, "asc")
    ensures Order(sortBy, "desc") == Order(sortBy, o1) + " DESC"
  {
  }

  /** With no sort column the listing is ordered by `name`. */
  lemma DefaultSortIsName(sortOrder: string)
    ensures Order("", sortOrder) == if sortOrder == "desc" then "ORDER BY name DESC" else "ORDER BY name"
  {
  }

  /** The sort column is not checked against the table's columns: whatever text
      the caller passes appears verbatim in the query, right after "ORDER BY ". */
  lemma SortByCopiedVerbatim(column: string, value: string, sortBy: string, sortOrder: string)
    requires sortBy != ""
    ensures var q := BuildQuery(column, value, sortBy, sortOrder).text;
            var at := |ListingPrefix| + |Where(column, value).text| + 1 + 9;
            at + |sortBy| <= |q| && q[at..at + |sortBy|] == sortBy
  {
    var q := BuildQuery(column, value, sortBy, sortOrder).text;
    var head := ListingPrefix + Where(column, value).text + " ";
    var order := Order(sortBy, sortOrder);
    assert q == head + order;
    assert q[|head|..] == order;
  }

  /** Because of that, the sort column can smuggle in the direction: any sort
      column with " DESC" appended, under any order but `desc`, gives the same
      ORDER BY text as that column under `desc`. */
  lemma SortDirectionInjectable(sortBy: string, sortOrder: string)
    requires sortBy != "" && sortOrder != "desc"
    ensures Order(sortBy + " DESC", sortOrder) == Order(sortBy, "desc")
  {
    assert "ORDER BY " + (sortBy + " DESC") == "ORDER BY " + sortBy + " DESC";
  }

  /** A non-empty title selects the `name` column and hides the actor parameter. */
  lemma TitleTakesPrecedence(sortBy: string, sortOrder: string, title: string, a1: string, a2: string)
    requires title != ""
    ensures MoviesQuery(sortBy, sortOrder, title, a1) == MoviesQuery(sortBy, sortOrder, title, a2)
    ensures MoviesQuery(sortBy, sortOrder, title, a1).args == ["%" + title + "%"]
  {
  }

  /** With neither title nor actor, the listing has no WHERE clause and no arguments. */
  lemma NoFilterWithoutParameters(sortBy: string, sortOrder: string)
    ensures MoviesQuery(sortBy, sortOrder, "", "") == Query(ListingPrefix + " " + Order(sortBy, sortOrder), [])
  {
  }

  /** The query `getMovies` runs has one placeholder per argument whenever the sort
      column holds no `$`: the filter columns it chooses never do. */
  lemma MoviesQueryPlaceholders(sortBy: string, sortOrder: string, title: string, actor: string)
    requires '$' !in sortBy
    ensures CountChar(MoviesQuery(sortBy, sortOrder, title, actor).text, '$') == |MoviesQuery(sortBy, sortOrder, title, actor).args|
  {
    var f := ListingFilter(title, actor);
    assert '$' !in f.column;
    PlaceholdersMatchArgs(f.column, f.value, sortBy, sortOrder);
  }
}
