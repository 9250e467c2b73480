/** The movie service of internal/usecase/movie.go: forwarding to the movie
    repository with error wrapping, and the ordering of the movie list. The
    repository's replies are parameters. */
module Movies {
  import opened Errors
  import opened Strings
  import opened Domain

  /** The three orderings `GetMoviesFilter` can apply. */
  datatype Order = ByTitle | ByRatingDesc | ByDateDesc

  /** The filter names `GetMoviesFilter` accepts. */
  const Filters: set<string> := {"title", "rating", "created_at", ""}

  /** The `switch filter` of `GetMoviesFilter`. */
  function OrderFor(filter: string): (o: Option<Order>)
    ensures o.Some? <==> filter in Filters
    ensures filter == "title" ==> o == Some(ByTitle)
    ensures filter == "rating" || filter == "" ==> o == Some(ByRatingDesc)
    ensures filter == "created_at" ==> o == Some(ByDateDesc)
  {
    if filter == "title" then Some(ByTitle)
    else if filter == "rating" then Some(ByRatingDesc)
    else if filter == "created_at" then Some(ByDateDesc)
    else if filter == "" then Some(ByRatingDesc)
    else None
  }

  /** The `less` function handed to `sort.Slice` for each ordering. */
  predicate Less(o: Order, x: Movie, y: Movie)
  {
    match o
    case ByTitle => LexLess(x.title, y.title)
    case ByRatingDesc => x.rating > y.rating
    case ByDateDesc => x.date > y.date
  }

  /** Each `less` is a strict weak order: never both ways, and "not less"
      is transitive. `sort.Slice` needs no more than this. */
  lemma LessIsStrictWeakOrder(o: Order, x: Movie, y: Movie, z: Movie)
    ensures Less(o, x, y) ==> !Less(o, y, x)
    ensures !Less(o, x, y) && !Less(o, y, z) ==> !Less(o, x, z)
  {
    if o == ByTitle {
      LexLessAsymmetric(x.title, y.title);
      NotLexLessIsLessEq(y.title, x.title);
      NotLexLessIsLessEq(z.title, y.title);
      NotLexLessIsLessEq(z.title, x.title);
      if LexLess(z.title, y.title) && LexLess(y.title, x.title) {
        LexLessTransitive(z.title, y.title, x.title);
      }
    }
  }

  /** What `sort.Slice` promises: no element is less than one before it. */
  ghost predicate SortedBy(o: Order, s: seq<Movie>)
  {
    forall i, j :: 0 <= i < j < |s| ==> !Less(o, s[j], s[i])
  }

  ghost predicate AscendingByTitle(s: seq<Movie>)
  {
    forall i, j :: 0 <= i < j < |s| ==> LexLessEq(s[i].title, s[j].title)
  }

  ghost predicate DescendingByRating(s: seq<Movie>)
  {
    forall i, j :: 0 <= i < j < |s| ==> s[i].rating >= s[j].rating
  }

  ghost predicate NewestFirst(s: seq<Movie>)
  {
    forall i, j :: 0 <= i < j < |s| ==> s[i].date >= s[j].date
  }

  /** Sorted under `less` means sorted by the field in the promised direction. */
  lemma SortedByMeans(o: Order, s: seq<Movie>)
    ensures o == ByTitle ==> (SortedBy(o, s) <==> AscendingByTitle(s))
    ensures o == ByRatingDesc ==> (SortedBy(o, s) <==> DescendingByRating(s))
    ensures o == ByDateDesc ==> (SortedBy(o, s) <==> NewestFirst(s))
  {
    if o == ByTitle {
      forall i, j | 0 <= i < j < |s|
        ensures !Less(o, s[j], s[i]) <==> LexLessEq(s[i].title, s[j].title)
      {
        NotLexLessIsLessEq(s[i].title, s[j].title);
      }
    }
  }

  method Swap(a: array<Movie>, i: int, j: int)
    requires 0 <= i < a.Length && 0 <= j < a.Length
    modifies a
    ensures a[i] == old(a[j]) && a[j] == old(a[i])
    ensures forall k :: 0 <= k < a.Length && k != i && k != j ==> a[k] == old(a[k])
    ensures multiset(a[..]) == old(multiset(a[..]))
  {
    a[i], a[j] := a[j], a[i];
  }

  /** `sort.Slice(movies, less)`, in place. Ties may end up in any order
      (`sort.Slice` is not stable); this insertion sort is one such order. */
  method SortMovies(a: array<Movie>, o: Order)
    modifies a
    ensures SortedBy(o, a[..])
    ensures multiset(a[..]) == old(multiset(a[..]))
  {
    var i := 0;
    while i < a.Length
      invariant 0 <= i <= a.Length
      invariant SortedBy(o, a[..i])
      invariant multiset(a[..]) == old(multiset(a[..]))
    {
      var j := i;
      while j > 0 && Less(o, a[j], a[j - 1])
        invariant 0 <= j <= i
        invariant forall p, q :: 0 <= p < q <= i && p != j && q != j ==> !Less(o, a[q], a[p])
        invariant forall q :: j < q <= i ==> !Less(o, a[q], a[j])
        invariant multiset(a[..]) == old(multiset(a[..]))
      {
        LessIsStrictWeakOrder(o, a[j], a[j - 1], a[j]);
        Swap(a, j - 1, j);
        j := j - 1;
      }
      forall p | 0 <= p < j
        ensures !Less(o, a[j], a[p])
      {
        LessIsStrictWeakOrder(o, a[j], a[j - 1], a[p]);
      }
      i := i + 1;
    }
  }

  /** `GetMoviesFilter`: fetch all movies, then order them as the filter says.
      `repo` is the repository's reply to `GetMovies`. */
  method GetMoviesFilter(repo: Result<seq<Movie>>, filter: string) returns (r: Result<seq<Movie>>)
    ensures repo.Err? ==> r == Err(Wrapped("get movies", repo.error))
    ensures repo.Ok? && filter !in Filters ==> r == Err(Error("invalid filter"))
    ensures repo.Ok? && filter in Filters ==>
      r.Ok? && |r.value| == |repo.value| && multiset(r.value) == multiset(repo.value)
    ensures repo.Ok? && filter == "title" ==> AscendingByTitle(r.value)
    ensures repo.Ok? && (filter == "rating" || filter == "") ==> DescendingByRating(r.value)
    ensures repo.Ok? && filter == "created_at" ==> NewestFirst(r.value)
  {
    if repo.Err? {
      return Err(Wrapped("get movies", repo.error));
    }
    var movies := repo.value;
    match OrderFor(filter)
    case None =>
      r := Err(Error("invalid filter"));
    case Some(o) =>
      var a := new Movie[|movies|](i requires 0 <= i < |movies| => movies[i]);
      assert a[..] == movies;
      SortMovies(a, o);
      SortedByMeans(o, a[..]);
      assert |a[..]| == |multiset(a[..])| == |multiset(movies)| == |movies|;
      r := Ok(a[..]);
  }

  /** `GetMovies`: the repository's list as it is, or its error wrapped. */
  function GetMovies(repo: Result<seq<Movie>>): (r: Result<seq<Movie>>)
    ensures r.Ok? <==> repo.Ok?
    ensures r.Ok? ==> r.value == repo.value
    ensures r.Err? ==> Unwrap(r.error) == Some(repo.error) && Message(r.error) == "get movies: " + Message(repo.error)
  {
    match repo
    case Err(e) => Err(Wrapped("get movies", e))
    case Ok(movies) => Ok(movies)
  }

  /** `GetMoviesBySnippet`: `repo` is the repository's search. */
  function GetMoviesBySnippet(repo: string -> Result<seq<Movie>>, snippet: string): (r: Result<seq<Movie>>)
    ensures r.Ok? <==> repo(snippet).Ok?
    ensures r.Ok? ==> r.value == repo(snippet).value
    ensures r.Err? ==>
      Unwrap(r.error) == Some(repo(snippet).error) &&
      Message(r.error) == "get movies by snippet: " + Message(repo(snippet).error)
  {
    match repo(snippet)
    case Err(e) => Err(Wrapped("get movies by snippet", e))
    case Ok(movies) => Ok(movies)
  }

  /** `CreateMovie`: the movie goes to the repository as it is. */
  function CreateMovie(repo: Movie -> Option<Error>, movie: Movie): (err: Option<Error>)
    ensures err.None? <==> repo(movie).None?
    ensures err.Some? ==>
      Unwrap(err.value) == repo(movie) &&
      Message(err.value) == "create movie: " + Message(repo(movie).value)
  {
    WrapErr("create movie", repo(movie))
  }

  /** `UpdateMovie`. */
  function UpdateMovie(repo: Movie -> Option<Error>, movie: Movie): (err: Option<Error>)
    ensures err.None? <==> repo(movie).None?
    ensures err.Some? ==>
      Unwrap(err.value) == repo(movie) &&
      Message(err.value) == "update movie: " + Message(repo(movie).value)
  {
    WrapErr("update movie", repo(movie))
  }

  /** `DeleteMovie`. */
  function DeleteMovie(repo: Uuid -> Option<Error>, movieID: Uuid): (err: Option<Error>)
    ensures err.None? <==> repo(movieID).None?
    ensures err.Some? ==>
      Unwrap(err.value) == repo(movieID) &&
      Message(err.value) == "delete movie: " + Message(repo(movieID).value)
  {
    WrapErr("delete movie", repo(movieID))
  }
}
