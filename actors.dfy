/** The actor storage of internal/repository/actors.go. The SQL statements
    are not modelled: a query's outcome is a parameter, and the joined
    (actor, movie) result rows of `GetActors` are an input sequence. */
module Actors {
  import opened Errors
  import opened Domain

  /** One result row of the actors-movies join. */
  datatype Row = Row(actor: Actor, movie: Movie)

  /** What `rows.Scan` made of one row. */
  datatype Scan = Scanned(row: Row) | ScanFailed(error: Error)

  /** The error of the first row that failed to scan, if any. */
  function FirstScanFailure(scans: seq<Scan>): (e: Option<Error>)
    ensures e.None? <==> forall k :: 0 <= k < |scans| ==> scans[k].Scanned?
    ensures e.Some? ==>
      exists k :: 0 <= k < |scans| && scans[k] == ScanFailed(e.value) &&
        forall j :: 0 <= j < k ==> scans[j].Scanned?
  {
    if |scans| == 0 then None
    else if scans[0].ScanFailed? then Some(scans[0].error)
    else FirstScanFailure(scans[1..])
  }

  /** The rows of a scan that read every row. */
  function RowsOf(scans: seq<Scan>): (rows: seq<Row>)
    requires forall k :: 0 <= k < |scans| ==> scans[k].Scanned?
    ensures |rows| == |scans|
    ensures forall k :: 0 <= k < |scans| ==> rows[k] == scans[k].row
  {
    if |scans| == 0 then [] else RowsOf(scans[..|scans| - 1]) + [scans[|scans| - 1].row]
  }

  /** The inner loop of `GetActors`: the first actor already kept with this ID. */
  function Lookup(actors: seq<Actor>, id: Uuid): (found: Option<Actor>)
    ensures found.Some? ==> found.value in actors && found.value.id == id
    ensures found.None? <==> forall i :: 0 <= i < |actors| ==> actors[i].id != id
  {
    if |actors| == 0 then None
    else if actors[0].id == id then Some(actors[0])
    else Lookup(actors[1..], id)
  }

  /** Reading a Go map at a missing key gives the nil slice. */
  function FilmsOf(films: map<Actor, seq<Movie>>, a: Actor): seq<Movie>
  {
    if a in films then films[a] else []
  }

  /** The loop state of `GetActors`: the `actors` list and the `actorFilms` map. */
  datatype Grouping = Grouping(actors: seq<Actor>, films: map<Actor, seq<Movie>>)

  /** One turn of the `rows.Next()` loop. */
  function Absorb(g: Grouping, row: Row): Grouping
  {
    match Lookup(g.actors, row.actor.id)
    case Some(existing) =>
      Grouping(g.actors, g.films[existing := FilmsOf(g.films, existing) + [row.movie]])
    case None =>
      Grouping(g.actors + [row.actor], g.films[row.actor := FilmsOf(g.films, row.actor) + [row.movie]])
  }

  /** The loop state after all of `rows`. */
  function GroupRows(rows: seq<Row>): Grouping
  {
    if |rows| == 0 then Grouping([], map[])
    else Absorb(GroupRows(rows[..|rows| - 1]), rows[|rows| - 1])
  }

  /** The position of the first row with actor ID `id`; `|rows|` if there is none. */
  function FirstIndex(rows: seq<Row>, id: Uuid): (k: nat)
    ensures k <= |rows|
    ensures k < |rows| ==> rows[k].actor.id == id
    ensures forall i :: 0 <= i < k ==> rows[i].actor.id != id
  {
    if |rows| == 0 then 0
    else if rows[0].actor.id == id then 0
    else 1 + FirstIndex(rows[1..], id)
  }

  /** The movies of the rows with actor ID `id`, in row order. */
  function MoviesOf(rows: seq<Row>, id: Uuid): seq<Movie>
  {
    if |rows| == 0 then []
    else (if rows[0].actor.id == id then [rows[0].movie] else []) + MoviesOf(rows[1..], id)
  }

  /** The number of movies filed under the actors of `actors`. */
  function Total(films: map<Actor, seq<Movie>>, actors: seq<Actor>): nat
  {
    if |actors| == 0 then 0
    else Total(films, actors[..|actors| - 1]) + |FilmsOf(films, actors[|actors| - 1])|
  }

  /** The actor IDs of the rows. */
  ghost function RowIds(rows: seq<Row>): set<Uuid>
  {
    set k | 0 <= k < |rows| :: rows[k].actor.id
  }

  /** The actor IDs of `actors`. */
  ghost function Ids(actors: seq<Actor>): set<Uuid>
  {
    set i | 0 <= i < |actors| :: actors[i].id
  }

  /** What the loop state means for the rows read so far: one kept actor per
      distinct ID, in order of first appearance, each the actor of the first
      row with that ID, and filed under it the movies of all rows with that
      ID, in row order. */
  ghost predicate GroupsRows(rows: seq<Row>, g: Grouping)
  {
    && (forall i, j :: 0 <= i < j < |g.actors| ==> g.actors[i].id != g.actors[j].id)
    && RowIds(rows) <= Ids(g.actors)
    && (forall i :: 0 <= i < |g.actors| ==>
          FirstIndex(rows, g.actors[i].id) < |rows| && rows[FirstIndex(rows, g.actors[i].id)].actor == g.actors[i])
    && (forall i, j :: 0 <= i < j < |g.actors| ==>
          FirstIndex(rows, g.actors[i].id) < FirstIndex(rows, g.actors[j].id))
    && (forall a :: a in g.films <==> a in g.actors)
    && (forall i :: 0 <= i < |g.actors| ==> g.films[g.actors[i]] == MoviesOf(rows, g.actors[i].id))
  }

  lemma {:induction false} FirstIndexSnoc(rows: seq<Row>, row: Row, id: Uuid)
    ensures FirstIndex(rows + [row], id) ==
      if FirstIndex(rows, id) < |rows| then FirstIndex(rows, id)
      else if row.actor.id == id then |rows| else |rows| + 1
  {
    var rows' := rows + [row];
    assert forall i :: 0 <= i < |rows| ==> rows'[i] == rows[i];
    assert rows'[|rows|] == row;
  }

  lemma {:induction false} MoviesOfSnoc(rows: seq<Row>, row: Row, id: Uuid)
    ensures MoviesOf(rows + [row], id) ==
      MoviesOf(rows, id) + (if row.actor.id == id then [row.movie] else [])
    decreases |rows|
  {
    if |rows| > 0 {
      assert (rows + [row])[1..] == rows[1..] + [row];
      MoviesOfSnoc(rows[1..], row, id);
    } else {
      assert (rows + [row])[1..] == [];
    }
  }

  lemma {:induction false} MoviesOfAbsent(rows: seq<Row>, id: Uuid)
    requires forall k :: 0 <= k < |rows| ==> rows[k].actor.id != id
    ensures MoviesOf(rows, id) == []
    decreases |rows|
  {
    if |rows| > 0 {
      MoviesOfAbsent(rows[1..], id);
    }
  }

  /** Changing the entry of an actor outside the list leaves the total alone. */
  lemma {:induction false} TotalUntouched(films: map<Actor, seq<Movie>>, actors: seq<Actor>, a: Actor, v: seq<Movie>)
    requires a !in actors
    ensures Total(films[a := v], actors) == Total(films, actors)
    decreases |actors|
  {
    if |actors| > 0 {
      TotalUntouched(films, actors[..|actors| - 1], a, v);
    }
  }

  /** Changing the entry of an actor listed once moves the total by the change. */
  lemma {:induction false} TotalReplace(films: map<Actor, seq<Movie>>, actors: seq<Actor>, i: nat, v: seq<Movie>)
    requires i < |actors|
    requires forall j :: 0 <= j < |actors| && j != i ==> actors[j] != actors[i]
    ensures Total(films[actors[i] := v], actors) + |FilmsOf(films, actors[i])| == Total(films, actors) + |v|
    decreases |actors|
  {
    var front := actors[..|actors| - 1];
    if i == |actors| - 1 {
      assert actors[i] !in front by {
        forall j | 0 <= j < |front| ensures front[j] != actors[i] { assert front[j] == actors[j]; }
      }
      TotalUntouched(films, front, actors[i], v);
    } else {
      assert front[i] == actors[i];
      forall j | 0 <= j < |front| && j != i ensures front[j] != front[i] { assert front[j] == actors[j]; }
      TotalReplace(films, front, i, v);
    }
  }

  /** A row whose actor ID is already kept adds its movie to that actor. */
  lemma AbsorbExisting(rows: seq<Row>, g: Grouping, row: Row, j: nat)
    requires GroupsRows(rows, g)
    requires j < |g.actors| && g.actors[j].id == row.actor.id
    ensures GroupsRows(rows + [row],
      Grouping(g.actors, g.films[g.actors[j] := g.films[g.actors[j]] + [row.movie]]))
  {
    var rows' := rows + [row];
    var id := row.actor.id;
    var e := g.actors[j];
    var films' := g.films[e := g.films[e] + [row.movie]];
    forall y | y in RowIds(rows') ensures y in Ids(g.actors) {
      var k :| 0 <= k < |rows'| && rows'[k].actor.id == y;
      if k < |rows| {
        assert rows'[k] == rows[k];
        assert y in RowIds(rows);
      } else {
        assert g.actors[j].id == y;
      }
    }
    forall i | 0 <= i < |g.actors|
      ensures FirstIndex(rows', g.actors[i].id) == FirstIndex(rows, g.actors[i].id)
      ensures rows'[FirstIndex(rows, g.actors[i].id)] == rows[FirstIndex(rows, g.actors[i].id)]
    {
      FirstIndexSnoc(rows, row, g.actors[i].id);
    }
    forall i | 0 <= i < |g.actors| ensures films'[g.actors[i]] == MoviesOf(rows', g.actors[i].id) {
      MoviesOfSnoc(rows, row, g.actors[i].id);
    }
  }

  /** A row with a new actor ID keeps that row's actor, with its movie alone. */
  lemma AbsorbNew(rows: seq<Row>, g: Grouping, row: Row)
    requires GroupsRows(rows, g)
    requires forall i :: 0 <= i < |g.actors| ==> g.actors[i].id != row.actor.id
    ensures row.actor !in g.films
    ensures GroupsRows(rows + [row], Grouping(g.actors + [row.actor], g.films[row.actor := [row.movie]]))
  {
    var rows' := rows + [row];
    var id := row.actor.id;
    var actors' := g.actors + [row.actor];
    var films' := g.films[row.actor := [row.movie]];
    assert forall i :: 0 <= i < |g.actors| ==> actors'[i] == g.actors[i];
    assert actors'[|g.actors|] == row.actor;
    forall k | 0 <= k < |rows| ensures rows[k].actor.id != id {
      assert rows[k].actor.id in RowIds(rows);
      assert rows[k].actor.id in Ids(g.actors);
    }
    MoviesOfAbsent(rows, id);
    MoviesOfSnoc(rows, row, id);
    FirstIndexSnoc(rows, row, id);
    forall y | y in RowIds(rows') ensures y in Ids(actors') {
      var k :| 0 <= k < |rows'| && rows'[k].actor.id == y;
      if k < |rows| {
        assert rows'[k] == rows[k];
        assert y in RowIds(rows);
        assert y in Ids(g.actors);
        var i :| 0 <= i < |g.actors| && g.actors[i].id == y;
        assert actors'[i].id == y;
      } else {
        assert actors'[|g.actors|].id == y;
      }
    }
    forall i | 0 <= i < |g.actors|
      ensures FirstIndex(rows', g.actors[i].id) == FirstIndex(rows, g.actors[i].id)
      ensures rows'[FirstIndex(rows, g.actors[i].id)] == rows[FirstIndex(rows, g.actors[i].id)]
      ensures films'[g.actors[i]] == MoviesOf(rows', g.actors[i].id)
    {
      FirstIndexSnoc(rows, row, g.actors[i].id);
      MoviesOfSnoc(rows, row, g.actors[i].id);
    }
  }

  /** One turn of the loop keeps the meaning of its state. */
  lemma AbsorbGroups(rows: seq<Row>, g: Grouping, row: Row)
    requires GroupsRows(rows, g)
    ensures GroupsRows(rows + [row], Absorb(g, row))
  {
    match Lookup(g.actors, row.actor.id)
    case Some(e) =>
      var j :| 0 <= j < |g.actors| && g.actors[j] == e;
      AbsorbExisting(rows, g, row, j);
    case None =>
      AbsorbNew(rows, g, row);
  }

  /** Each turn adds exactly one movie to the groups. */
  lemma AbsorbTotal(rows: seq<Row>, g: Grouping, row: Row)
    requires GroupsRows(rows, g)
    ensures Total(Absorb(g, row).films, Absorb(g, row).actors) == Total(g.films, g.actors) + 1
  {
    var id := row.actor.id;
    match Lookup(g.actors, id)
    case Some(e) =>
      var j :| 0 <= j < |g.actors| && g.actors[j] == e;
      TotalReplace(g.films, g.actors, j, FilmsOf(g.films, e) + [row.movie]);
    case None =>
      var a := row.actor;
      assert a !in g.actors by {
        forall i | 0 <= i < |g.actors| ensures g.actors[i] != a { }
      }
      TotalUntouched(g.films, g.actors, a, FilmsOf(g.films, a) + [row.movie]);
      assert (g.actors + [a])[..|g.actors|] == g.actors;
  }

  /** `GetActors` groups the rows correctly, and files every row's movie
      exactly once: the group sizes add up to the number of rows. */
  lemma {:induction false} GroupRowsCorrect(rows: seq<Row>)
    ensures GroupsRows(rows, GroupRows(rows))
    ensures Total(GroupRows(rows).films, GroupRows(rows).actors) == |rows|
    decreases |rows|
  {
    if |rows| > 0 {
      var front, last := rows[..|rows| - 1], rows[|rows| - 1];
      assert rows == front + [last];
      var g := GroupRows(front);
      assert GroupRows(rows) == Absorb(g, last);
      GroupRowsCorrect(front);
      AbsorbGroups(front, g, last);
      AbsorbTotal(front, g, last);
    }
  }

  /** The returned map read on its own, keyed by actor: no two keys share an
      ID; the first row of every actor ID is the key of that ID; and every key
      holds the movies of that ID's rows, in row order. */
  ghost predicate FilmsByActor(rows: seq<Row>, films: map<Actor, seq<Movie>>)
  {
    && (forall a, b :: a in films && b in films && a.id == b.id ==> a == b)
    && (forall id :: id in RowIds(rows) ==> rows[FirstIndex(rows, id)].actor in films)
    && (forall a :: a in films ==>
          FirstIndex(rows, a.id) < |rows| && rows[FirstIndex(rows, a.id)].actor == a &&
          films[a] == MoviesOf(rows, a.id))
  }

  lemma GroupsRowsFilms(rows: seq<Row>, g: Grouping)
    requires GroupsRows(rows, g)
    ensures FilmsByActor(rows, g.films)
  {
    forall id | id in RowIds(rows) ensures rows[FirstIndex(rows, id)].actor in g.films {
      assert id in Ids(g.actors);
      var i :| 0 <= i < |g.actors| && g.actors[i].id == id;
    }
    forall a | a in g.films
      ensures FirstIndex(rows, a.id) < |rows| && rows[FirstIndex(rows, a.id)].actor == a
      ensures g.films[a] == MoviesOf(rows, a.id)
    {
      var i :| 0 <= i < |g.actors| && g.actors[i] == a;
    }
    forall a, b | a in g.films && b in g.films && a.id == b.id ensures a == b {
      var i :| 0 <= i < |g.actors| && g.actors[i] == a;
      var j :| 0 <= j < |g.actors| && g.actors[j] == b;
    }
  }

  lemma GroupRowsSnoc(rows: seq<Row>, row: Row)
    ensures GroupRows(rows + [row]) == Absorb(GroupRows(rows), row)
  {
    assert (rows + [row])[..|rows|] == rows;
  }

  lemma RowsOfSnoc(scans: seq<Scan>, i: nat)
    requires i < |scans| && forall k :: 0 <= k <= i ==> scans[k].Scanned?
    ensures RowsOf(scans[..i + 1]) == RowsOf(scans[..i]) + [scans[i].row]
  {
    assert scans[..i + 1][..i] == scans[..i];
  }

  /** What `GetActors` returns, read as a map. */
  lemma GroupedFilms(rows: seq<Row>)
    ensures FilmsByActor(rows, GroupRows(rows).films)
  {
    GroupRowsCorrect(rows);
    GroupsRowsFilms(rows, GroupRows(rows));
  }

  /** `GetActors`: run the join and group its rows by actor. `queryErr` is the
      outcome of the query, `scans` the rows as scanned, `iterErr` what
      `rows.Err()` reports after the last row. */
  method GetActors(queryErr: Option<Error>, scans: seq<Scan>, iterErr: Option<Error>)
    returns (r: Result<map<Actor, seq<Movie>>>)
    ensures queryErr.Some? ==> r == Err(Wrapped("get actors", queryErr.value))
    ensures queryErr.None? && FirstScanFailure(scans).Some? ==>
      r == Err(Wrapped("get actors", FirstScanFailure(scans).value))
    ensures queryErr.None? && FirstScanFailure(scans).None? && iterErr.Some? ==>
      r == Err(Wrapped("get actors", iterErr.value))
    ensures queryErr.None? && FirstScanFailure(scans).None? && iterErr.None? ==> r.Ok?
    ensures r.Ok? ==>
      queryErr.None? && iterErr.None? && FirstScanFailure(scans).None? &&
      r.value == GroupRows(RowsOf(scans)).films &&
      FilmsByActor(RowsOf(scans), r.value)
  {
    if queryErr.Some? {
      return Err(Wrapped("get actors", queryErr.value));
    }
    var actors: seq<Actor> := [];
    var actorFilms: map<Actor, seq<Movie>> := map[];
    var i := 0;
    while i < |scans|
      invariant 0 <= i <= |scans|
      invariant forall k :: 0 <= k < i ==> scans[k].Scanned?
      invariant FirstScanFailure(scans) == FirstScanFailure(scans[i..])
      invariant Grouping(actors, actorFilms) == GroupRows(RowsOf(scans[..i]))
    {
      match scans[i]
      case ScanFailed(e) =>
        assert scans[i..][0] == scans[i];
        return Err(Wrapped("get actors", e));
      case Scanned(row) =>
        var existing: Option<Actor> := None;
        var j := 0;
        while j < |actors|
          invariant 0 <= j <= |actors|
          invariant existing.None? ==> Lookup(actors, row.actor.id) == Lookup(actors[j..], row.actor.id)
        {
          if actors[j].id == row.actor.id {
            existing := Some(actors[j]);
            break;
          }
          assert actors[j..][1..] == actors[j + 1..];
          j := j + 1;
        }
        assert existing == Lookup(actors, row.actor.id);
        if existing.None? {
          existing := Some(row.actor);
          actors := actors + [row.actor];
        }
        var key := existing.value;
        actorFilms := actorFilms[key := FilmsOf(actorFilms, key) + [row.movie]];
        assert scans[i..][1..] == scans[i + 1..];
        RowsOfSnoc(scans, i);
        GroupRowsSnoc(RowsOf(scans[..i]), row);
        i := i + 1;
    }
    if iterErr.Some? {
      return Err(Wrapped("get actors", iterErr.value));
    }
    assert scans[..i] == scans;
    GroupedFilms(RowsOf(scans));
    r := Ok(actorFilms);
  }

  /** `DeleteActor`: `exec` is the outcome of the delete statement, carrying
      the number of rows it affected. */
  function DeleteActor(exec: Result<int>): (err: Option<Error>)
    ensures err.None? <==> exec.Ok? && exec.value != 0
    ensures exec.Err? ==> err == Some(Wrapped("failed to delete actor", exec.error))
    ensures exec == Ok(0) ==> err == Some(Error("actor not found"))
  {
    match exec
    case Err(e) => Some(Wrapped("failed to delete actor", e))
    case Ok(rowsAffected) => if rowsAffected == 0 then Some(Error("actor not found")) else None
  }

  /** A `*domain.Actor` that `CreateActor` updates through its pointer. */
  class ActorRecord {
    var id: Uuid
    var name: string
    var surname: string
    var sex: string
    var birthdate: int

    function Value(): Actor
      reads this
    {
      Actor(id, name, surname, sex, birthdate)
    }

    constructor (a: Actor)
      ensures Value() == a
    {
      id, name, surname, sex, birthdate := a.id, a.name, a.surname, a.sex, a.birthdate;
    }
  }

  /** `CreateActor`: overwrite the actor's ID with `newID` (the `uuid.New()`
      draw), then insert it; `insert` is the outcome of the insert statement. */
  method CreateActor(act: ActorRecord, newID: Uuid, insert: Actor -> Option<Error>) returns (err: Option<Error>)
    modifies act
    ensures act.Value() == old(act.Value()).(id := newID)
    ensures err == WrapErr("create actor", insert(act.Value()))
  {
    act.id := newID;
    err := WrapErr("create actor", insert(act.Value()));
  }
}
