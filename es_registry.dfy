/**
  02-flask-api/app/es_registry.py: the search request that `search_movies`
  sends, the projection of its hits to short movies, and the found/not-found
  and id-widening logic of `get_movie_by_id`. The HTTP calls are left out:
  responses arrive decoded.
*/
module EsRegistry {
  import opened Wrappers
  import opened Json
  import opened Text
  import Validators
  import Etl

  /** The fixed `_source` projection of a search. */
  const SOURCE_FIELDS: seq<string> := ["id", "title", "imdb_rating"]

  /** The `multi_match` fields with their boosts. */
  const SEARCH_FIELDS: seq<string> :=
    ["title^5", "description^4", "genre^3", "actors_names^3", "writers_names^2", "director"]

  /** `limit * (page - 1)`: where page `page` of `limit` hits starts. */
  function PageOffset(limit: int, page: int): int
  {
    limit * (page - 1)
  }

  /** The fuzzy `query` clause for a search term. */
  function MultiMatch(search: string): Value
  {
    JObj([("multi_match", JObj([
      ("query", JStr(search)),
      ("fuzziness", JStr("auto")),
      ("fields", StrList(SEARCH_FIELDS))]))])
  }

  /** `es_req` of `search_movies`, with `query` inserted only for a
      non-empty search term. */
  function SearchBody(search: string, sort: string, sortOrder: string, limit: int, page: int): Value
  {
    JObj([
      ("from", JInt(PageOffset(limit, page))),
      ("size", JInt(limit)),
      ("sort", JArr([JObj([(sort + ".keyword", JStr(sortOrder))])])),
      ("_source", StrList(SOURCE_FIELDS))
    ] + (if search != "" then [("query", MultiMatch(search))] else []))
  }

  /** The request: `from` is `limit*(page-1)`, `size` is `limit`, one sort
      key `<sort>.keyword` mapped to the order, the fixed projection, and a
      `query` key present exactly when the search term is non-empty. */
  lemma SearchBodyShape(search: string, sort: string, sortOrder: string, limit: int, page: int)
    ensures var body := SearchBody(search, sort, sortOrder, limit, page);
            && Keys(body) == ["from", "size", "sort", "_source"] + (if search != "" then ["query"] else [])
            && Lookup(body, "from") == Some(JInt(limit * (page - 1)))
            && Lookup(body, "size") == Some(JInt(limit))
            && Lookup(body, "sort") == Some(JArr([JObj([(sort + ".keyword", JStr(sortOrder))])]))
            && Lookup(body, "_source") == Some(JArr([JStr("id"), JStr("title"), JStr("imdb_rating")]))
            && (Lookup(body, "query").Some? <==> search != "")
            && (search != "" ==> Lookup(body, "query") == Some(MultiMatch(search)))
  {
    var body := SearchBody(search, sort, sortOrder, limit, page);
    var fs := body.fields;
    assert fs[0].0 == "from" && fs[1].0 == "size" && fs[2].0 == "sort" && fs[3].0 == "_source";
    assert "from" != "size" && "from" != "sort" && "size" != "sort";
    assert "_source" != "from" && "_source" != "size" && "_source" != "sort";
    GetAt(fs, 0, "from");
    GetAt(fs, 1, "size");
    GetAt(fs, 2, "sort");
    GetAt(fs, 3, "_source");
    assert StrList(SOURCE_FIELDS).items == [JStr("id"), JStr("title"), JStr("imdb_rating")];
    var keys := ["from", "size", "sort", "_source"];
    assert "query" !in keys;
    if search != "" {
      assert fs[4].0 == "query";
      GetAt(fs, 4, "query");
      assert Keys(body) == keys + ["query"];
    } else {
      assert forall k :: 0 <= k < |fs| ==> fs[k].0 == keys[k];
      assert Keys(body) == keys;
    }
  }

  /** The fields of the fuzzy query, in order, with their boosts. */
  lemma MultiMatchFields(search: string)
    ensures var mm := Lookup(MultiMatch(search), "multi_match");
            && mm.Some?
            && Lookup(mm.value, "query") == Some(JStr(search))
            && Lookup(mm.value, "fuzziness") == Some(JStr("auto"))
            && Lookup(mm.value, "fields") == Some(JArr([
                 JStr("title^5"), JStr("description^4"), JStr("genre^3"),
                 JStr("actors_names^3"), JStr("writers_names^2"), JStr("director")]))
  {
    var mm := MultiMatch(search).fields;
    GetAt(mm, 0, "multi_match");
    var fs := mm[0].1.fields;
    assert fs[0].0 == "query" && fs[1].0 == "fuzziness" && fs[2].0 == "fields";
    assert "query" != "fuzziness" && "query" != "fields" && "fuzziness" != "fields";
    GetAt(fs, 0, "query");
    GetAt(fs, 1, "fuzziness");
    GetAt(fs, 2, "fields");
    assert StrList(SEARCH_FIELDS).items == [
      JStr("title^5"), JStr("description^4"), JStr("genre^3"),
      JStr("actors_names^3"), JStr("writers_names^2"), JStr("director")];
  }

  /** Parameters that pass the validator give a non-negative offset. */
  lemma ValidParamsOffset(p: Validators.SearchParams)
    requires Validators.Valid(p)
    ensures Lookup(SearchBody(p.search, p.sort, p.sortOrder, p.limit, p.page), "from") == Some(JInt(PageOffset(p.limit, p.page)))
    ensures PageOffset(p.limit, p.page) >= 0
  {
    SearchBodyShape(p.search, p.sort, p.sortOrder, p.limit, p.page);
  }

  /** Pages tile the hit list: page 1 starts at 0 and each page starts
      where the previous one ends. */
  lemma PagesTile(limit: int, page: int)
    ensures PageOffset(limit, 1) == 0
    ensures PageOffset(limit, page + 1) == PageOffset(limit, page) + limit
  {
    assert limit * page == limit * (page - 1) + limit;
  }

  /** The search example: sort by rating descending, 10 per page, page 2. */
  lemma SearchExample()
    ensures var body := SearchBody("", "imdb_rating", "desc", 10, 2);
            && Lookup(body, "from") == Some(JInt(10))
            && Lookup(body, "size") == Some(JInt(10))
            && Lookup(body, "sort") == Some(JArr([JObj([("imdb_rating.keyword", JStr("desc"))])]))
            && Lookup(body, "query") == None
  {
    SearchBodyShape("", "imdb_rating", "desc", 10, 2);
    assert "imdb_rating" + ".keyword" == "imdb_rating.keyword";
  }

  /* ---------------------------------------------------------------------- */
  /* Hits                                                                   */
  /* ---------------------------------------------------------------------- */

  /** `ShortMovie(id=..., title=..., imdb_rating=...)`, holding the values
      of the hit as they are. */
  datatype ShortMovie = ShortMovie(id: Value, title: Value, imdbRating: Value)

  /** `m["_source"]["id"]`, ...; `None` when a key is missing (a `KeyError`). */
  function HitMovie(hit: Value): Option<ShortMovie>
  {
    match Lookup(hit, "_source")
    case None => None
    case Some(source) =>
      match (Lookup(source, "id"), Lookup(source, "title"), Lookup(source, "imdb_rating"))
      case (Some(id), Some(title), Some(rating)) => Some(ShortMovie(id, title, rating))
      case _ => None
  }

  /** The comprehension over `data["hits"]["hits"]`. */
  function ShortMovies(hits: seq<Value>): (r: Option<seq<ShortMovie>>)
    ensures r.Some? <==> forall k :: 0 <= k < |hits| ==> HitMovie(hits[k]).Some?
    ensures r.Some? ==> |r.value| == |hits|
                        && forall k :: 0 <= k < |hits| ==> r.value[k] == HitMovie(hits[k]).value
  {
    if hits == [] then Some([])
    else
      match (HitMovie(hits[0]), ShortMovies(hits[1..]))
      case (Some(m), Some(ms)) => Some([m] + ms)
      case _ => None
  }

  /** The search engine's `_source` filtering: keep the fields named in `keep`. */
  function Project(fields: seq<(string, Value)>, keep: seq<string>): seq<(string, Value)>
  {
    if fields == [] then []
    else
      var rest := Project(fields[1..], keep);
      if fields[0].0 in keep then [fields[0]] + rest else rest
  }

  /** Filtering leaves the value of every kept key as it was. */
  lemma {:induction false} ProjectKeeps(fields: seq<(string, Value)>, keep: seq<string>, key: string)
    requires key in keep
    ensures Get(Project(fields, keep), key) == Get(fields, key)
  {
    if fields != [] {
      ProjectKeeps(fields[1..], keep, key);
      var rest := Project(fields[1..], keep);
      if fields[0].0 in keep {
        assert ([fields[0]] + rest)[1..] == rest;
      }
    }
  }

  /** A hit on a document the ETL indexed gives back its id, title and rating. */
  lemma IndexedDocumentHit(doc: Etl.Document)
    ensures var source := JObj(Project(Etl.DocumentJson(doc).fields, SOURCE_FIELDS));
            HitMovie(JObj([("_source", source)]))
            == Some(ShortMovie(JStr(doc.id), JStr(doc.title),
                               if doc.imdbRating.Some? then JReal(doc.imdbRating.value) else JNull))
  {
    var fs := Etl.DocumentJson(doc).fields;
    var source := JObj(Project(fs, SOURCE_FIELDS));
    Etl.DocumentJsonFields(doc);
    ProjectKeeps(fs, SOURCE_FIELDS, "id");
    ProjectKeeps(fs, SOURCE_FIELDS, "title");
    ProjectKeeps(fs, SOURCE_FIELDS, "imdb_rating");
    GetAt([("_source", source)], 0, "_source");
  }

  /* ---------------------------------------------------------------------- */
  /* get_movie_by_id                                                        */
  /* ---------------------------------------------------------------------- */

  /** The decoded `_doc` response: `found`, and `_source` (an indexed document). */
  datatype GetResponse = GetResponse(found: bool, source: Etl.Document)

  datatype Writer = Writer(id: string, name: string)

  /** `Actor(id=int(a["id"]), name=a["name"])`. */
  datatype MovieActor = MovieActor(id: int, name: string)

  datatype Movie = Movie(
    id: string,
    title: string,
    description: Option<string>,
    imdbRating: Option<real>,
    genre: seq<string>,
    director: Option<seq<string>>,
    writers: seq<Writer>,
    actors: seq<MovieActor>)

  /** What `get_movie_by_id` raises. */
  datatype LookupError =
    | RatingIsNull                 // `float(None)`: TypeError
    | ActorIdNotInt(text: string)  // `int(...)` on a non-numeral: ValueError

  /** `Actor(id=int(a["id"]), name=a["name"])` for one actor. */
  function WidenActor(a: Etl.Actor): Result<MovieActor, LookupError>
  {
    match ParseInt(a.id)
    case None => Failure(ActorIdNotInt(a.id))
    case Some(id) => Success(MovieActor(id, a.name))
  }

  /** The actor comprehension: every id widened with `int`, the first id that
      is not a numeral raising. */
  function MovieActors(actors: seq<Etl.Actor>): Result<seq<MovieActor>, LookupError>
  {
    MapAll(actors, WidenActor)
  }

  /** Widening succeeds exactly when every actor id is a numeral; it keeps
      the actors' order, count and names; a failure names an id that is not one. */
  lemma MovieActorsSpec(actors: seq<Etl.Actor>)
    ensures MovieActors(actors).Success? <==> forall k :: 0 <= k < |actors| ==> ParseInt(actors[k].id).Some?
    ensures MovieActors(actors).Success? ==>
              && |MovieActors(actors).value| == |actors|
              && forall k :: 0 <= k < |actors| ==>
                   MovieActors(actors).value[k] == MovieActor(ParseInt(actors[k].id).value, actors[k].name)
    ensures MovieActors(actors).Failure? ==>
              exists k :: 0 <= k < |actors| && MovieActors(actors).error == ActorIdNotInt(actors[k].id)
                          && ParseInt(actors[k].id).None?
  {
    MapAllSuccess(actors, WidenActor);
    if MovieActors(actors).Failure? {
      MapAllFailure(actors, WidenActor);
    }
  }

  function MovieWriters(writers: seq<Etl.WriterRow>): seq<Writer>
  {
    seq(|writers|, k requires 0 <= k < |writers| => Writer(writers[k].id, writers[k].name))
  }

  /** `get_movie_by_id` as written: `float(movie_raw["imdb_rating"])` raises
      on a null rating. */
  function GetMovieByIdAsWritten(response: GetResponse): Result<Option<Movie>, LookupError>
  {
    if !response.found then Success(None)
    else
      var raw := response.source;
      if raw.imdbRating.None? then Failure(RatingIsNull)
      else
        match MovieActors(raw.actors)
        case Failure(e) => Failure(e)
        case Success(actors) =>
          Success(Some(Movie(raw.id, raw.title, raw.description, raw.imdbRating,
                             raw.genre, raw.director, MovieWriters(raw.writers), actors)))
  }

  /** `get_movie_by_id` with a null rating passed through, as `search_movies`
      already does. */
  function GetMovieById(response: GetResponse): Result<Option<Movie>, LookupError>
  {
    if !response.found then Success(None)
    else
      var raw := response.source;
      match MovieActors(raw.actors)
      case Failure(e) => Failure(e)
      case Success(actors) =>
        Success(Some(Movie(raw.id, raw.title, raw.description, raw.imdbRating,
                           raw.genre, raw.director, MovieWriters(raw.writers), actors)))
  }

  /** Every movie whose source row had the rating "N/A" is indexed with a
      null rating, and the lookup as written then raises for it. */
  lemma NullRatingBreaksLookup(row: Etl.RawRow, writers: map<string, Etl.WriterRow>, parse: string -> Option<real>)
    requires row.imdbRating == Etl.NA
    ensures Etl.TransformRow(row, writers, parse).Success?
    ensures GetMovieByIdAsWritten(GetResponse(true, Etl.TransformRow(row, writers, parse).value)) == Failure(RatingIsNull)
  {
  }

  /** The corrected lookup: `None` exactly when the document is not found;
      otherwise the document's fields, its writers in order and count, and
      its actors in order and count with their ids widened to integers,
      failing only on an actor id that is not a numeral. It agrees with the
      lookup as written whenever the rating is present. */
  lemma GetMovieByIdSpec(response: GetResponse)
    ensures GetMovieById(response) == Success(None) <==> !response.found
    ensures response.found && (forall k :: 0 <= k < |response.source.actors| ==> ParseInt(response.source.actors[k].id).Some?) ==>
              var raw := response.source;
              && GetMovieById(response).Success?
              && var m := GetMovieById(response).value.value;
              && m.id == raw.id && m.title == raw.title && m.imdbRating == raw.imdbRating
              && m.description == raw.description && m.genre == raw.genre && m.director == raw.director
              && |m.writers| == |raw.writers|
              && (forall k :: 0 <= k < |raw.writers| ==> m.writers[k] == Writer(raw.writers[k].id, raw.writers[k].name))
              && |m.actors| == |raw.actors|
              && (forall k :: 0 <= k < |raw.actors| ==>
                    m.actors[k] == MovieActor(ParseInt(raw.actors[k].id).value, raw.actors[k].name))
    ensures response.found && response.source.imdbRating.Some? ==>
              GetMovieById(response) == GetMovieByIdAsWritten(response)
  {
    MovieActorsSpec(response.source.actors);
  }

  /** Actor ids that are the decimal numerals of integers widen back to those integers. */
  lemma NumeralActorIds(actors: seq<Etl.Actor>, ids: seq<int>)
    requires |ids| == |actors|
    requires forall k :: 0 <= k < |actors| ==> actors[k].id == IntText(ids[k])
    ensures MovieActors(actors).Success?
    ensures |MovieActors(actors).value| == |actors|
    ensures forall k :: 0 <= k < |actors| ==> MovieActors(actors).value[k] == MovieActor(ids[k], actors[k].name)
  {
    forall k | 0 <= k < |actors| ensures ParseInt(actors[k].id) == Some(ids[k])
    {
      ParseIntText(ids[k]);
    }
    MovieActorsSpec(actors);
  }
}
