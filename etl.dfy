/**
  The ETL class of 01-etl/etl.py: the writer dictionary, the reshaping of
  each flat movie row into a search document, the SQL `CASE` that
  synthesizes a writers list from the legacy `writer` column, and the hand-off
  of the documents to the bulk loader. Rows arrive already read from the
  database, with their `writers` JSON already decoded into a list of ids.
*/
module Etl {
  import opened Wrappers
  import opened Json
  import opened Text
  import EsLoader

  /** The sentinel the source data uses for "unknown". */
  const NA := "N/A"

  /** The index `ETL.load` writes to. */
  const MOVIES_INDEX := "movies"

  /** A row of `SELECT DISTINCT id, name FROM writers`. */
  datatype WriterRow = WriterRow(id: string, name: string)

  /** A row of `ETL.SQL`. `None` stands for SQL NULL; `writers` holds the ids
      of the decoded `writers` column. */
  datatype RawRow = RawRow(
    id: string,
    title: string,
    description: Option<string>,
    director: Option<string>,
    genre: string,
    imdbRating: string,
    actorsNames: Option<string>,
    actorsIds: Option<string>,
    writers: seq<string>)

  /** `{'id': _id, 'name': name}`; the id stays a string here. */
  datatype Actor = Actor(id: string, name: string)

  /** The dict that `transform` appends for each row. */
  datatype Document = Document(
    id: string,
    imdbRating: Option<real>,
    director: Option<seq<string>>,
    genre: seq<string>,
    title: string,
    actors: seq<Actor>,
    actorsNames: seq<string>,
    writers: seq<WriterRow>,
    writersNames: seq<string>,
    description: Option<string>)

  /** `float(record['imdb_rating'])` raised: the row and its rating text. */
  datatype TransformError = BadRating(rowId: string, text: string)

  /* ---------------------------------------------------------------------- */
  /* The writers `CASE` of ETL.SQL                                          */
  /* ---------------------------------------------------------------------- */

  const REF_PREFIX := "[{\"id\": \""
  const REF_SUFFIX := "\"}]"

  /** `CASE WHEN m.writers = '' THEN '[{"id": "' || m.writer || '"}]' ELSE m.writers END`. */
  function WritersColumn(writers: string, writer: string): string
  {
    if writers == "" then REF_PREFIX + writer + REF_SUFFIX else writers
  }

  /** Text that strict `json.loads` reads as a string body standing for
      itself: no quote, no backslash and no control character below U+0020. */
  predicate PlainJsonChars(id: string)
  {
    forall k :: 0 <= k < |id| ==> id[k] != '"' && id[k] != '\\' && id[k] >= ' '
  }

  /** The id list that JSON text of the shape `[{"id": "<id>"}]` denotes,
      when `<id>` is a JSON string body without escapes. */
  function DecodeSingleRef(s: string): Option<seq<string>>
  {
    if |s| >= |REF_PREFIX| + |REF_SUFFIX|
       && s[..|REF_PREFIX|] == REF_PREFIX && s[|s| - |REF_SUFFIX|..] == REF_SUFFIX
    then
      var id := s[|REF_PREFIX|..|s| - |REF_SUFFIX|];
      if PlainJsonChars(id) then Some([id]) else None
    else None
  }

  /** A non-empty `writers` column passes through; an empty one becomes the
      one-element reference list of the legacy `writer`, which decodes back to
      exactly that writer when the id has no quote, backslash or control
      character (and is not valid as that list otherwise). */
  lemma LegacyWritersColumn(writers: string, writer: string)
    ensures writers != "" ==> WritersColumn(writers, writer) == writers
    ensures writers == "" ==>
              DecodeSingleRef(WritersColumn(writers, writer))
              == if PlainJsonChars(writer) then Some([writer]) else None
  {
    if writers == "" {
      var s := WritersColumn(writers, writer);
      assert s[..|REF_PREFIX|] == REF_PREFIX;
      assert s[|s| - |REF_SUFFIX|..] == REF_SUFFIX;
      assert s[|REF_PREFIX|..|s| - |REF_SUFFIX|] == writer;
    }
  }

  /* ---------------------------------------------------------------------- */
  /* _get_writers                                                           */
  /* ---------------------------------------------------------------------- */

  /** The dictionary `_get_writers` fills: each row stored under its id, a
      later row replacing an earlier one. */
  function WriterDict(rows: seq<WriterRow>): map<string, WriterRow>
  {
    if rows == [] then map[]
    else
      var last := rows[|rows| - 1];
      WriterDict(rows[..|rows| - 1])[last.id := last]
  }

  /** The keys are exactly the row ids. */
  lemma {:induction false} WriterDictKeys(rows: seq<WriterRow>)
    ensures WriterDict(rows).Keys == set k | 0 <= k < |rows| :: rows[k].id
  {
    if rows != [] {
      var n := |rows| - 1;
      var init := rows[..n];
      WriterDictKeys(init);
      assert forall k :: 0 <= k < n ==> init[k] == rows[k];
      assert (set k | 0 <= k < |rows| :: rows[k].id) == (set k | 0 <= k < n :: init[k].id) + {rows[n].id};
    }
  }

  /** A row that no later row overrides is the one stored under its id:
      the last row with a given id wins. */
  lemma {:induction false} WriterDictLastWins(rows: seq<WriterRow>, k: nat)
    requires k < |rows|
    requires forall m :: k < m < |rows| ==> rows[m].id != rows[k].id
    ensures rows[k].id in WriterDict(rows) && WriterDict(rows)[rows[k].id] == rows[k]
  {
    var n := |rows| - 1;
    if k < n {
      var init := rows[..n];
      assert init[k] == rows[k];
      assert forall m :: k < m < n ==> init[m] == rows[m];
      WriterDictLastWins(init, k);
    }
  }

  /** The dictionary stores every writer under its own id. */
  predicate WellKeyed(writers: map<string, WriterRow>)
  {
    forall id :: id in writers ==> writers[id].id == id
  }

  lemma {:induction false} WriterDictWellKeyed(rows: seq<WriterRow>)
    ensures WellKeyed(WriterDict(rows))
  {
    if rows != [] {
      WriterDictWellKeyed(rows[..|rows| - 1]);
    }
  }

  method GetWriters(rows: seq<WriterRow>) returns (writers: map<string, WriterRow>)
    ensures writers == WriterDict(rows)
  {
    writers := map[];
    var i := 0;
    while i < |rows|
      invariant 0 <= i <= |rows|
      invariant writers == WriterDict(rows[..i])
    {
      var writer := rows[i];
      writers := writers[writer.id := writer];
      assert rows[..i + 1][..i] == rows[..i];
      i := i + 1;
    }
    assert rows[..i] == rows;
  }

  /* ---------------------------------------------------------------------- */
  /* Writer resolution (the inner loop of transform)                        */
  /* ---------------------------------------------------------------------- */

  /** `writers.get(writer_id) and writers[writer_id]['name'] != 'N/A'`. */
  predicate Eligible(id: string, writers: map<string, WriterRow>)
  {
    id in writers && writers[id].name != NA
  }

  /** The reference ids the loop accepts: eligible, and not accepted before. */
  function AcceptedIds(refs: seq<string>, writers: map<string, WriterRow>): (ids: seq<string>)
    ensures forall k :: 0 <= k < |ids| ==> Eligible(ids[k], writers)
    ensures forall k :: 0 <= k < |ids| ==> ids[k] in refs
  {
    if refs == [] then []
    else
      var prev := AcceptedIds(refs[..|refs| - 1], writers);
      var id := refs[|refs| - 1];
      if Eligible(id, writers) && id !in prev then prev + [id] else prev
  }

  /** `movie_writers`: the dictionary record of each accepted id. */
  function Resolve(refs: seq<string>, writers: map<string, WriterRow>): seq<WriterRow>
  {
    var ids := AcceptedIds(refs, writers);
    seq(|ids|, k requires 0 <= k < |ids| => writers[ids[k]])
  }

  /** Position of the first occurrence of `x` in `s`. */
  function FirstIndex(s: seq<string>, x: string): (i: nat)
    requires x in s
    ensures i < |s| && s[i] == x && x !in s[..i]
  {
    if s[0] == x then 0 else 1 + FirstIndex(s[1..], x)
  }

  lemma {:induction false} FirstIndexPrefix(s: seq<string>, n: nat, x: string)
    requires n <= |s| && x in s[..n]
    ensures FirstIndex(s, x) == FirstIndex(s[..n], x)
  {
    var i := FirstIndex(s[..n], x);
    var j := FirstIndex(s, x);
    assert s[..n][..i] == s[..i];
  }

  /** Every eligible reference id is accepted, and nothing else is. */
  lemma {:induction false} AcceptedIdsExactly(refs: seq<string>, writers: map<string, WriterRow>, id: string)
    ensures id in AcceptedIds(refs, writers) <==> id in refs && Eligible(id, writers)
  {
    if refs != [] {
      var init := refs[..|refs| - 1];
      AcceptedIdsExactly(init, writers, id);
      assert refs == init + [refs[|refs| - 1]];
    }
  }

  /** No id is accepted twice, and accepted ids keep the order of their
      first occurrence among the references. */
  lemma {:induction false} AcceptedIdsOrdered(refs: seq<string>, writers: map<string, WriterRow>)
    ensures var ids := AcceptedIds(refs, writers);
            forall i, j :: 0 <= i < j < |ids| ==>
              ids[i] != ids[j] && FirstIndex(refs, ids[i]) < FirstIndex(refs, ids[j])
  {
    if refs != [] {
      var n := |refs| - 1;
      var init := refs[..n];
      var prev := AcceptedIds(init, writers);
      var ids := AcceptedIds(refs, writers);
      AcceptedIdsOrdered(init, writers);
      forall k | 0 <= k < |prev|
        ensures FirstIndex(refs, prev[k]) == FirstIndex(init, prev[k]) < n
      {
        AcceptedIdsExactly(init, writers, prev[k]);
        FirstIndexPrefix(refs, n, prev[k]);
      }
      if ids != prev {
        var last := refs[n];
        AcceptedIdsExactly(init, writers, last);
        assert last !in init;
        assert refs[..n] == init;
        assert FirstIndex(refs, last) == n;
      }
    }
  }

  /** What the writer loop promises: no duplicate ids, every writer is the
      dictionary record of a referenced id whose name is not the sentinel,
      every such id is present, and first-occurrence order is kept. */
  lemma ResolvedWriters(refs: seq<string>, writers: map<string, WriterRow>)
    requires WellKeyed(writers)
    ensures var ws := Resolve(refs, writers);
            && (forall k :: 0 <= k < |ws| ==>
                  ws[k].id in refs && ws[k].id in writers && ws[k] == writers[ws[k].id] && ws[k].name != NA)
            && (forall id :: id in refs && Eligible(id, writers) ==>
                  exists k :: 0 <= k < |ws| && ws[k].id == id)
            && (forall i, j :: 0 <= i < j < |ws| ==>
                  ws[i].id != ws[j].id && FirstIndex(refs, ws[i].id) < FirstIndex(refs, ws[j].id))
  {
    var ids := AcceptedIds(refs, writers);
    var ws := Resolve(refs, writers);
    AcceptedIdsOrdered(refs, writers);
    assert forall k :: 0 <= k < |ws| ==> ws[k].id == ids[k];
    forall id | id in refs && Eligible(id, writers)
      ensures exists k :: 0 <= k < |ws| && ws[k].id == id
    {
      AcceptedIdsExactly(refs, writers, id);
      var k :| 0 <= k < |ids| && ids[k] == id;
      assert ws[k].id == id;
    }
  }

  /** The inner loop of `transform`, with `movie_writers` and `movie_writers_set`. */
  method ResolveWriters(refs: seq<string>, writers: map<string, WriterRow>) returns (movieWriters: seq<WriterRow>)
    ensures movieWriters == Resolve(refs, writers)
  {
    movieWriters := [];
    var movieWritersSet: set<string> := {};
    var i := 0;
    while i < |refs|
      invariant 0 <= i <= |refs|
      invariant movieWriters == Resolve(refs[..i], writers)
      invariant forall x :: x in movieWritersSet <==> x in AcceptedIds(refs[..i], writers)
    {
      var writerId := refs[i];
      ghost var prev := AcceptedIds(refs[..i], writers);
      assert refs[..i + 1][..i] == refs[..i];
      if writerId in writers && writers[writerId].name != NA && writerId !in movieWritersSet {
        movieWriters := movieWriters + [writers[writerId]];
        movieWritersSet := movieWritersSet + {writerId};
        assert AcceptedIds(refs[..i + 1], writers) == prev + [writerId];
      } else {
        assert writerId in movieWritersSet ==> writerId in prev;
      }
      i := i + 1;
    }
    assert refs[..i] == refs;
  }

  /* ---------------------------------------------------------------------- */
  /* Per-field rules                                                        */
  /* ---------------------------------------------------------------------- */

  /** `[{'id': _id, 'name': name} for _id, name in zip(ids, names) if name != 'N/A']`:
      `zip` stops at the shorter list. */
  function ZipActors(ids: seq<string>, names: seq<string>): (actors: seq<Actor>)
    ensures forall k :: 0 <= k < |actors| ==> actors[k].name != NA
    ensures |actors| <= |names| && |actors| <= |ids|
  {
    if ids == [] || names == [] then []
    else
      (if names[0] != NA then [Actor(ids[0], names[0])] else []) + ZipActors(ids[1..], names[1..])
  }

  /** `[x for x in names if x != 'N/A']`. */
  function DropNA(names: seq<string>): (r: seq<string>)
    ensures NA !in r
    ensures |r| <= |names|
  {
    if names == [] then []
    else (if names[0] != NA then [names[0]] else []) + DropNA(names[1..])
  }

  /** Filtering works piece by piece: every non-sentinel name is kept, in
      column order (the one-name cases are the definition's). */
  lemma {:induction false} DropNAAppend(xs: seq<string>, ys: seq<string>)
    ensures DropNA(xs + ys) == DropNA(xs) + DropNA(ys)
  {
    if xs != [] {
      assert (xs + ys)[0] == xs[0];
      assert (xs + ys)[1..] == xs[1..] + ys;
      DropNAAppend(xs[1..], ys);
    } else {
      assert xs + ys == ys;
    }
  }

  /** Zipping aligned pieces piece by piece: the kept pairs come out in
      position order. */
  lemma {:induction false} ZipActorsAppend(ids: seq<string>, names: seq<string>, ids2: seq<string>, names2: seq<string>)
    requires |ids| == |names|
    ensures ZipActors(ids + ids2, names + names2) == ZipActors(ids, names) + ZipActors(ids2, names2)
  {
    if ids != [] {
      assert (ids + ids2)[0] == ids[0] && (names + names2)[0] == names[0];
      assert (ids + ids2)[1..] == ids[1..] + ids2;
      assert (names + names2)[1..] == names[1..] + names2;
      ZipActorsAppend(ids[1..], names[1..], ids2, names2);
    } else {
      assert ids + ids2 == ids2 && names + names2 == names2;
    }
  }

  /** One more aligned position adds its actor at the end, unless its name
      is the sentinel. */
  lemma ZipActorsSnoc(ids: seq<string>, names: seq<string>, k: nat)
    requires k < |ids| && k < |names|
    ensures ZipActors(ids[..k + 1], names[..k + 1])
            == ZipActors(ids[..k], names[..k]) + (if names[k] != NA then [Actor(ids[k], names[k])] else [])
  {
    assert ids[..k + 1] == ids[..k] + [ids[k]];
    assert names[..k + 1] == names[..k] + [names[k]];
    ZipActorsAppend(ids[..k], names[..k], [ids[k]], [names[k]]);
  }

  /** `zip` ignores whatever the longer list has beyond the shorter one. */
  lemma {:induction false} ZipActorsTruncate(ids: seq<string>, names: seq<string>)
    ensures var m := if |ids| <= |names| then |ids| else |names|;
            ZipActors(ids, names) == ZipActors(ids[..m], names[..m])
  {
    var m := if |ids| <= |names| then |ids| else |names|;
    if ids != [] && names != [] {
      ZipActorsTruncate(ids[1..], names[1..]);
      assert ids[..m][1..] == ids[1..][..m - 1];
      assert names[..m][1..] == names[1..][..m - 1];
    }
  }

  function ActorNames(actors: seq<Actor>): (names: seq<string>)
  {
    seq(|actors|, k requires 0 <= k < |actors| => actors[k].name)
  }

  /** On lists of equal length the names of the kept actors are exactly the
      kept names, in order. */
  lemma {:induction false} ZipActorsNames(ids: seq<string>, names: seq<string>)
    requires |ids| == |names|
    ensures ActorNames(ZipActors(ids, names)) == DropNA(names)
  {
    if ids != [] {
      ZipActorsNames(ids[1..], names[1..]);
    }
  }

  /** The names line up with the actors whenever there are no more names
      than ids: `zip` then reaches every name. */
  lemma ZipActorsNamesShorter(ids: seq<string>, names: seq<string>)
    requires |names| <= |ids|
    ensures ActorNames(ZipActors(ids, names)) == DropNA(names)
  {
    ZipActorsTruncate(ids, names);
    assert names[..|names|] == names;
    ZipActorsNames(ids[..|names|], names);
  }

  /** An actor is kept exactly when its id and name stand at the same
      position of the two lists, within the shorter one, and the name is
      not the sentinel. */
  lemma {:induction false} ZipActorsMembers(ids: seq<string>, names: seq<string>, a: Actor)
    ensures a in ZipActors(ids, names) <==>
            exists k :: 0 <= k < |ids| && k < |names| && ids[k] == a.id && names[k] == a.name && a.name != NA
  {
    if ids != [] && names != [] {
      ZipActorsMembers(ids[1..], names[1..], a);
      if exists k :: 0 <= k < |ids| && k < |names| && ids[k] == a.id && names[k] == a.name && a.name != NA {
        var k :| 0 <= k < |ids| && k < |names| && ids[k] == a.id && names[k] == a.name && a.name != NA;
        if k > 0 {
          assert ids[1..][k - 1] == a.id && names[1..][k - 1] == a.name;
        }
      }
      if a in ZipActors(ids[1..], names[1..]) {
        var k :| 0 <= k < |ids[1..]| && k < |names[1..]| && ids[1..][k] == a.id && names[1..][k] == a.name && a.name != NA;
        assert ids[k + 1] == a.id && names[k + 1] == a.name;
      }
    }
  }

  /** `actors` and `actors_names` of a row: both empty unless both columns are
      present. */
  function ActorFields(actorsIds: Option<string>, actorsNames: Option<string>): (seq<Actor>, seq<string>)
  {
    if actorsNames.Some? && actorsIds.Some? then
      (ZipActors(Split(actorsIds.value, ','), Split(actorsNames.value, ',')),
       DropNA(Split(actorsNames.value, ',')))
    else ([], [])
  }

  /** `float(text) if text != 'N/A' else None`; `parse` stands for `float`,
      `None` meaning that it raised. */
  function Rating(rowId: string, text: string, parse: string -> Option<real>): Result<Option<real>, TransformError>
  {
    if text == NA then Success(None)
    else match parse(text)
      case Some(x) => Success(Some(x))
      case None => Failure(BadRating(rowId, text))
  }

  function StripAll(parts: seq<string>): (r: seq<string>)
  {
    seq(|parts|, k requires 0 <= k < |parts| => Strip(parts[k]))
  }

  /** `[x.strip() for x in d.split(',')] if d is not None and d != 'N/A' else None`. */
  function Director(director: Option<string>): Option<seq<string>>
  {
    match director
    case None => None
    case Some(d) => if d == NA then None else Some(StripAll(Split(d, ',')))
  }

  /** `genre.replace(' ', '').split(',')`. */
  function Genre(genre: string): seq<string>
  {
    Split(RemoveAll(genre, ' '), ',')
  }

  /** `description if description != 'N/A' else None`. */
  function Description(description: Option<string>): Option<string>
  {
    if description == Some(NA) then None else description
  }

  function WriterNames(writers: seq<WriterRow>): seq<string>
  {
    seq(|writers|, k requires 0 <= k < |writers| => writers[k].name)
  }

  /** A present, non-sentinel director becomes one trimmed name per
      comma-separated piece, in order. */
  lemma DirectorPieces(d: string)
    requires d != NA
    ensures Director(Some(d)).Some?
    ensures var ds := Director(Some(d)).value;
            && |ds| == Count(d, ',') + 1
            && forall k :: 0 <= k < |ds| ==>
                 ',' !in ds[k] && ds[k] == Strip(Split(d, ',')[k])
                 && (ds[k] == [] || (!IsSpace(ds[k][0]) && !IsSpace(ds[k][|ds[k]| - 1])))
  {
    var parts := Split(d, ',');
    var ds := Director(Some(d)).value;
  }

  /** `genre` always has Count(',')+1 pieces, none holding a space or a comma,
      and joining them back with commas gives the genre without its spaces. */
  lemma GenrePieces(genre: string)
    ensures var gs := Genre(genre);
            && |gs| == Count(genre, ',') + 1
            && (forall k :: 0 <= k < |gs| ==> ' ' !in gs[k] && ',' !in gs[k])
            && Join(gs, ',') == RemoveAll(genre, ' ')
  {
    var s := RemoveAll(genre, ' ');
    var gs := Genre(genre);
    JoinSplit(s, ',');
    forall k | 0 <= k < |gs| ensures ' ' !in gs[k]
    {
      SplitPieceWithin(s, ',', k, ' ');
    }
  }

  /** A character absent from the split string is absent from every piece. */
  lemma {:induction false} SplitPieceWithin(s: string, sep: char, k: nat, c: char)
    requires c !in s && k < |Split(s, sep)|
    ensures c !in Split(s, sep)[k]
  {
    if s != [] {
      var rest := Split(s[1..], sep);
      assert c !in s[1..];
      if s[0] == sep {
        if k > 0 { SplitPieceWithin(s[1..], sep, k - 1, c); }
      } else {
        if k > 0 { SplitPieceWithin(s[1..], sep, k, c); }
        else { SplitPieceWithin(s[1..], sep, 0, c); }
      }
    }
  }

  /* ---------------------------------------------------------------------- */
  /* transform                                                              */
  /* ---------------------------------------------------------------------- */

  /** The dict literal appended for one row, given its resolved writers. */
  function BuildDocument(row: RawRow, writers: seq<WriterRow>, parse: string -> Option<real>): Result<Document, TransformError>
  {
    var actors := ActorFields(row.actorsIds, row.actorsNames);
    match Rating(row.id, row.imdbRating, parse)
    case Failure(e) => Failure(e)
    case Success(rating) =>
      Success(Document(
        id := row.id,
        imdbRating := rating,
        director := Director(row.director),
        genre := Genre(row.genre),
        title := row.title,
        actors := actors.0,
        actorsNames := actors.1,
        writers := writers,
        writersNames := WriterNames(writers),
        description := Description(row.description)))
  }

  /** One iteration of the outer loop of `transform`. */
  function TransformRow(row: RawRow, writers: map<string, WriterRow>, parse: string -> Option<real>): Result<Document, TransformError>
  {
    BuildDocument(row, Resolve(row.writers, writers), parse)
  }

  /** The whole loop: the documents in row order, or the error of the first
      row whose rating does not parse. */
  function TransformAll(rows: seq<RawRow>, writers: map<string, WriterRow>, parse: string -> Option<real>): Result<seq<Document>, TransformError>
  {
    MapAll(rows, row => TransformRow(row, writers, parse))
  }

  /** `transform`: load the writer dictionary, then reshape each row in turn. */
  method Transform(rows: seq<RawRow>, writerRows: seq<WriterRow>, parse: string -> Option<real>)
    returns (result: Result<seq<Document>, TransformError>)
    ensures result == TransformAll(rows, WriterDict(writerRows), parse)
  {
    var writers := GetWriters(writerRows);
    var transformed: seq<Document> := [];
    var i := 0;
    while i < |rows|
      invariant 0 <= i <= |rows|
      invariant TransformAll(rows[..i], writers, parse) == Success(transformed)
    {
      var record := rows[i];
      assert rows[..i + 1][..i] == rows[..i];
      var movieWriters := ResolveWriters(record.writers, writers);
      var doc := BuildDocument(record, movieWriters, parse);
      if doc.Failure? {
        MapAllFailureStays(rows, i + 1, row => TransformRow(row, writers, parse));
        return Failure(doc.error);
      }
      transformed := transformed + [doc.value];
      i := i + 1;
    }
    assert rows[..i] == rows;
    result := Success(transformed);
  }

  /** Only the rating can make a row fail: exactly when it is not the
      sentinel and does not parse. */
  lemma TransformRowFails(row: RawRow, writers: map<string, WriterRow>, parse: string -> Option<real>)
    ensures TransformRow(row, writers, parse).Failure? <==> row.imdbRating != NA && parse(row.imdbRating).None?
    ensures TransformRow(row, writers, parse).Failure? ==>
              TransformRow(row, writers, parse).error == BadRating(row.id, row.imdbRating)
  {
  }

  /** The scalar fields of a document: `id` and `title` copied, the sentinel
      (and NULL) turned into `None` for the rating, the director and the
      description, other descriptions copied, the writers resolved and
      `writers_names` their names in order. */
  lemma TransformRowFields(row: RawRow, writers: map<string, WriterRow>, parse: string -> Option<real>)
    requires TransformRow(row, writers, parse).Success?
    ensures var doc := TransformRow(row, writers, parse).value;
            && doc.id == row.id && doc.title == row.title
            && (doc.imdbRating == None <==> row.imdbRating == NA)
            && (row.imdbRating != NA ==> doc.imdbRating == parse(row.imdbRating))
            && (doc.director == None <==> row.director == None || row.director == Some(NA))
            && (doc.description == None <==> row.description == None || row.description == Some(NA))
            && (doc.description.Some? ==> doc.description == row.description && doc.description != Some(NA))
            && doc.writers == Resolve(row.writers, writers)
            && |doc.writersNames| == |doc.writers|
            && (forall k :: 0 <= k < |doc.writers| ==> doc.writersNames[k] == doc.writers[k].name)
            && doc.director == Director(row.director)
            && doc.genre == Genre(row.genre)
            && |doc.genre| == Count(row.genre, ',') + 1
            && (forall k :: 0 <= k < |doc.genre| ==> ' ' !in doc.genre[k])
  {
    GenrePieces(row.genre);
  }

  /** `actors` and `actors_names`: empty when either column is NULL;
      otherwise the zip of the two split columns and the filtered names
      column; never holding the sentinel; and, when the names column has no
      more commas than the ids column, `actors_names` is the names of
      `actors`, in order. */
  lemma TransformRowActors(row: RawRow, writers: map<string, WriterRow>, parse: string -> Option<real>)
    requires TransformRow(row, writers, parse).Success?
    ensures var doc := TransformRow(row, writers, parse).value;
            && (row.actorsNames == None || row.actorsIds == None ==> doc.actors == [] && doc.actorsNames == [])
            && (row.actorsNames.Some? && row.actorsIds.Some? ==>
                  && doc.actors == ZipActors(Split(row.actorsIds.value, ','), Split(row.actorsNames.value, ','))
                  && doc.actorsNames == DropNA(Split(row.actorsNames.value, ',')))
            && NA !in doc.actorsNames
            && (forall k :: 0 <= k < |doc.actors| ==> doc.actors[k].name != NA)
            && (row.actorsNames.Some? && row.actorsIds.Some?
                && Count(row.actorsNames.value, ',') <= Count(row.actorsIds.value, ',')
                ==> ActorNames(doc.actors) == doc.actorsNames)
  {
    if row.actorsNames.Some? && row.actorsIds.Some? {
      var ids := Split(row.actorsIds.value, ',');
      var names := Split(row.actorsNames.value, ',');
      if |names| <= |ids| {
        ZipActorsNamesShorter(ids, names);
      }
    }
  }

  /** `transform` yields one document per row, in row order, when every
      rating parses. */
  lemma TransformAllSuccess(rows: seq<RawRow>, writers: map<string, WriterRow>, parse: string -> Option<real>)
    ensures TransformAll(rows, writers, parse).Success? <==>
              forall i :: 0 <= i < |rows| ==> TransformRow(rows[i], writers, parse).Success?
    ensures TransformAll(rows, writers, parse).Success? ==>
              && |TransformAll(rows, writers, parse).value| == |rows|
              && forall i :: 0 <= i < |rows| ==>
                   TransformAll(rows, writers, parse).value[i] == TransformRow(rows[i], writers, parse).value
  {
    MapAllSuccess(rows, row => TransformRow(row, writers, parse));
  }

  /** Otherwise it stops at the first row whose rating does not parse, with
      that row's error. */
  lemma TransformAllFirstFailure(rows: seq<RawRow>, writers: map<string, WriterRow>, parse: string -> Option<real>)
    requires TransformAll(rows, writers, parse).Failure?
    ensures exists k :: 0 <= k < |rows|
              && TransformRow(rows[k], writers, parse) == Failure(TransformAll(rows, writers, parse).error)
              && forall i :: 0 <= i < k ==> TransformRow(rows[i], writers, parse).Success?
  {
    MapAllFailure(rows, row => TransformRow(row, writers, parse));
  }

  /* ---------------------------------------------------------------------- */
  /* load                                                                   */
  /* ---------------------------------------------------------------------- */

  function ActorJson(a: Actor): Value
  {
    JObj([("id", JStr(a.id)), ("name", JStr(a.name))])
  }

  function WriterJson(w: WriterRow): Value
  {
    JObj([("id", JStr(w.id)), ("name", JStr(w.name))])
  }

  /** The document as the dict `json.dumps` receives, keys in literal order. */
  function DocumentJson(doc: Document): (v: Value)
    ensures Lookup(v, "id") == Some(JStr(doc.id))
  {
    JObj([
      ("id", JStr(doc.id)),
      ("imdb_rating", if doc.imdbRating.Some? then JReal(doc.imdbRating.value) else JNull),
      ("director", if doc.director.Some? then StrList(doc.director.value) else JNull),
      ("genre", StrList(doc.genre)),
      ("title", JStr(doc.title)),
      ("actors", JArr(seq(|doc.actors|, k requires 0 <= k < |doc.actors| => ActorJson(doc.actors[k])))),
      ("actors_names", StrList(doc.actorsNames)),
      ("writers", JArr(seq(|doc.writers|, k requires 0 <= k < |doc.writers| => WriterJson(doc.writers[k])))),
      ("writers_names", StrList(doc.writersNames)),
      ("description", if doc.description.Some? then JStr(doc.description.value) else JNull)
    ])
  }

  /** The id, title and rating of the document dict. */
  lemma DocumentJsonFields(doc: Document)
    ensures var fs := DocumentJson(doc).fields;
            && Get(fs, "id") == Some(JStr(doc.id))
            && Get(fs, "title") == Some(JStr(doc.title))
            && Get(fs, "imdb_rating") == Some(if doc.imdbRating.Some? then JReal(doc.imdbRating.value) else JNull)
  {
    var fs := DocumentJson(doc).fields;
    assert fs[0].0 == "id" && fs[1].0 == "imdb_rating" && fs[4].0 == "title";
    assert "title" != "id" && "title" != "imdb_rating" && "title" != "director" && "title" != "genre";
    assert "imdb_rating" != "id";
    GetAt(fs, 0, "id");
    GetAt(fs, 1, "imdb_rating");
    GetAt(fs, 4, "title");
  }

  function Records(docs: seq<Document>): (records: seq<Value>)
    ensures |records| == |docs|
    ensures forall k :: 0 <= k < |records| ==> EsLoader.HasId(records[k])
  {
    seq(|docs|, k requires 0 <= k < |docs| => DocumentJson(docs[k]))
  }

  /** The payload `ETL.load` sends: two lines per document into the `movies`
      index, the action line keyed by the document's id. */
  lemma MoviesPayloadLines(docs: seq<Document>, dumps: Serializer)
    requires |docs| > 0
    ensures var lines := Split(EsLoader.BulkPayload(Records(docs), MOVIES_INDEX, dumps), '\n');
            && |lines| == 2 * |docs| + 1
            && forall i :: 0 <= i < |docs| ==>
                 lines[2 * i] == dumps(EsLoader.IndexAction(MOVIES_INDEX, JStr(docs[i].id)))
                 && lines[2 * i + 1] == dumps(DocumentJson(docs[i]))
  {
    var records := Records(docs);
    EsLoader.BulkPayloadLines(records, MOVIES_INDEX, dumps);
    assert forall i :: 0 <= i < |docs| ==> records[i] == DocumentJson(docs[i]);
  }

  /** `ETL.load`: hand the documents to the loader for the `movies` index. */
  method Load(docs: seq<Document>, dumps: Serializer, post: string -> EsLoader.BulkResponse)
    returns (failures: seq<EsLoader.LoadFailure>)
    ensures failures == EsLoader.ReportedFailures(post(EsLoader.BulkPayload(Records(docs), MOVIES_INDEX, dumps)))
  {
    failures := EsLoader.Load(Records(docs), MOVIES_INDEX, dumps, post);
  }
}
