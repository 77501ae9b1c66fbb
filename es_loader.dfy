/**
  The ESLoader of 01-etl/etl.py: builds the newline-delimited `_bulk`
  payload for a list of records and reads the per-item failures out of the
  bulk response. The HTTP session and the POST itself are a parameter.
*/
module EsLoader {
  import opened Json
  import opened Text

  /** A record can be indexed when it has an `id` key (`record['id']`). */
  predicate HasId(record: Value)
  {
    Lookup(record, "id").Some?
  }

  /** `{'index': {'_index': index, '_id': id}}`, the action line's value. */
  function IndexAction(index: string, id: Value): Value
  {
    JObj([("index", JObj([("_index", JStr(index)), ("_id", id)]))])
  }

  /** The list `query` that the loop of `_prepare_bulk_query` builds. */
  function BulkLines(records: seq<Value>, index: string, dumps: Serializer): (lines: seq<string>)
    requires forall k :: 0 <= k < |records| ==> HasId(records[k])
  {
    if records == [] then []
    else
      var last := records[|records| - 1];
      assert HasId(records[|records| - 1]);
      BulkLines(records[..|records| - 1], index, dumps)
        + [dumps(IndexAction(index, Lookup(last, "id").value)), dumps(last)]
  }

  /** `'\n'.join(query) + '\n'`. */
  function BulkPayload(records: seq<Value>, index: string, dumps: Serializer): string
    requires forall k :: 0 <= k < |records| ==> HasId(records[k])
  {
    Join(BulkLines(records, index, dumps), '\n') + "\n"
  }

  /** Two lines per record: the index action naming the record's id, then the record. */
  lemma {:induction false} BulkLinesAt(records: seq<Value>, index: string, dumps: Serializer)
    requires forall k :: 0 <= k < |records| ==> HasId(records[k])
    ensures |BulkLines(records, index, dumps)| == 2 * |records|
    ensures forall i :: 0 <= i < |records| ==>
              BulkLines(records, index, dumps)[2 * i] == dumps(IndexAction(index, Lookup(records[i], "id").value))
              && BulkLines(records, index, dumps)[2 * i + 1] == dumps(records[i])
    ensures forall k :: 0 <= k < |BulkLines(records, index, dumps)| ==> '\n' !in BulkLines(records, index, dumps)[k]
  {
    if records != [] {
      var init := records[..|records| - 1];
      BulkLinesAt(init, index, dumps);
      forall i | 0 <= i < |init| ensures init[i] == records[i] { }
    }
  }

  method PrepareBulkQuery(records: seq<Value>, index: string, dumps: Serializer) returns (payload: string)
    requires forall k :: 0 <= k < |records| ==> HasId(records[k])
    ensures payload == BulkPayload(records, index, dumps)
  {
    var query: seq<string> := [];
    var i := 0;
    while i < |records|
      invariant 0 <= i <= |records|
      invariant query == BulkLines(records[..i], index, dumps)
    {
      var record := records[i];
      query := query + [dumps(IndexAction(index, Lookup(record, "id").value)), dumps(record)];
      assert records[..i + 1][..i] == records[..i];
      i := i + 1;
    }
    assert records[..i] == records;
    payload := Join(query, '\n') + "\n";
  }

  /** For one record or more, the payload is exactly 2n newline-terminated
      lines: line 2i is record i's index action and line 2i+1 is record i. */
  lemma BulkPayloadLines(records: seq<Value>, index: string, dumps: Serializer)
    requires |records| > 0
    requires forall k :: 0 <= k < |records| ==> HasId(records[k])
    ensures var lines := Split(BulkPayload(records, index, dumps), '\n');
            && |lines| == 2 * |records| + 1
            && lines[2 * |records|] == ""
            && (forall i :: 0 <= i < |records| ==>
                  lines[2 * i] == dumps(IndexAction(index, Lookup(records[i], "id").value))
                  && lines[2 * i + 1] == dumps(records[i]))
  {
    var lines := BulkLines(records, index, dumps);
    BulkLinesAt(records, index, dumps);
    SplitJoinThen(lines, "", '\n');
    assert Join(lines, '\n') + "\n" == Join(lines, '\n') + ['\n'] + "";
  }

  /** An empty batch still yields one (blank) line. */
  lemma EmptyBulkPayload(index: string, dumps: Serializer)
    ensures BulkPayload([], index, dumps) == "\n"
  {
  }

  /** One entry of the bulk response's `items`: its `_id` and `item.get('error')`
      (`JNull` when the key is absent). */
  datatype BulkItem = BulkItem(id: string, error: Value)

  /** The decoded bulk response: the top-level `errors` flag and `items`. */
  datatype BulkResponse = BulkResponse(errors: bool, items: seq<BulkItem>)

  /** A failure that `load` reports: the row id and the error it carries. */
  datatype LoadFailure = LoadFailure(id: string, error: Value)

  /** The items whose `error` is truthy, in item order. */
  function FailedItems(items: seq<BulkItem>): seq<LoadFailure>
  {
    if items == [] then []
    else
      var last := items[|items| - 1];
      FailedItems(items[..|items| - 1])
        + (if Truthy(last.error) then [LoadFailure(last.id, last.error)] else [])
  }

  /** What `load` reports for a response: nothing unless `errors` is set. */
  function ReportedFailures(response: BulkResponse): seq<LoadFailure>
  {
    if response.errors then FailedItems(response.items) else []
  }

  /** A reported failure is exactly an item with a truthy error. */
  lemma {:induction false} FailedItemsExactly(items: seq<BulkItem>, f: LoadFailure)
    ensures f in FailedItems(items) <==>
            exists k :: 0 <= k < |items| && items[k] == BulkItem(f.id, f.error) && Truthy(f.error)
  {
    if items != [] {
      var init := items[..|items| - 1];
      FailedItemsExactly(init, f);
      assert items == init + [items[|items| - 1]];
      if f in FailedItems(items) && f !in FailedItems(init) {
        assert items[|items| - 1] == BulkItem(f.id, f.error);
      }
      if f !in FailedItems(items) {
        forall k | 0 <= k < |items| && items[k] == BulkItem(f.id, f.error)
          ensures !Truthy(f.error)
        {
          if k < |init| { assert init[k] == items[k]; }
        }
      }
    }
  }

  /** Failures keep item order: the failures of a concatenation are the
      failures of its parts, one after the other. */
  lemma {:induction false} FailedItemsAppend(a: seq<BulkItem>, b: seq<BulkItem>)
    ensures FailedItems(a + b) == FailedItems(a) + FailedItems(b)
  {
    if b != [] {
      var b' := b[..|b| - 1];
      FailedItemsAppend(a, b');
      assert (a + b)[..|a + b| - 1] == a + b';
    } else {
      assert a + b == a;
    }
  }

  /** The response-handling loop of `load`. */
  method ReportFailures(response: BulkResponse) returns (failures: seq<LoadFailure>)
    ensures failures == ReportedFailures(response)
  {
    failures := [];
    if response.errors {
      var items := response.items;
      var i := 0;
      while i < |items|
        invariant 0 <= i <= |items|
        invariant failures == FailedItems(items[..i])
      {
        var item := items[i];
        if Truthy(item.error) {
          failures := failures + [LoadFailure(item.id, item.error)];
        }
        assert items[..i + 1][..i] == items[..i];
        i := i + 1;
      }
      assert items[..i] == items;
    }
  }

  /** `load`: post the payload (`post` stands for the HTTP round trip) and
      report the failed items of the response. */
  method Load(records: seq<Value>, index: string, dumps: Serializer, post: string -> BulkResponse)
    returns (failures: seq<LoadFailure>)
    requires forall k :: 0 <= k < |records| ==> HasId(records[k])
    ensures failures == ReportedFailures(post(BulkPayload(records, index, dumps)))
  {
    var query := PrepareBulkQuery(records, index, dumps);
    var response := post(query);
    failures := ReportFailures(response);
  }
}
