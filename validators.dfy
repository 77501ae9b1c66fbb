/**
  02-flask-api/app/validators.py: the declared constraints of
  `SearchMoviesValidator`, with their defaults, and the flattening of a
  field-to-errors map done by `ValidationErrorResponse`.
*/
module Validators {

  /** The values of the `Sort` enum, in declaration order. */
  const SORT_CHOICES: seq<string> := ["id", "title", "imdb_rating"]

  /** The values of the `SortOrder` enum. */
  const SORT_ORDER_CHOICES: seq<string> := ["asc", "desc"]

  /** The query parameters of a movie search. */
  datatype SearchParams = SearchParams(limit: int, page: int, sort: string, sortOrder: string, search: string)

  /** The field defaults: limit 50, page 1, sort by id ascending, no search term. */
  const DEFAULTS := SearchParams(50, 1, "id", "asc", "")

  /** The declared constraints: `NumberRange(min=0)` on limit, `NumberRange(min=1)`
      on page, and the two `SelectField` choice lists. */
  predicate Valid(p: SearchParams)
  {
    && p.limit >= 0
    && p.page >= 1
    && p.sort in SORT_CHOICES
    && p.sortOrder in SORT_ORDER_CHOICES
  }

  /** The fields whose declared constraint fails, in declaration order. */
  function InvalidFields(p: SearchParams): (fields: seq<string>)
    ensures fields == [] <==> Valid(p)
    ensures forall k :: 0 <= k < |fields| ==> fields[k] in ["limit", "page", "sort", "sort_order"]
  {
    (if p.limit < 0 then ["limit"] else [])
    + (if p.page < 1 then ["page"] else [])
    + (if p.sort !in SORT_CHOICES then ["sort"] else [])
    + (if p.sortOrder !in SORT_ORDER_CHOICES then ["sort_order"] else [])
  }

  lemma DefaultsValid()
    ensures Valid(DEFAULTS)
  {
  }

  /** `{"loc": ["query", field_name], "msg": err}`. */
  datatype ErrorDetail = ErrorDetail(loc: seq<string>, msg: string)

  /** The entries of one field, one per error, in error order. */
  function FieldEntries(field: string, errors: seq<string>): seq<ErrorDetail>
  {
    seq(|errors|, k requires 0 <= k < |errors| => ErrorDetail(["query", field], errors[k]))
  }

  /** The entries of all fields, field after field. The map is an ordered
      list of (field, errors) pairs, as dict iteration order is insertion order. */
  function Flatten(validationErrors: seq<(string, seq<string>)>): seq<ErrorDetail>
  {
    if validationErrors == [] then []
    else
      var last := validationErrors[|validationErrors| - 1];
      Flatten(validationErrors[..|validationErrors| - 1]) + FieldEntries(last.0, last.1)
  }

  /** The number of (field, error) pairs. */
  function TotalErrors(validationErrors: seq<(string, seq<string>)>): nat
  {
    if validationErrors == [] then 0
    else
      TotalErrors(validationErrors[..|validationErrors| - 1])
        + |validationErrors[|validationErrors| - 1].1|
  }

  /** One entry per (field, error) pair; none for an empty map. */
  lemma {:induction false} FlattenLength(validationErrors: seq<(string, seq<string>)>)
    ensures |Flatten(validationErrors)| == TotalErrors(validationErrors)
  {
    if validationErrors != [] {
      FlattenLength(validationErrors[..|validationErrors| - 1]);
    }
  }

  lemma {:induction false} TotalErrorsPrefix(validationErrors: seq<(string, seq<string>)>, i: nat)
    requires i <= |validationErrors|
    ensures TotalErrors(validationErrors[..i]) <= TotalErrors(validationErrors)
    ensures i < |validationErrors| ==>
              TotalErrors(validationErrors[..i]) + |validationErrors[i].1| <= TotalErrors(validationErrors)
  {
    var n := |validationErrors|;
    if i < n {
      var init := validationErrors[..n - 1];
      assert validationErrors[..n] == validationErrors;
      if i < n - 1 {
        TotalErrorsPrefix(init, i);
        assert init[..i] == validationErrors[..i];
        assert init[i] == validationErrors[i];
        TotalErrorsPrefix(init, i + 1);
        assert init[..i + 1] == validationErrors[..i + 1];
        assert validationErrors[..i + 1][..i] == validationErrors[..i];
      } else {
        assert init == validationErrors[..i];
      }
    } else {
      assert validationErrors[..i] == validationErrors;
    }
  }

  /** The j-th error of the i-th field sits after all errors of the earlier
      fields and the j earlier errors of its own field, with location
      `["query", field]` and that error as message. */
  lemma {:induction false} FlattenAt(validationErrors: seq<(string, seq<string>)>, i: nat, j: nat)
    requires i < |validationErrors| && j < |validationErrors[i].1|
    ensures TotalErrors(validationErrors[..i]) + j < |Flatten(validationErrors)|
    ensures Flatten(validationErrors)[TotalErrors(validationErrors[..i]) + j]
            == ErrorDetail(["query", validationErrors[i].0], validationErrors[i].1[j])
  {
    var n := |validationErrors|;
    var init := validationErrors[..n - 1];
    FlattenLength(validationErrors);
    TotalErrorsPrefix(validationErrors, i);
    FlattenLength(init);
    if i < n - 1 {
      assert init[..i] == validationErrors[..i];
      assert init[i] == validationErrors[i];
      FlattenAt(init, i, j);
    } else {
      assert init == validationErrors[..i];
    }
  }

  class ValidationErrorResponse {
    var detail: seq<ErrorDetail>

    constructor (validationErrors: seq<(string, seq<string>)>)
      ensures detail == Flatten(validationErrors)
    {
      detail := [];
      new;
      var i := 0;
      while i < |validationErrors|
        invariant 0 <= i <= |validationErrors|
        invariant detail == Flatten(validationErrors[..i])
      {
        var fieldName := validationErrors[i].0;
        var fieldErrors := validationErrors[i].1;
        var j := 0;
        while j < |fieldErrors|
          invariant 0 <= j <= |fieldErrors|
          invariant detail == Flatten(validationErrors[..i]) + FieldEntries(fieldName, fieldErrors[..j])
        {
          detail := detail + [ErrorDetail(["query", fieldName], fieldErrors[j])];
          j := j + 1;
        }
        assert fieldErrors[..j] == fieldErrors;
        assert validationErrors[..i + 1][..i] == validationErrors[..i];
        i := i + 1;
      }
      assert validationErrors[..i] == validationErrors;
    }
  }
}
