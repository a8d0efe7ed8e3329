/**
 * The checks the route handlers run on a parsed JSON request body before
 * they touch the store: presence of required fields, in a fixed order, and
 * the copy of whitelisted fields into an update.
 */
module Requests {
  import opened Wrappers

  /** A parsed request body: field name to (string) value. */
  type Body = map<string, string>

  /** `req.body[field]`, which is undefined when the field is absent. */
  function Lookup(body: Body, field: string): Option<string> {
    if field in body then Some(body[field]) else None
  }

  /**
   * `req.body[field]` where the handler has already checked that the field is
   * present; the `""` for an absent field is never reached.
   */
  function Field(body: Body, field: string): string {
    if field in body then body[field] else ""
  }

  /**
   * The position of the first field of `required` absent from `body`, or
   * `|required|` when all are present.
   */
  function FirstMissingIndex(body: Body, required: seq<string>): (k: nat)
    ensures k <= |required|
    ensures forall i :: 0 <= i < k ==> required[i] in body
    ensures k < |required| ==> required[k] !in body
  {
    if required == [] then 0
    else if required[0] !in body then 0
    else 1 + FirstMissingIndex(body, required[1..])
  }

  /** The first required field absent from the body, if any. */
  function FirstMissing(body: Body, required: seq<string>): (r: Option<string>)
    ensures r.None? <==> forall f :: f in required ==> f in body
  {
    var k := FirstMissingIndex(body, required);
    if k < |required| then Some(required[k]) else None
  }

  /**
   * The loop over `requiredFields` with its early return: yields the first
   * field, in list order, that the body lacks.
   */
  method CheckRequired(body: Body, required: seq<string>) returns (missing: Option<string>)
    ensures missing == FirstMissing(body, required)
    ensures missing.None? <==> forall i :: 0 <= i < |required| ==> required[i] in body
    ensures missing.Some? ==> missing.value !in body && missing.value in required
  {
    for i := 0 to |required|
      invariant forall j :: 0 <= j < i ==> required[j] in body
    {
      if required[i] !in body {
        assert FirstMissingIndex(body, required) == i;
        return Some(required[i]);
      }
    }
    assert FirstMissingIndex(body, required) == |required|;
    return None;
  }

  /** The fields of `fields` that the body carries, with the body's values. */
  function Pick(body: Body, fields: seq<string>): (updated: map<string, string>)
    ensures forall f :: f in updated <==> f in fields && f in body
    ensures forall f :: f in updated ==> updated[f] == body[f]
  {
    map f | f in fields && f in body :: body[f]
  }

  /**
   * The `forEach` over `updateableFields` that fills `updated` in place:
   * the result is exactly the whitelisted part of the body.
   */
  method CopyUpdateable(body: Body, fields: seq<string>) returns (updated: map<string, string>)
    ensures updated == Pick(body, fields)
  {
    updated := map[];
    for i := 0 to |fields|
      invariant updated == Pick(body, fields[..i])
    {
      var field := fields[i];
      assert fields[..i + 1] == fields[..i] + [field];
      if field in body {
        updated := updated[field := body[field]];
      }
    }
    assert fields[..|fields|] == fields;
  }

  /** Fields outside the whitelist have no influence on the copied update. */
  lemma PickIgnoresOtherFields(body: Body, extra: Body, fields: seq<string>)
    requires forall f :: f in extra ==> f !in fields
    ensures Pick(body + extra, fields) == Pick(body, fields)
  {
  }

  /** `req.params.id && req.body.id && req.params.id === req.body.id`. */
  predicate IdsMatch(pathId: string, body: Body) {
    pathId != "" && "id" in body && body["id"] != "" && pathId == body["id"]
  }
}
