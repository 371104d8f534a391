// The gRPC request handlers (pkg/api/grpc/handlers.go): request validation,
// the efSearch default, the Delete and Update decisions, the BatchInsert
// aggregation over a stream, and the conversion of protobuf filters into
// metadata filters. The indexes behind a namespace are parameters: the
// outcome of looking them up and of each index operation is given.
module GrpcHandlers {
  import opened Wrappers
  import opened Strconv
  import opened SearchFilter

  /** The gRPC status codes the handlers return. */
  datatype Code = OK | InvalidArgument | Internal | Unimplemented

  /** Stored metadata: namespace, then vector id, then the request's string map. */
  type Store = map<string, map<nat, map<string, string>>>

  datatype InsertRequest = InsertRequest(namespace: string, vector: seq<real>, metadata: map<string, string>,
                                         text: Option<string>)

  datatype SearchRequest = SearchRequest(namespace: string, queryVector: seq<real>, k: int, efSearch: int)

  datatype HybridSearchRequest = HybridSearchRequest(namespace: string, queryVector: seq<real>, queryText: string,
                                                     k: int, efSearch: int)

  datatype InsertResponse = InsertResponse(id: string, success: bool, error: Option<string>)

  // Validation.

  /** validateInsertRequest: a namespace and a vector are required, checked in that order. */
  function ValidateInsert(req: InsertRequest): (r: Outcome)
    ensures r == Pass <==> req.namespace != "" && |req.vector| > 0
    ensures req.namespace == "" ==> r == Fail("namespace is required")
    ensures req.namespace != "" && |req.vector| == 0 ==> r == Fail("vector is required")
  {
    if req.namespace == "" then Fail("namespace is required")
    else if |req.vector| == 0 then Fail("vector is required")
    else Pass
  }

  /** validateSearchRequest: also a positive k. */
  function ValidateSearch(req: SearchRequest): (r: Outcome)
    ensures r == Pass <==> req.namespace != "" && |req.queryVector| > 0 && req.k > 0
    ensures req.namespace == "" ==> r == Fail("namespace is required")
    ensures req.namespace != "" && |req.queryVector| == 0 ==> r == Fail("query vector is required")
    ensures req.namespace != "" && |req.queryVector| > 0 && req.k <= 0 ==> r == Fail("k must be > 0")
  {
    if req.namespace == "" then Fail("namespace is required")
    else if |req.queryVector| == 0 then Fail("query vector is required")
    else if req.k <= 0 then Fail("k must be > 0")
    else Pass
  }

  /** validateHybridSearchRequest: also a non-empty query text, checked before k. */
  function ValidateHybrid(req: HybridSearchRequest): (r: Outcome)
    ensures r == Pass <==> req.namespace != "" && |req.queryVector| > 0 && req.queryText != "" && req.k > 0
    ensures req.namespace != "" && |req.queryVector| > 0 && req.queryText == "" ==> r == Fail("query text is required")
  {
    if req.namespace == "" then Fail("namespace is required")
    else if |req.queryVector| == 0 then Fail("query vector is required")
    else if req.queryText == "" then Fail("query text is required")
    else if req.k <= 0 then Fail("k must be > 0")
    else Pass
  }

  /** A valid hybrid request is a valid search request with a text, and the two agree on every other failure. */
  lemma HybridExtendsSearch(req: HybridSearchRequest)
    ensures ValidateHybrid(req) == Pass <==>
      ValidateSearch(SearchRequest(req.namespace, req.queryVector, req.k, req.efSearch)) == Pass && req.queryText != ""
    ensures req.queryText != "" ==>
      ValidateHybrid(req) == ValidateSearch(SearchRequest(req.namespace, req.queryVector, req.k, req.efSearch))
  {
  }

  /** The efSearch a search uses: the request's, or the configured default when the request leaves it 0. */
  function EfSearch(requested: int, configured: int): (ef: int)
    ensures requested != 0 ==> ef == requested
    ensures requested == 0 ==> ef == configured
  {
    if requested == 0 then configured else requested
  }

  // Insert: the response, the status and the new metadata store.

  datatype InsertOutcome = InsertOutcome(response: InsertResponse, code: Code, store: Store, textIndexed: Option<string>)

  /**
   * Insert: after validation and the namespace lookup, the index assigns an
   * id; the request's metadata is stored under it, and a non-empty text is
   * sent to the full-text index.
   */
  function Insert(req: InsertRequest, indexes: Outcome, inserted: Result<nat>, store: Store): (r: InsertOutcome)
    ensures r.response.success <==> ValidateInsert(req) == Pass && indexes == Pass && inserted.Ok?
    ensures r.response.success ==>
      r.code == OK && r.response.error == None && r.response.id == NatToString(inserted.value) &&
      req.namespace in r.store && inserted.value in r.store[req.namespace] &&
      r.store[req.namespace][inserted.value] == req.metadata &&
      (r.textIndexed.Some? <==> req.text.Some? && req.text.value != "")
    ensures !r.response.success ==> r.code != OK && r.response.error.Some? && r.store == store && r.textIndexed == None
  {
    var v := ValidateInsert(req);
    if v.Fail? then InsertOutcome(InsertResponse("", false, Some(v.error)), InvalidArgument, store, None)
    else if indexes.Fail? then InsertOutcome(InsertResponse("", false, Some(indexes.error)), Internal, store, None)
    else if inserted.Err? then InsertOutcome(InsertResponse("", false, Some(inserted.error)), Internal, store, None)
    else
      var id := inserted.value;
      var forNamespace := if req.namespace in store then store[req.namespace] else map[];
      var text := if req.text.Some? && req.text.value != "" then req.text else None;
      InsertOutcome(InsertResponse(NatToString(id), true, None), OK, store[req.namespace := forNamespace[id := req.metadata]], text)
  }

  /** A stored id can be read back from the response: its decimal form parses to it. */
  lemma InsertIdParses(req: InsertRequest, indexes: Outcome, inserted: Result<nat>, store: Store)
    requires Insert(req, indexes, inserted, store).response.success && inserted.value <= UINT64_MAX
    ensures ParseUint(Insert(req, indexes, inserted, store).response.id) == Ok(inserted.value)
  {
    ParseUintRoundTrip(inserted.value);
  }

  // Delete.

  datatype Selector = ById(id: string) | ByFilter(filter: ProtoFilter) | NoSelector

  datatype DeleteRequest = DeleteRequest(namespace: string, selector: Selector)

  datatype DeleteResponse = DeleteResponse(deletedCount: int, success: bool, error: Option<string>)

  /** What a delete did: the response, and the id removed from the text index, if any. */
  datatype DeleteOutcome = DeleteOutcome(response: DeleteResponse, code: Code, store: Store, textRemoved: Option<nat>)

  function DeleteFailure(code: Code, message: string, store: Store): DeleteOutcome
  {
    DeleteOutcome(DeleteResponse(0, false, Some(message)), code, store, None)
  }

  /**
   * Delete: by id only. The id must be decimal, the index must delete it,
   * and then it is removed from the text index and its metadata is dropped;
   * a filter selector is not implemented.
   */
  function Delete(req: DeleteRequest, indexes: Outcome, deleted: nat -> Outcome, store: Store): (r: DeleteOutcome)
    ensures r.response.success <==> r.code == OK
    ensures r.response.success <==> r.response.error.None?
    ensures !r.response.success ==> r.store == store && r.response.deletedCount == 0 && r.textRemoved == None
  {
    if req.namespace == "" then DeleteFailure(InvalidArgument, "namespace is required", store)
    else if indexes.Fail? then DeleteFailure(Internal, indexes.error, store)
    else match req.selector
      case ById(text) =>
        var parsed := ParseUint(text);
        if parsed.Err? then DeleteFailure(InvalidArgument, "invalid ID format", store)
        else if deleted(parsed.value).Fail? then DeleteFailure(Internal, deleted(parsed.value).error, store)
        else
          var store' := if req.namespace in store then store[req.namespace := store[req.namespace] - {parsed.value}] else store;
          DeleteOutcome(DeleteResponse(1, true, None), OK, store', Some(parsed.value))
      case ByFilter(_) => DeleteFailure(Unimplemented, "delete by filter not yet implemented", store)
      case NoSelector => DeleteFailure(InvalidArgument, "either id or filter must be specified", store)
  }

  /**
   * Delete succeeds exactly for a decimal id the index deletes, and then
   * reports one deletion, removes that id from the text index and drops
   * exactly that id's metadata; a non-decimal
   * id is an invalid argument, a filter selector unimplemented, and no
   * failure changes the store.
   */
  lemma DeleteOutcomes(req: DeleteRequest, indexes: Outcome, deleted: nat -> Outcome, store: Store)
    ensures var r := Delete(req, indexes, deleted, store);
      r.response.success <==>
        req.namespace != "" && indexes == Pass && req.selector.ById? && ParseUint(req.selector.id).Ok? &&
        deleted(ParseUint(req.selector.id).value) == Pass
    ensures var r := Delete(req, indexes, deleted, store);
      r.response.success ==>
        r.code == OK && r.response.deletedCount == 1 && r.textRemoved == Some(ParseUint(req.selector.id).value) &&
        r.store.Keys == store.Keys &&
        forall ns :: ns in store ==>
          r.store[ns] == if ns == req.namespace then store[ns] - {ParseUint(req.selector.id).value} else store[ns]
    ensures var r := Delete(req, indexes, deleted, store);
      !r.response.success ==> r.response.deletedCount == 0 && r.store == store && r.code != OK && r.textRemoved == None
    ensures req.namespace != "" && indexes == Pass && req.selector.ById? && ParseUint(req.selector.id).Err? ==>
      Delete(req, indexes, deleted, store).code == InvalidArgument
    ensures req.namespace != "" && indexes == Pass && req.selector.ByFilter? ==>
      Delete(req, indexes, deleted, store).code == Unimplemented
  {
  }

  // Update.

  datatype UpdateRequest = UpdateRequest(namespace: string, id: string, vector: seq<real>,
                                         metadata: map<string, string>, text: Option<string>)

  datatype UpdateResponse = UpdateResponse(success: bool, error: Option<string>)

  /** What an update did: the index operations, in order. */
  datatype Effect =
    | VectorUpdated(id: nat, vector: seq<real>)
    | MetadataStored(id: nat, metadata: map<string, string>)
    | TextReindexed(id: nat, text: string, metadata: map<string, string>)

  datatype UpdateOutcome = UpdateOutcome(response: UpdateResponse, code: Code, store: Store, effects: seq<Effect>)

  function UpdateFailure(code: Code, message: string, store: Store): UpdateOutcome
  {
    UpdateOutcome(UpdateResponse(false, Some(message)), code, store, [])
  }

  /** The stored metadata of an id, empty when there is none. */
  function StoredMetadata(store: Store, namespace: string, id: nat): map<string, string>
  {
    if namespace in store && id in store[namespace] then store[namespace][id] else map[]
  }

  /**
   * Update: each part of the request is applied only when given. A
   * non-empty vector is sent to the index (whose refusal ends the update);
   * non-empty metadata replaces the stored map, when the namespace has a
   * store; a non-empty text is reindexed with the metadata stored by then.
   */
  function Update(req: UpdateRequest, indexes: Outcome, updated: (nat, seq<real>) -> Outcome, store: Store): (r: UpdateOutcome)
    ensures r.response.success <==> r.code == OK
    ensures r.response.success <==> r.response.error.None?
    ensures !r.response.success ==> r.store == store && r.effects == []
    ensures r.response.success ==> ParseUint(req.id).Ok? && forall e :: e in r.effects ==> e.id == ParseUint(req.id).value
  {
    if req.namespace == "" || req.id == "" then UpdateFailure(InvalidArgument, "namespace and id are required", store)
    else if indexes.Fail? then UpdateFailure(Internal, indexes.error, store)
    else if ParseUint(req.id).Err? then UpdateFailure(InvalidArgument, "invalid ID format", store)
    else
      var id: nat := ParseUint(req.id).value;
      if |req.vector| > 0 && updated(id, req.vector).Fail? then UpdateFailure(Internal, updated(id, req.vector).error, store)
      else
        var vectorEffect := if |req.vector| > 0 then [VectorUpdated(id, req.vector)] else [];
        var storeMetadata := |req.metadata| > 0 && req.namespace in store;
        var replaced: map<nat, map<string, string>> := if storeMetadata then store[req.namespace][id := req.metadata] else map[];
        var store' := if storeMetadata then store[req.namespace := replaced] else store;
        var metadataEffect := if storeMetadata then [MetadataStored(id, req.metadata)] else [];
        var textEffect :=
          if req.text.Some? && req.text.value != "" then [TextReindexed(id, req.text.value, StoredMetadata(store', req.namespace, id))]
          else [];
        UpdateOutcome(UpdateResponse(true, None), OK, store', vectorEffect + metadataEffect + textEffect)
  }

  /** A successful update sent the vector to the index exactly when it was non-empty. */
  lemma {:induction false} UpdateVectorPresence(req: UpdateRequest, indexes: Outcome, updated: (nat, seq<real>) -> Outcome, store: Store)
    requires Update(req, indexes, updated, store).response.success
    ensures (exists e :: e in Update(req, indexes, updated, store).effects && e.VectorUpdated?) <==> |req.vector| > 0
    ensures |req.vector| > 0 ==>
      VectorUpdated(ParseUint(req.id).value, req.vector) in Update(req, indexes, updated, store).effects
  {
    var r := Update(req, indexes, updated, store);
    if |req.vector| > 0 {
      assert r.effects[0] == VectorUpdated(ParseUint(req.id).value, req.vector);
    }
  }

  /**
   * A successful update stored the metadata exactly when it was non-empty
   * and the namespace had a store; otherwise the stored metadata is as it was.
   */
  lemma {:induction false} UpdateMetadataPresence(req: UpdateRequest, indexes: Outcome, updated: (nat, seq<real>) -> Outcome, store: Store)
    requires Update(req, indexes, updated, store).response.success
    ensures var r := Update(req, indexes, updated, store);
      (exists e :: e in r.effects && e.MetadataStored?) <==> |req.metadata| > 0 && req.namespace in store
    ensures var r := Update(req, indexes, updated, store); var id := ParseUint(req.id).value;
      StoredMetadata(r.store, req.namespace, id) ==
        if |req.metadata| > 0 && req.namespace in store then req.metadata else StoredMetadata(store, req.namespace, id)
    ensures var r := Update(req, indexes, updated, store);
      forall ns :: ns != req.namespace ==> (ns in r.store <==> ns in store) && (ns in store ==> r.store[ns] == store[ns])
  {
    var r := Update(req, indexes, updated, store);
    var id := ParseUint(req.id).value;
    if |req.metadata| > 0 && req.namespace in store {
      var k := if |req.vector| > 0 then 1 else 0;
      assert r.effects[k] == MetadataStored(id, req.metadata);
    }
  }

  /** A successful update reindexed the text exactly when it was present and non-empty, with the metadata stored by then. */
  lemma {:induction false} UpdateTextPresence(req: UpdateRequest, indexes: Outcome, updated: (nat, seq<real>) -> Outcome, store: Store)
    requires Update(req, indexes, updated, store).response.success
    ensures var r := Update(req, indexes, updated, store);
      (exists e :: e in r.effects && e.TextReindexed?) <==> req.text.Some? && req.text.value != ""
    ensures var r := Update(req, indexes, updated, store);
      req.text.Some? && req.text.value != "" ==>
        TextReindexed(ParseUint(req.id).value, req.text.value, StoredMetadata(r.store, req.namespace, ParseUint(req.id).value)) in r.effects
  {
    var r := Update(req, indexes, updated, store);
    if req.text.Some? && req.text.value != "" {
      assert r.effects[|r.effects| - 1].TextReindexed?;
    }
  }

  /** A failed update changes nothing; a refused vector stops the metadata and the text too. */
  lemma UpdateFailureChangesNothing(req: UpdateRequest, indexes: Outcome, updated: (nat, seq<real>) -> Outcome, store: Store)
    ensures !Update(req, indexes, updated, store).response.success ==>
      Update(req, indexes, updated, store).store == store && Update(req, indexes, updated, store).effects == []
    ensures (req.namespace != "" && req.id != "" && indexes == Pass && ParseUint(req.id).Ok? &&
             |req.vector| > 0 && updated(ParseUint(req.id).value, req.vector).Fail?) ==>
      Update(req, indexes, updated, store).code == Internal
  {
  }

  // BatchInsert.

  /** What the stream delivered next: an Insert's response and error, or a receive error. */
  datatype Received = Message(response: InsertResponse, err: Option<string>) | RecvError(error: string)

  datatype BatchInsertResponse = BatchInsertResponse(insertedCount: nat, failedCount: nat, insertedIds: seq<string>,
                                                     errors: seq<string>)

  /** A message failed when Insert returned an error or an unsuccessful response. */
  predicate MessageFailed(response: InsertResponse, err: Option<string>)
  {
    err.Some? || !response.success
  }

  /** The error recorded for a failed message: the response's, then the returned error's, then "unknown error". */
  function ErrorText(response: InsertResponse, err: Option<string>): (s: string)
    ensures response.error.Some? ==> s == response.error.value
    ensures response.error.None? && err.Some? ==> s == err.value
    ensures response.error.None? && err.None? ==> s == "unknown error"
  {
    if response.error.Some? then response.error.value
    else if err.Some? then err.value
    else "unknown error"
  }

  /** The batch response after the messages up to the first receive error. */
  function Tally(stream: seq<Received>): (r: BatchInsertResponse)
    ensures r.insertedCount == |r.insertedIds| && r.failedCount == |r.errors|
    ensures r.insertedCount + r.failedCount <= |stream|
  {
    if stream == [] then BatchInsertResponse(0, 0, [], [])
    else
      var before := Tally(stream[..|stream| - 1]);
      match stream[|stream| - 1]
      case RecvError(_) => before
      case Message(resp, err) =>
        if MessageFailed(resp, err) then before.(failedCount := before.failedCount + 1, errors := before.errors + [ErrorText(resp, err)])
        else before.(insertedCount := before.insertedCount + 1, insertedIds := before.insertedIds + [resp.id])
  }

  /** The number of messages, the ids of the successful ones and the errors of the failed ones, in stream order. */
  function Messages(stream: seq<Received>): nat
  {
    if stream == [] then 0 else Messages(stream[..|stream| - 1]) + (if stream[|stream| - 1].Message? then 1 else 0)
  }

  function SucceededIds(stream: seq<Received>): seq<string>
  {
    if stream == [] then []
    else
      var last := stream[|stream| - 1];
      SucceededIds(stream[..|stream| - 1]) +
        (if last.Message? && !MessageFailed(last.response, last.err) then [last.response.id] else [])
  }

  function FailedErrors(stream: seq<Received>): seq<string>
  {
    if stream == [] then []
    else
      var last := stream[|stream| - 1];
      FailedErrors(stream[..|stream| - 1]) +
        (if last.Message? && MessageFailed(last.response, last.err) then [ErrorText(last.response, last.err)] else [])
  }

  /**
   * Every message is counted exactly once, as inserted or as failed; the
   * inserted ids are those of the successful messages in stream order, and
   * there is one error text per failure, also in order.
   */
  lemma {:induction false} TallyAccounts(stream: seq<Received>)
    requires forall i :: 0 <= i < |stream| ==> stream[i].Message?
    ensures Tally(stream).insertedCount + Tally(stream).failedCount == Messages(stream) == |stream|
    ensures Tally(stream).insertedIds == SucceededIds(stream) && |Tally(stream).insertedIds| == Tally(stream).insertedCount
    ensures Tally(stream).errors == FailedErrors(stream) && |Tally(stream).errors| == Tally(stream).failedCount
  {
    if stream != [] {
      TallyAccounts(stream[..|stream| - 1]);
    }
  }

  /** The index of the first receive error, or the stream's length when there is none. */
  function FirstRecvError(stream: seq<Received>): (i: nat)
    ensures i <= |stream| && (i < |stream| ==> stream[i].RecvError?)
    ensures forall j :: 0 <= j < i ==> stream[j].Message?
  {
    if stream == [] then 0
    else if stream[0].RecvError? then 0
    else 1 + FirstRecvError(stream[1..])
  }

  /**
   * BatchInsert: the messages are tallied until the end of the stream; a
   * receive error ends the call with a stream error and no response.
   */
  method BatchInsert(stream: seq<Received>) returns (r: Result<BatchInsertResponse>)
    ensures var e := FirstRecvError(stream);
      e < |stream| ==> r == Err("stream error: " + stream[e].error)
    ensures FirstRecvError(stream) == |stream| ==> r == Ok(Tally(stream))
  {
    var insertedCount, failedCount := 0, 0;
    var insertedIds: seq<string> := [];
    var errors: seq<string> := [];
    var i := 0;
    while i < |stream|
      invariant i <= FirstRecvError(stream)
      invariant BatchInsertResponse(insertedCount, failedCount, insertedIds, errors) == Tally(stream[..i])
    {
      assert stream[..i + 1][..i] == stream[..i];
      match stream[i]
      case RecvError(e) =>
        return Err("stream error: " + e);
      case Message(resp, err) =>
        if MessageFailed(resp, err) {
          failedCount := failedCount + 1;
          errors := errors + [ErrorText(resp, err)];
        } else {
          insertedCount := insertedCount + 1;
          insertedIds := insertedIds + [resp.id];
        }
      i := i + 1;
    }
    assert stream[..i] == stream;
    r := Ok(BatchInsertResponse(insertedCount, failedCount, insertedIds, errors));
  }

  // Filter conversion.

  /** The protobuf filter: exactly one kind is set, or none. */
  datatype ProtoFilter =
    | PComparison(field: string, operator: string, value: string)
    | PRange(field: string, gte: Option<string>, lte: Option<string>, gt: Option<string>, lt: Option<string>)
    | PList(field: string, operator: string, values: seq<string>)
    | PGeoRadius(field: string, latitude: real, longitude: real, radiusKm: real)
    | PExists(field: string)
    | PComposite(operator: string, filters: seq<ProtoFilter>)
    | PUnset

  /** A comparison value is a float64 when strconv.ParseFloat accepts it, otherwise the string itself. */
  function ComparisonValue(text: string, parseFloat: string -> Option<real>): (v: Value)
    ensures parseFloat(text).Some? ==> v == FloatV(parseFloat(text).value)
    ensures parseFloat(text).None? ==> v == StrV(text)
  {
    if parseFloat(text).Some? then FloatV(parseFloat(text).value) else StrV(text)
  }

  /** protoComparisonToFilter: the six comparison operators by name. */
  function ComparisonToFilter(field: string, operator: string, text: string, parseFloat: string -> Option<real>): (r: Result<Filter>)
    ensures r.Ok? <==> operator in {"eq", "ne", "gt", "lt", "gte", "lte"}
    ensures r.Err? ==> r.error == "unknown comparison operator: " + operator
    ensures operator == "eq" ==> r == Ok(EqFilter(field, ComparisonValue(text, parseFloat)))
    ensures operator == "ne" ==> r == Ok(NeFilter(field, ComparisonValue(text, parseFloat)))
    ensures operator == "gt" ==> r == Ok(GtFilter(field, ComparisonValue(text, parseFloat)))
    ensures operator == "lt" ==> r == Ok(LtFilter(field, ComparisonValue(text, parseFloat)))
    ensures operator == "gte" ==> r == Ok(GteFilter(field, ComparisonValue(text, parseFloat)))
    ensures operator == "lte" ==> r == Ok(LteFilter(field, ComparisonValue(text, parseFloat)))
  {
    var v := ComparisonValue(text, parseFloat);
    if operator == "eq" then Ok(EqFilter(field, v))
    else if operator == "ne" then Ok(NeFilter(field, v))
    else if operator == "gt" then Ok(GtFilter(field, v))
    else if operator == "lt" then Ok(LtFilter(field, v))
    else if operator == "gte" then Ok(GteFilter(field, v))
    else if operator == "lte" then Ok(LteFilter(field, v))
    else Err("unknown comparison operator: " + operator)
  }

  /** One bound of a range: a condition when the bound is given and parses as a number, none otherwise. */
  function Bound(field: string, op: Operator, bound: Option<string>, parseFloat: string -> Option<real>): seq<Filter>
  {
    if bound.Some? && parseFloat(bound.value).Some? then [Comparison(field, op, FloatV(parseFloat(bound.value).value))] else []
  }

  /** The conditions of a range filter, in the order gte, lte, gt, lt. */
  function RangeConditions(field: string, gte: Option<string>, lte: Option<string>, gt: Option<string>, lt: Option<string>,
                           parseFloat: string -> Option<real>): seq<Filter>
  {
    Bound(field, Gte, gte, parseFloat) + Bound(field, Lte, lte, parseFloat) +
    Bound(field, Gt, gt, parseFloat) + Bound(field, Lt, lt, parseFloat)
  }

  /** protoRangeToFilter: no condition is an error, one is returned alone, more are combined with And. */
  function RangeToFilter(conditions: seq<Filter>): (r: Result<Filter>)
    ensures |conditions| == 0 <==> r == Err("range filter has no conditions")
    ensures |conditions| == 1 ==> r == Ok(conditions[0])
    ensures |conditions| >= 2 ==> r == Ok(AndFilter(conditions))
    ensures r.Ok? ==> forall eq, md :: MatchWith(eq, r.value, md) <==>
      forall i :: 0 <= i < |conditions| ==> MatchWith(eq, conditions[i], md)
  {
    if |conditions| == 0 then Err("range filter has no conditions")
    else if |conditions| == 1 then Ok(conditions[0])
    else Ok(AndFilter(conditions))
  }

  /** Every filter of the list matches. */
  predicate AllMatch(eq: Equality, filters: seq<Filter>, md: Metadata)
  {
    forall i :: 0 <= i < |filters| ==> MatchWith(eq, filters[i], md)
  }

  lemma {:induction false} AllMatchConcat(eq: Equality, a: seq<Filter>, b: seq<Filter>, md: Metadata)
    ensures AllMatch(eq, a + b, md) <==> AllMatch(eq, a, md) && AllMatch(eq, b, md)
  {
    assert forall i :: 0 <= i < |a| ==> (a + b)[i] == a[i];
    assert forall i :: 0 <= i < |b| ==> (a + b)[|a| + i] == b[i];
  }

  /** Whether a bound is given and parses. */
  predicate Parses(bound: Option<string>, parseFloat: string -> Option<real>)
  {
    bound.Some? && parseFloat(bound.value).Some?
  }

  lemma BoundMeaning(eq: Equality, field: string, op: Operator, bound: Option<string>, parseFloat: string -> Option<real>, md: Metadata)
    ensures AllMatch(eq, Bound(field, op, bound, parseFloat), md) <==>
      (Parses(bound, parseFloat) ==> field in md && MatchComparison(eq, op, md[field], FloatV(parseFloat(bound.value).value)))
  {
    if Parses(bound, parseFloat) {
      var f := Comparison(field, op, FloatV(parseFloat(bound.value).value));
      assert Bound(field, op, bound, parseFloat) == [f];
      assert [f][0] == f;
    }
  }

  /** A range converts to a filter exactly when some given bound parses, and then it matches a present field within every parsed bound. */
  lemma RangeMeaning(eq: Equality, field: string, gte: Option<string>, lte: Option<string>, gt: Option<string>, lt: Option<string>,
                     parseFloat: string -> Option<real>, md: Metadata)
    ensures var r := RangeToFilter(RangeConditions(field, gte, lte, gt, lt, parseFloat));
      r.Ok? <==> Parses(gte, parseFloat) || Parses(lte, parseFloat) || Parses(gt, parseFloat) || Parses(lt, parseFloat)
    ensures var r := RangeToFilter(RangeConditions(field, gte, lte, gt, lt, parseFloat));
      r.Ok? ==> (MatchWith(eq, r.value, md) <==>
        field in md &&
        (Parses(gte, parseFloat) ==> Compare(md[field], FloatV(parseFloat(gte.value).value)) >= 0) &&
        (Parses(lte, parseFloat) ==> Compare(md[field], FloatV(parseFloat(lte.value).value)) <= 0) &&
        (Parses(gt, parseFloat) ==> Compare(md[field], FloatV(parseFloat(gt.value).value)) > 0) &&
        (Parses(lt, parseFloat) ==> Compare(md[field], FloatV(parseFloat(lt.value).value)) < 0))
  {
    var a := Bound(field, Gte, gte, parseFloat);
    var b := Bound(field, Lte, lte, parseFloat);
    var c := Bound(field, Gt, gt, parseFloat);
    var d := Bound(field, Lt, lt, parseFloat);
    BoundMeaning(eq, field, Gte, gte, parseFloat, md);
    BoundMeaning(eq, field, Lte, lte, parseFloat, md);
    BoundMeaning(eq, field, Gt, gt, parseFloat, md);
    BoundMeaning(eq, field, Lt, lt, parseFloat, md);
    AllMatchConcat(eq, a, b, md);
    AllMatchConcat(eq, a + b, c, md);
    AllMatchConcat(eq, a + b + c, d, md);
  }

  /**
   * protoListToFilter as written: the values are passed to In and NotIn as
   * one argument, so the filter's list holds a single value, the list
   * itself. No string value equals it; under the as-written equality the
   * int 0 and the float 0 do, since a slice's numeric value is 0 there.
   */
  function ListToFilterAsWritten(field: string, operator: string, values: seq<string>): (r: Result<Filter>)
    ensures r.Ok? <==> operator == "in" || operator == "not_in"
  {
    var boxed := OpaqueV(|values|);
    if operator == "in" then Ok(InFilter(field, [boxed]))
    else if operator == "not_in" then Ok(NotInFilter(field, [boxed]))
    else Err("unknown list operator: " + operator)
  }

  /**
   * As written, "in" never matches a string field, even one equal to a
   * listed value, and "not_in" always matches, under either equality.
   */
  lemma ListAsWrittenNeverMatches(eq: Equality, field: string, values: seq<string>, md: Metadata)
    requires field in md && md[field].StrV?
    ensures !MatchWith(eq, ListToFilterAsWritten(field, "in", values).value, md)
    ensures MatchWith(eq, ListToFilterAsWritten(field, "not_in", values).value, md)
  {
  }

  /** The concrete case: "color" in ["red"] misses a "red" color as written, and matches it once the list is spread. */
  lemma ListAsWrittenCounterexample()
    ensures !MatchAsWritten(ListToFilterAsWritten("color", "in", ["red"]).value, map["color" := StrV("red")])
    ensures MatchAsWritten(ListToFilter("color", "in", ["red"]).value, map["color" := StrV("red")])
    ensures Match(ListToFilter("color", "in", ["red"]).value, map["color" := StrV("red")])
  {
    assert Equals(StrV("red"), Strings(["red"])[0]);
    assert EqualsAsWritten(StrV("red"), Strings(["red"])[0]);
  }

  /** The values as strings, as the protobuf gives them. */
  function Strings(values: seq<string>): (r: seq<Value>)
    ensures |r| == |values| && forall i :: 0 <= i < |r| ==> r[i] == StrV(values[i])
  {
    if values == [] then [] else [StrV(values[0])] + Strings(values[1..])
  }

  /**
   * Under filter.go's equals, a value is listed among strings when it is one
   * of them, or when it is the int or float zero and the list is not empty
   * (toFloat64 reads every string as 0).
   */
  predicate ListedAsWritten(x: Value, values: seq<string>)
  {
    x in Strings(values) || (values != [] && (x == IntV(0) || x == FloatV(0.0)))
  }

  /**
   * protoListToFilter as intended: each value is an element of the list. With
   * the corrected equality "in" is plain membership; with equals as written
   * an int or float zero field is also "in" every non-empty list.
   */
  function ListToFilter(field: string, operator: string, values: seq<string>): (r: Result<Filter>)
    ensures r.Ok? <==> operator == "in" || operator == "not_in"
    ensures r.Err? ==> r.error == "unknown list operator: " + operator
    ensures operator == "in" ==> forall md :: Match(r.value, md) <==> field in md && md[field] in Strings(values)
    ensures operator == "not_in" ==> forall md :: Match(r.value, md) <==> field !in md || md[field] !in Strings(values)
    ensures operator == "in" ==>
      forall md :: MatchAsWritten(r.value, md) <==> field in md && ListedAsWritten(md[field], values)
    ensures operator == "not_in" ==>
      forall md :: MatchAsWritten(r.value, md) <==> field !in md || !ListedAsWritten(md[field], values)
  {
    var vs := Strings(values);
    ListMembership(field, vs);
    ListMembershipAsWritten(values);
    if operator == "in" then Ok(InFilter(field, vs))
    else if operator == "not_in" then Ok(NotInFilter(field, vs))
    else Err("unknown list operator: " + operator)
  }

  /** Some value of `vs` equals `x` under the equality as written. */
  predicate EqualsSomeAsWritten(x: Value, vs: seq<Value>)
  {
    exists i :: 0 <= i < |vs| && ValueEq(AsWritten, x, vs[i])
  }

  /** Against a list of strings, equals as written is ListedAsWritten. */
  lemma ListMembershipAsWritten(values: seq<string>)
    ensures forall x :: EqualsSomeAsWritten(x, Strings(values)) <==> ListedAsWritten(x, values)
  {
    forall x ensures EqualsSomeAsWritten(x, Strings(values)) <==> ListedAsWritten(x, values) {
      ListedAsWrittenAt(x, values);
    }
  }

  lemma ListedAsWrittenAt(x: Value, values: seq<string>)
    ensures EqualsSomeAsWritten(x, Strings(values)) <==> ListedAsWritten(x, values)
  {
    if ListedAsWritten(x, values) {
      ListedWitness(x, values);
    }
    if EqualsSomeAsWritten(x, Strings(values)) {
      var i :| 0 <= i < |Strings(values)| && ValueEq(AsWritten, x, Strings(values)[i]);
      EqualsListed(x, values, i);
    }
  }

  lemma ListedWitness(x: Value, values: seq<string>)
    requires ListedAsWritten(x, values)
    ensures EqualsSomeAsWritten(x, Strings(values))
  {
    var vs := Strings(values);
    var i := if x in vs then var j :| 0 <= j < |vs| && vs[j] == x; j else 0;
    EqualsString(x, values[i]);
    assert ValueEq(AsWritten, x, vs[i]);
  }

  lemma EqualsListed(x: Value, values: seq<string>, i: nat)
    requires i < |Strings(values)| && ValueEq(AsWritten, x, Strings(values)[i])
    ensures ListedAsWritten(x, values)
  {
    EqualsString(x, values[i]);
    if x == Strings(values)[i] {
      assert x in Strings(values);
    }
  }

  /** Equals as written against a string: the string itself, or an int or float zero. */
  lemma EqualsString(x: Value, s: string)
    ensures EqualsAsWritten(x, StrV(s)) <==> x == StrV(s) || x == IntV(0) || x == FloatV(0.0)
  {
    assert ToFloat(StrV(s)) == 0.0 && Trunc(0.0) == 0;
  }

  /** Against a list of strings, Equals is membership. */
  lemma ListMembership(field: string, vs: seq<Value>)
    requires forall i :: 0 <= i < |vs| ==> vs[i].StrV?
    ensures forall md: Metadata :: field in md ==> ((exists i :: 0 <= i < |vs| && Equals(md[field], vs[i])) <==> md[field] in vs)
  {
    forall md: Metadata | field in md
      ensures (exists i :: 0 <= i < |vs| && Equals(md[field], vs[i])) <==> md[field] in vs
    {
      if md[field] in vs {
        var i :| 0 <= i < |vs| && vs[i] == md[field];
        assert Equals(md[field], vs[i]);
      }
    }
  }

  /**
   * How a list filter's values reach In and NotIn: `Boxed` as the source
   * passes them, the whole slice as one element (ListToFilterAsWritten), or
   * `Spread` one element per value, as evidently intended (ListToFilter).
   */
  datatype ListConversion = Boxed | Spread

  function ListConverted(lists: ListConversion, field: string, operator: string, values: seq<string>): (r: Result<Filter>)
    ensures r.Ok? <==> operator == "in" || operator == "not_in"
  {
    if lists.Boxed? then ListToFilterAsWritten(field, operator, values) else ListToFilter(field, operator, values)
  }

  /**
   * protoFilterToFilter: each proto kind converts to its filter; an unset
   * kind is an error. The source converts lists with `Boxed`.
   */
  function ToFilter(pf: ProtoFilter, parseFloat: string -> Option<real>, lists: ListConversion): (r: Result<Filter>)
    ensures pf.PUnset? ==> r == Err("unknown filter type")
    ensures pf.PComparison? ==> r == ComparisonToFilter(pf.field, pf.operator, pf.value, parseFloat)
    ensures pf.PRange? ==> r == RangeToFilter(RangeConditions(pf.field, pf.gte, pf.lte, pf.gt, pf.lt, parseFloat))
    ensures pf.PList? && lists.Boxed? ==> r == ListToFilterAsWritten(pf.field, pf.operator, pf.values)
    ensures pf.PList? && lists.Spread? ==> r == ListToFilter(pf.field, pf.operator, pf.values)
    ensures pf.PExists? ==> r.Ok? && forall eq, md :: MatchWith(eq, r.value, md) <==> pf.field in md
    ensures pf.PGeoRadius? ==> r.Ok? && forall eq, md :: !MatchWith(eq, r.value, md)
    decreases pf, 1
  {
    match pf
    case PComparison(field, operator, value) => ComparisonToFilter(field, operator, value, parseFloat)
    case PRange(field, gte, lte, gt, lt) => RangeToFilter(RangeConditions(field, gte, lte, gt, lt, parseFloat))
    case PList(field, operator, values) => ListConverted(lists, field, operator, values)
    case PGeoRadius(field, lat, lon, radius) => Ok(GeoRadiusFilter(field, lat, lon, radius))
    case PExists(field) => Ok(ExistsFilter(field))
    case PComposite(operator, filters) =>
      var children := ToFilters(pf, filters, parseFloat, lists);
      if children.Err? then Err(children.error)
      else if operator == "and" then Ok(AndFilter(children.value))
      else if operator == "or" then Ok(OrFilter(children.value))
      else if operator == "not" then
        if |children.value| != 1 then Err("NOT filter requires exactly one sub-filter")
        else Ok(NotFilter(children.value[0]))
      else Err("unknown composite operator: " + operator)
    case PUnset => Err("unknown filter type")
  }

  /** The children of a composite, converted in order; the first failure is the composite's. */
  function ToFilters(parent: ProtoFilter, filters: seq<ProtoFilter>, parseFloat: string -> Option<real>, lists: ListConversion): (r: Result<seq<Filter>>)
    requires forall i :: 0 <= i < |filters| ==> filters[i] < parent
    ensures r.Ok? ==> |r.value| == |filters| && forall i :: 0 <= i < |filters| ==> ToFilter(filters[i], parseFloat, lists) == Ok(r.value[i])
    ensures r.Err? <==> exists i :: 0 <= i < |filters| && ToFilter(filters[i], parseFloat, lists).Err?
    decreases parent, 0, |filters|
  {
    if filters == [] then Ok([])
    else
      var first := ToFilter(filters[0], parseFloat, lists);
      if first.Err? then Err(first.error)
      else
        assert forall i :: 0 <= i < |filters[1..]| ==> filters[1..][i] == filters[i + 1];
        var rest := ToFilters(parent, filters[1..], parseFloat, lists);
        if rest.Err? then
          var i :| 0 <= i < |filters[1..]| && ToFilter(filters[1..][i], parseFloat, lists).Err?;
          assert ToFilter(filters[i + 1], parseFloat, lists).Err?;
          Err(rest.error)
        else
          assert forall i :: 1 <= i < |filters| ==> filters[i] == filters[1..][i - 1];
          Ok([first.value] + rest.value)
  }

  /**
   * A composite converts exactly when every child converts and its operator
   * is "and", "or", or "not" over exactly one child; the converted filter
   * then means the conjunction, the disjunction or the negation.
   */
  lemma {:induction false} CompositeMeaning(operator: string, filters: seq<ProtoFilter>, parseFloat: string -> Option<real>,
                                            lists: ListConversion)
    ensures var r := ToFilter(PComposite(operator, filters), parseFloat, lists);
      r.Ok? <==>
        (forall i :: 0 <= i < |filters| ==> ToFilter(filters[i], parseFloat, lists).Ok?) &&
        (operator == "and" || operator == "or" || (operator == "not" && |filters| == 1))
    ensures var r := ToFilter(PComposite(operator, filters), parseFloat, lists);
      r.Ok? && operator == "not" ==>
        forall eq, md :: MatchWith(eq, r.value, md) <==> !MatchWith(eq, ToFilter(filters[0], parseFloat, lists).value, md)
    ensures var r := ToFilter(PComposite(operator, filters), parseFloat, lists);
      r.Ok? && operator == "and" ==>
        forall eq, md :: MatchWith(eq, r.value, md) <==>
          forall i :: 0 <= i < |filters| ==> MatchWith(eq, ToFilter(filters[i], parseFloat, lists).value, md)
    ensures var r := ToFilter(PComposite(operator, filters), parseFloat, lists);
      r.Ok? && operator == "or" ==>
        forall eq, md :: MatchWith(eq, r.value, md) <==>
          exists i :: 0 <= i < |filters| && MatchWith(eq, ToFilter(filters[i], parseFloat, lists).value, md)
    ensures var r := ToFilter(PComposite(operator, filters), parseFloat, lists);
      (forall i :: 0 <= i < |filters| ==> ToFilter(filters[i], parseFloat, lists).Ok?) && operator == "not" && |filters| != 1 ==>
        r == Err("NOT filter requires exactly one sub-filter")
  {
    var pf := PComposite(operator, filters);
    var children := ToFilters(pf, filters, parseFloat, lists);
    if children.Ok? {
      assert forall i :: 0 <= i < |filters| ==> ToFilter(filters[i], parseFloat, lists).value == children.value[i];
    }
  }

  /**
   * The source's conversion of "color" in ["red"] misses a red colour under
   * either equality; with the values spread it matches.
   */
  lemma ToFilterListCounterexample(parseFloat: string -> Option<real>)
    ensures var md := map["color" := StrV("red")];
      forall eq :: !MatchWith(eq, ToFilter(PList("color", "in", ["red"]), parseFloat, Boxed).value, md)
    ensures MatchWith(Intended, ToFilter(PList("color", "in", ["red"]), parseFloat, Spread).value, map["color" := StrV("red")])
  {
    var md := map["color" := StrV("red")];
    forall eq
      ensures !MatchWith(eq, ToFilter(PList("color", "in", ["red"]), parseFloat, Boxed).value, md)
    {
      ListAsWrittenNeverMatches(eq, "color", ["red"], md);
    }
    assert Strings(["red"])[0] == StrV("red");
  }
}
