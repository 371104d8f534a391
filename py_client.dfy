// The Python client (clients/python/vector_db/client.py): each call builds a
// protobuf request from its arguments, sends it through the stub and turns the
// response into a Python value or raises. The stub is a parameter: a function
// from request to either a response or the `grpc.RpcError` it raises, which
// the client lets through unchanged. A raised exception is an `Err` with its
// message.
module PyClient {
  import opened Wrappers

  // The request and response messages, by the fields the client sets or reads.

  datatype InsertRequest = InsertRequest(namespace: string, vector: seq<real>, metadata: map<string, string>,
                                         text: Option<string>, id: Option<string>)

  datatype InsertResponse = InsertResponse(id: string, success: bool, error: string)

  datatype SearchRequest = SearchRequest(namespace: string, queryVector: seq<real>, k: int, efSearch: int,
                                         distanceMetric: string)

  datatype HybridSearchConfig = HybridSearchConfig(fusionMethod: string, vectorWeight: real, textWeight: real, rrfK: int)

  datatype HybridSearchRequest = HybridSearchRequest(namespace: string, queryVector: seq<real>, queryText: string,
                                                     k: int, efSearch: int, config: HybridSearchConfig)

  /** A result as the server sends it; unset fields read as their empty defaults. */
  datatype ProtoResult = ProtoResult(id: string, distance: real, vector: seq<real>, metadata: map<string, string>,
                                     text: string, vectorScore: real, textScore: real)

  datatype SearchResponse = SearchResponse(results: seq<ProtoResult>, error: string)

  /** The client's SearchResult dataclass: empty parts become None. */
  datatype SearchResult = SearchResult(id: string, distance: real, vector: Option<seq<real>>,
                                       metadata: Option<map<string, string>>, text: Option<string>,
                                       vectorScore: Option<real>, textScore: Option<real>)

  datatype UpdateRequest = UpdateRequest(namespace: string, id: string, vector: seq<real>, metadata: map<string, string>,
                                         text: Option<string>)

  datatype UpdateResponse = UpdateResponse(success: bool, error: string)

  datatype DeleteRequest = DeleteRequest(namespace: string, id: string)

  datatype DeleteResponse = DeleteResponse(deletedCount: int, success: bool, error: string)

  datatype BatchInsertResponse = BatchInsertResponse(insertedCount: int, failedCount: int, insertedIds: seq<string>,
                                                     errors: seq<string>, totalTimeMs: real)

  /** The dictionary batch_insert returns. */
  datatype BatchSummary = BatchSummary(insertedCount: int, failedCount: int, insertedIds: seq<string>, errors: seq<string>,
                                       totalTimeMs: real)

  /** The metadata filter argument of search; its contents do not matter, since it is never sent. */
  type FilterDict = map<string, string>

  // Defaults of the keyword arguments.

  const DefaultK := 10
  const DefaultEfSearch := 50
  const DefaultDistanceMetric := "cosine"
  const DefaultFusionMethod := "rrf"
  const DefaultVectorWeight := 0.7
  const DefaultTextWeight := 0.3
  const RrfK := 60

  function OrDefault<T>(given: Option<T>, default: T): T
  {
    if given.Some? then given.value else default
  }

  // insert.

  /** The request insert sends: missing metadata becomes an empty map; text and id pass through as given. */
  function InsertRequestOf(namespace: string, vector: seq<real>, metadata: Option<map<string, string>>,
                           text: Option<string>, id: Option<string>): (r: InsertRequest)
    ensures r.namespace == namespace && r.vector == vector && r.text == text && r.id == id
    ensures r.metadata == if metadata.Some? then metadata.value else map[]
  {
    InsertRequest(namespace, vector, OrDefault(metadata, map[]), text, id)
  }

  /** insert: the new id, or an exception carrying the server's error, or the stub's own exception. */
  function Insert(stub: InsertRequest -> Result<InsertResponse>, namespace: string, vector: seq<real>,
                  metadata: Option<map<string, string>>, text: Option<string>, id: Option<string>): (r: Result<string>)
    ensures var call := stub(InsertRequestOf(namespace, vector, metadata, text, id));
      call.Err? ==> r == Err(call.error)
    ensures var call := stub(InsertRequestOf(namespace, vector, metadata, text, id));
      call.Ok? ==>
        (r.Ok? <==> call.value.success) &&
        (r.Ok? ==> r.value == call.value.id) &&
        (r.Err? ==> r.error == "Insert failed: " + call.value.error)
  {
    match stub(InsertRequestOf(namespace, vector, metadata, text, id))
    case Err(e) => Err(e)
    case Ok(response) =>
      if !response.success then Err("Insert failed: " + response.error) else Ok(response.id)
  }

  // search.

  /**
   * The request search sends: k 10, ef_search 50 and the cosine metric
   * unless given. There is no filter field: the filter argument is dropped.
   */
  function SearchRequestOf(namespace: string, queryVector: seq<real>, k: Option<int>, efSearch: Option<int>,
                           filter: Option<FilterDict>, distanceMetric: Option<string>): (r: SearchRequest)
    ensures r.namespace == namespace && r.queryVector == queryVector
    ensures r.k == OrDefault(k, DefaultK) && r.efSearch == OrDefault(efSearch, DefaultEfSearch)
    ensures r.distanceMetric == OrDefault(distanceMetric, DefaultDistanceMetric)
  {
    SearchRequest(namespace, queryVector, OrDefault(k, DefaultK), OrDefault(efSearch, DefaultEfSearch),
                  OrDefault(distanceMetric, DefaultDistanceMetric))
  }

  /** The filter never reaches the server: any two filters give the same request. */
  lemma FilterNeverSent(namespace: string, queryVector: seq<real>, k: Option<int>, efSearch: Option<int>,
                        f: Option<FilterDict>, g: Option<FilterDict>, distanceMetric: Option<string>)
    ensures SearchRequestOf(namespace, queryVector, k, efSearch, f, distanceMetric) ==
            SearchRequestOf(namespace, queryVector, k, efSearch, g, distanceMetric)
    ensures SearchRequestOf(namespace, queryVector, None, None, f, None) ==
            SearchRequest(namespace, queryVector, 10, 50, "cosine")
  {
  }

  /** A result of search: an empty vector, metadata or text becomes None, and there are no scores. */
  function ToResult(r: ProtoResult): (s: SearchResult)
    ensures s.id == r.id && s.distance == r.distance
    ensures s.vector == (if r.vector == [] then None else Some(r.vector))
    ensures s.metadata == (if r.metadata == map[] then None else Some(r.metadata))
    ensures s.text == (if r.text == "" then None else Some(r.text))
    ensures s.vectorScore == None && s.textScore == None
  {
    SearchResult(r.id, r.distance, if |r.vector| > 0 then Some(r.vector) else None,
                 if |r.metadata| > 0 then Some(r.metadata) else None, if |r.text| > 0 then Some(r.text) else None, None, None)
  }

  /** A result of hybrid_search: the same, with both scores as the server sent them. */
  function ToHybridResult(r: ProtoResult): (s: SearchResult)
    ensures s == ToResult(r).(vectorScore := Some(r.vectorScore), textScore := Some(r.textScore))
  {
    ToResult(r).(vectorScore := Some(r.vectorScore), textScore := Some(r.textScore))
  }

  /** The results as a list, in the server's order, or an exception when the response carries an error. */
  function Results(response: SearchResponse, what: string, hybrid: bool): (r: Result<seq<SearchResult>>)
    ensures r.Err? <==> response.error != ""
    ensures r.Err? ==> r.error == what + " failed: " + response.error
    ensures r.Ok? ==> |r.value| == |response.results|
    ensures r.Ok? ==> forall i :: 0 <= i < |r.value| ==>
      r.value[i] == (if hybrid then ToHybridResult(response.results[i]) else ToResult(response.results[i]))
  {
    if response.error != "" then Err(what + " failed: " + response.error)
    else Ok(seq(|response.results|, i requires 0 <= i < |response.results| =>
              if hybrid then ToHybridResult(response.results[i]) else ToResult(response.results[i])))
  }

  /** search: the stub's exception passes through; a response becomes its results or the "Search failed" exception. */
  function Search(stub: SearchRequest -> Result<SearchResponse>, namespace: string, queryVector: seq<real>, k: Option<int>,
                  efSearch: Option<int>, filter: Option<FilterDict>, distanceMetric: Option<string>): (r: Result<seq<SearchResult>>)
    ensures var call := stub(SearchRequestOf(namespace, queryVector, k, efSearch, filter, distanceMetric));
      (call.Err? ==> r == Err(call.error)) && (call.Ok? ==> r == Results(call.value, "Search", false))
  {
    match stub(SearchRequestOf(namespace, queryVector, k, efSearch, filter, distanceMetric))
    case Err(e) => Err(e)
    case Ok(response) => Results(response, "Search", false)
  }

  /** Every result keeps its id and distance, and the ids come in the server's order. */
  lemma SearchKeepsOrder(stub: SearchRequest -> Result<SearchResponse>, namespace: string, queryVector: seq<real>,
                         k: Option<int>, efSearch: Option<int>, filter: Option<FilterDict>, distanceMetric: Option<string>)
    ensures var call := stub(SearchRequestOf(namespace, queryVector, k, efSearch, filter, distanceMetric));
      var r := Search(stub, namespace, queryVector, k, efSearch, filter, distanceMetric);
      r.Ok? ==> call.Ok? && |r.value| == |call.value.results| && forall i :: 0 <= i < |r.value| ==>
        r.value[i].id == call.value.results[i].id && r.value[i].distance == call.value.results[i].distance
  {
  }

  // hybrid_search.

  /** The request hybrid_search sends: the fusion method and both weights as given (defaults "rrf", 0.7, 0.3), k of RRF fixed at 60. */
  function HybridRequestOf(namespace: string, queryVector: seq<real>, queryText: string, k: Option<int>,
                           efSearch: Option<int>, fusionMethod: Option<string>, vectorWeight: Option<real>,
                           textWeight: Option<real>): (r: HybridSearchRequest)
    ensures r.config.rrfK == 60
    ensures r.config.fusionMethod == OrDefault(fusionMethod, DefaultFusionMethod)
    ensures r.config.vectorWeight == OrDefault(vectorWeight, DefaultVectorWeight)
    ensures r.config.textWeight == OrDefault(textWeight, DefaultTextWeight)
    ensures r.namespace == namespace && r.queryVector == queryVector && r.queryText == queryText
    ensures r.k == OrDefault(k, DefaultK) && r.efSearch == OrDefault(efSearch, DefaultEfSearch)
  {
    var config := HybridSearchConfig(OrDefault(fusionMethod, DefaultFusionMethod), OrDefault(vectorWeight, DefaultVectorWeight),
                                     OrDefault(textWeight, DefaultTextWeight), RrfK);
    HybridSearchRequest(namespace, queryVector, queryText, OrDefault(k, DefaultK), OrDefault(efSearch, DefaultEfSearch), config)
  }

  /** hybrid_search: as search, with hybrid results and the "Hybrid search failed" exception. */
  function HybridSearch(stub: HybridSearchRequest -> Result<SearchResponse>, namespace: string, queryVector: seq<real>,
                        queryText: string, k: Option<int>, efSearch: Option<int>, fusionMethod: Option<string>,
                        vectorWeight: Option<real>, textWeight: Option<real>): (r: Result<seq<SearchResult>>)
    ensures var call := stub(HybridRequestOf(namespace, queryVector, queryText, k, efSearch, fusionMethod, vectorWeight, textWeight));
      (call.Err? ==> r == Err(call.error)) && (call.Ok? ==> r == Results(call.value, "Hybrid search", true))
  {
    match stub(HybridRequestOf(namespace, queryVector, queryText, k, efSearch, fusionMethod, vectorWeight, textWeight))
    case Err(e) => Err(e)
    case Ok(response) => Results(response, "Hybrid search", true)
  }

  /** Hybrid results carry both scores: a score of 0 from the server is kept, not dropped. */
  lemma HybridScoresKept(stub: HybridSearchRequest -> Result<SearchResponse>, namespace: string, queryVector: seq<real>,
                         queryText: string, k: Option<int>, efSearch: Option<int>, fusionMethod: Option<string>,
                         vectorWeight: Option<real>, textWeight: Option<real>)
    ensures var call := stub(HybridRequestOf(namespace, queryVector, queryText, k, efSearch, fusionMethod, vectorWeight, textWeight));
      var r := HybridSearch(stub, namespace, queryVector, queryText, k, efSearch, fusionMethod, vectorWeight, textWeight);
      r.Ok? ==> call.Ok? && |r.value| == |call.value.results| && forall i :: 0 <= i < |r.value| ==>
        r.value[i].vectorScore == Some(call.value.results[i].vectorScore) &&
        r.value[i].textScore == Some(call.value.results[i].textScore)
  {
  }

  // batch_insert.

  /** The requests batch_insert streams: one per (vector, metadata) pair, in order, all in the given namespace. */
  function BatchRequests(namespace: string, vectors: seq<(seq<real>, map<string, string>)>): (r: seq<InsertRequest>)
    ensures |r| == |vectors|
    ensures forall i :: 0 <= i < |r| ==> r[i] == InsertRequest(namespace, vectors[i].0, vectors[i].1, None, None)
  {
    if vectors == [] then []
    else [InsertRequest(namespace, vectors[0].0, vectors[0].1, None, None)] + BatchRequests(namespace, vectors[1..])
  }

  /** batch_insert: the server's counts, ids, errors and time, as a dictionary, or the stub's exception. */
  function BatchInsert(stub: seq<InsertRequest> -> Result<BatchInsertResponse>, namespace: string,
                       vectors: seq<(seq<real>, map<string, string>)>): (r: Result<BatchSummary>)
    ensures var call := stub(BatchRequests(namespace, vectors));
      call.Err? ==> r == Err(call.error)
    ensures var call := stub(BatchRequests(namespace, vectors));
      call.Ok? ==>
        r.Ok? &&
        r.value.insertedCount == call.value.insertedCount && r.value.failedCount == call.value.failedCount &&
        r.value.insertedIds == call.value.insertedIds && r.value.errors == call.value.errors &&
        r.value.totalTimeMs == call.value.totalTimeMs
  {
    match stub(BatchRequests(namespace, vectors))
    case Err(e) => Err(e)
    case Ok(response) =>
      Ok(BatchSummary(response.insertedCount, response.failedCount, response.insertedIds, response.errors, response.totalTimeMs))
  }

  /** The vectors of the streamed requests are the input vectors in order. */
  lemma {:induction false} BatchRequestsVectors(namespace: string, vectors: seq<(seq<real>, map<string, string>)>)
    ensures forall i :: 0 <= i < |vectors| ==> BatchRequests(namespace, vectors)[i].vector == vectors[i].0
    ensures forall r :: r in BatchRequests(namespace, vectors) ==> r.namespace == namespace && r.text == None && r.id == None
  {
    var rs := BatchRequests(namespace, vectors);
    forall r | r in rs
      ensures r.namespace == namespace && r.text == None && r.id == None
    {
      var i :| 0 <= i < |rs| && rs[i] == r;
    }
  }

  // update and delete.

  /** The request update sends: a missing vector becomes empty and missing metadata an empty map, so the server keeps both. */
  function UpdateRequestOf(namespace: string, id: string, vector: Option<seq<real>>, metadata: Option<map<string, string>>,
                           text: Option<string>): (r: UpdateRequest)
    ensures r.vector == (if vector.Some? then vector.value else [])
    ensures r.metadata == (if metadata.Some? then metadata.value else map[])
    ensures r.namespace == namespace && r.id == id && r.text == text
  {
    UpdateRequest(namespace, id, OrDefault(vector, []), OrDefault(metadata, map[]), text)
  }

  /** update: true on success, otherwise an exception with the server's error, or the stub's own exception. */
  function Update(stub: UpdateRequest -> Result<UpdateResponse>, namespace: string, id: string, vector: Option<seq<real>>,
                  metadata: Option<map<string, string>>, text: Option<string>): (r: Result<bool>)
    ensures var call := stub(UpdateRequestOf(namespace, id, vector, metadata, text));
      call.Err? ==> r == Err(call.error)
    ensures var call := stub(UpdateRequestOf(namespace, id, vector, metadata, text));
      call.Ok? ==> (r == Ok(true) <==> call.value.success) && (r.Err? ==> r.error == "Update failed: " + call.value.error)
  {
    match stub(UpdateRequestOf(namespace, id, vector, metadata, text))
    case Err(e) => Err(e)
    case Ok(response) => if !response.success then Err("Update failed: " + response.error) else Ok(true)
  }

  /** delete: the server's deleted count on success, otherwise an exception with its error, or the stub's own exception. */
  function Delete(stub: DeleteRequest -> Result<DeleteResponse>, namespace: string, id: string): (r: Result<int>)
    ensures var call := stub(DeleteRequest(namespace, id));
      call.Err? ==> r == Err(call.error)
    ensures var call := stub(DeleteRequest(namespace, id));
      call.Ok? ==>
        (r.Ok? <==> call.value.success) && (r.Ok? ==> r.value == call.value.deletedCount) &&
        (r.Err? ==> r.error == "Delete failed: " + call.value.error)
  {
    match stub(DeleteRequest(namespace, id))
    case Err(e) => Err(e)
    case Ok(response) => if !response.success then Err("Delete failed: " + response.error) else Ok(response.deletedCount)
  }

  // The channel.

  datatype Channel = Insecure(address: string) | Secure(address: string, certFile: Option<string>)

  /** The client and its channel; `close` (and leaving a `with` block) closes it. */
  class VectorDBClient {
    const address: string
    const channel: Channel
    var closed: bool

    /** A TLS client uses a secure channel, with the certificate file when one is given; otherwise an insecure one. */
    constructor (address: string, useTls: bool, certFile: Option<string>)
      ensures this.address == address && !closed
      ensures channel == if useTls then Secure(address, if certFile.Some? && certFile.value != "" then certFile else None)
                         else Insecure(address)
    {
      this.address := address;
      channel := if useTls then Secure(address, if certFile.Some? && certFile.value != "" then certFile else None)
                 else Insecure(address);
      closed := false;
    }

    method Close()
      modifies this
      ensures closed
    {
      closed := true;
    }

    /** __exit__ closes the channel whatever happened in the block. */
    method Exit()
      modifies this
      ensures closed
    {
      Close();
    }
  }
}
