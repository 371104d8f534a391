// The REST gateway (pkg/api/rest/handlers.go): each HTTP handler checks the
// method, builds a gRPC request (from the JSON body or the URL path), calls
// the gRPC service and turns its answer into an HTTP status and body. The
// decoded body and the outcome of the gRPC call are parameters.
module RestHandlers {
  import opened Wrappers
  import opened Strconv
  import GrpcHandlers

  const StatusOK := 200
  const StatusCreated := 201
  const StatusBadRequest := 400
  const StatusMethodNotAllowed := 405
  const StatusInternalServerError := 500

  const MethodNotAllowed := "Method not allowed"
  const BadPath := "Invalid URL format, expected /v1/vectors/{namespace}/{id}"

  /** What a handler writes: a JSON payload with a status, or writeError's {"error", "status"} object. */
  datatype Reply<T> = Json(status: int, payload: T) | ErrorReply(message: string, status: int)

  // Path handling.

  /** strings.TrimPrefix. */
  function TrimPrefix(s: string, prefix: string): (r: string)
    ensures prefix <= s ==> prefix + r == s
    ensures !(prefix <= s) ==> r == s
  {
    if prefix <= s then s[|prefix|..] else s
  }

  /** The position of the first `c` in `s`, or |s| when there is none. */
  function IndexOf(s: string, c: char): (i: nat)
    ensures i <= |s| && (i < |s| ==> s[i] == c) && forall j :: 0 <= j < i ==> s[j] != c
  {
    if s == [] then 0 else if s[0] == c then 0 else 1 + IndexOf(s[1..], c)
  }

  /** strings.SplitN(s, "/", 2): the whole string when it has no "/", else the text around the first one. */
  function SplitOnce(s: string): (parts: seq<string>)
    ensures |parts| == 1 || |parts| == 2
    ensures |parts| == 1 <==> '/' !in s
    ensures |parts| == 1 ==> parts[0] == s
    ensures |parts| == 2 ==> parts[0] + "/" + parts[1] == s && '/' !in parts[0]
  {
    var i := IndexOf(s, '/');
    if i == |s| then [s] else [s[..i], s[i + 1..]]
  }

  /** GetStats: the namespace is the path after "/v1/stats" and one "/"; an empty one means all namespaces. */
  function StatsNamespace(path: string): (r: Option<string>)
    ensures r.Some? ==> r.value != ""
    ensures path == "/v1/stats" ==> r == None
    ensures "/v1/stats/" <= path ==> r == (if |path| == 10 then None else Some(path[10..]))
    ensures "/v1/stats" <= path && |path| > 9 && path[9] != '/' ==> r == Some(path[9..])
  {
    var namespace := TrimPrefix(TrimPrefix(path, "/v1/stats"), "/");
    if namespace == "" then None else Some(namespace)
  }

  /** The stats paths: the bare path and a trailing "/" ask for all namespaces, and "/v1/stats/<ns>" for `ns`. */
  lemma StatsPaths(namespace: string)
    ensures StatsNamespace("/v1/stats") == None && StatsNamespace("/v1/stats/") == None
    ensures namespace != "" ==> StatsNamespace("/v1/stats/" + namespace) == Some(namespace)
  {
    assert TrimPrefix("/v1/stats", "/v1/stats") == "";
    assert TrimPrefix("/v1/stats/", "/v1/stats") == "/";
    var path := "/v1/stats/" + namespace;
    assert path == "/v1/stats" + ("/" + namespace);
    assert TrimPrefix(path, "/v1/stats") == "/" + namespace;
  }

  /** The namespace and id of "/v1/vectors/{namespace}/{id}": the text before and after the first "/" past the prefix. */
  function VectorTarget(path: string): (r: Result<(string, string)>)
    ensures r.Err? <==> '/' !in TrimPrefix(path, "/v1/vectors/")
    ensures r.Err? ==> r.error == BadPath
  {
    var parts := SplitOnce(TrimPrefix(path, "/v1/vectors/"));
    if |parts| != 2 then Err(BadPath) else Ok((parts[0], parts[1]))
  }

  /** A path built from a namespace without "/" and any id gives them back. */
  lemma VectorTargetRoundTrip(namespace: string, id: string)
    requires '/' !in namespace
    ensures VectorTarget("/v1/vectors/" + namespace + "/" + id) == Ok((namespace, id))
  {
    var rest := namespace + "/" + id;
    var path := "/v1/vectors/" + namespace + "/" + id;
    assert path == "/v1/vectors/" + rest;
    assert TrimPrefix(path, "/v1/vectors/") == rest;
    var i := IndexOf(rest, '/');
    assert rest[|namespace|] == '/';
    assert i == |namespace| by {
      assert forall j :: 0 <= j < |namespace| ==> rest[j] == namespace[j];
    }
    assert rest[..i] == namespace && rest[i + 1..] == id;
  }

  // Replies.

  /** The reply to a call whose response carries a success flag: a transport error, then an unsuccessful response, each a 500. */
  function CheckedReply<T>(call: Result<T>, success: T -> bool, error: T -> Option<string>, what: string, created: bool): (r: Reply<T>)
    ensures call.Err? ==> r == ErrorReply(what + " failed: " + call.error, StatusInternalServerError)
    ensures call.Ok? && !success(call.value) ==>
      r == ErrorReply(if error(call.value).Some? then error(call.value).value else what + " failed", StatusInternalServerError)
    ensures call.Ok? && success(call.value) ==> r == Json(if created then StatusCreated else StatusOK, call.value)
  {
    if call.Err? then ErrorReply(what + " failed: " + call.error, StatusInternalServerError)
    else if !success(call.value) then
      ErrorReply(if error(call.value).Some? then error(call.value).value else what + " failed", StatusInternalServerError)
    else Json(if created then StatusCreated else StatusOK, call.value)
  }

  /** Insert (POST /v1/vectors): 201 with the response on success. */
  function Insert(verb: string, body: Result<GrpcHandlers.InsertRequest>,
                  call: GrpcHandlers.InsertRequest -> Result<GrpcHandlers.InsertResponse>): (r: Reply<GrpcHandlers.InsertResponse>)
    ensures verb != "POST" ==> r == ErrorReply(MethodNotAllowed, StatusMethodNotAllowed)
    ensures verb == "POST" && body.Err? ==> r == ErrorReply("Invalid request body: " + body.error, StatusBadRequest)
    ensures r.Json? <==> verb == "POST" && body.Ok? && call(body.value).Ok? && call(body.value).value.success
    ensures r.Json? ==> r == Json(StatusCreated, call(body.value).value)
  {
    if verb != "POST" then ErrorReply(MethodNotAllowed, StatusMethodNotAllowed)
    else if body.Err? then ErrorReply("Invalid request body: " + body.error, StatusBadRequest)
    else CheckedReply(call(body.value), (r: GrpcHandlers.InsertResponse) => r.success, (r: GrpcHandlers.InsertResponse) => r.error, "Insert", true)
  }

  /**
   * Insert replies 201 exactly when the call succeeds with a successful
   * response; an unsuccessful one gives its error, or "Insert failed" when
   * it has none.
   */
  lemma InsertReplies(verb: string, body: Result<GrpcHandlers.InsertRequest>,
                      call: GrpcHandlers.InsertRequest -> Result<GrpcHandlers.InsertResponse>)
    ensures Insert(verb, body, call).Json? <==> verb == "POST" && body.Ok? && call(body.value).Ok? && call(body.value).value.success
    ensures Insert(verb, body, call).Json? ==> Insert(verb, body, call).status == StatusCreated
    ensures verb == "POST" && body.Ok? && call(body.value).Ok? && !call(body.value).value.success ==>
      Insert(verb, body, call) ==
        ErrorReply(if call(body.value).value.error.Some? then call(body.value).value.error.value else "Insert failed",
                   StatusInternalServerError)
  {
  }

  /** Search and HybridSearch: a response with a non-empty error is a 500 carrying it, otherwise 200. */
  function SearchReply(call: Result<Option<string>>, what: string): (r: Reply<Option<string>>)
    ensures r.Json? <==> call.Ok? && (call.value.None? || call.value.value == "")
    ensures r.Json? ==> r.status == StatusOK
  {
    if call.Err? then ErrorReply(what + " failed: " + call.error, StatusInternalServerError)
    else if call.value.Some? && call.value.value != "" then ErrorReply(call.value.value, StatusInternalServerError)
    else Json(StatusOK, call.value)
  }

  /**
   * Delete: DELETE takes the namespace and id from the path, POST the whole
   * request from the body; any other verb is refused.
   */
  function DeleteRequest(verb: string, path: string, body: Result<GrpcHandlers.DeleteRequest>): (r: Result<GrpcHandlers.DeleteRequest>)
    ensures verb == "DELETE" ==>
      (r.Ok? <==> VectorTarget(path).Ok?) &&
      (r.Ok? ==> r.value == GrpcHandlers.DeleteRequest(VectorTarget(path).value.0, GrpcHandlers.ById(VectorTarget(path).value.1)))
    ensures verb == "POST" ==> r == (if body.Err? then Err("Invalid request body: " + body.error) else body)
    ensures verb != "DELETE" && verb != "POST" ==> r == Err(MethodNotAllowed)
  {
    if verb == "DELETE" then
      var target := VectorTarget(path);
      if target.Err? then Err(target.error)
      else Ok(GrpcHandlers.DeleteRequest(target.value.0, GrpcHandlers.ById(target.value.1)))
    else if verb == "POST" then
      if body.Err? then Err("Invalid request body: " + body.error) else body
    else Err(MethodNotAllowed)
  }

  function Delete(verb: string, path: string, body: Result<GrpcHandlers.DeleteRequest>,
                  call: GrpcHandlers.DeleteRequest -> Result<GrpcHandlers.DeleteResponse>): (r: Reply<GrpcHandlers.DeleteResponse>)
    ensures verb != "DELETE" && verb != "POST" ==> r == ErrorReply(MethodNotAllowed, StatusMethodNotAllowed)
    ensures verb == "DELETE" && VectorTarget(path).Err? ==> r == ErrorReply(BadPath, StatusBadRequest)
    ensures verb == "POST" && body.Err? ==> r == ErrorReply("Invalid request body: " + body.error, StatusBadRequest)
    ensures var req := DeleteRequest(verb, path, body);
      r.Json? <==> req.Ok? && call(req.value).Ok? && call(req.value).value.success
    ensures var req := DeleteRequest(verb, path, body);
      r.Json? ==> req.Ok? && r == Json(StatusOK, call(req.value).value)
  {
    var req := DeleteRequest(verb, path, body);
    if req.Err? then
      ErrorReply(req.error, if req.error == MethodNotAllowed then StatusMethodNotAllowed else StatusBadRequest)
    else CheckedReply(call(req.value), (r: GrpcHandlers.DeleteResponse) => r.success, (r: GrpcHandlers.DeleteResponse) => r.error, "Delete", false)
  }

  /** DELETE /v1/vectors/{namespace}/{id} sends exactly that namespace and id. */
  lemma DeleteByPath(namespace: string, id: string, body: Result<GrpcHandlers.DeleteRequest>)
    requires '/' !in namespace
    ensures DeleteRequest("DELETE", "/v1/vectors/" + namespace + "/" + id, body) ==
      Ok(GrpcHandlers.DeleteRequest(namespace, GrpcHandlers.ById(id)))
  {
    VectorTargetRoundTrip(namespace, id);
  }

  /** A DELETE path with no "/" after "/v1/vectors/" is a 400 and the service is not called. */
  lemma DeleteShortPath(target: string, body: Result<GrpcHandlers.DeleteRequest>,
                        call: GrpcHandlers.DeleteRequest -> Result<GrpcHandlers.DeleteResponse>)
    requires '/' !in target
    ensures Delete("DELETE", "/v1/vectors/" + target, body, call) == ErrorReply(BadPath, StatusBadRequest)
  {
    var path := "/v1/vectors/" + target;
    assert TrimPrefix(path, "/v1/vectors/") == target;
    assert VectorTarget(path) == Err(BadPath);
  }

  /**
   * Update (PUT or PATCH /v1/vectors/{namespace}/{id}): the path is checked
   * before the body, and the path's namespace and id replace the body's.
   */
  function UpdateRequest(verb: string, path: string, body: Result<GrpcHandlers.UpdateRequest>): (r: Result<GrpcHandlers.UpdateRequest>)
    ensures r.Ok? <==> (verb == "PUT" || verb == "PATCH") && VectorTarget(path).Ok? && body.Ok?
    ensures r.Ok? ==> r.value == body.value.(namespace := VectorTarget(path).value.0, id := VectorTarget(path).value.1)
    ensures verb != "PUT" && verb != "PATCH" ==> r == Err(MethodNotAllowed)
    ensures (verb == "PUT" || verb == "PATCH") && VectorTarget(path).Err? ==> r == Err(BadPath)
  {
    if verb != "PUT" && verb != "PATCH" then Err(MethodNotAllowed)
    else
      var target := VectorTarget(path);
      if target.Err? then Err(target.error)
      else if body.Err? then Err("Invalid request body: " + body.error)
      else Ok(body.value.(namespace := target.value.0, id := target.value.1))
  }

  function Update(verb: string, path: string, body: Result<GrpcHandlers.UpdateRequest>,
                  call: GrpcHandlers.UpdateRequest -> Result<GrpcHandlers.UpdateResponse>): (r: Reply<GrpcHandlers.UpdateResponse>)
    ensures verb != "PUT" && verb != "PATCH" ==> r == ErrorReply(MethodNotAllowed, StatusMethodNotAllowed)
    ensures (verb == "PUT" || verb == "PATCH") && VectorTarget(path).Err? ==> r == ErrorReply(BadPath, StatusBadRequest)
    ensures (verb == "PUT" || verb == "PATCH") && VectorTarget(path).Ok? && body.Err? ==>
      r == ErrorReply("Invalid request body: " + body.error, StatusBadRequest)
    ensures var req := UpdateRequest(verb, path, body);
      r.Json? <==> req.Ok? && call(req.value).Ok? && call(req.value).value.success
    ensures var req := UpdateRequest(verb, path, body);
      r.Json? ==> req.Ok? && r == Json(StatusOK, call(req.value).value)
  {
    var req := UpdateRequest(verb, path, body);
    if req.Err? then
      ErrorReply(req.error, if req.error == MethodNotAllowed then StatusMethodNotAllowed else StatusBadRequest)
    else CheckedReply(call(req.value), (r: GrpcHandlers.UpdateResponse) => r.success, (r: GrpcHandlers.UpdateResponse) => r.error, "Update", false)
  }

  /** Whatever namespace and id the body names, the update sent uses the URL's, with the rest of the body unchanged. */
  lemma UpdateOverridesBody(namespace: string, id: string, body: GrpcHandlers.UpdateRequest)
    requires '/' !in namespace
    ensures UpdateRequest("PUT", "/v1/vectors/" + namespace + "/" + id, Ok(body)) ==
      Ok(GrpcHandlers.UpdateRequest(namespace, id, body.vector, body.metadata, body.text))
  {
    VectorTargetRoundTrip(namespace, id);
  }

  // Query parameters.

  /** ParseIntQuery: the parameter's value as an int, or the default when it is missing, empty or not an integer. */
  function ParseIntQuery(query: map<string, string>, key: string, default: int): (r: int)
    ensures key !in query || query[key] == "" || Atoi(query[key]).Err? ==> r == default
    ensures key in query && Atoi(query[key]).Ok? ==> r == Atoi(query[key]).value
  {
    var value := if key in query then query[key] else "";
    if value == "" then default
    else
      var parsed := Atoi(value);
      if parsed.Err? then default else parsed.value
  }

  /** Any 64-bit integer written in decimal comes back from the query, whatever the default. */
  lemma ParseIntQueryRoundTrip(query: map<string, string>, key: string, i: int, default: int)
    requires INT64_MIN <= i <= INT64_MAX
    ensures ParseIntQuery(query[key := IntToString(i)], key, default) == i
  {
    AtoiRoundTrip(i);
  }
}
