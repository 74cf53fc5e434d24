/**
 * The request handler of `src/mock_rest_server/server.py`: how a request's
 * path and query become one database operation or one fixed answer, how
 * the answer becomes a JSON response, and how a database error becomes an
 * HTTP status (section 15 of RFC 9110).
 *
 * A request arrives already parsed: the method word, the raw request target,
 * its path and its query as `parse_qs` returns them, the Content-Type header
 * and the body as `json.loads` returns it.
 */
module Server {
  import opened Results
  import opened OrderedDicts
  import opened JsonValues
  import opened Text
  import opened DataFilters
  import opened StoreModel
  import opened Database

  const StatusOk := 200
  const StatusNoContent := 204
  const StatusBadRequest := 400
  const StatusNotFound := 404
  const StatusMethodNotAllowed := 405
  const StatusInternalError := 500
  const StatusNotImplemented := 501

  const JsonContentType := "application/json"
  const PathSep := '/'
  const FieldQueryParam := "_f"
  const WildCard := '*'

  // ---------------------------------------------------------- responses

  /** `JsonHttpResponse`: a status, and a JSON body when `hasBody` holds. */
  datatype Response = Response(status: int, hasBody: bool, body: Json)

  function EmptyResponse(status: int): Response {
    Response(status, false, JNull)
  }

  function WithPayload(payload: Json, status: int): Response {
    Response(status, true, payload)
  }

  /** The body `{"error": message}`. */
  function ErrorBody(message: Json): Json {
    JObj(ODict(["error"], map["error" := message]))
  }

  function WithError(message: Json, status: int): Response {
    WithPayload(ErrorBody(message), status)
  }

  /** An exception as `from_exception` sees it: its class, its `args` and its `str()`. */
  datatype PyException = PyException(typeName: string, args: seq<Json>, text: string)

  /** `ex.args[0]`, or `"<class 'T'>: str(ex)"` when the exception has no arguments. */
  function ExceptionMessage(ex: PyException): Json {
    if ex.args != [] then ex.args[0] else JStr("<class '" + ex.typeName + "'>: " + ex.text)
  }

  function FromException(ex: PyException, status: int): Response {
    WithError(ExceptionMessage(ex), status)
  }

  /** `ERROR_RESPONSE_LOOKUP` with its default. */
  function StatusFor(kind: ErrorKind): int {
    match kind
    case DuplicateValue => StatusBadRequest
    case NotFound => StatusNotFound
    case MissingId => StatusBadRequest
    case _ => StatusInternalError
  }

  function KindName(kind: ErrorKind): string {
    match kind
    case DuplicateValue => "mock_rest_server.database.DuplicateValue"
    case NotFound => "mock_rest_server.database.NotFound"
    case MissingId => "mock_rest_server.database.MissingId"
    case NotInitialized => "mock_rest_server.database.NotInitialized"
    case TypeError => "TypeError"
    case KeyError => "KeyError"
  }

  /**
   * `from_database_error`: the error's message under `"error"`, with 400 for
   * a duplicate or a missing id, 404 for something not found and 500 for
   * anything else.
   */
  function FromDatabaseError(e: StoreError): (r: Response)
    ensures r.hasBody && r.body == ErrorBody(JStr(e.message))
    ensures r.status == StatusNotFound <==> e.kind.NotFound?
    ensures r.status == StatusBadRequest <==> e.kind.DuplicateValue? || e.kind.MissingId?
    ensures r.status == StatusInternalError <==> !(e.kind.NotFound? || e.kind.DuplicateValue? || e.kind.MissingId?)
  {
    FromException(PyException(KindName(e.kind), [JStr(e.message)], e.message), StatusFor(e.kind))
  }

  function ErrorText(message: string, status: int): Response {
    WithError(JStr(message), status)
  }

  function JsonParseError(): Response {
    ErrorText("Unable parse JSON payload", StatusBadRequest)
  }

  function NotFoundResponse(): Response {
    ErrorText("The requested resource could not be found.", StatusNotFound)
  }

  function MissingIdResponse(): Response {
    ErrorText("Missing record ID", StatusBadRequest)
  }

  function UnexpectedPath(path: string): Response {
    ErrorText("Unexpected request path `" + path + "`", StatusBadRequest)
  }

  function MethodNotAllowed(command: string, path: string): Response {
    ErrorText("Unsupported method " + command + " at path " + path, StatusMethodNotAllowed)
  }

  function ContentTypeMessage(contentType: string): string {
    "Unsupported Content-Type Header value `" + contentType + "`. Expected `" + JsonContentType + "`"
  }

  /** What goes on the wire: the status line, the Content-Type header if any, and the serialised body if any. */
  datatype Transmission = Transmission(status: int, contentType: Option<string>, payload: Option<Json>)

  /** The tail of `handle_one_request`: the header and the body are sent only for a response that has a body. */
  function Transmit(r: Response): (t: Transmission)
    ensures t.status == r.status
    ensures t.contentType.Some? <==> r.hasBody
    ensures t.payload.Some? <==> r.hasBody
    ensures r.hasBody ==> t.contentType == Some(JsonContentType) && t.payload == Some(r.body)
  {
    if r.hasBody then Transmission(r.status, Some(JsonContentType), Some(r.body))
    else Transmission(r.status, None, None)
  }

  // ----------------------------------------------------------- requests

  /**
   * A parsed request: `command`; `target` is `self.path`, the request target
   * with its query; `path` and `query` are `urlsplit(target).path` and
   * `parse_qs` of its query (empty when there is none); `contentType` is the
   * header's value, `""` when absent; `body` is what `json.loads` made of
   * the body, `None` when it is not valid JSON.
   */
  datatype Request = Request(
    command: string,
    target: string,
    path: string,
    query: ODict<string, seq<string>>,
    contentType: string,
    body: Option<Object>)

  ghost predicate RequestWellFormed(req: Request) {
    req.query.Valid() && (req.body.Some? ==> WellFormedJson(JObj(req.body.value)))
  }

  /** `path.lstrip("/").split("/")` */
  function Slices(path: string): (slices: seq<string>)
    ensures |slices| >= 1
  {
    Split(StripLeft(path, PathSep), PathSep)
  }

  /** The cases every `respond_*` tells apart, by the segments of the path. */
  datatype Shape =
    | Root                                 // `slices == [""]`
    | Collection(resource: string)         // one segment
    | Item(resource: string, id: string)   // two segments, the second possibly empty
    | Nested(resource: string)             // more than two

  function ShapeOf(path: string): Shape {
    var slices := Slices(path);
    if slices == [""] then Root
    else if |slices| == 1 then Collection(slices[0])
    else if |slices| == 2 then Item(slices[0], slices[1])
    else Nested(slices[0])
  }

  lemma {:induction false} StripLeftRepeat(c: char, n: nat, t: string)
    requires t == [] || t[0] != c
    ensures StripLeft(Repeat(c, n) + t, c) == t
    decreases n
  {
    if n > 0 {
      assert (Repeat(c, n) + t)[1..] == Repeat(c, n - 1) + t;
      StripLeftRepeat(c, n - 1, t);
    } else {
      assert Repeat(c, n) + t == t;
    }
  }

  /** Splitting gives the single empty part exactly for the empty string. */
  lemma SplitEmpty(t: string)
    ensures Split(t, PathSep) == [""] <==> t == []
  {
    if Split(t, PathSep) == [""] {
      assert t == Join([""], PathSep);
    }
  }

  /** Stripping the leading slashes leaves nothing exactly when there is nothing else. */
  lemma StripLeftEmpty(path: string)
    ensures StripLeft(path, PathSep) == [] <==> forall i | 0 <= i < |path| :: path[i] == PathSep
  {
    var t := StripLeft(path, PathSep);
    var r := Repeat(PathSep, |path| - |t|);
    assert path == r + t;
    assert t != [] ==> path[|r|] == t[0] != PathSep;
  }

  /** A path is the root exactly when it is made of slashes only (the empty path included). */
  lemma ShapeOfRoot(path: string)
    ensures ShapeOf(path).Root? <==> forall i | 0 <= i < |path| :: path[i] == PathSep
  {
    SplitEmpty(StripLeft(path, PathSep));
    StripLeftEmpty(path);
  }

  /**
   * The path `/a`, `/a/b` or `/a/b/c/...` (any number of leading slashes),
   * built from segments without slashes and a non-empty first one, is seen
   * as a collection, an item or a nested path of resource `a`.
   */
  lemma ShapeOfSegments(lead: nat, segments: seq<string>)
    requires |segments| >= 1 && segments[0] != []
    requires forall s | s in segments :: PathSep !in s
    ensures var shape := ShapeOf(Repeat(PathSep, lead) + Join(segments, PathSep));
      && (|segments| == 1 ==> shape == Collection(segments[0]))
      && (|segments| == 2 ==> shape == Item(segments[0], segments[1]))
      && (|segments| > 2 ==> shape == Nested(segments[0]))
  {
    var joined := Join(segments, PathSep);
    assert joined[0] == segments[0][0] by {
      if |segments| > 1 {
        assert joined == segments[0] + ([PathSep] + Join(segments[1..], PathSep));
      }
    }
    assert segments[0][0] in segments[0];
    StripLeftRepeat(PathSep, lead, joined);
    SplitJoin(segments, PathSep);
  }

  /** What `read_request_body` gives: the decoded record, or the response its exception turns into. */
  datatype BodyRead = Body(record: Object) | Rejected(response: Response)

  /**
   * `read_request_body` and the handlers' `except` clauses: a Content-Type
   * other than exactly `application/json` is a `ValueError` answered with
   * 400 and its message; a body that is not JSON is the parse error, also 400.
   */
  function ReadRequestBody(req: Request): (b: BodyRead)
    ensures b.Body? <==> req.contentType == JsonContentType && req.body.Some?
    ensures b.Body? ==> req.body == Some(b.record)
    ensures b.Rejected? ==> b.response.status == StatusBadRequest && b.response.hasBody
    ensures req.contentType != JsonContentType ==> b == Rejected(ErrorText(ContentTypeMessage(req.contentType), StatusBadRequest))
  {
    if req.contentType != JsonContentType then
      Rejected(FromException(PyException("ValueError", [JStr(ContentTypeMessage(req.contentType))], ContentTypeMessage(req.contentType)), StatusBadRequest))
    else if req.body.None? then Rejected(JsonParseError())
    else Body(req.body.value)
  }

  // ----------------------------------------------------- search filters

  /** One filter per value of a query parameter, in order. */
  function ParamFilters(param: string, values: seq<string>): (fs: seq<Filter>)
    ensures |fs| == |values|
    ensures forall i | 0 <= i < |values| :: fs[i] == BuildQueryFilter(param, values[i], WildCard)
  {
    seq(|values|, i requires 0 <= i < |values| => BuildQueryFilter(param, values[i], WildCard))
  }

  /** The filters of the parameters `keys`, in order, skipping `_f`. */
  function FiltersFor(keys: seq<string>, vals: map<string, seq<string>>): seq<Filter>
    requires forall k | k in keys :: k in vals
    decreases |keys|
  {
    if keys == [] then []
    else
      var last := keys[|keys| - 1];
      FiltersFor(keys[..|keys| - 1], vals) + (if last == FieldQueryParam then [] else ParamFilters(last, vals[last]))
  }

  function SearchFilters(query: ODict<string, seq<string>>): seq<Filter>
    requires query.Valid()
  {
    FiltersFor(query.keys, query.vals)
  }

  /** One more value adds its filter at the end. */
  lemma ParamFiltersSnoc(param: string, values: seq<string>, j: nat)
    requires j < |values|
    ensures ParamFilters(param, values[..j + 1]) == ParamFilters(param, values[..j]) + [BuildQueryFilter(param, values[j], WildCard)]
  {
    var longer := ParamFilters(param, values[..j + 1]);
    assert forall i | 0 <= i < j :: longer[i] == ParamFilters(param, values[..j])[i];
  }

  /** One more parameter adds its group of filters at the end, none for `_f`. */
  lemma FiltersForSnoc(keys: seq<string>, vals: map<string, seq<string>>, i: nat)
    requires forall k | k in keys :: k in vals
    requires i < |keys|
    ensures keys[i] in vals
    ensures FiltersFor(keys[..i + 1], vals)
         == FiltersFor(keys[..i], vals) + (if keys[i] == FieldQueryParam then [] else ParamFilters(keys[i], vals[keys[i]]))
  {
    assert keys[..i + 1][..i] == keys[..i];
  }

  /** The inner loop of `generate_search_filters`: one filter per value of `param`, appended in order. */
  method AppendParamFilters(filters: seq<Filter>, param: string, values: seq<string>) returns (result: seq<Filter>)
    ensures result == filters + ParamFilters(param, values)
  {
    result := filters;
    for j := 0 to |values|
      invariant result == filters + ParamFilters(param, values[..j])
    {
      ParamFiltersSnoc(param, values, j);
      result := result + [BuildQueryFilter(param, values[j], WildCard)];
    }
    assert values[..|values|] == values;
  }

  /** `generate_search_filters` */
  method GenerateSearchFilters(query: ODict<string, seq<string>>) returns (filters: seq<Filter>)
    requires query.Valid()
    ensures filters == SearchFilters(query)
  {
    filters := [];
    for i := 0 to |query.keys|
      invariant filters == FiltersFor(query.keys[..i], query.vals)
    {
      var param := query.keys[i];
      FiltersForSnoc(query.keys, query.vals, i);
      if param == FieldQueryParam {
        continue;
      }
      filters := AppendParamFilters(filters, param, query.vals[param]);
    }
    assert query.keys[..|query.keys|] == query.keys;
  }

  /**
   * The filters are exactly one per value of every parameter other than
   * `_f`, each built from its parameter and value.
   */
  lemma {:induction false} FiltersForExact(keys: seq<string>, vals: map<string, seq<string>>)
    requires forall k | k in keys :: k in vals
    ensures forall f | f in FiltersFor(keys, vals) ::
      f.param != FieldQueryParam && f.param in keys && exists v | v in vals[f.param] :: f == BuildQueryFilter(f.param, v, WildCard)
    ensures forall k, v | k in keys && k != FieldQueryParam && v in vals[k] :: BuildQueryFilter(k, v, WildCard) in FiltersFor(keys, vals)
    decreases |keys|
  {
    if keys != [] {
      var init := keys[..|keys| - 1];
      assert forall k | k in init :: k in keys;
      FiltersForExact(init, vals);
      FiltersForSoundStep(keys, vals);
      FiltersForCompleteStep(keys, vals);
    }
  }

  /** The group of the last parameter: one filter per value, unless it is `_f`. */
  function LastGroup(keys: seq<string>, vals: map<string, seq<string>>): (group: seq<Filter>)
    requires keys != [] && forall k | k in keys :: k in vals
    ensures FiltersFor(keys, vals) == FiltersFor(keys[..|keys| - 1], vals) + group
  {
    var last := keys[|keys| - 1];
    if last == FieldQueryParam then [] else ParamFilters(last, vals[last])
  }

  lemma FiltersForSoundStep(keys: seq<string>, vals: map<string, seq<string>>)
    requires forall k | k in keys :: k in vals
    requires keys != []
    requires forall f | f in FiltersFor(keys[..|keys| - 1], vals) ::
      f.param != FieldQueryParam && f.param in keys[..|keys| - 1] && exists v | v in vals[f.param] :: f == BuildQueryFilter(f.param, v, WildCard)
    ensures forall f | f in FiltersFor(keys, vals) ::
      f.param != FieldQueryParam && f.param in keys && exists v | v in vals[f.param] :: f == BuildQueryFilter(f.param, v, WildCard)
  {
    var init := keys[..|keys| - 1];
    var last := keys[|keys| - 1];
    var group := LastGroup(keys, vals);
    forall f | f in FiltersFor(keys, vals)
      ensures f.param != FieldQueryParam && f.param in keys && exists v | v in vals[f.param] :: f == BuildQueryFilter(f.param, v, WildCard)
    {
      if f in FiltersFor(init, vals) {
        InitIn(keys, f.param);
      } else {
        assert f in group;
        var i :| 0 <= i < |group| && group[i] == f;
        var v := vals[last][i];
        assert v in vals[last] && f == BuildQueryFilter(last, v, WildCard);
      }
    }
  }

  lemma FiltersForCompleteStep(keys: seq<string>, vals: map<string, seq<string>>)
    requires forall k | k in keys :: k in vals
    requires keys != []
    requires forall k, v | k in keys[..|keys| - 1] && k != FieldQueryParam && v in vals[k] ::
      BuildQueryFilter(k, v, WildCard) in FiltersFor(keys[..|keys| - 1], vals)
    ensures forall k, v | k in keys && k != FieldQueryParam && v in vals[k] :: BuildQueryFilter(k, v, WildCard) in FiltersFor(keys, vals)
  {
    var init := keys[..|keys| - 1];
    var last := keys[|keys| - 1];
    var group := LastGroup(keys, vals);
    forall k, v | k in keys && k != FieldQueryParam && v in vals[k]
      ensures BuildQueryFilter(k, v, WildCard) in FiltersFor(keys, vals)
    {
      if k == last {
        var i :| 0 <= i < |vals[k]| && vals[k][i] == v;
        assert group[i] == BuildQueryFilter(k, v, WildCard);
        assert group[i] in group;
      } else {
        InInit(keys, k);
        assert BuildQueryFilter(k, v, WildCard) in FiltersFor(init, vals);
      }
    }
  }

  /**
   * Repeated parameters are combined with AND: a record passes the search
   * filters exactly when it matches the filter of every value of every
   * parameter but `_f`.
   */
  lemma SearchFiltersConjoin(query: ODict<string, seq<string>>, rec: Object)
    requires query.Valid()
    ensures AllMatch(SearchFilters(query), rec) <==>
      forall k, v | k in query.vals && k != FieldQueryParam && v in query.vals[k] :: Matches(BuildQueryFilter(k, v, WildCard), rec)
  {
    var fs := SearchFilters(query);
    FiltersForExact(query.keys, query.vals);
    if AllMatch(fs, rec) {
      forall k, v | k in query.vals && k != FieldQueryParam && v in query.vals[k]
        ensures Matches(BuildQueryFilter(k, v, WildCard), rec)
      {
        assert BuildQueryFilter(k, v, WildCard) in fs;
      }
    }
    if forall k, v | k in query.vals && k != FieldQueryParam && v in query.vals[k] :: Matches(BuildQueryFilter(k, v, WildCard), rec) {
      forall i | 0 <= i < |fs| ensures Matches(fs[i], rec) {
        assert fs[i] in fs;
        var v :| v in query.vals[fs[i].param] && fs[i] == BuildQueryFilter(fs[i].param, v, WildCard);
      }
    }
  }

  /** The `_f` values: the fields a listing is cut down to; none means whole records. */
  function QueryFields(query: ODict<string, seq<string>>): seq<string> {
    if FieldQueryParam in query.vals then query.vals[FieldQueryParam] else []
  }

  // ------------------------------------------------------------ routing

  /** The five `respond_*` handlers. */
  datatype Verb = Get | Post | Put | Patch | Delete

  /** `getattr(self, "respond_" + command.lower())`: which handler answers, if any. */
  function HandlerFor(command: string): (v: Option<Verb>)
    ensures v.Some? <==> CaseFold(command) in ["get", "post", "put", "patch", "delete"]
  {
    var m := CaseFold(command);
    if m == "get" then Some(Get)
    else if m == "post" then Some(Post)
    else if m == "put" then Some(Put)
    else if m == "patch" then Some(Patch)
    else if m == "delete" then Some(Delete)
    else None
  }

  /** What a handler decides to do: answer at once, or run one database operation. */
  datatype Action =
    | Reply(response: Response)
    | ListNames
    | ListRecords(resource: string, fields: seq<string>, filters: seq<Filter>)
    | ReadRecord(resource: string, id: string)
    | CreateRecord(resource: string, record: Object, recordId: Option<string>, generated: string)
    | SetRecord(resource: string, record: Object, id: string)
    | UpdateRecord(resource: string, record: Object, id: string)
    | DeleteRecord(resource: string, id: string)

  /** The record a write carries is a decoded JSON object, and a create's fresh id is a uuid. */
  ghost predicate ActionWellFormed(a: Action) {
    match a
    case CreateRecord(_, record, _, generated) => WellFormedJson(JObj(record)) && IsUuid4Text(generated)
    case SetRecord(_, record, _) => WellFormedJson(JObj(record))
    case UpdateRecord(_, record, _) => WellFormedJson(JObj(record))
    case _ => true
  }

  /** A write handler after the path check: the body, then the operation. */
  function WithBody(req: Request, write: Object -> Action): Action {
    match ReadRequestBody(req)
    case Rejected(response) => Reply(response)
    case Body(record) => write(record)
  }

  /**
   * The decision each `respond_*` makes from the path, the query, the body
   * and (for GET) the names of the known resources; `generated` is the uuid
   * a create would use.
   */
  function Plan(verb: Verb, req: Request, known: set<string>, generated: string): (a: Action)
    requires req.query.Valid()
    // the root: GET lists the resources, the others are not allowed there
    ensures ShapeOf(req.path).Root? ==> (verb == Get <==> a == ListNames)
    ensures ShapeOf(req.path).Root? && verb != Get ==>
      a == Reply(MethodNotAllowed(req.command, if verb == Post then req.target else req.path))
    // GET on an unknown resource is 404 before anything else is looked at
    ensures verb == Get && !ShapeOf(req.path).Root? && ShapeOf(req.path).resource !in known ==> a == Reply(NotFoundResponse())
    // GET `/r` and `/r/` list, `/r/id` reads
    ensures verb == Get && (ShapeOf(req.path).Collection? || (ShapeOf(req.path).Item? && ShapeOf(req.path).id == ""))
              && ShapeOf(req.path).resource in known ==>
      a == ListRecords(ShapeOf(req.path).resource, QueryFields(req.query), SearchFilters(req.query))
    ensures verb == Get && ShapeOf(req.path).Item? && ShapeOf(req.path).id != "" && ShapeOf(req.path).resource in known ==>
      a == ReadRecord(ShapeOf(req.path).resource, ShapeOf(req.path).id)
    // more than one segment after the resource
    ensures ShapeOf(req.path).Nested? && (verb != Get || ShapeOf(req.path).resource in known) ==>
      a == Reply(UnexpectedPath(if verb == Post || verb == Get then req.target else req.path))
    // PUT, PATCH and DELETE need an id segment, and are refused without the store
    ensures verb in {Put, Patch, Delete} && ShapeOf(req.path).Collection? ==> a == Reply(MissingIdResponse())
    // the writes get the decoded body of a JSON request, or refuse it
    ensures verb in {Post, Put, Patch} && (ShapeOf(req.path).Item? || (verb == Post && ShapeOf(req.path).Collection?)) ==>
      (a.Reply? <==> ReadRequestBody(req).Rejected?)
    ensures a.CreateRecord? || a.SetRecord? || a.UpdateRecord? ==>
      req.contentType == JsonContentType && req.body == Some(a.record) && a.resource == ShapeOf(req.path).resource
    // which operation each handler can reach
    ensures a.ListNames? || a.ListRecords? || a.ReadRecord? ==> verb == Get
    ensures a.CreateRecord? ==>
      && verb == Post && a.generated == generated
      && a.recordId == (if ShapeOf(req.path).Item? then Some(ShapeOf(req.path).id) else None)
    ensures a.SetRecord? ==> verb == Put && ShapeOf(req.path) == Item(a.resource, a.id)
    ensures a.UpdateRecord? ==> verb == Patch && ShapeOf(req.path) == Item(a.resource, a.id)
    ensures a.DeleteRecord? ==> verb == Delete && ShapeOf(req.path) == Item(a.resource, a.id)
  {
    var shape := ShapeOf(req.path);
    match verb
    case Get =>
      if shape.Root? then ListNames
      else if shape.resource !in known then Reply(NotFoundResponse())
      else if shape.Collection? || (shape.Item? && shape.id == "") then
        ListRecords(shape.resource, QueryFields(req.query), SearchFilters(req.query))
      else if shape.Nested? then Reply(UnexpectedPath(req.target))
      else ReadRecord(shape.resource, shape.id)
    case Post =>
      if shape.Root? then Reply(MethodNotAllowed(req.command, req.target))
      else if shape.Nested? then Reply(UnexpectedPath(req.target))
      else
        var recordId := if shape.Item? then Some(shape.id) else None;
        WithBody(req, record => CreateRecord(shape.resource, record, recordId, generated))
    case Put =>
      if shape.Root? then Reply(MethodNotAllowed(req.command, req.path))
      else if shape.Nested? then Reply(UnexpectedPath(req.path))
      else if shape.Collection? then Reply(MissingIdResponse())
      else WithBody(req, record => SetRecord(shape.resource, record, shape.id))
    case Patch =>
      if shape.Root? then Reply(MethodNotAllowed(req.command, req.path))
      else if shape.Nested? then Reply(UnexpectedPath(req.path))
      else if shape.Collection? then Reply(MissingIdResponse())
      else WithBody(req, record => UpdateRecord(shape.resource, record, shape.id))
    case Delete =>
      if shape.Root? then Reply(MethodNotAllowed(req.command, req.path))
      else if shape.Nested? then Reply(UnexpectedPath(req.path))
      else if shape.Collection? then Reply(MissingIdResponse())
      else DeleteRecord(shape.resource, shape.id)
  }

  lemma PlanWellFormed(verb: Verb, req: Request, known: set<string>, generated: string)
    requires RequestWellFormed(req) && IsUuid4Text(generated)
    ensures ActionWellFormed(Plan(verb, req, known, generated))
  {
  }

  // -------------------------------------------------------- performing

  /** A response, the store left behind, and whether the operation marked the data changed. */
  datatype Exchange = Exchange(response: Response, store: Store<Object>, changed: bool)

  /** `{"resources": names}` */
  function ResourcesPayload(names: seq<string>): Json {
    JObj(ODict(["resources"], map["resources" := JArr(seq(|names|, i requires 0 <= i < |names| => JStr(names[i])))]))
  }

  function RecordsPayload(rows: seq<Object>): Json {
    JArr(seq(|rows|, i requires 0 <= i < |rows| => JObj(rows[i])))
  }

  /** A returned record is sent with 200, a database error through `from_database_error`. */
  function Answered(result: Result<Object, StoreError>): Response {
    match result
    case Ok(record) => WithPayload(JObj(record), StatusOk)
    case Err(e) => FromDatabaseError(e)
  }

  /** Running an action against the store's contents: the handler's answer and the store afterwards. */
  function Perform(s: Store<Object>, idField: string, a: Action): (x: Exchange)
    requires WellFormed(s) && RecordsValid(s) && ActionWellFormed(a)
    ensures a.Reply? ==> x == Exchange(a.response, s, false)
    ensures a.ListNames? || a.ListRecords? || a.ReadRecord? ==> x.store == s && !x.changed
    ensures x.changed ==> x.response.status == (if a.DeleteRecord? then StatusNoContent else StatusOk)
    ensures !a.Reply? ==> (x.response.hasBody <==> !(x.changed && a.DeleteRecord?))
  {
    match a
    case Reply(response) => Exchange(response, s, false)
    case ListNames => Exchange(WithPayload(ResourcesPayload(SortedNames(s.keys)), StatusOk), s, false)
    case ListRecords(resource, fields, filters) =>
      var response := match ListSpec(s, resource, fields, filters)
        case Ok(rows) => WithPayload(RecordsPayload(rows), StatusOk)
        case Err(e) => FromDatabaseError(e);
      Exchange(response, s, false)
    case ReadRecord(resource, id) =>
      var response := match ReadSpec(s, resource, id)
        case Ok(record) => if record.vals == map[] then NotFoundResponse() else WithPayload(JObj(record), StatusOk)
        case Err(e) => FromDatabaseError(e);
      Exchange(response, s, false)
    case CreateRecord(resource, record, recordId, generated) =>
      var o := CreateSpec(s, resource, record, IdArgument(recordId), idField, generated);
      Exchange(Answered(o.result), o.store, o.result.Ok?)
    case SetRecord(resource, record, id) =>
      var o := SetSpec(s, resource, record, IdArgument(Some(id)), idField);
      Exchange(Answered(o.result), o.store, o.result.Ok?)
    case UpdateRecord(resource, record, id) =>
      var o := UpdateSpec(s, resource, record, IdArgument(Some(id)), idField);
      Exchange(Answered(o.result), o.store, o.result.Ok?)
    case DeleteRecord(resource, id) =>
      var o := DeleteSpec(s, resource, id);
      var response := if o.result.Ok? then EmptyResponse(StatusNoContent) else FromDatabaseError(o.result.error);
      Exchange(response, o.store, o.result.Ok?)
  }

  /**
   * GET `/r/id` answers the stored record, or the store's `NotFound` as 404:
   * the `if not record` test never fires, since every stored record
   * carries its id field.
   */
  lemma ReadAnswersStoredRecord(s: Store<Object>, idField: string, resource: string, id: string)
    requires WellFormed(s) && RecordsValid(s) && IdsConsistent(s, idField)
    ensures var r := Perform(s, idField, ReadRecord(resource, id)).response;
      match ReadSpec(s, resource, id)
      case Ok(record) => r == WithPayload(JObj(record), StatusOk)
      case Err(e) => r == FromDatabaseError(e) && r.status == StatusNotFound
  {
    var result := ReadSpec(s, resource, id);
    if result.Ok? {
      var stored := s.vals[resource].vals[JStr(id)];
      assert Hashable(JStr(id)) && idField in stored.vals && stored.vals[idField] == JStr(id);
      assert result.value == stored;
    }
  }

  /**
   * POST `/r/` passes the empty id, which `create` treats as no id at all:
   * the same response and the same store as POST `/r`.
   */
  lemma PostTrailingSlashIsNoId(req: Request, known: set<string>, generated: string, s: Store<Object>, idField: string)
    requires RequestWellFormed(req) && IsUuid4Text(generated) && WellFormed(s) && RecordsValid(s)
    requires ShapeOf(req.path).Item? && ShapeOf(req.path).id == ""
    ensures var a := Plan(Post, req, known, generated);
      a.Reply? || (a.CreateRecord? && a.recordId == Some("") && Perform(s, idField, a) == Perform(s, idField, a.(recordId := None)))
  {
    var a := Plan(Post, req, known, generated);
    if a.CreateRecord? {
      EmptyIdArgumentIsAbsent(a.record, idField, generated);
    }
  }

  /** The store is not called when the handler answers from the path or the body alone. */
  lemma RefusedRequestLeavesStore(verb: Verb, req: Request, known: set<string>, generated: string, s: Store<Object>, idField: string)
    requires RequestWellFormed(req) && IsUuid4Text(generated) && WellFormed(s) && RecordsValid(s)
    requires verb != Get && (req.contentType != JsonContentType || ShapeOf(req.path).Root? || ShapeOf(req.path).Nested?)
    ensures var a := Plan(verb, req, known, generated);
      !a.DeleteRecord? ==> a.Reply? && Perform(s, idField, a).store == s && Perform(s, idField, a).response.status in {StatusBadRequest, StatusMethodNotAllowed}
  {
  }

  // ----------------------------------------------------------- handlers

  /** Runs one action against the database. */
  method Execute(db: JsonDatabase, a: Action) returns (response: Response)
    requires db.Valid() && ActionWellFormed(a)
    modifies db
    ensures var x := Perform(old(db.records), db.idField, a);
      response == x.response && db.records == x.store
      && db.dirty == (old(db.dirty) || x.changed) && db.dataChanged == (old(db.dataChanged) || x.changed)
    ensures db.file == old(db.file) && db.lastSave == old(db.lastSave) && db.persistStop == old(db.persistStop)
    ensures db.persistPeriodLimit == old(db.persistPeriodLimit) && db.noFileWarned == old(db.noFileWarned)
    ensures db.Valid()
  {
    match a
    case Reply(r) =>
      response := r;
    case ListNames =>
      var names := db.AvailableResources();
      AscendingUnique(names, SortedNames(db.records.keys));
      response := WithPayload(ResourcesPayload(names), StatusOk);
    case ListRecords(resource, fields, filters) =>
      var result := db.ListResource(resource, fields, filters);
      response := if result.Ok? then WithPayload(RecordsPayload(result.value), StatusOk) else FromDatabaseError(result.error);
    case ReadRecord(resource, id) =>
      var result := db.Read(resource, id);
      if result.Err? {
        response := FromDatabaseError(result.error);
      } else if result.value.vals == map[] {
        response := NotFoundResponse();
      } else {
        response := WithPayload(JObj(result.value), StatusOk);
      }
    case CreateRecord(resource, record, recordId, generated) =>
      var result := db.Create(resource, record, recordId, generated);
      response := Answered(result);
    case SetRecord(resource, record, id) =>
      var result := db.Set(resource, record, Some(id));
      response := Answered(result);
    case UpdateRecord(resource, record, id) =>
      var result := db.Update(resource, record, Some(id));
      response := Answered(result);
    case DeleteRecord(resource, id) =>
      var result := db.Delete(resource, id);
      response := if result.Ok? then EmptyResponse(StatusNoContent) else FromDatabaseError(result.error);
  }

  /** The decision of `respond_get`, made with the database's resource names and the generated filters. */
  method PlanGet(db: JsonDatabase, req: Request) returns (a: Action)
    requires db.Valid() && req.query.Valid()
    ensures a == Plan(Get, req, db.records.vals.Keys, "")
  {
    var slices := Slices(req.path);
    var names := db.AvailableResources();
    if slices == [""] {
      return ListNames;
    }
    var resource := slices[0];
    if resource !in names {
      return Reply(NotFoundResponse());
    }
    if |slices| == 1 || slices[1..] == [""] {
      var filters := GenerateSearchFilters(req.query);
      return ListRecords(resource, QueryFields(req.query), filters);
    }
    if |slices| > 2 {
      return Reply(UnexpectedPath(req.target));
    }
    a := ReadRecord(resource, slices[1]);
  }

  /** One `respond_*` handler: the decision, then the operation it names. */
  method Respond(db: JsonDatabase, verb: Verb, req: Request, generated: string) returns (response: Response)
    requires db.Valid() && RequestWellFormed(req) && IsUuid4Text(generated)
    modifies db
    ensures var x := Perform(old(db.records), db.idField, Plan(verb, req, old(db.records).vals.Keys, generated));
      response == x.response && db.records == x.store
      && db.dirty == (old(db.dirty) || x.changed) && db.dataChanged == (old(db.dataChanged) || x.changed)
    ensures db.file == old(db.file) && db.lastSave == old(db.lastSave) && db.persistStop == old(db.persistStop)
    ensures db.persistPeriodLimit == old(db.persistPeriodLimit) && db.noFileWarned == old(db.noFileWarned)
    ensures db.Valid()
  {
    var a;
    if verb == Get {
      a := PlanGet(db, req);
      assert a == Plan(Get, req, db.records.vals.Keys, generated);
    } else {
      a := Plan(verb, req, db.records.vals.Keys, generated);
    }
    PlanWellFormed(verb, req, db.records.vals.Keys, generated);
    response := Execute(db, a);
  }

  // ---------------------------------------------------------- dispatch

  /** How `handle_one_request` proceeds once the request line is parsed. */
  datatype Route = Dropped | Immediate(response: Response) | Invoke(verb: Verb)

  const NotInitializedResponse := ErrorText("Database was not initialized", StatusInternalError)

  /**
   * The dispatch as written: the missing handler raises `NotImplementedError`
   * before the `try` whose `except` would answer it, so the exception leaves
   * `handle_one_request` and the connection is closed without a response.
   */
  function DispatchAsWritten(command: string, hasDatabase: bool): (d: Route)
    ensures d.Dropped? <==> HandlerFor(command).None?
  {
    match HandlerFor(command)
    case None => Dropped
    case Some(verb) => if hasDatabase then Invoke(verb) else Immediate(NotInitializedResponse)
  }

  /**
   * The dispatch as intended: a method without a handler is answered with
   * 501 `Unsupported method (X)`; otherwise as written.
   */
  function Dispatch(command: string, hasDatabase: bool): (d: Route)
    ensures !d.Dropped?
    ensures HandlerFor(command).None? ==> d == Immediate(ErrorText("Unsupported method (" + command + ")", StatusNotImplemented))
    ensures HandlerFor(command).Some? ==> d == DispatchAsWritten(command, hasDatabase)
    ensures d.Invoke? ==> hasDatabase && Some(d.verb) == HandlerFor(command)
  {
    match HandlerFor(command)
    case None => Immediate(ErrorText("Unsupported method (" + command + ")", StatusNotImplemented))
    case Some(verb) => if hasDatabase then Invoke(verb) else Immediate(NotInitializedResponse)
  }

  /** `HEAD /users` gets no answer at all as written, and 501 as intended. */
  lemma UnknownMethodDropsConnection()
    ensures DispatchAsWritten("HEAD", true) == Dropped
    ensures Dispatch("HEAD", true) == Immediate(ErrorText("Unsupported method (HEAD)", StatusNotImplemented))
  {
    assert CaseFold("HEAD") == "head";
    assert "Unsupported method (" + "HEAD" + ")" == "Unsupported method (HEAD)";
  }

  /** `handle_one_request` after parsing, with the intended dispatch: what is sent back, and what the database does. */
  method Handle(db: JsonDatabase?, req: Request, generated: string) returns (sent: Transmission)
    requires db != null ==> db.Valid()
    requires RequestWellFormed(req) && IsUuid4Text(generated)
    modifies db
    ensures Dispatch(req.command, db != null).Immediate? ==>
      sent == Transmit(Dispatch(req.command, db != null).response) && (db != null ==> db.records == old(db.records) && db.dirty == old(db.dirty))
    ensures Dispatch(req.command, db != null).Immediate? && db != null ==> unchanged(db)
    ensures Dispatch(req.command, db != null).Invoke? ==> (db != null &&
      var x := Perform(old(db.records), db.idField, Plan(Dispatch(req.command, true).verb, req, old(db.records).vals.Keys, generated));
      sent == Transmit(x.response) && db.records == x.store && db.dirty == (old(db.dirty) || x.changed)
      && db.dataChanged == (old(db.dataChanged) || x.changed))
    ensures db != null ==>
      && db.file == old(db.file) && db.lastSave == old(db.lastSave) && db.persistStop == old(db.persistStop)
      && db.persistPeriodLimit == old(db.persistPeriodLimit) && db.noFileWarned == old(db.noFileWarned)
    ensures db != null ==> db.Valid()
  {
    var d := Dispatch(req.command, db != null);
    if d.Immediate? {
      return Transmit(d.response);
    }
    var response := Respond(db, d.verb, req, generated);
    sent := Transmit(response);
  }
}
