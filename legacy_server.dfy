/**
 * The request handler of the older `mock_rest_server/server.py`. Each
 * `do_*` writes its response itself, through the singleton
 * `JsonDatabase.instance()`. It differs from the `src` handler in four ways:
 *  - its messages;
 *  - a Content-Type other than `application/json` is refused with a bare 400;
 *  - only `JsonDatabaseError` is caught, so any other exception (a
 *    `KeyError` from a filter, a `TypeError` from an id that cannot be a
 *    key, the `RuntimeError` of a missing instance) ends the handler with
 *    whatever it has written so far;
 *  - `do_POST` on the root carries on after refusing.
 *
 * What a handler writes is a sequence of responses; `dropped` says that an
 * exception ended it.
 */
module LegacyServer {
  import opened Results
  import opened OrderedDicts
  import opened JsonValues
  import opened Text
  import opened DataFilters
  import opened StoreModel
  import opened LegacyDatabase
  import opened Server

  // ---------------------------------------------------------- responses

  function LegacyNotFound(): Response {
    ErrorText("The requested resource does not exist.", StatusNotFound)
  }

  function LegacyNotAllowed(command: string, target: string): Response {
    ErrorText("Cannot " + command + " records at `" + target + "`.", StatusMethodNotAllowed)
  }

  /** The refusal of a non-JSON body: the status line alone, no header and no body. */
  function ContentTypeRefused(): Response {
    EmptyResponse(StatusBadRequest)
  }

  /** The errors `except JsonDatabaseError` catches; the others escape the handler. */
  predicate IsDatabaseError(kind: ErrorKind) {
    kind.DuplicateValue? || kind.NotFound? || kind.MissingId? || kind.NotInitialized?
  }

  /** `handle_database_error`: `{"error": args[0]}` with the status of `ERROR_RESPONSE_LOOKUP`. */
  function HandleDatabaseError(e: StoreError): (r: Response)
    requires IsDatabaseError(e.kind)
    ensures r == FromDatabaseError(e)
    ensures r.status == (if e.kind.NotFound? then StatusNotFound else if e.kind.NotInitialized? then StatusInternalError else StatusBadRequest)
  {
    WithError(JStr(e.message), StatusFor(e.kind))
  }

  // ----------------------------------------------------- search filters

  /**
   * The wildcard dispatch the older handler writes out inline: contains for
   * `*x*`, ends-with for `*x`, starts-with for `x*`, equality otherwise. It
   * builds the same filter as `build_query_filter`.
   */
  method InlineFilter(param: string, value: string) returns (f: Filter)
    ensures f == BuildQueryFilter(param, value, WildCard)
  {
    if IsPrefix([WildCard], value) {
      if IsSuffix([WildCard], value) {
        f := Contains(param, Strip(value, WildCard));
      } else {
        f := EndsWith(param, StripLeft(value, WildCard));
      }
    } else if IsSuffix([WildCard], value) {
      f := StartsWith(param, StripRight(value, WildCard));
    } else {
      f := Equals(param, value);
    }
  }

  /**
   * The inner loop of the older `generate_search_filters`: one filter per
   * value of `param`, chosen by the wildcard dispatch written out inline.
   */
  method AppendValueFilters(filters: seq<Filter>, param: string, values: seq<string>) returns (result: seq<Filter>)
    ensures result == filters + ParamFilters(param, values)
  {
    result := filters;
    for j := 0 to |values|
      invariant result == filters + ParamFilters(param, values[..j])
    {
      var f := InlineFilter(param, values[j]);
      ParamFiltersSnoc(param, values, j);
      result := result + [f];
    }
    assert values[..|values|] == values;
  }

  /** `generate_search_filters` of the older handler: every parameter but `_f`, in order. */
  method LegacyGenerateSearchFilters(query: ODict<string, seq<string>>) returns (filters: seq<Filter>)
    requires query.Valid()
    ensures filters == SearchFilters(query)
  {
    filters := [];
    for i := 0 to |query.keys|
      invariant filters == FiltersFor(query.keys[..i], query.vals)
    {
      var param := query.keys[i];
      FiltersForSnoc(query.keys, query.vals, i);
      if param == FieldQueryParam {
        continue;
      }
      filters := AppendValueFilters(filters, param, query.vals[param]);
    }
    assert query.keys[..|query.keys|] == query.keys;
  }

  // ------------------------------------------------------------ routing

  /** The body check of the older writes: bare 400 for another Content-Type, the parse error for bad JSON. */
  function LegacyReadBody(req: Request): (b: BodyRead)
    ensures b.Body? <==> req.contentType == JsonContentType && req.body.Some?
    ensures b.Body? ==> req.body == Some(b.record)
    ensures req.contentType != JsonContentType ==> b == Rejected(ContentTypeRefused()) && !b.response.hasBody
  {
    if req.contentType != JsonContentType then Rejected(ContentTypeRefused())
    else if req.body.None? then Rejected(JsonParseError())
    else Body(req.body.value)
  }

  function LegacyWithBody(req: Request, write: Object -> Action): Action {
    match LegacyReadBody(req)
    case Rejected(response) => Reply(response)
    case Body(record) => write(record)
  }

  /**
   * The decision of each `do_*`, with `do_POST` on the root stopping after
   * its 405 (the code as written goes on; see `PostAsWritten`).
   */
  function LegacyPlan(verb: Verb, req: Request, known: set<string>, generated: string): (a: Action)
    requires req.query.Valid()
    ensures ShapeOf(req.path).Root? ==> (verb == Get <==> a == ListNames)
    ensures ShapeOf(req.path).Root? && verb != Get ==> a == Reply(LegacyNotAllowed(req.command, req.target))
    ensures verb == Get && !ShapeOf(req.path).Root? && ShapeOf(req.path).resource !in known ==> a == Reply(LegacyNotFound())
    ensures ShapeOf(req.path).Nested? && (verb != Get || ShapeOf(req.path).resource in known) ==> a == Reply(UnexpectedPath(req.target))
    ensures verb in {Put, Patch, Delete} && ShapeOf(req.path).Collection? ==> a == Reply(MissingIdResponse())
    ensures (verb in {Post, Put, Patch} && req.contentType != JsonContentType && !ShapeOf(req.path).Root? && !ShapeOf(req.path).Nested?
             && !(verb != Post && ShapeOf(req.path).Collection?)) ==> a == Reply(ContentTypeRefused())
  {
    var shape := ShapeOf(req.path);
    match verb
    case Get =>
      if shape.Root? then ListNames
      else if shape.resource !in known then Reply(LegacyNotFound())
      else if shape.Collection? || (shape.Item? && shape.id == "") then
        ListRecords(shape.resource, QueryFields(req.query), SearchFilters(req.query))
      else if shape.Nested? then Reply(UnexpectedPath(req.target))
      else ReadRecord(shape.resource, shape.id)
    case Post =>
      if shape.Root? then Reply(LegacyNotAllowed(req.command, req.target))
      else if shape.Nested? then Reply(UnexpectedPath(req.target))
      else
        var recordId := if shape.Item? then Some(shape.id) else None;
        LegacyWithBody(req, record => CreateRecord(shape.resource, record, recordId, generated))
    case Put =>
      if shape.Root? then Reply(LegacyNotAllowed(req.command, req.target))
      else if shape.Nested? then Reply(UnexpectedPath(req.target))
      else if shape.Collection? then Reply(MissingIdResponse())
      else LegacyWithBody(req, record => SetRecord(shape.resource, record, shape.id))
    case Patch =>
      if shape.Root? then Reply(LegacyNotAllowed(req.command, req.target))
      else if shape.Nested? then Reply(UnexpectedPath(req.target))
      else if shape.Collection? then Reply(MissingIdResponse())
      else LegacyWithBody(req, record => UpdateRecord(shape.resource, record, shape.id))
    case Delete =>
      if shape.Root? then Reply(LegacyNotAllowed(req.command, req.target))
      else if shape.Nested? then Reply(UnexpectedPath(req.target))
      else if shape.Collection? then Reply(MissingIdResponse())
      else DeleteRecord(shape.resource, shape.id)
  }

  /**
   * Both versions route every request alike: the same store operation, or
   * a refusal with the same status (their messages differ).
   */
  lemma RoutingAgrees(verb: Verb, req: Request, known: set<string>, generated: string)
    requires req.query.Valid()
    ensures var a := LegacyPlan(verb, req, known, generated);
      var b := Plan(verb, req, known, generated);
      && (a.Reply? <==> b.Reply?)
      && (!a.Reply? ==> a == b)
      && (a.Reply? ==> a.response.status == b.response.status)
  {
    var shape := ShapeOf(req.path);
    if shape.Root? || shape.Nested? {
    } else if verb == Get {
    } else {
      assert ReadRequestBody(req).Rejected? <==> LegacyReadBody(req).Rejected?;
    }
  }

  lemma LegacyPlanWellFormed(verb: Verb, req: Request, known: set<string>, generated: string)
    requires RequestWellFormed(req) && IsUuid4Text(generated)
    ensures ActionWellFormed(LegacyPlan(verb, req, known, generated))
  {
  }

  /** What a handler writes before its decisive step, and that step. */
  datatype Course = Course(before: seq<Response>, action: Action)

  /**
   * `do_POST` as written: on the root the 405 is sent and the handler goes
   * on with resource `""` and no id, as if the path were `/`.
   */
  function PostAsWritten(req: Request, generated: string): (c: Course)
    requires req.query.Valid()
    ensures !ShapeOf(req.path).Root? ==> c == Course([], LegacyPlan(Post, req, {}, generated))
  {
    var shape := ShapeOf(req.path);
    if shape.Root? then
      Course([LegacyNotAllowed(req.command, req.target)],
             LegacyWithBody(req, record => CreateRecord("", record, None, generated)))
    else Course([], LegacyPlan(Post, req, {}, generated))
  }

  // -------------------------------------------------------- performing

  /** The responses a handler wrote, the store afterwards, whether data changed, and whether an exception ended it. */
  datatype LegacyExchange = LegacyExchange(sent: seq<Response>, store: Store<Object>, changed: bool, dropped: bool)

  /** A failed operation: answered when the error is a `JsonDatabaseError`, the handler dies otherwise. */
  function Failed(e: StoreError, store: Store<Object>): (x: LegacyExchange)
    ensures x.dropped <==> !IsDatabaseError(e.kind)
    ensures !x.dropped ==> x.sent == [FromDatabaseError(e)]
    ensures x.dropped ==> x.sent == []
    ensures x.store == store && !x.changed
  {
    if IsDatabaseError(e.kind) then LegacyExchange([HandleDatabaseError(e)], store, false, false)
    else LegacyExchange([], store, false, true)
  }

  function Written(result: Result<Object, StoreError>, store: Store<Object>): (x: LegacyExchange)
    ensures x.store == store && x.changed == result.Ok?
  {
    match result
    case Ok(record) => LegacyExchange([WithPayload(JObj(record), StatusOk)], store, true, false)
    case Err(e) => Failed(e, store)
  }

  /** Running an action against the older store's contents. */
  function LegacyPerform(s: Store<Object>, idField: string, a: Action): (x: LegacyExchange)
    requires WellFormed(s) && RecordsValid(s) && ActionWellFormed(a)
    ensures x.dropped ==> x.sent == [] && !x.changed
    ensures !x.dropped ==> |x.sent| == 1
    ensures a.Reply? ==> x == LegacyExchange([a.response], s, false, false)
    ensures a.ListNames? || a.ListRecords? || a.ReadRecord? ==> x.store == s && !x.changed
    ensures x.changed ==> x.sent[0].status == (if a.DeleteRecord? then StatusNoContent else StatusOk)
  {
    match a
    case Reply(response) => LegacyExchange([response], s, false, false)
    case ListNames => LegacyExchange([WithPayload(ResourcesPayload(SortedNames(s.keys)), StatusOk)], s, false, false)
    case ListRecords(resource, fields, filters) =>
      (match LegacyListSpec(s, resource, fields, filters)
       case Ok(rows) => LegacyExchange([WithPayload(RecordsPayload(rows), StatusOk)], s, false, false)
       case Err(e) => Failed(e, s))
    case ReadRecord(resource, id) =>
      (match ReadSpec(s, resource, id)
       case Ok(record) =>
         LegacyExchange([if record.vals == map[] then LegacyNotFound() else WithPayload(JObj(record), StatusOk)], s, false, false)
       case Err(e) => Failed(e, s))
    case CreateRecord(resource, record, recordId, generated) =>
      var o := CreateSpec(s, resource, record, IdArgument(recordId), idField, generated);
      Written(o.result, o.store)
    case SetRecord(resource, record, id) =>
      var o := SetSpec(s, resource, record, IdArgument(Some(id)), idField);
      Written(o.result, o.store)
    case UpdateRecord(resource, record, id) =>
      var o := UpdateSpec(s, resource, record, IdArgument(Some(id)), idField);
      Written(o.result, o.store)
    case DeleteRecord(resource, id) =>
      var o := DeleteSpec(s, resource, id);
      if o.result.Ok? then LegacyExchange([EmptyResponse(StatusNoContent)], o.store, true, false)
      else Failed(o.result.error, o.store)
  }

  /** An answered write, in both versions, for any error but the two no write raises. */
  lemma WrittenAgrees(result: Result<Object, StoreError>, store: Store<Object>)
    requires result.Err? ==> !result.error.kind.NotInitialized? && !result.error.kind.KeyError?
    ensures var x := Written(result, store);
      && (x.dropped <==> Answered(result).status == StatusInternalError)
      && (!x.dropped ==> x.sent == [Answered(result)])
  {
  }

  /**
   * The writes of both versions change the store alike and answer alike,
   * except that where the `src` handler answers 500 (an id that cannot be a
   * key) the older one dies without an answer.
   */
  lemma WritesAgree(s: Store<Object>, idField: string, a: Action)
    requires WellFormed(s) && RecordsValid(s) && ActionWellFormed(a)
    requires a.CreateRecord? || a.SetRecord? || a.UpdateRecord? || a.DeleteRecord?
    ensures var x := LegacyPerform(s, idField, a);
      var y := Perform(s, idField, a);
      && x.store == y.store && x.changed == y.changed
      && (x.dropped <==> y.response.status == StatusInternalError)
      && (!x.dropped ==> x.sent == [y.response])
  {
    match a
    case CreateRecord(resource, record, recordId, generated) =>
      var o := CreateSpec(s, resource, record, IdArgument(recordId), idField, generated);
      WrittenAgrees(o.result, o.store);
    case SetRecord(resource, record, id) =>
      var o := SetSpec(s, resource, record, IdArgument(Some(id)), idField);
      WrittenAgrees(o.result, o.store);
    case UpdateRecord(resource, record, id) =>
      var o := UpdateSpec(s, resource, record, IdArgument(Some(id)), idField);
      WrittenAgrees(o.result, o.store);
    case DeleteRecord(resource, id) =>
  }

  /**
   * A listing either answers as the `src` one does, or dies on the
   * `KeyError` of a contains-filter; it answers whenever every record has
   * the fields the contains-filters name.
   */
  lemma ListingsAgree(s: Store<Object>, idField: string, resource: string, fields: seq<string>, filters: seq<Filter>)
    requires WellFormed(s) && RecordsValid(s)
    ensures var x := LegacyPerform(s, idField, ListRecords(resource, fields, filters));
      var y := Perform(s, idField, ListRecords(resource, fields, filters));
      && (!x.dropped ==> x.sent == [y.response])
      && (x.dropped ==> resource in s.vals && LegacyListSpec(s, resource, fields, filters).error.kind == KeyError)
      && (resource in s.vals && (forall r | r in s.vals[resource].Values() :: LegacyFilters.ContainsFieldsPresent(filters, r)) ==> !x.dropped)
  {
    LegacyListAgrees(s, resource, fields, filters);
  }

  /** `POST /` with a JSON object sends the 405 and then creates a record in the resource `""`; as intended it only sends the 405. */
  lemma PostRootCreatesNamelessResource(req: Request, generated: string, idField: string, record: Object)
    requires RequestWellFormed(req) && IsUuid4Text(generated)
    requires req.path == "/" && req.contentType == JsonContentType && req.body == Some(record)
    ensures var c := PostAsWritten(req, generated);
      && c.before == [LegacyNotAllowed(req.command, req.target)]
      && c.action == CreateRecord("", record, None, generated)
      && "" in LegacyPerform(Empty(), idField, c.action).store.vals
    ensures LegacyPlan(Post, req, {}, generated) == Reply(LegacyNotAllowed(req.command, req.target))
  {
    ShapeOfRoot(req.path);
    assert ShapeOf(req.path).Root?;
    var a := CreateRecord("", record, None, generated);
    assert LegacyWithBody(req, r => CreateRecord("", r, None, generated)) == a;
    CreateAddsResource(Empty(), "", record, None, idField, generated);
    assert LegacyPerform(Empty(), idField, a).store == CreateSpec(Empty(), "", record, JNull, idField, generated).store;
  }

  /** Whatever `create` answers, the resource exists afterwards. */
  lemma CreateAddsResource(s: Store<Object>, resource: string, record: Object, recordId: Option<string>, idField: string, generated: string)
    requires WellFormed(s) && record.Valid() && IsUuid4Text(generated)
    ensures resource in CreateSpec(s, resource, record, IdArgument(recordId), idField, generated).store.vals
  {
    var res := ResolveCreateId(IdArgument(recordId), record, idField, generated);
    var v := Vivify(s, resource);
    assert resource in v.vals;
  }

  // ----------------------------------------------------------- handlers

  /** Runs one action against the older database. */
  method LegacyExecute(db: LegacyJsonDatabase, a: Action) returns (sent: seq<Response>, dropped: bool)
    requires db.Valid() && ActionWellFormed(a)
    modifies db
    ensures var x := LegacyPerform(old(db.records), db.idField, a);
      sent == x.sent && dropped == x.dropped && db.records == x.store
      && db.dirty == (old(db.dirty) || x.changed) && db.dataChanged == (old(db.dataChanged) || x.changed)
    ensures db.file == old(db.file) && db.lastSave == old(db.lastSave) && db.persistStop == old(db.persistStop)
    ensures db.persistPeriodLimit == old(db.persistPeriodLimit)
    ensures db.Valid()
  {
    match a
    case Reply(r) =>
      sent, dropped := [r], false;
    case ListNames =>
      var names := db.AvailableResources();
      sent, dropped := [WithPayload(ResourcesPayload(SortedNames(names)), StatusOk)], false;
    case ListRecords(resource, fields, filters) =>
      var result := db.ListResource(resource, fields, filters);
      if result.Ok? {
        sent, dropped := [WithPayload(RecordsPayload(result.value), StatusOk)], false;
      } else {
        var x := Failed(result.error, db.records);
        sent, dropped := x.sent, x.dropped;
      }
    case ReadRecord(resource, id) =>
      var result := db.Read(resource, id);
      if result.Err? {
        var x := Failed(result.error, db.records);
        sent, dropped := x.sent, x.dropped;
      } else if result.value.vals == map[] {
        sent, dropped := [LegacyNotFound()], false;
      } else {
        sent, dropped := [WithPayload(JObj(result.value), StatusOk)], false;
      }
    case CreateRecord(resource, record, recordId, generated) =>
      var result := db.Create(resource, record, recordId, generated);
      var x := Written(result, db.records);
      sent, dropped := x.sent, x.dropped;
    case SetRecord(resource, record, id) =>
      var result := db.Set(resource, record, Some(id));
      var x := Written(result, db.records);
      sent, dropped := x.sent, x.dropped;
    case UpdateRecord(resource, record, id) =>
      var result := db.Update(resource, record, Some(id));
      var x := Written(result, db.records);
      sent, dropped := x.sent, x.dropped;
    case DeleteRecord(resource, id) =>
      var result := db.Delete(resource, id);
      if result.Ok? {
        sent, dropped := [EmptyResponse(StatusNoContent)], false;
      } else {
        var x := Failed(result.error, db.records);
        sent, dropped := x.sent, x.dropped;
      }
  }

  /** The decision of `do_GET`, made with the instance's resource names and the inline filters. */
  method LegacyPlanGet(db: LegacyJsonDatabase, req: Request) returns (a: Action)
    requires db.Valid() && req.query.Valid()
    ensures a == LegacyPlan(Get, req, db.records.vals.Keys, "")
  {
    var slices := Slices(req.path);
    if slices == [""] {
      return ListNames;
    }
    var names := db.AvailableResources();
    var resource := slices[0];
    if resource !in names {
      return Reply(LegacyNotFound());
    }
    if |slices| == 1 || slices[1..] == [""] {
      var filters := LegacyGenerateSearchFilters(req.query);
      return ListRecords(resource, QueryFields(req.query), filters);
    }
    if |slices| > 2 {
      return Reply(UnexpectedPath(req.target));
    }
    a := ReadRecord(resource, slices[1]);
  }

  /**
   * What a handler writes when `instance()` raises: `do_GET` asks for the
   * instance first and writes nothing; the others write their refusal if
   * they refuse before they ask, and nothing otherwise.
   */
  function Uninitialized(verb: Verb, req: Request, generated: string): (x: (seq<Response>, bool))
    requires req.query.Valid()
    ensures verb == Get ==> x == ([], true)
    ensures x.1 <==> verb == Get || !LegacyPlan(verb, req, {}, generated).Reply?
  {
    if verb == Get then ([], true)
    else
      var a := LegacyPlan(verb, req, {}, generated);
      if a.Reply? then ([a.response], false) else ([], true)
  }

  /** What the older handler does to a store it found: the plan for the request, run against the store. */
  function LegacyServe(s: Store<Object>, idField: string, verb: Verb, req: Request, generated: string): (x: LegacyExchange)
    requires WellFormed(s) && RecordsValid(s) && RequestWellFormed(req) && IsUuid4Text(generated)
  {
    LegacyPlanWellFormed(verb, req, s.vals.Keys, generated);
    LegacyPerform(s, idField, LegacyPlan(verb, req, s.vals.Keys, generated))
  }

  /** One `do_*` handler, with the singleton looked up as the handler does. */
  method LegacyRespond(registry: Registry, verb: Verb, req: Request, generated: string) returns (sent: seq<Response>, dropped: bool)
    requires registry.instance.Some? ==> registry.instance.value.Valid()
    requires RequestWellFormed(req) && IsUuid4Text(generated)
    modifies if registry.instance.Some? then {registry.instance.value} else {}
    ensures registry.instance.None? ==> (sent, dropped) == Uninitialized(verb, req, generated)
    ensures registry.instance.Some? ==>
      var db := registry.instance.value;
      var x := LegacyServe(old(db.records), db.idField, verb, req, generated);
      sent == x.sent && dropped == x.dropped && db.records == x.store && db.dirty == (old(db.dirty) || x.changed)
      && db.dataChanged == (old(db.dataChanged) || x.changed)
      && db.Valid()
    ensures registry.instance.Some? ==>
      var db := registry.instance.value;
      && db.file == old(db.file) && db.lastSave == old(db.lastSave) && db.persistStop == old(db.persistStop)
      && db.persistPeriodLimit == old(db.persistPeriodLimit)
  {
    if verb != Get {
      var a := LegacyPlan(verb, req, {}, generated);
      if a.Reply? {
        sent, dropped := [a.response], false;
        if registry.instance.Some? {
          var db := registry.instance.value;
          assert a == LegacyPlan(verb, req, db.records.vals.Keys, generated);
        }
        return;
      }
    }
    var found := registry.Instance();
    if found.Err? {
      return [], true;
    }
    var db := found.value;
    var a;
    if verb == Get {
      a := LegacyPlanGet(db, req);
      assert a == LegacyPlan(Get, req, db.records.vals.Keys, generated);
    } else {
      a := LegacyPlan(verb, req, db.records.vals.Keys, generated);
    }
    LegacyPlanWellFormed(verb, req, db.records.vals.Keys, generated);
    sent, dropped := LegacyExecute(db, a);
  }

  /** `list_available_resources`: `{"resources": ...}` with every resource name once, sorted. */
  lemma ResourceListSorted(s: Store<Object>, idField: string)
    requires WellFormed(s) && RecordsValid(s)
    ensures exists names: seq<string> ::
      && LegacyPerform(s, idField, ListNames).sent == [WithPayload(ResourcesPayload(names), StatusOk)]
      && Ascending(names) && (forall y :: y in names <==> y in s.vals)
  {
    var names := SortedNames(s.keys);
    assert forall y :: y in s.keys <==> y in s.vals;
    assert LegacyPerform(s, idField, ListNames).sent == [WithPayload(ResourcesPayload(names), StatusOk)];
  }
}
