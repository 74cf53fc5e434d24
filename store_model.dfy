/**
 * What both versions of `JsonDatabase` share: the nested dictionary
 * resource -> record id -> record (a `defaultdict(dict)`), how a record id is
 * chosen, the errors, and how a listing selects and cuts down records.
 *
 * The dictionary operations are generic in the record type `V`: both
 * versions store JSON objects, but they key and serialise them differently.
 */
module StoreModel {
  import opened Results
  import opened OrderedDicts
  import opened JsonValues
  import opened Text
  import opened DataFilters

  /**
   * The exception raised by a store operation: the `JsonDatabaseError`
   * subclasses, Python's `TypeError` for an id that cannot be a key, and
   * the `KeyError` the older contains-filter raises for an absent field.
   */
  datatype ErrorKind = DuplicateValue | NotFound | MissingId | NotInitialized | TypeError | KeyError

  /** An exception with its one argument, the message. */
  datatype StoreError = StoreError(kind: ErrorKind, message: string)

  /** Records of one resource, by id. Ids are whatever value resolved as the id. */
  type Table<V> = ODict<Json, V>

  /** `records`: resource name -> id -> record. */
  type Store<V> = ODict<string, Table<V>>

  ghost predicate WellFormed<V>(s: Store<V>) {
    s.Valid() && forall r | r in s.vals :: s.vals[r].Valid()
  }

  /** `self.records[resource]` on the `defaultdict`: an unknown resource is added, empty, at the end. */
  function Vivify<V>(s: Store<V>, resource: string): (s': Store<V>)
    requires WellFormed(s)
    ensures WellFormed(s') && resource in s'.vals
    ensures resource in s.vals ==> s' == s
    ensures resource !in s.vals ==> s' == s.Put(resource, Empty())
  {
    if resource in s.vals then s else s.Put(resource, Empty())
  }

  /** `self.records[resource][record_id] = record` */
  function Insert<V>(s: Store<V>, resource: string, id: Json, v: V): (s': Store<V>)
    requires WellFormed(s)
    ensures WellFormed(s')
  {
    var t := Vivify(s, resource);
    t.Put(resource, t.vals[resource].Put(id, v))
  }

  /** `del self.records[resource][record_id]` */
  function Delete<V>(s: Store<V>, resource: string, id: Json): (s': Store<V>)
    requires WellFormed(s) && resource in s.vals && id in s.vals[resource].vals
    ensures WellFormed(s')
  {
    s.Put(resource, s.vals[resource].Remove(id))
  }

  /** The record stored under `id` in `resource`, if any. */
  function Find<V>(s: Store<V>, resource: string, id: Json): Option<V> {
    if resource in s.vals && id in s.vals[resource].vals then Some(s.vals[resource].vals[id]) else None
  }

  /** A record inserted is found under its id, and every other entry is as it was. */
  lemma FindAfterInsert<V>(s: Store<V>, resource: string, id: Json, v: V, r: string, k: Json)
    requires WellFormed(s)
    ensures Find(Insert(s, resource, id, v), r, k) == if r == resource && k == id then Some(v) else Find(s, r, k)
    ensures Insert(s, resource, id, v).vals.Keys == s.vals.Keys + {resource}
  {
  }

  /** Adding a missing resource, empty, changes no lookup. */
  lemma FindAfterVivify<V>(s: Store<V>, resource: string, r: string, k: Json)
    requires WellFormed(s)
    ensures Find(Vivify(s, resource), r, k) == Find(s, r, k)
    ensures Vivify(s, resource).vals.Keys == s.vals.Keys + {resource}
  {
  }

  /** A deleted record is no longer found, every other entry is as it was, and the resource stays. */
  lemma FindAfterDelete<V>(s: Store<V>, resource: string, id: Json, r: string, k: Json)
    requires WellFormed(s) && resource in s.vals && id in s.vals[resource].vals
    ensures Find(Delete(s, resource, id), r, k) == if r == resource && k == id then None else Find(s, r, k)
    ensures Delete(s, resource, id).vals.Keys == s.vals.Keys
    ensures Delete(s, resource, id).keys == s.keys
  {
  }

  // ---------------------------------------------------------------- ids

  /** The `record_id` argument: `None`, or a string from the request path. */
  function IdArgument(recordId: Option<string>): (j: Json)
    ensures j.JNull? || j.JStr?
  {
    if recordId.Some? then JStr(recordId.value) else JNull
  }

  /** The id an operation works on, and the record after the id was written into it. */
  datatype Resolution = Resolution(id: Json, body: Object)

  /**
   * The opening of `create`, `set` and `update`: a truthy `record_id` wins
   * and is written into the record; otherwise the record's own id field is
   * used; otherwise the (falsy) argument stays.
   */
  function ResolveId(arg: Json, body: Object, idField: string): (r: Resolution)
    requires body.Valid()
    ensures r.body.Valid()
    ensures Truthy(r.id) ==> idField in r.body.vals && r.body.vals[idField] == r.id
    ensures forall k | k != idField :: (k in r.body.vals <==> k in body.vals)
    ensures forall k | k != idField && k in body.vals :: r.body.vals[k] == body.vals[k]
    ensures body.keys <= r.body.keys
  {
    if Truthy(arg) then Resolution(arg, body.Put(idField, arg))
    else if idField in body.vals then Resolution(body.vals[idField], body)
    else Resolution(arg, body)
  }

  /** Which source the id came from, stated for all three cases. */
  lemma ResolveIdCases(arg: Json, body: Object, idField: string)
    requires body.Valid()
    ensures var r := ResolveId(arg, body, idField);
      && (Truthy(arg) ==> r.id == arg && r.body.vals == body.vals[idField := arg])
      && (!Truthy(arg) && idField in body.vals ==> r.id == body.vals[idField] && r.body == body)
      && (!Truthy(arg) && idField !in body.vals ==> r.id == arg && !Truthy(r.id) && r.body == body)
  {
  }


  /** Lower-case hexadecimal digit. */
  predicate IsHexDigit(c: char) {
    '0' <= c <= '9' || 'a' <= c <= 'f'
  }

  /**
   * `str(uuid.uuid4())`: 36 characters, hyphens at 8, 13, 18 and 23, version
   * digit `4`, variant digit one of `89ab` (section 4.4 of RFC 4122).
   */
  predicate IsUuid4Text(s: string) {
    && |s| == 36
    && (forall i | 0 <= i < 36 :: if i in {8, 13, 18, 23} then s[i] == '-' else IsHexDigit(s[i]))
    && s[14] == '4'
    && s[19] in "89ab"
  }

  /**
   * `create`'s id: as `ResolveId`, and when that is falsy the generated
   * uuid, written into the record. The outcome always names a truthy id
   * that the record carries in its id field.
   */
  function ResolveCreateId(arg: Json, body: Object, idField: string, generated: string): (r: Resolution)
    requires body.Valid() && IsUuid4Text(generated)
    ensures r.body.Valid()
    ensures Truthy(r.id) && idField in r.body.vals && r.body.vals[idField] == r.id
    ensures !Truthy(ResolveId(arg, body, idField).id) ==> r.id == JStr(generated)
    ensures Truthy(ResolveId(arg, body, idField).id) ==> r == ResolveId(arg, body, idField)
    ensures forall k | k != idField :: (k in r.body.vals <==> k in body.vals)
    ensures forall k | k != idField && k in body.vals :: r.body.vals[k] == body.vals[k]
  {
    var first := ResolveId(arg, body, idField);
    if Truthy(first.id) then first
    else Resolution(JStr(generated), first.body.Put(idField, JStr(generated)))
  }

  /**
   * An empty path segment (`/r/`) counts as no id: it takes the record's own
   * id the same way, `create` then treats it exactly as no id at all, and
   * otherwise both leave a falsy id.
   */
  lemma EmptyIdArgumentIsAbsent(body: Object, idField: string, generated: string)
    requires body.Valid() && IsUuid4Text(generated)
    ensures ResolveCreateId(IdArgument(Some("")), body, idField, generated)
         == ResolveCreateId(IdArgument(None), body, idField, generated)
    ensures var e := ResolveId(IdArgument(Some("")), body, idField);
            var n := ResolveId(IdArgument(None), body, idField);
            e.body == n.body && Truthy(e.id) == Truthy(n.id) && (idField in body.vals ==> e.id == n.id)
  {
  }

  // ----------------------------------------------------------- messages

  function UnknownResource(resource: string): StoreError {
    StoreError(NotFound, "Unknown Resource " + resource)
  }

  function MissingRecord(id: Json, resource: string): StoreError {
    StoreError(NotFound, "Record [" + Str(id) + "] does not exist for resource " + resource)
  }

  function Duplicate(resource: string): StoreError {
    StoreError(DuplicateValue, "Duplicate Record ID on resource " + resource)
  }

  function NoId(): StoreError {
    StoreError(MissingId, "Missing ID for record")
  }

  function Unhashable(id: Json): StoreError {
    StoreError(TypeError, UnhashableMessage(id))
  }

  // ------------------------------------------------------------ listing

  /** The record passes every filter. */
  predicate AllMatch(filters: seq<Filter>, rec: Object) {
    forall i | 0 <= i < |filters| :: Matches(filters[i], rec)
  }

  /** The records that pass every filter, in stored order. */
  function Select(rows: seq<Object>, filters: seq<Filter>): (r: seq<Object>)
    ensures |r| <= |rows|
    ensures forall x :: x in r <==> x in rows && AllMatch(filters, x)
  {
    if rows == [] then []
    else
      assert forall x | x in rows[1..] :: x in rows;
      (if AllMatch(filters, rows[0]) then [rows[0]] else []) + Select(rows[1..], filters)
  }

  /** `filter(record_filter, rows)`: the records that pass one filter, in order. */
  function Where(rows: seq<Object>, f: Filter): seq<Object> {
    if rows == [] then []
    else (if Matches(f, rows[0]) then [rows[0]] else []) + Where(rows[1..], f)
  }

  /** Applying one more filter to a selection is the same as selecting with it added. */
  lemma {:induction false} WhereSelect(rows: seq<Object>, filters: seq<Filter>, f: Filter)
    ensures Where(Select(rows, filters), f) == Select(rows, filters + [f])
  {
    if rows != [] {
      WhereSelect(rows[1..], filters, f);
      var x := rows[0];
      assert AllMatch(filters + [f], x) <==> AllMatch(filters, x) && Matches(f, x) by {
        assert forall i | 0 <= i < |filters| :: (filters + [f])[i] == filters[i];
        assert (filters + [f])[|filters|] == f;
      }
      WhereAppend(if AllMatch(filters, x) then [x] else [], Select(rows[1..], filters), f);
    }
  }

  lemma {:induction false} WhereAppend(a: seq<Object>, b: seq<Object>, f: Filter)
    ensures Where(a + b, f) == Where(a, f) + Where(b, f)
  {
    if a == [] {
      assert a + b == b;
    } else {
      var head := if Matches(f, a[0]) then [a[0]] else [];
      assert (a + b)[0] == a[0];
      assert (a + b)[1..] == a[1..] + b;
      assert Where(a, f) == head + Where(a[1..], f);
      assert Where(a + b, f) == head + Where(a[1..] + b, f);
      WhereAppend(a[1..], b, f);
    }
  }

  /** Selecting with no filters keeps every record. */
  lemma {:induction false} SelectNone(rows: seq<Object>)
    ensures Select(rows, []) == rows
  {
    if rows != [] { SelectNone(rows[1..]); }
  }

  /** Each selected record cut down to the requested fields; no fields requested means whole records. */
  function Project(rows: seq<Object>, fields: seq<string>): (r: seq<Object>)
    requires forall x | x in rows :: x.Valid()
    ensures |r| == |rows|
    ensures fields == [] ==> r == rows
    ensures forall i | 0 <= i < |rows| :: r[i].Valid()
    ensures fields != [] ==> forall i | 0 <= i < |rows| :: r[i] == rows[i].Project(fields)
  {
    if fields == [] then rows
    else seq(|rows|, i requires 0 <= i < |rows| => rows[i].Project(fields))
  }

  // ------------------------------------------------- operations on values

  /** Every stored record is a JSON object as `json.loads` gives it. */
  ghost predicate RecordsValid(s: Store<Object>) {
    forall r, k | r in s.vals && k in s.vals[r].vals :: WellFormedJson(JObj(s.vals[r].vals[k]))
  }

  /** A stored record is a well-formed dictionary. */
  lemma StoredRecordValid(s: Store<Object>, resource: string, id: Json)
    requires WellFormed(s) && RecordsValid(s) && resource in s.vals && id in s.vals[resource].vals
    ensures s.vals[resource].vals[id].Valid()
  {
  }

  /** What an operation answers and the store it leaves behind. */
  datatype Outcome<T> = Outcome(result: Result<T, StoreError>, store: Store<Object>)

  /**
   * What `create`, `set` and `delete` do to the dictionary once the id is
   * known: the error they raise, if any, and the dictionary afterwards.
   * Generic in the record, so it applies to the stored objects and to their
   * contents alike.
   */
  datatype Step<V> = Step(error: Option<StoreError>, store: Store<V>)

  /** The answer of an operation that returns `value` unless it raised. */
  function Answer<T>(error: Option<StoreError>, value: T): (r: Result<T, StoreError>)
    ensures r.Ok? <==> error.None?
  {
    if error.Some? then Err(error.value) else Ok(value)
  }

  /**
   * `create` from the duplicate check on: an id that cannot be a key fails
   * in the lookup (after the `defaultdict` added the resource when it was
   * missing), a stored id is a duplicate, anything else is stored.
   */
  function CreateStep<V>(s: Store<V>, resource: string, id: Json, v: V): (st: Step<V>)
    requires WellFormed(s)
    ensures WellFormed(st.store)
  {
    if !Hashable(id) then Step(Some(Unhashable(id)), Vivify(s, resource))
    else if resource in s.vals && id in s.vals[resource].vals then Step(Some(Duplicate(resource)), s)
    else Step(None, Insert(s, resource, id, v))
  }

  /** `set` from the id check on: no truthy id is `MissingId`, anything hashable is stored over what was there. */
  function SetStep<V>(s: Store<V>, resource: string, id: Json, v: V): (st: Step<V>)
    requires WellFormed(s)
    ensures WellFormed(st.store)
  {
    if !Truthy(id) then Step(Some(NoId()), s)
    else if !Hashable(id) then Step(Some(Unhashable(id)), Vivify(s, resource))
    else Step(None, Insert(s, resource, id, v))
  }

  /** `delete`: the resource and then the id must exist. */
  function DeleteStep<V>(s: Store<V>, resource: string, id: string): (st: Step<V>)
    requires WellFormed(s)
    ensures WellFormed(st.store)
  {
    if resource !in s.vals then Step(Some(UnknownResource(resource)), s)
    else if JStr(id) !in s.vals[resource].vals then Step(Some(MissingRecord(JStr(id), resource)), s)
    else Step(None, Delete(s, resource, JStr(id)))
  }

  /** `create`, on the contents of the store. */
  function CreateSpec(s: Store<Object>, resource: string, body: Object, arg: Json, idField: string, generated: string): (o: Outcome<Object>)
    requires WellFormed(s) && body.Valid() && IsUuid4Text(generated)
    ensures WellFormed(o.store)
  {
    var res := ResolveCreateId(arg, body, idField, generated);
    var st := CreateStep(s, resource, res.id, res.body);
    Outcome(Answer(st.error, res.body), st.store)
  }

  /** `set`, on the contents of the store. */
  function SetSpec(s: Store<Object>, resource: string, body: Object, arg: Json, idField: string): (o: Outcome<Object>)
    requires WellFormed(s) && body.Valid()
    ensures WellFormed(o.store)
  {
    var res := ResolveId(arg, body, idField);
    var st := SetStep(s, resource, res.id, res.body);
    Outcome(Answer(st.error, res.body), st.store)
  }

  /** `update`, on the contents of the store: the lookup goes through the `defaultdict`, so the resource exists afterwards whatever happens. */
  function UpdateSpec(s: Store<Object>, resource: string, body: Object, arg: Json, idField: string): (o: Outcome<Object>)
    requires WellFormed(s) && RecordsValid(s) && body.Valid()
    ensures WellFormed(o.store)
  {
    var res := ResolveId(arg, body, idField);
    UpdateStep(s, resource, res.id, res.body)
  }

  /**
   * `update` once the id is known: the resource is looked up through the
   * `defaultdict`, and the record under `id` is merged with `patch`.
   */
  function UpdateStep(s: Store<Object>, resource: string, id: Json, patch: Object): (o: Outcome<Object>)
    requires WellFormed(s) && RecordsValid(s) && patch.Valid()
    ensures WellFormed(o.store)
  {
    var v := Vivify(s, resource);
    if !Hashable(id) then Outcome(Err(Unhashable(id)), v)
    else if id !in v.vals[resource].vals then Outcome(Err(MissingRecord(id, resource)), v)
    else
      var merged := v.vals[resource].vals[id].Update(patch);
      Outcome(Ok(merged), Insert(v, resource, id, merged))
  }

  /** `delete`, on the contents of the store; the id comes from the request path. */
  function DeleteSpec(s: Store<Object>, resource: string, id: string): (o: Outcome<()>)
    requires WellFormed(s)
    ensures WellFormed(o.store)
  {
    var st := DeleteStep(s, resource, id);
    Outcome(Answer(st.error, ()), st.store)
  }

  /** `read`, on the contents of the store. */
  function ReadSpec(s: Store<Object>, resource: string, id: string): (r: Result<Object, StoreError>)
    ensures r.Ok? <==> Find(s, resource, JStr(id)).Some?
    ensures r.Ok? ==> Find(s, resource, JStr(id)) == Some(r.value)
  {
    if resource !in s.vals then Err(UnknownResource(resource))
    else if JStr(id) !in s.vals[resource].vals then Err(MissingRecord(JStr(id), resource))
    else Ok(s.vals[resource].vals[JStr(id)])
  }

  /** Every record a listing selects is a well-formed dictionary. */
  lemma SelectedValid(s: Store<Object>, resource: string, filters: seq<Filter>)
    requires WellFormed(s) && RecordsValid(s) && resource in s.vals
    ensures forall x | x in Select(s.vals[resource].Values(), filters) :: x.Valid()
  {
    var t := s.vals[resource];
    forall x | x in Select(t.Values(), filters) ensures x.Valid() {
      var i :| 0 <= i < |t.Values()| && t.Values()[i] == x;
      assert t.keys[i] in t.vals;
    }
  }

  /** `list_resource`, on the contents of the store. */
  function ListSpec(s: Store<Object>, resource: string, fields: seq<string>, filters: seq<Filter>): (r: Result<seq<Object>, StoreError>)
    requires WellFormed(s) && RecordsValid(s)
  {
    if resource !in s.vals then Err(UnknownResource(resource))
    else
      var rows := s.vals[resource].Values();
      assert forall x | x in rows :: x.Valid();
      Ok(Project(Select(rows, filters), fields))
  }

  // ------------------------------------------- what the operations promise

  /**
   * `create` stores the record under the id it resolved, or refuses a
   * duplicate, and touches nothing else; the stored record carries its id.
   */
  lemma CreateSpecEffect(s: Store<Object>, resource: string, body: Object, arg: Json, idField: string, generated: string, r: string, k: Json)
    requires WellFormed(s) && body.Valid() && IsUuid4Text(generated)
    ensures var res := ResolveCreateId(arg, body, idField, generated);
            var o := CreateSpec(s, resource, body, arg, idField, generated);
            && (o.result == Err(Duplicate(resource)) <==> Hashable(res.id) && Find(s, resource, res.id).Some?)
            && (o.result == Err(Duplicate(resource)) ==> o.store == s)
            && (o.result.Ok? <==> Hashable(res.id) && Find(s, resource, res.id).None?)
            && (o.result.Ok? ==> o.result.value == res.body)
            && (o.result.Ok? ==> o.result.value.vals[idField] == res.id
                                 && Find(o.store, r, k) == (if r == resource && k == res.id then Some(res.body) else Find(s, r, k)))
            && (o.result.Err? ==> Find(o.store, r, k) == Find(s, r, k))
  {
    var res := ResolveCreateId(arg, body, idField, generated);
    var o := CreateSpec(s, resource, body, arg, idField, generated);
    if !Hashable(res.id) {
      assert o == Outcome(Err(Unhashable(res.id)), Vivify(s, resource));
      FindAfterVivify(s, resource, r, k);
    } else if Find(s, resource, res.id).Some? {
      assert o == Outcome(Err(Duplicate(resource)), s);
    } else {
      assert o == Outcome(Ok(res.body), Insert(s, resource, res.id, res.body));
      FindAfterInsert(s, resource, res.id, res.body, r, k);
    }
  }

  /** `set` needs a truthy id; with one it overwrites whatever was stored under it. */
  lemma SetSpecEffect(s: Store<Object>, resource: string, body: Object, arg: Json, idField: string, r: string, k: Json)
    requires WellFormed(s) && body.Valid()
    ensures var res := ResolveId(arg, body, idField);
            var o := SetSpec(s, resource, body, arg, idField);
            && (o.result == Err(NoId()) <==> !Truthy(res.id))
            && (!Truthy(res.id) ==> o.store == s)
            && (o.result.Ok? <==> Truthy(res.id) && Hashable(res.id))
            && (o.result.Ok? ==> o.result.value == res.body)
            && (o.result.Ok? ==> o.result.value.vals[idField] == res.id
                                 && Find(o.store, r, k) == (if r == resource && k == res.id then Some(res.body) else Find(s, r, k)))
            && (o.result.Err? ==> Find(o.store, r, k) == Find(s, r, k))
  {
    var res := ResolveId(arg, body, idField);
    var o := SetSpec(s, resource, body, arg, idField);
    if !Truthy(res.id) {
      assert o == Outcome(Err(NoId()), s);
    } else if !Hashable(res.id) {
      assert o == Outcome(Err(Unhashable(res.id)), Vivify(s, resource));
      FindAfterVivify(s, resource, r, k);
    } else {
      assert o == Outcome(Ok(res.body), Insert(s, resource, res.id, res.body));
      FindAfterInsert(s, resource, res.id, res.body, r, k);
    }
  }

  /**
   * `update` merges: keys of the request body overwrite, every other stored
   * key stays; an unknown id is `NotFound` and stores nothing.
   */
  lemma UpdateSpecEffect(s: Store<Object>, resource: string, body: Object, arg: Json, idField: string, r: string, k: Json)
    requires WellFormed(s) && RecordsValid(s) && body.Valid()
    ensures var res := ResolveId(arg, body, idField);
            var o := UpdateSpec(s, resource, body, arg, idField);
            && (o.result.Ok? <==> Hashable(res.id) && Find(s, resource, res.id).Some?)
            && (o.result.Err? && Hashable(res.id) ==> o.result.error == MissingRecord(res.id, resource))
            && (o.result.Ok? ==>
                  var old_ := Find(s, resource, res.id).value;
                  && o.result.value.vals == old_.vals + res.body.vals
                  && o.result.value.keys[..|old_.keys|] == old_.keys
                  && Find(o.store, r, k) == (if r == resource && k == res.id then Some(o.result.value) else Find(s, r, k)))
            && (o.result.Err? ==> Find(o.store, r, k) == Find(s, r, k))
            && o.store.vals.Keys == s.vals.Keys + {resource}
  {
    var res := ResolveId(arg, body, idField);
    var o := UpdateSpec(s, resource, body, arg, idField);
    var v := Vivify(s, resource);
    FindAfterVivify(s, resource, r, k);
    FindAfterVivify(s, resource, resource, res.id);
    assert o == UpdateStep(s, resource, res.id, res.body);
    if !Hashable(res.id) {
      assert o == Outcome(Err(Unhashable(res.id)), v);
    } else if res.id !in v.vals[resource].vals {
      assert o == Outcome(Err(MissingRecord(res.id, resource)), v);
    } else {
      var stored := v.vals[resource].vals[res.id];
      assert Find(s, resource, res.id) == Some(stored);
      var merged := stored.Update(res.body);
      assert o == Outcome(Ok(merged), Insert(v, resource, res.id, merged));
      FindAfterInsert(v, resource, res.id, merged, r, k);
    }
  }

  /** `delete` removes exactly that record; the resource itself stays. */
  lemma DeleteSpecEffect(s: Store<Object>, resource: string, id: string, r: string, k: Json)
    requires WellFormed(s)
    ensures var o := DeleteSpec(s, resource, id);
            && (o.result.Ok? <==> Find(s, resource, JStr(id)).Some?)
            && Find(o.store, r, k) == (if o.result.Ok? && r == resource && k == JStr(id) then None else Find(s, r, k))
            && o.store.keys == s.keys
  {
    if resource in s.vals && JStr(id) in s.vals[resource].vals {
      FindAfterDelete(s, resource, JStr(id), r, k);
    }
  }

  /** A record just created reads back as created. */
  lemma ReadAfterCreate(s: Store<Object>, resource: string, body: Object, idField: string, id: string, generated: string)
    requires WellFormed(s) && body.Valid() && IsUuid4Text(generated) && id != []
    requires CreateSpec(s, resource, body, JStr(id), idField, generated).result.Ok?
    ensures ReadSpec(CreateSpec(s, resource, body, JStr(id), idField, generated).store, resource, id)
         == CreateSpec(s, resource, body, JStr(id), idField, generated).result
  {
    CreateSpecEffect(s, resource, body, JStr(id), idField, generated, resource, JStr(id));
  }

  /** A listing without filters or fields is the whole resource, in stored order. */
  lemma ListEverything(s: Store<Object>, resource: string)
    requires WellFormed(s) && RecordsValid(s) && resource in s.vals
    ensures ListSpec(s, resource, [], []) == Ok(s.vals[resource].Values())
  {
    SelectNone(s.vals[resource].Values());
  }

  // ---------------------------------------------------- id consistency

  /** Every record sits under the value of its own id field, and that value can be a key. */
  ghost predicate IdsConsistent(s: Store<Object>, idField: string) {
    forall r, k | r in s.vals && k in s.vals[r].vals ::
      Hashable(k) && idField in s.vals[r].vals[k].vals && s.vals[r].vals[k].vals[idField] == k
  }

  lemma InsertKeepsIds(s: Store<Object>, resource: string, id: Json, rec: Object, idField: string)
    requires WellFormed(s) && IdsConsistent(s, idField)
    requires Hashable(id) && idField in rec.vals && rec.vals[idField] == id
    ensures IdsConsistent(Insert(s, resource, id, rec), idField)
  {
    var t := Insert(s, resource, id, rec);
    forall r, k | r in t.vals && k in t.vals[r].vals
      ensures Hashable(k) && idField in t.vals[r].vals[k].vals && t.vals[r].vals[k].vals[idField] == k
    {
      FindAfterInsert(s, resource, id, rec, r, k);
      assert Find(t, r, k) == Some(t.vals[r].vals[k]);
      if !(r == resource && k == id) {
        assert Find(s, r, k) == Some(s.vals[r].vals[k]);
      }
    }
  }

  lemma VivifyKeepsIds(s: Store<Object>, resource: string, idField: string)
    requires WellFormed(s) && IdsConsistent(s, idField)
    ensures IdsConsistent(Vivify(s, resource), idField)
  {
  }

  /** `create` keeps each record under its own id. */
  lemma CreateKeepsIds(s: Store<Object>, resource: string, body: Object, arg: Json, idField: string, generated: string)
    requires WellFormed(s) && body.Valid() && IsUuid4Text(generated) && IdsConsistent(s, idField)
    ensures IdsConsistent(CreateSpec(s, resource, body, arg, idField, generated).store, idField)
  {
    VivifyKeepsIds(s, resource, idField);
    var c := ResolveCreateId(arg, body, idField, generated);
    if Hashable(c.id) && !(resource in s.vals && c.id in s.vals[resource].vals) {
      InsertKeepsIds(s, resource, c.id, c.body, idField);
    }
  }

  /** `set` keeps each record under its own id. */
  lemma SetKeepsIds(s: Store<Object>, resource: string, body: Object, arg: Json, idField: string)
    requires WellFormed(s) && body.Valid() && IdsConsistent(s, idField)
    ensures IdsConsistent(SetSpec(s, resource, body, arg, idField).store, idField)
  {
    VivifyKeepsIds(s, resource, idField);
    var res := ResolveId(arg, body, idField);
    if Truthy(res.id) && Hashable(res.id) {
      InsertKeepsIds(s, resource, res.id, res.body, idField);
    }
  }

  /** `update` keeps each record under its own id: the merged record keeps or receives the id it is stored under. */
  lemma UpdateKeepsIds(s: Store<Object>, resource: string, body: Object, arg: Json, idField: string)
    requires WellFormed(s) && RecordsValid(s) && body.Valid() && IdsConsistent(s, idField)
    ensures IdsConsistent(UpdateSpec(s, resource, body, arg, idField).store, idField)
  {
    VivifyKeepsIds(s, resource, idField);
    var res := ResolveId(arg, body, idField);
    var v := Vivify(s, resource);
    if Hashable(res.id) && res.id in v.vals[resource].vals {
      var stored := v.vals[resource].vals[res.id];
      var merged := stored.Update(res.body);
      assert idField in merged.vals && merged.vals[idField] == res.id by {
        if !Truthy(arg) && idField in body.vals {
          assert res.body == body;
        }
      }
      InsertKeepsIds(v, resource, res.id, merged, idField);
    }
  }

  /** `delete` keeps each record under its own id. */
  lemma DeleteKeepsIds(s: Store<Object>, resource: string, id: string, idField: string)
    requires WellFormed(s) && IdsConsistent(s, idField)
    ensures IdsConsistent(DeleteSpec(s, resource, id).store, idField)
  {
    if resource in s.vals && JStr(id) in s.vals[resource].vals {
      var d := Delete(s, resource, JStr(id));
      forall r, k | r in d.vals && k in d.vals[r].vals
        ensures Find(d, r, k) == Find(s, r, k)
      {
        FindAfterDelete(s, resource, JStr(id), r, k);
      }
    }
  }

  // ------------------------------------------- records stay JSON objects

  /** Writing the id into a record keeps it a JSON object when the id is one. */
  lemma ResolveWellFormed(arg: Json, body: Object, idField: string)
    requires WellFormedJson(JObj(body)) && WellFormedJson(arg)
    ensures WellFormedJson(JObj(ResolveId(arg, body, idField).body))
  {
  }

  lemma ResolveCreateWellFormed(arg: Json, body: Object, idField: string, generated: string)
    requires WellFormedJson(JObj(body)) && WellFormedJson(arg) && IsUuid4Text(generated)
    ensures WellFormedJson(JObj(ResolveCreateId(arg, body, idField, generated).body))
  {
    ResolveWellFormed(arg, body, idField);
  }

  /** `stored.update(patch)` of two JSON objects is one. */
  lemma MergeWellFormed(stored: Object, patch: Object)
    requires WellFormedJson(JObj(stored)) && WellFormedJson(JObj(patch))
    ensures WellFormedJson(JObj(stored.Update(patch)))
  {
  }

  lemma InsertRecordsValid(s: Store<Object>, resource: string, id: Json, rec: Object)
    requires WellFormed(s) && RecordsValid(s) && WellFormedJson(JObj(rec))
    ensures RecordsValid(Insert(s, resource, id, rec))
  {
    var t := Insert(s, resource, id, rec);
    forall r, k | r in t.vals && k in t.vals[r].vals
      ensures WellFormedJson(JObj(t.vals[r].vals[k]))
    {
      FindAfterInsert(s, resource, id, rec, r, k);
      assert Find(t, r, k) == Some(t.vals[r].vals[k]);
      if !(r == resource && k == id) {
        assert Find(s, r, k) == Some(s.vals[r].vals[k]);
      }
    }
  }

  /** Adding an empty resource keeps every record a JSON object. */
  lemma VivifyRecordsValid(s: Store<Object>, resource: string)
    requires WellFormed(s) && RecordsValid(s)
    ensures RecordsValid(Vivify(s, resource))
  {
  }

  /** `create` leaves only JSON objects in the store, given a request body that is one. */
  lemma CreateKeepsRecordsValid(s: Store<Object>, resource: string, body: Object, arg: Json, idField: string, generated: string)
    requires WellFormed(s) && RecordsValid(s) && WellFormedJson(JObj(body)) && WellFormedJson(arg) && IsUuid4Text(generated)
    ensures RecordsValid(CreateSpec(s, resource, body, arg, idField, generated).store)
  {
    var c := ResolveCreateId(arg, body, idField, generated);
    ResolveCreateWellFormed(arg, body, idField, generated);
    VivifyRecordsValid(s, resource);
    if Hashable(c.id) && !(resource in s.vals && c.id in s.vals[resource].vals) {
      InsertRecordsValid(s, resource, c.id, c.body);
    }
  }

  /** `set` leaves only JSON objects in the store, given a request body that is one. */
  lemma SetKeepsRecordsValid(s: Store<Object>, resource: string, body: Object, arg: Json, idField: string)
    requires WellFormed(s) && RecordsValid(s) && WellFormedJson(JObj(body)) && WellFormedJson(arg)
    ensures RecordsValid(SetSpec(s, resource, body, arg, idField).store)
  {
    var res := ResolveId(arg, body, idField);
    ResolveWellFormed(arg, body, idField);
    VivifyRecordsValid(s, resource);
    if Truthy(res.id) && Hashable(res.id) {
      InsertRecordsValid(s, resource, res.id, res.body);
    }
  }

  /** `update` leaves only JSON objects in the store, given a request body that is one. */
  lemma UpdateKeepsRecordsValid(s: Store<Object>, resource: string, body: Object, arg: Json, idField: string)
    requires WellFormed(s) && RecordsValid(s) && WellFormedJson(JObj(body)) && WellFormedJson(arg)
    ensures RecordsValid(UpdateSpec(s, resource, body, arg, idField).store)
  {
    var res := ResolveId(arg, body, idField);
    ResolveWellFormed(arg, body, idField);
    var v := Vivify(s, resource);
    VivifyRecordsValid(s, resource);
    var o := UpdateSpec(s, resource, body, arg, idField);
    if Hashable(res.id) && res.id in v.vals[resource].vals {
      var stored := v.vals[resource].vals[res.id];
      var merged := stored.Update(res.body);
      assert o.store == Insert(v, resource, res.id, merged);
      MergeWellFormed(stored, res.body);
      InsertRecordsValid(v, resource, res.id, merged);
    } else {
      assert o.store == v;
    }
  }

  /** `delete` leaves only JSON objects in the store. */
  lemma DeleteKeepsRecordsValid(s: Store<Object>, resource: string, id: string)
    requires WellFormed(s) && RecordsValid(s)
    ensures RecordsValid(DeleteSpec(s, resource, id).store)
  {
    if resource in s.vals && JStr(id) in s.vals[resource].vals {
      var d := Delete(s, resource, JStr(id));
      forall r, k | r in d.vals && k in d.vals[r].vals ensures Find(d, r, k) == Find(s, r, k) {
        FindAfterDelete(s, resource, JStr(id), r, k);
      }
    }
  }
}
