/**
 * The older `JsonDatabase` of `mock_rest_server/database.py`: the same
 * record operations as the `src` version, a singleton made by `init` and
 * fetched by `instance`, a file that holds the nested dictionary itself,
 * resource names in insertion order, and the lazily chained filters of
 * `LegacyFilters`.
 */
module LegacyDatabase {
  import opened Results
  import opened OrderedDicts
  import opened JsonValues
  import opened DataFilters
  import opened StoreModel
  import opened Snapshots
  import opened Persistence
  import opened LegacyFilters

  /** What the constructor starts from: `self.records.update(json.load(db))` when the file loads, otherwise nothing. */
  function LegacyLoaded(file: DbFile): (s: Store<Object>)
    ensures WellFormed(s)
    ensures !(file.Holds? && file.content.Some?) ==> s == Empty()
  {
    if file.Holds? && file.content.Some? && LegacyLoad(file.content.value).Some?
    then LegacyLoad(file.content.value).value
    else Empty()
  }

  /** A file of JSON loads as JSON records under ids that can be keys. */
  lemma LegacyLoadedFacts(file: DbFile)
    requires FileWellFormed(file)
    ensures RecordsValid(LegacyLoaded(file)) && KeysHashable(LegacyLoaded(file))
  {
    if file.Holds? && file.content.Some? {
      LegacyLoadFacts(file.content.value);
    }
  }

  /** Every id in the store is a string, as every id taken from a URL is. */
  ghost predicate AllStringKeyed(s: Store<Object>) {
    forall r | r in s.vals :: StringKeyed(s.vals[r])
  }

  /** `list_resource` of the older version: the chained filters may raise, and the records are not copied. */
  function LegacyListSpec(s: Store<Object>, resource: string, fields: seq<string>, filters: seq<Filter>): (r: Result<seq<Object>, StoreError>)
    requires WellFormed(s) && RecordsValid(s)
  {
    if resource !in s.vals then Err(UnknownResource(resource))
    else match LegacySelect(s.vals[resource].Values(), filters)
      case Err(e) => Err(e)
      case Ok(rows) =>
        LegacySelectAgrees(s.vals[resource].Values(), filters);
        SelectedValid(s, resource, filters);
        Ok(Project(rows, fields))
  }

  /**
   * The older listing agrees with the `src` one whenever it does not raise,
   * and it only raises the `KeyError` of a contains-filter.
   */
  lemma LegacyListAgrees(s: Store<Object>, resource: string, fields: seq<string>, filters: seq<Filter>)
    requires WellFormed(s) && RecordsValid(s)
    ensures var r := LegacyListSpec(s, resource, fields, filters);
            && (r.Ok? ==> r == ListSpec(s, resource, fields, filters))
            && (r.Err? && resource in s.vals ==> r.error.kind == KeyError)
    ensures resource in s.vals && (forall x | x in s.vals[resource].Values() :: ContainsFieldsPresent(filters, x))
            ==> LegacyListSpec(s, resource, fields, filters) == ListSpec(s, resource, fields, filters)
  {
    if resource in s.vals {
      LegacySelectAgrees(s.vals[resource].Values(), filters);
      PassesRaisesKeyError(s.vals[resource].Values(), filters);
    }
  }

  lemma {:induction false} PassesRaisesKeyError(rows: seq<Object>, filters: seq<Filter>)
    ensures LegacySelect(rows, filters).Err? ==> LegacySelect(rows, filters).error.kind == KeyError
    decreases |rows|
  {
    if rows != [] {
      PassesKeyError(filters, rows[0]);
      PassesRaisesKeyError(rows[1..], filters);
    }
  }

  lemma {:induction false} PassesKeyError(filters: seq<Filter>, rec: Object)
    ensures Passes(filters, rec).Err? ==> Passes(filters, rec).error.kind == KeyError
    decreases |filters|
  {
    if filters != [] {
      PassesKeyError(filters[1..], rec);
    }
  }

  // ------------------------------------------------ ids stay usable keys

  lemma InsertKeepsKeysHashable(s: Store<Object>, resource: string, id: Json, rec: Object)
    requires WellFormed(s) && KeysHashable(s) && Hashable(id)
    ensures KeysHashable(Insert(s, resource, id, rec))
  {
    forall r, k | r in Insert(s, resource, id, rec).vals && k in Insert(s, resource, id, rec).vals[r].vals
      ensures Find(Insert(s, resource, id, rec), r, k) == if r == resource && k == id then Some(rec) else Find(s, r, k)
    {
      FindAfterInsert(s, resource, id, rec, r, k);
    }
  }

  /** `create` only stores under an id that can be a key. */
  lemma CreateKeepsKeysHashable(s: Store<Object>, resource: string, body: Object, arg: Json, idField: string, generated: string)
    requires WellFormed(s) && body.Valid() && IsUuid4Text(generated) && KeysHashable(s)
    ensures KeysHashable(CreateSpec(s, resource, body, arg, idField, generated).store)
  {
    var c := ResolveCreateId(arg, body, idField, generated);
    if Hashable(c.id) {
      InsertKeepsKeysHashable(s, resource, c.id, c.body);
    }
  }

  /** `set` only stores under an id that can be a key. */
  lemma SetKeepsKeysHashable(s: Store<Object>, resource: string, body: Object, arg: Json, idField: string)
    requires WellFormed(s) && body.Valid() && KeysHashable(s)
    ensures KeysHashable(SetSpec(s, resource, body, arg, idField).store)
  {
    var res := ResolveId(arg, body, idField);
    if Hashable(res.id) {
      InsertKeepsKeysHashable(s, resource, res.id, res.body);
    }
  }

  /** `update` only stores under an id that was already there. */
  lemma UpdateKeepsKeysHashable(s: Store<Object>, resource: string, body: Object, arg: Json, idField: string)
    requires WellFormed(s) && RecordsValid(s) && body.Valid() && KeysHashable(s)
    ensures KeysHashable(UpdateSpec(s, resource, body, arg, idField).store)
  {
    var res := ResolveId(arg, body, idField);
    var v := Vivify(s, resource);
    if Hashable(res.id) && res.id in v.vals[resource].vals {
      InsertKeepsKeysHashable(v, resource, res.id, v.vals[resource].vals[res.id].Update(res.body));
    }
  }

  /** `delete` only removes. */
  lemma DeleteKeepsKeysHashable(s: Store<Object>, resource: string, id: string)
    requires WellFormed(s) && KeysHashable(s)
    ensures KeysHashable(DeleteSpec(s, resource, id).store)
  {
    if resource in s.vals && JStr(id) in s.vals[resource].vals {
      var d := StoreModel.Delete(s, resource, JStr(id));
      forall r, k | r in d.vals && k in d.vals[r].vals ensures Find(d, r, k) == Find(s, r, k) {
        FindAfterDelete(s, resource, JStr(id), r, k);
      }
    }
  }

  const NotInitializedMessage := "JsonDatabase.init has not yet been called."
  const AlreadyInitializedMessage := "JsonDatabase.init has already been called."

  /** The constructor's default period. */
  const DefaultPersistPeriodLimit := 30

  class LegacyJsonDatabase {
    var records: Store<Object>
    const idField: string
    var file: DbFile
    var persistPeriodLimit: int
    var persistStop: bool
    var dataChanged: bool
    var dirty: bool
    var lastSave: int

    /** The dictionaries are well formed, every record is a JSON object under an id that can be a key, and the file holds JSON. */
    ghost predicate Valid()
      reads this
    {
      WellFormed(records) && RecordsValid(records) && KeysHashable(records) && FileWellFormed(file)
    }

    /** `__init__`: loads the file when there is one that loads, and starts clean. */
    constructor (file: DbFile, idField: string, persistPeriodLimit: int)
      requires FileWellFormed(file)
      ensures this.file == file && this.idField == idField && this.persistPeriodLimit == persistPeriodLimit
      ensures !persistStop && !dataChanged && !dirty && lastSave == -1
      ensures records == LegacyLoaded(file)
      ensures Valid()
    {
      this.file := file;
      this.idField := idField;
      this.persistPeriodLimit := persistPeriodLimit;
      persistStop := false;
      dataChanged := false;
      dirty := false;
      lastSave := -1;
      var loaded: Store<Object> := Empty();
      if file.Holds? && file.content.Some? {
        var content := LegacyLoad(file.content.value);
        if content.Some? {
          loaded := content.value;
        }
      }
      records := loaded;
      LegacyLoadedFacts(file);
    }

    /** The new dictionary, and under the lock `dirty` and `data_changed` when the operation succeeded. */
    method Commit(store: Store<Object>, changed: bool)
      requires WellFormed(store) && RecordsValid(store) && KeysHashable(store) && FileWellFormed(file)
      modifies this
      ensures records == store
      ensures dirty == (old(dirty) || changed) && dataChanged == (old(dataChanged) || changed)
      ensures file == old(file) && lastSave == old(lastSave) && persistStop == old(persistStop)
      ensures persistPeriodLimit == old(persistPeriodLimit)
      ensures Valid()
    {
      records := store;
      if changed {
        dirty := true;
        dataChanged := true;
      }
    }

    /** `available_resources`: the key view, every resource once, in the order the resources appeared. */
    method AvailableResources() returns (names: seq<string>)
      requires Valid()
      ensures Distinct(names)
      ensures forall y :: y in names <==> y in records.vals
      ensures names == records.keys
    {
      names := records.keys;
    }

    /** `read`: the stored record itself, or `NotFound`. */
    method Read(resource: string, id: string) returns (result: Result<Object, StoreError>)
      requires Valid()
      ensures result == ReadSpec(records, resource, id)
    {
      if resource !in records.vals {
        return Err(UnknownResource(resource));
      }
      if JStr(id) !in records.vals[resource].vals {
        return Err(MissingRecord(JStr(id), resource));
      }
      result := Ok(records.vals[resource].vals[JStr(id)]);
    }

    /** `list_resource`: the records that pass every filter, cut down to `fields`; a contains-filter on an absent field raises. */
    method ListResource(resource: string, fields: seq<string>, filters: seq<Filter>) returns (result: Result<seq<Object>, StoreError>)
      requires Valid()
      ensures result == LegacyListSpec(records, resource, fields, filters)
    {
      if resource !in records.vals {
        return Err(UnknownResource(resource));
      }
      var rows := LegacySelect(records.vals[resource].Values(), filters);
      if rows.Err? {
        return Err(rows.error);
      }
      LegacySelectAgrees(records.vals[resource].Values(), filters);
      SelectedValid(records, resource, filters);
      result := Ok(Project(rows.value, fields));
    }

    /** `create`: as in the `src` version. */
    method Create(resource: string, body: Object, recordId: Option<string>, generated: string) returns (result: Result<Object, StoreError>)
      requires Valid() && WellFormedJson(JObj(body)) && IsUuid4Text(generated)
      modifies this
      ensures var o := CreateSpec(old(records), resource, body, IdArgument(recordId), idField, generated);
              records == o.store && result == o.result
      ensures dirty == (old(dirty) || result.Ok?) && dataChanged == (old(dataChanged) || result.Ok?)
      ensures file == old(file) && lastSave == old(lastSave) && persistStop == old(persistStop)
      ensures persistPeriodLimit == old(persistPeriodLimit)
      ensures Valid()
    {
      var record := body;
      var id := IdArgument(recordId);
      if Truthy(id) {
        record := record.Put(idField, id);
      } else if idField in record.vals {
        id := record.vals[idField];
      }
      if !Truthy(id) {
        id := JStr(generated);
        record := record.Put(idField, id);
      }
      assert Resolution(id, record) == ResolveCreateId(IdArgument(recordId), body, idField, generated);
      var store := records;
      if !Hashable(id) {
        store := Vivify(store, resource);
        result := Err(Unhashable(id));
      } else if resource in store.vals && id in store.vals[resource].vals {
        result := Err(Duplicate(resource));
      } else {
        store := Insert(store, resource, id, record);
        result := Ok(record);
      }
      CreateKeepsRecordsValid(records, resource, body, IdArgument(recordId), idField, generated);
      CreateKeepsKeysHashable(records, resource, body, IdArgument(recordId), idField, generated);
      Commit(store, result.Ok?);
    }

    /** `set`: as in the `src` version. */
    method Set(resource: string, body: Object, recordId: Option<string>) returns (result: Result<Object, StoreError>)
      requires Valid() && WellFormedJson(JObj(body))
      modifies this
      ensures var o := SetSpec(old(records), resource, body, IdArgument(recordId), idField);
              records == o.store && result == o.result
      ensures dirty == (old(dirty) || result.Ok?) && dataChanged == (old(dataChanged) || result.Ok?)
      ensures file == old(file) && lastSave == old(lastSave) && persistStop == old(persistStop)
      ensures persistPeriodLimit == old(persistPeriodLimit)
      ensures Valid()
    {
      var record := body;
      var id := IdArgument(recordId);
      if Truthy(id) {
        record := record.Put(idField, id);
      } else if idField in record.vals {
        id := record.vals[idField];
      }
      assert Resolution(id, record) == ResolveId(IdArgument(recordId), body, idField);
      var store := records;
      if !Truthy(id) {
        result := Err(NoId());
      } else if !Hashable(id) {
        store := Vivify(store, resource);
        result := Err(Unhashable(id));
      } else {
        store := Insert(store, resource, id, record);
        result := Ok(record);
      }
      SetKeepsRecordsValid(records, resource, body, IdArgument(recordId), idField);
      SetKeepsKeysHashable(records, resource, body, IdArgument(recordId), idField);
      Commit(store, result.Ok?);
    }

    /** `update`: as in the `src` version. */
    method Update(resource: string, body: Object, recordId: Option<string>) returns (result: Result<Object, StoreError>)
      requires Valid() && WellFormedJson(JObj(body))
      modifies this
      ensures var o := UpdateSpec(old(records), resource, body, IdArgument(recordId), idField);
              records == o.store && result == o.result
      ensures dirty == (old(dirty) || result.Ok?) && dataChanged == (old(dataChanged) || result.Ok?)
      ensures file == old(file) && lastSave == old(lastSave) && persistStop == old(persistStop)
      ensures persistPeriodLimit == old(persistPeriodLimit)
      ensures Valid()
    {
      var record := body;
      var id := IdArgument(recordId);
      if Truthy(id) {
        record := record.Put(idField, id);
      } else if idField in record.vals {
        id := record.vals[idField];
      }
      assert Resolution(id, record) == ResolveId(IdArgument(recordId), body, idField);
      var store := Vivify(records, resource);
      if !Hashable(id) {
        result := Err(Unhashable(id));
      } else if id !in store.vals[resource].vals {
        result := Err(MissingRecord(id, resource));
      } else {
        StoredRecordValid(records, resource, id);
        var merged := store.vals[resource].vals[id].Update(record);
        store := Insert(store, resource, id, merged);
        result := Ok(merged);
      }
      UpdateKeepsRecordsValid(records, resource, body, IdArgument(recordId), idField);
      UpdateKeepsKeysHashable(records, resource, body, IdArgument(recordId), idField);
      Commit(store, result.Ok?);
    }

    /** `delete`: as in the `src` version. */
    method Delete(resource: string, id: string) returns (result: Result<(), StoreError>)
      requires Valid()
      modifies this
      ensures var o := DeleteSpec(old(records), resource, id);
              records == o.store && result == o.result
      ensures dirty == (old(dirty) || result.Ok?) && dataChanged == (old(dataChanged) || result.Ok?)
      ensures file == old(file) && lastSave == old(lastSave) && persistStop == old(persistStop)
      ensures persistPeriodLimit == old(persistPeriodLimit)
      ensures Valid()
    {
      var store := records;
      if resource !in store.vals {
        result := Err(UnknownResource(resource));
      } else if JStr(id) !in store.vals[resource].vals {
        result := Err(MissingRecord(JStr(id), resource));
      } else {
        store := StoreModel.Delete(store, resource, JStr(id));
        result := Ok(());
      }
      DeleteKeepsRecordsValid(records, resource, id);
      DeleteKeepsKeysHashable(records, resource, id);
      Commit(store, result.Ok?);
    }

    /**
     * `_persist` at time `now`: opening the path raises when there is no
     * path or it is not a file, and then nothing changes; otherwise the
     * flags are cleared, the time noted and the dictionary written as it is.
     * With string ids only, a restart loads the same store back.
     */
    method Persist(now: int) returns (outcome: SaveOutcome)
      requires Valid()
      modifies this
      ensures Valid()
      ensures records == old(records) && persistPeriodLimit == old(persistPeriodLimit) && persistStop == old(persistStop)
      ensures outcome.Saved? || outcome.Raised?
      ensures outcome.Raised? <==> old(file).NoPath? || old(file).NotAFile?
      ensures outcome.Raised? ==> file == old(file) && dirty == old(dirty) && dataChanged == old(dataChanged) && lastSave == old(lastSave)
      ensures outcome.Saved? ==> file == Holds(Some(LegacyDump(records))) && !dirty && !dataChanged && lastSave == now
      ensures outcome.Saved? && AllStringKeyed(records) ==> LegacyLoaded(file) == records
    {
      if file.NoPath? || file.NotAFile? {
        return Raised;
      }
      dataChanged := false;
      dirty := false;
      lastSave := now;
      LegacyDumpWellFormed(records);
      if AllStringKeyed(records) {
        LegacyLoadAfterDump(records);
      }
      file := Holds(Some(LegacyDump(records)));
      outcome := Saved;
    }

    /**
     * One pass of `persist_event_loop` once `data_changed.wait()` has
     * returned at `now`: wait out the debounce period, save when dirty,
     * and go round again unless stopping or the save raised (which ends
     * the thread).
     */
    method LoopStep(now: int) returns (saved: Option<SaveOutcome>, running: bool)
      requires Valid() && dataChanged
      modifies this
      ensures saved.Some? <==> old(dirty)
      ensures saved == Some(Saved) ==> lastSave == now + DebounceDelay(now, old(lastSave), old(persistPeriodLimit))
      ensures saved == Some(Saved) ==> lastSave >= old(lastSave) + old(persistPeriodLimit) && !dirty && !dataChanged
      ensures saved != Some(Saved) ==> lastSave == old(lastSave) && file == old(file) && dirty == old(dirty) && dataChanged
      ensures running <==> !persistStop && saved != Some(Raised)
      ensures saved.Some? ==> (saved.value.Raised? <==> old(file).NoPath? || old(file).NotAFile?)
      ensures records == old(records) && persistStop == old(persistStop) && persistPeriodLimit == old(persistPeriodLimit)
      ensures Valid()
      ensures saved == Some(Saved) ==> file == Holds(Some(LegacyDump(records)))
      ensures saved == Some(Saved) && AllStringKeyed(records) ==> LegacyLoaded(file) == records
    {
      var wake := now;
      if now - lastSave < persistPeriodLimit {
        wake := persistPeriodLimit + lastSave;
      }
      assert wake == now + DebounceDelay(now, lastSave, persistPeriodLimit);
      saved := None;
      if dirty {
        var outcome := Persist(wake);
        saved := Some(outcome);
      }
      running := !persistStop && saved != Some(Raised);
    }

    /**
     * `shutdown` at time `now`: no more debounce, stop and wake the loop,
     * and `join` it, which waits for its last pass: that pass saves at
     * once when there is anything to save, and the loop ends.
     */
    method Shutdown(now: int) returns (saved: Option<SaveOutcome>)
      requires Valid() && now >= lastSave
      modifies this
      ensures persistPeriodLimit == 0 && persistStop
      ensures saved.Some? <==> old(dirty)
      ensures saved == Some(Saved) ==> lastSave == now && !dirty
      ensures saved != Some(Saved) ==> lastSave == old(lastSave) && dirty == old(dirty) && file == old(file) && dataChanged
      ensures saved.Some? ==> (saved.value.Raised? <==> old(file).NoPath? || old(file).NotAFile?)
      ensures records == old(records)
      ensures Valid()
      ensures saved == Some(Saved) ==> file == Holds(Some(LegacyDump(records))) && !dataChanged
      ensures saved == Some(Saved) && AllStringKeyed(records) ==> LegacyLoaded(file) == records
    {
      persistPeriodLimit := 0;
      persistStop := true;
      dataChanged := true;
      var running;
      saved, running := LoopStep(now);
    }
  }

  /** The class attribute `_instance` and the class methods around it. */
  class Registry {
    var instance: Option<LegacyJsonDatabase>

    constructor ()
      ensures instance.None?
    {
      instance := None;
    }

    /** `init`: makes the one instance; a second call only warns and keeps the first. */
    method Init(file: DbFile, idField: string) returns (warning: Option<string>)
      requires FileWellFormed(file)
      modifies this
      ensures old(instance).Some? ==> instance == old(instance) && warning == Some(AlreadyInitializedMessage)
      ensures old(instance).None? ==> warning.None? && instance.Some? && fresh(instance.value)
      ensures old(instance).None? ==>
        var db := instance.value;
        db.records == LegacyLoaded(file) && db.idField == idField && db.file == file
        && db.persistPeriodLimit == DefaultPersistPeriodLimit && !db.dirty && db.Valid()
        && !db.persistStop && !db.dataChanged && db.lastSave == -1
    {
      if instance.Some? {
        return Some(AlreadyInitializedMessage);
      }
      var db := new LegacyJsonDatabase(file, idField, DefaultPersistPeriodLimit);
      instance := Some(db);
      warning := None;
    }

    /** `instance`: the one instance, or the `RuntimeError` before `init`. */
    method Instance() returns (result: Result<LegacyJsonDatabase, string>)
      ensures result.Ok? <==> instance.Some?
      ensures result.Ok? ==> result.value == instance.value
      ensures result.Err? ==> result.error == NotInitializedMessage
    {
      if instance.None? {
        return Err(NotInitializedMessage);
      }
      result := Ok(instance.value);
    }
  }
}
