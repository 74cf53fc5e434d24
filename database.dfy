/**
 * `JsonDatabase` of `src/mock_rest_server/database.py`: the record store
 * behind the REST server. The nested dictionary `records` holds the records
 * (their contents; see README for what that leaves out), the flags `dirty`
 * and `data_changed` tell the persistence loop there is something to save,
 * and a save writes resource -> list of records, at most once per
 * `persist_period_limit`.
 */
module Database {
  import opened Results
  import opened OrderedDicts
  import opened JsonValues
  import opened Text
  import opened DataFilters
  import opened StoreModel
  import opened Snapshots
  import opened Persistence

  /** The contents the constructor starts from: the file's store when it loads, otherwise nothing. */
  function Loaded(file: DbFile, idField: string): (s: Store<Object>)
    ensures WellFormed(s)
    ensures !(file.Holds? && file.content.Some?) ==> s == Empty()
  {
    if file.Holds? && file.content.Some? && Load(file.content.value, idField).Some?
    then Load(file.content.value, idField).value
    else Empty()
  }

  /** A file of JSON loads as JSON records, each under its own id. */
  lemma LoadedFacts(file: DbFile, idField: string)
    requires FileWellFormed(file)
    ensures RecordsValid(Loaded(file, idField)) && IdsConsistent(Loaded(file, idField), idField)
  {
    if file.Holds? && file.content.Some? {
      LoadFacts(file.content.value, idField);
    }
  }

  /** The `filter(record_filter, ...)` loop of `list_resource`: each filter in turn narrows the rows. */
  method ApplyFilters(all: seq<Object>, filters: seq<Filter>) returns (rows: seq<Object>)
    ensures rows == Select(all, filters)
  {
    rows := all;
    SelectNone(all);
    for i := 0 to |filters|
      invariant rows == Select(all, filters[..i])
    {
      WhereSelect(all, filters[..i], filters[i]);
      assert filters[..i + 1] == filters[..i] + [filters[i]];
      rows := Where(rows, filters[i]);
    }
    assert filters[..|filters|] == filters;
  }

  const NoFileMessage := "No database file specified."

  class JsonDatabase {
    var records: Store<Object>
    const idField: string
    var file: DbFile
    var persistPeriodLimit: int
    var persistStop: bool
    var dataChanged: bool
    var dirty: bool
    var lastSave: int
    /** The attribute `_persist` sets once it has printed that there is no file. */
    var noFileWarned: bool

    /**
     * The dictionaries are well formed, every record is a JSON object stored
     * under the value of its own id field, and the file holds JSON.
     */
    ghost predicate Valid()
      reads this
    {
      WellFormed(records) && RecordsValid(records) && IdsConsistent(records, idField) && FileWellFormed(file)
    }

    /** `__init__`: loads the file when there is one that loads, and starts clean. */
    constructor (file: DbFile, idField: string, persistPeriodLimit: int)
      requires FileWellFormed(file)
      ensures this.file == file && this.idField == idField && this.persistPeriodLimit == persistPeriodLimit
      ensures !persistStop && !dataChanged && !dirty && lastSave == -1 && !noFileWarned
      ensures records == Loaded(file, idField)
      ensures Valid()
    {
      this.file := file;
      this.idField := idField;
      this.persistPeriodLimit := persistPeriodLimit;
      persistStop := false;
      dataChanged := false;
      dirty := false;
      lastSave := -1;
      noFileWarned := false;
      var loaded: Store<Object> := Empty();
      if file.Holds? && file.content.Some? {
        var content := Load(file.content.value, idField);
        if content.Some? {
          loaded := content.value;
        }
      }
      records := loaded;
      LoadedFacts(file, idField);
    }

    /**
     * The end of every operation that changes the store: the new
     * dictionary, and under the lock `dirty` and `data_changed` when it
     * succeeded.
     */
    method Commit(store: Store<Object>, changed: bool)
      requires WellFormed(store) && RecordsValid(store) && IdsConsistent(store, idField) && FileWellFormed(file)
      modifies this
      ensures records == store
      ensures dirty == (old(dirty) || changed) && dataChanged == (old(dataChanged) || changed)
      ensures file == old(file) && lastSave == old(lastSave) && persistStop == old(persistStop)
      ensures persistPeriodLimit == old(persistPeriodLimit) && noFileWarned == old(noFileWarned)
      ensures Valid()
    {
      records := store;
      if changed {
        dirty := true;
        dataChanged := true;
      }
    }

    /** `available_resources`: every resource name once, in ascending order. */
    method AvailableResources() returns (names: seq<string>)
      requires Valid()
      ensures Ascending(names)
      ensures forall y :: y in names <==> y in records.vals
    {
      names := SortedNames(records.keys);
    }

    /** `read`: the stored record, or `NotFound` for an unknown resource or id. */
    method Read(resource: string, id: string) returns (result: Result<Object, StoreError>)
      requires Valid()
      ensures result == ReadSpec(records, resource, id)
    {
      if resource !in records.vals {
        return Err(UnknownResource(resource));
      }
      if JStr(id) !in records.vals[resource].vals {
        return Err(MissingRecord(JStr(id), resource));
      }
      result := Ok(records.vals[resource].vals[JStr(id)]);
    }

    /** `list_resource`: the records that pass every filter, cut down to `fields` when there are any. */
    method ListResource(resource: string, fields: seq<string>, filters: seq<Filter>) returns (result: Result<seq<Object>, StoreError>)
      requires Valid()
      ensures result == ListSpec(records, resource, fields, filters)
    {
      if resource !in records.vals {
        return Err(UnknownResource(resource));
      }
      var rows := ApplyFilters(records.vals[resource].Values(), filters);
      SelectedValid(records, resource, filters);
      result := Ok(Project(rows, fields));
    }

    /**
     * `create`: stores the record under the id it resolves (the path's,
     * the record's own, or the generated uuid), unless that id is taken.
     */
    method Create(resource: string, body: Object, recordId: Option<string>, generated: string) returns (result: Result<Object, StoreError>)
      requires Valid() && WellFormedJson(JObj(body)) && IsUuid4Text(generated)
      modifies this
      ensures var o := CreateSpec(old(records), resource, body, IdArgument(recordId), idField, generated);
              records == o.store && result == o.result
      ensures dirty == (old(dirty) || result.Ok?) && dataChanged == (old(dataChanged) || result.Ok?)
      ensures file == old(file) && lastSave == old(lastSave) && persistStop == old(persistStop)
      ensures persistPeriodLimit == old(persistPeriodLimit) && noFileWarned == old(noFileWarned)
      ensures Valid()
    {
      var record := body;
      var id := IdArgument(recordId);
      if Truthy(id) {
        record := record.Put(idField, id);
      } else if idField in record.vals {
        id := record.vals[idField];
      }
      if !Truthy(id) {
        id := JStr(generated);
        record := record.Put(idField, id);
      }
      assert Resolution(id, record) == ResolveCreateId(IdArgument(recordId), body, idField, generated);
      var store := records;
      if !Hashable(id) {
        // the lookup, or the assignment after the `defaultdict` added the resource, raises
        store := Vivify(store, resource);
        result := Err(Unhashable(id));
      } else if resource in store.vals && id in store.vals[resource].vals {
        result := Err(Duplicate(resource));
      } else {
        store := Insert(store, resource, id, record);
        result := Ok(record);
      }
      CreateKeepsRecordsValid(records, resource, body, IdArgument(recordId), idField, generated);
      CreateKeepsIds(records, resource, body, IdArgument(recordId), idField, generated);
      Commit(store, result.Ok?);
    }

    /** `set`: stores the record under its id over whatever was there; no truthy id is `MissingId`. */
    method Set(resource: string, body: Object, recordId: Option<string>) returns (result: Result<Object, StoreError>)
      requires Valid() && WellFormedJson(JObj(body))
      modifies this
      ensures var o := SetSpec(old(records), resource, body, IdArgument(recordId), idField);
              records == o.store && result == o.result
      ensures dirty == (old(dirty) || result.Ok?) && dataChanged == (old(dataChanged) || result.Ok?)
      ensures file == old(file) && lastSave == old(lastSave) && persistStop == old(persistStop)
      ensures persistPeriodLimit == old(persistPeriodLimit) && noFileWarned == old(noFileWarned)
      ensures Valid()
    {
      var record := body;
      var id := IdArgument(recordId);
      if Truthy(id) {
        record := record.Put(idField, id);
      } else if idField in record.vals {
        id := record.vals[idField];
      }
      assert Resolution(id, record) == ResolveId(IdArgument(recordId), body, idField);
      var store := records;
      if !Truthy(id) {
        result := Err(NoId());
      } else if !Hashable(id) {
        store := Vivify(store, resource);
        result := Err(Unhashable(id));
      } else {
        store := Insert(store, resource, id, record);
        result := Ok(record);
      }
      SetKeepsRecordsValid(records, resource, body, IdArgument(recordId), idField);
      SetKeepsIds(records, resource, body, IdArgument(recordId), idField);
      Commit(store, result.Ok?);
    }

    /** `update`: merges the request body into the stored record; an unknown id is `NotFound`. */
    method Update(resource: string, body: Object, recordId: Option<string>) returns (result: Result<Object, StoreError>)
      requires Valid() && WellFormedJson(JObj(body))
      modifies this
      ensures var o := UpdateSpec(old(records), resource, body, IdArgument(recordId), idField);
              records == o.store && result == o.result
      ensures dirty == (old(dirty) || result.Ok?) && dataChanged == (old(dataChanged) || result.Ok?)
      ensures file == old(file) && lastSave == old(lastSave) && persistStop == old(persistStop)
      ensures persistPeriodLimit == old(persistPeriodLimit) && noFileWarned == old(noFileWarned)
      ensures Valid()
    {
      var record := body;
      var id := IdArgument(recordId);
      if Truthy(id) {
        record := record.Put(idField, id);
      } else if idField in record.vals {
        id := record.vals[idField];
      }
      assert Resolution(id, record) == ResolveId(IdArgument(recordId), body, idField);
      // `self.records[resource]` adds a missing resource before the id is looked up
      var store := Vivify(records, resource);
      if !Hashable(id) {
        result := Err(Unhashable(id));
      } else if id !in store.vals[resource].vals {
        result := Err(MissingRecord(id, resource));
      } else {
        StoredRecordValid(records, resource, id);
        var merged := store.vals[resource].vals[id].Update(record);
        store := Insert(store, resource, id, merged);
        result := Ok(merged);
      }
      UpdateKeepsRecordsValid(records, resource, body, IdArgument(recordId), idField);
      UpdateKeepsIds(records, resource, body, IdArgument(recordId), idField);
      Commit(store, result.Ok?);
    }

    /** `delete`: removes the record; an unknown resource or id is `NotFound`. */
    method Delete(resource: string, id: string) returns (result: Result<(), StoreError>)
      requires Valid()
      modifies this
      ensures var o := DeleteSpec(old(records), resource, id);
              records == o.store && result == o.result
      ensures dirty == (old(dirty) || result.Ok?) && dataChanged == (old(dataChanged) || result.Ok?)
      ensures file == old(file) && lastSave == old(lastSave) && persistStop == old(persistStop)
      ensures persistPeriodLimit == old(persistPeriodLimit) && noFileWarned == old(noFileWarned)
      ensures Valid()
    {
      var store := records;
      if resource !in store.vals {
        result := Err(UnknownResource(resource));
      } else if JStr(id) !in store.vals[resource].vals {
        result := Err(MissingRecord(JStr(id), resource));
      } else {
        store := StoreModel.Delete(store, resource, JStr(id));
        result := Ok(());
      }
      DeleteKeepsRecordsValid(records, resource, id);
      DeleteKeepsIds(records, resource, id, idField);
      Commit(store, result.Ok?);
    }

    /**
     * `_persist` at time `now`: without a path it only notes the time (and
     * prints once); otherwise it rewrites the file with the whole store and
     * clears both flags, and a restart then loads the same store back.
     */
    method Persist(now: int) returns (outcome: SaveOutcome)
      requires Valid()
      modifies this
      ensures lastSave == now
      ensures records == old(records) && persistPeriodLimit == old(persistPeriodLimit) && persistStop == old(persistStop)
      ensures old(file).NoPath? <==> outcome.Skipped?
      ensures old(file).NotAFile? <==> outcome.Raised?
      ensures outcome.Skipped? ==> noFileWarned && outcome.message == (if old(noFileWarned) then None else Some(NoFileMessage))
      ensures !outcome.Skipped? ==> noFileWarned == old(noFileWarned)
      ensures !outcome.Saved? ==> file == old(file) && dirty == old(dirty) && dataChanged == old(dataChanged)
      ensures outcome.Saved? ==> file == Holds(Some(Dump(records))) && !dirty && !dataChanged
      ensures outcome.Saved? ==> Loaded(file, idField) == records
      ensures Valid()
    {
      lastSave := now;
      if file.NoPath? {
        if !noFileWarned {
          noFileWarned := true;
          return Skipped(Some(NoFileMessage));
        }
        return Skipped(None);
      }
      if file.NotAFile? {
        return Raised;
      }
      dataChanged := false;
      dirty := false;
      DumpWellFormed(records);
      LoadAfterDump(records, idField);
      file := Holds(Some(Dump(records)));
      outcome := Saved;
    }

    /**
     * One pass of `maintain_data_persistence` once `data_changed.wait()` has
     * returned at `now` (the event is set): unless stopping, wait until the
     * debounce period since the last save is over, save when dirty, and go
     * round again unless the stop event is set or the save raised.
     */
    method MaintainStep(now: int) returns (saved: Option<SaveOutcome>, running: bool)
      requires Valid() && dataChanged
      modifies this
      ensures saved.Some? <==> old(dirty)
      ensures saved.Some? ==> lastSave == now + DebounceDelay(now, old(lastSave), old(persistPeriodLimit))
      ensures saved.Some? ==> lastSave >= old(lastSave) + old(persistPeriodLimit)
      ensures saved.None? ==> lastSave == old(lastSave) && dataChanged && file == old(file)
      ensures saved.Some? ==> (saved.value.Skipped? <==> old(file).NoPath?) && (saved.value.Raised? <==> old(file).NotAFile?)
      ensures saved.Some? && !saved.value.Saved? ==> file == old(file) && dirty == old(dirty) && dataChanged
      ensures saved.Some? && saved.value.Skipped? ==>
        noFileWarned && saved.value.message == (if old(noFileWarned) then None else Some(NoFileMessage))
      ensures (saved.None? || !saved.value.Skipped?) ==> noFileWarned == old(noFileWarned)
      ensures running <==> !persistStop && saved != Some(Raised)
      ensures records == old(records) && persistStop == old(persistStop) && persistPeriodLimit == old(persistPeriodLimit)
      ensures saved.None? ==> dirty == old(dirty)
      ensures Valid()
      ensures saved == Some(Saved) ==> file == Holds(Some(Dump(records))) && Loaded(file, idField) == records && !dirty && !dataChanged
    {
      var wake := now;
      if now - lastSave < persistPeriodLimit {
        wake := persistPeriodLimit + lastSave;
      }
      assert wake == now + DebounceDelay(now, lastSave, persistPeriodLimit);
      saved := None;
      if dirty {
        var outcome := Persist(wake);
        saved := Some(outcome);
      }
      running := !persistStop && saved != Some(Raised);
    }

    /** `shutdown`: no more debounce, stop the loop and wake it for a last save. */
    method Shutdown()
      modifies this
      ensures persistPeriodLimit == 0 && persistStop && dataChanged
      ensures records == old(records) && file == old(file) && dirty == old(dirty) && lastSave == old(lastSave)
      ensures noFileWarned == old(noFileWarned)
    {
      persistPeriodLimit := 0;
      persistStop := true;
      dataChanged := true;
    }
  }
}
