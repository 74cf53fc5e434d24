/**
 * The database file. Both versions write the whole store as one JSON object
 * keyed by resource name and read it back at start-up, in different shapes:
 *  - the `src` version writes each resource as a list of its records and
 *    rebuilds the id index from each record's id field;
 *  - the older version writes the id-keyed dictionaries themselves, so the
 *    ids become JSON object keys, which are always strings.
 */
module Snapshots {
  import opened Results
  import opened OrderedDicts
  import opened JsonValues
  import opened StoreModel

  /** The first `n` entries of a dictionary. */
  function Prefix<K(==,!new), V>(d: ODict<K, V>, n: nat): (p: ODict<K, V>)
    requires d.Valid() && n <= |d.keys|
    ensures p.Valid()
  {
    assert forall i, j | 0 <= i < j < n :: d.keys[..n][i] == d.keys[i] && d.keys[..n][j] == d.keys[j];
    ODict(d.keys[..n], map k | k in d.keys[..n] :: d.vals[k])
  }

  lemma PrefixAll<K(!new), V>(d: ODict<K, V>)
    requires d.Valid()
    ensures Prefix(d, |d.keys|) == d
  {
    assert d.keys[..|d.keys|] == d.keys;
  }

  lemma PrefixStep<K(!new), V>(d: ODict<K, V>, n: nat)
    requires d.Valid() && n < |d.keys|
    ensures Prefix(d, n + 1) == Prefix(d, n).Put(d.keys[n], d.vals[d.keys[n]])
  {
    var k := d.keys[n];
    TakeSnoc(d.keys, n + 1);
    DistinctNotBefore(d.keys, n);
    var a := Prefix(d, n + 1);
    var b := Prefix(d, n).Put(k, d.vals[k]);
    assert a.keys == b.keys;
    assert a.vals == b.vals by {
      assert forall x :: x in d.keys[..n + 1] <==> x in d.keys[..n] || x == k;
    }
  }

  // ------------------------------------------------ src: lists of records

  /** `list(resource_records.values())` as JSON. */
  function RowsJson(t: Table<Object>): (rows: seq<Json>)
    requires t.Valid()
    ensures |rows| == |t.keys|
  {
    seq(|t.keys|, i requires 0 <= i < |t.keys| => JObj(t.vals[t.keys[i]]))
  }

  /** What `_persist` writes: resource -> list of its records, in stored order. */
  function Dump(s: Store<Object>): Json
    requires WellFormed(s)
  {
    JObj(ODict(s.keys, map r | r in s.vals :: JArr(RowsJson(s.vals[r]))))
  }

  /** Iterating a loaded value: a list yields its items, an empty object or string yields nothing, anything else raises. */
  function Iterated(v: Json): Option<seq<Json>> {
    match v
    case JArr(items) => Some(items)
    case JObj(o) => if o.vals == map[] then Some([]) else None
    case JStr(s) => if s == [] then Some([]) else None
    case _ => None
  }

  /** `{record[self.id_field]: record for record in items}`; `None` when a record is not an object, lacks the id field or has an unhashable id. */
  function LoadTable(items: seq<Json>, idField: string): (t: Option<Table<Object>>)
    ensures t.Some? ==> t.value.Valid()
    decreases |items|
  {
    if items == [] then Some(Empty())
    else
      match LoadTable(items[..|items| - 1], idField)
      case None => None
      case Some(t) =>
        var last := items[|items| - 1];
        if last.JObj? && idField in last.obj.vals && Hashable(last.obj.vals[idField])
        then Some(t.Put(last.obj.vals[idField], last.obj))
        else None
  }

  /** The resources `ks` of the loaded object, in that order. */
  function LoadResources(o: Object, ks: seq<string>, idField: string): (s: Option<Store<Object>>)
    ensures s.Some? ==> WellFormed(s.value)
    decreases |ks|
  {
    if ks == [] then Some(Empty())
    else
      match LoadResources(o, ks[..|ks| - 1], idField)
      case None => None
      case Some(acc) =>
        var r := ks[|ks| - 1];
        if r !in o.vals then None
        else match Iterated(o.vals[r])
          case None => None
          case Some(items) =>
            match LoadTable(items, idField)
            case None => None
            case Some(t) => Some(acc.Put(r, t))
  }

  /** What the constructor loads from the file: `None` when reading raises, and the store then stays empty. */
  function Load(j: Json, idField: string): (s: Option<Store<Object>>)
    ensures s.Some? ==> WellFormed(s.value)
  {
    if j.JObj? then LoadResources(j.obj, j.obj.keys, idField) else None
  }

  /** Every record is stored under the value of its own id field, which can be a key. */
  ghost predicate KeyedById(t: Table<Object>, idField: string) {
    forall k | k in t.vals :: Hashable(k) && idField in t.vals[k].vals && t.vals[k].vals[idField] == k
  }

  lemma {:induction false} LoadTableRows(t: Table<Object>, idField: string, n: nat)
    requires t.Valid() && n <= |t.keys| && KeyedById(t, idField)
    ensures LoadTable(RowsJson(t)[..n], idField) == Some(Prefix(t, n))
  {
    if n > 0 {
      LoadTableRows(t, idField, n - 1);
      LoadTableRowsStep(t, idField, n);
    } else {
      assert Prefix(t, 0) == Empty();
    }
  }

  lemma LoadTableRowsStep(t: Table<Object>, idField: string, n: nat)
    requires t.Valid() && 0 < n <= |t.keys| && KeyedById(t, idField)
    requires LoadTable(RowsJson(t)[..n - 1], idField) == Some(Prefix(t, n - 1))
    ensures LoadTable(RowsJson(t)[..n], idField) == Some(Prefix(t, n))
  {
    var rows := RowsJson(t);
    var k := t.keys[n - 1];
    var rec := t.vals[k];
    assert rows[n - 1] == JObj(rec);
    TakeSnoc(rows, n);
    assert idField in rec.vals && rec.vals[idField] == k && Hashable(k);
    LoadTablePush(rows[..n - 1], rec, idField, Prefix(t, n - 1));
    PrefixStep(t, n - 1);
  }

  /** Loading one more record adds it under its own id. */
  lemma LoadTablePush(items: seq<Json>, rec: Object, idField: string, p: Table<Object>)
    requires LoadTable(items, idField) == Some(p)
    requires idField in rec.vals && Hashable(rec.vals[idField])
    ensures LoadTable(items + [JObj(rec)], idField) == Some(p.Put(rec.vals[idField], rec))
  {
    assert (items + [JObj(rec)])[..|items|] == items;
  }

  lemma {:induction false} LoadResourcesDump(s: Store<Object>, idField: string, n: nat)
    requires WellFormed(s) && IdsConsistent(s, idField) && n <= |s.keys|
    ensures LoadResources(Dump(s).obj, s.keys[..n], idField) == Some(Prefix(s, n))
  {
    if n > 0 {
      LoadResourcesDump(s, idField, n - 1);
      LoadResourcesDumpStep(s, idField, n);
    } else {
      assert Prefix(s, 0) == Empty();
    }
  }

  lemma LoadResourcesDumpStep(s: Store<Object>, idField: string, n: nat)
    requires WellFormed(s) && IdsConsistent(s, idField) && 0 < n <= |s.keys|
    requires LoadResources(Dump(s).obj, s.keys[..n - 1], idField) == Some(Prefix(s, n - 1))
    ensures LoadResources(Dump(s).obj, s.keys[..n], idField) == Some(Prefix(s, n))
  {
    var r := s.keys[n - 1];
    assert r in s.vals;
    var t := s.vals[r];
    assert KeyedById(t, idField);
    LoadTableRows(t, idField, |t.keys|);
    assert RowsJson(t)[..|t.keys|] == RowsJson(t);
    PrefixAll(t);
    var o := Dump(s).obj;
    assert o.vals[r] == JArr(RowsJson(t));
    TakeSnoc(s.keys, n);
    LoadResourcesPush(o, s.keys[..n - 1], r, idField, Prefix(s, n - 1), t);
    PrefixStep(s, n - 1);
  }

  /** Loading one more resource whose list loads adds it, at the end. */
  lemma LoadResourcesPush(o: Object, ks: seq<string>, r: string, idField: string, acc: Store<Object>, t: Table<Object>)
    requires LoadResources(o, ks, idField) == Some(acc)
    requires r in o.vals && o.vals[r].JArr? && LoadTable(o.vals[r].items, idField) == Some(t)
    ensures LoadResources(o, ks + [r], idField) == Some(acc.Put(r, t))
  {
    assert (ks + [r])[..|ks|] == ks;
  }

  /**
   * Restarting against the file `_persist` wrote gives back the same store:
   * resources, their order, ids, record order and records.
   */
  lemma LoadAfterDump(s: Store<Object>, idField: string)
    requires WellFormed(s) && IdsConsistent(s, idField)
    ensures Load(Dump(s), idField) == Some(s)
  {
    LoadResourcesDump(s, idField, |s.keys|);
    assert s.keys[..|s.keys|] == s.keys;
    PrefixAll(s);
  }

  // ------------------------------------- older version: id-keyed objects

  /** How `json.dump` writes a dictionary key: strings as they are, the other scalars as JSON literals. */
  function KeyText(k: Json): (t: string)
    requires Hashable(k)
    ensures k.JStr? ==> t == k.s
  {
    match k
    case JStr(s) => s
    case JInt(i) => IntToString(i)
    case JBool(b) => if b then "true" else "false"
    case JNull => "null"
  }

  /** The ids of a table are all strings, as ids taken from a URL are. */
  ghost predicate StringKeyed(t: Table<Object>) {
    forall k | k in t.vals :: k.JStr?
  }

  ghost predicate KeysHashable(s: Store<Object>) {
    forall r, k | r in s.vals && k in s.vals[r].vals :: Hashable(k)
  }

  /** The JSON object written for the first `n` records of a table; two ids with the same text collapse into one entry. */
  function LegacyTableJson(t: Table<Object>, n: nat): (o: Object)
    requires t.Valid() && n <= |t.keys|
    requires forall k | k in t.vals :: Hashable(k)
    ensures o.Valid()
  {
    if n == 0 then Empty()
    else LegacyTableJson(t, n - 1).Put(KeyText(t.keys[n - 1]), JObj(t.vals[t.keys[n - 1]]))
  }

  /** What the older `_persist` writes: `json.dump(self.records)`. */
  function LegacyDump(s: Store<Object>): Json
    requires WellFormed(s) && KeysHashable(s)
  {
    JObj(ODict(s.keys, map r | r in s.vals :: JObj(LegacyTableJson(s.vals[r], |s.vals[r].keys|))))
  }

  /** One loaded resource: every id comes back as a string key and every record must be an object. */
  function LegacyLoadTable(o: Object, ks: seq<string>): (t: Option<Table<Object>>)
    ensures t.Some? ==> t.value.Valid()
    decreases |ks|
  {
    if ks == [] then Some(Empty())
    else
      match LegacyLoadTable(o, ks[..|ks| - 1])
      case None => None
      case Some(t) =>
        var k := ks[|ks| - 1];
        if k in o.vals && o.vals[k].JObj? then Some(t.Put(JStr(k), o.vals[k].obj)) else None
  }

  function LegacyLoadResources(o: Object, ks: seq<string>): (s: Option<Store<Object>>)
    ensures s.Some? ==> WellFormed(s.value)
    decreases |ks|
  {
    if ks == [] then Some(Empty())
    else
      match LegacyLoadResources(o, ks[..|ks| - 1])
      case None => None
      case Some(acc) =>
        var r := ks[|ks| - 1];
        if r in o.vals && o.vals[r].JObj? then
          match LegacyLoadTable(o.vals[r].obj, o.vals[r].obj.keys)
          case None => None
          case Some(t) => Some(acc.Put(r, t))
        else None
  }

  /** What the older constructor loads with `self.records.update(json.load(db))`. */
  function LegacyLoad(j: Json): (s: Option<Store<Object>>)
    ensures s.Some? ==> WellFormed(s.value) && forall r | r in s.value.vals :: StringKeyed(s.value.vals[r])
  {
    if j.JObj? then LegacyLoadStringKeyed(j.obj, j.obj.keys); LegacyLoadResources(j.obj, j.obj.keys) else None
  }

  lemma {:induction false} LegacyLoadTableStringKeyed(o: Object, ks: seq<string>)
    ensures LegacyLoadTable(o, ks).Some? ==> StringKeyed(LegacyLoadTable(o, ks).value)
    decreases |ks|
  {
    if ks != [] {
      LegacyLoadTableStringKeyed(o, ks[..|ks| - 1]);
    }
  }

  lemma {:induction false} LegacyLoadStringKeyed(o: Object, ks: seq<string>)
    ensures LegacyLoadResources(o, ks).Some? ==>
      forall r | r in LegacyLoadResources(o, ks).value.vals :: StringKeyed(LegacyLoadResources(o, ks).value.vals[r])
    decreases |ks|
  {
    if ks != [] {
      LegacyLoadStringKeyed(o, ks[..|ks| - 1]);
      var r := ks[|ks| - 1];
      if r in o.vals && o.vals[r].JObj? {
        LegacyLoadTableStringKeyed(o.vals[r].obj, o.vals[r].obj.keys);
      }
    }
  }

  /** Loading only looks at the entries it iterates over. */
  lemma {:induction false} LegacyLoadTableFrame(o: Object, o': Object, ks: seq<string>)
    requires forall k | k in ks :: (k in o.vals <==> k in o'.vals) && (k in o.vals ==> o.vals[k] == o'.vals[k])
    ensures LegacyLoadTable(o, ks) == LegacyLoadTable(o', ks)
    decreases |ks|
  {
    if ks != [] {
      LegacyLoadTableFrame(o, o', ks[..|ks| - 1]);
    }
  }

  /** The keys written for a table of string ids are those ids' texts. */
  lemma {:induction false} LegacyTableKeys(t: Table<Object>, n: nat)
    requires t.Valid() && n <= |t.keys| && StringKeyed(t)
    ensures forall s :: s in LegacyTableJson(t, n).vals <==> JStr(s) in t.keys[..n]
  {
    if n > 0 {
      LegacyTableKeys(t, n - 1);
      LegacyTableKeysStep(t, n);
    } else {
      assert t.keys[..0] == [];
    }
  }

  lemma LegacyTableKeysStep(t: Table<Object>, n: nat)
    requires t.Valid() && 0 < n <= |t.keys| && StringKeyed(t)
    requires forall s :: s in LegacyTableJson(t, n - 1).vals <==> JStr(s) in t.keys[..n - 1]
    ensures forall s :: s in LegacyTableJson(t, n).vals <==> JStr(s) in t.keys[..n]
  {
    var k := t.keys[n - 1];
    assert k in t.vals && k == JStr(k.s);
    TakeSnoc(t.keys, n);
    assert LegacyTableJson(t, n).vals == LegacyTableJson(t, n - 1).vals[k.s := JObj(t.vals[k])];
  }

  /** Writing one more record with a new id text adds that record, under the text, to what loads back. */
  lemma LegacyLoadTablePut(j: Object, key: string, rec: Object, p: Table<Object>)
    requires j.Valid() && key !in j.vals && p.Valid()
    requires LegacyLoadTable(j, j.keys) == Some(p)
    ensures LegacyLoadTable(j.Put(key, JObj(rec)), j.Put(key, JObj(rec)).keys) == Some(p.Put(JStr(key), rec))
  {
    var j' := j.Put(key, JObj(rec));
    assert j'.keys[..|j'.keys| - 1] == j.keys;
    LegacyLoadTableFrame(j, j', j.keys);
  }

  lemma {:induction false} LegacyTableRoundTrip(t: Table<Object>, n: nat)
    requires t.Valid() && n <= |t.keys| && StringKeyed(t)
    ensures LegacyLoadTable(LegacyTableJson(t, n), LegacyTableJson(t, n).keys) == Some(Prefix(t, n))
  {
    if n == 0 {
      assert Prefix(t, 0) == Empty();
      assert LegacyTableJson(t, 0).keys == [];
    } else {
      LegacyTableRoundTrip(t, n - 1);
      LegacyTableRoundTripStep(t, n);
    }
  }

  /** If the first `n - 1` records load back, so do the first `n`. */
  lemma LegacyTableRoundTripStep(t: Table<Object>, n: nat)
    requires t.Valid() && 0 < n <= |t.keys| && StringKeyed(t)
    requires LegacyLoadTable(LegacyTableJson(t, n - 1), LegacyTableJson(t, n - 1).keys) == Some(Prefix(t, n - 1))
    ensures LegacyLoadTable(LegacyTableJson(t, n), LegacyTableJson(t, n).keys) == Some(Prefix(t, n))
  {
    var k := t.keys[n - 1];
    LegacyNextKeyFresh(t, n);
    LegacyTableJsonStep(t, n);
    LegacyPrefixStep(t, n);
    LegacyLoadTablePut(LegacyTableJson(t, n - 1), k.s, t.vals[k], Prefix(t, n - 1));
  }

  /** The text of the next id is not yet a key of what was written for the ids before it. */
  lemma LegacyNextKeyFresh(t: Table<Object>, n: nat)
    requires t.Valid() && 0 < n <= |t.keys| && StringKeyed(t)
    ensures t.keys[n - 1] in t.vals && t.keys[n - 1].JStr?
    ensures t.keys[n - 1].s !in LegacyTableJson(t, n - 1).vals
  {
    var k := t.keys[n - 1];
    assert k in t.vals;
    assert k.JStr? && JStr(k.s) == k;
    DistinctNotBefore(t.keys, n - 1);
    assert k !in t.keys[..n - 1];
    LegacyTableKeys(t, n - 1);
  }

  /** The next record is written under the text of its id. */
  lemma LegacyTableJsonStep(t: Table<Object>, n: nat)
    requires t.Valid() && 0 < n <= |t.keys| && StringKeyed(t)
    ensures t.keys[n - 1] in t.vals && t.keys[n - 1].JStr?
    ensures LegacyTableJson(t, n) == LegacyTableJson(t, n - 1).Put(t.keys[n - 1].s, JObj(t.vals[t.keys[n - 1]]))
  {
    var k := t.keys[n - 1];
    assert k in t.vals;
    assert KeyText(k) == k.s;
  }

  /** One more entry of a string-keyed table, keyed by the text of its id. */
  lemma LegacyPrefixStep(t: Table<Object>, n: nat)
    requires t.Valid() && 0 < n <= |t.keys| && StringKeyed(t)
    ensures t.keys[n - 1] in t.vals
    ensures Prefix(t, n) == Prefix(t, n - 1).Put(JStr(t.keys[n - 1].s), t.vals[t.keys[n - 1]])
  {
    assert t.keys[n - 1] in t.vals;
    PrefixStep(t, n - 1);
  }

  lemma {:induction false} LegacyLoadResourcesDump(s: Store<Object>, n: nat)
    requires WellFormed(s) && n <= |s.keys|
    requires forall r | r in s.vals :: StringKeyed(s.vals[r])
    requires KeysHashable(s)
    ensures LegacyLoadResources(LegacyDump(s).obj, s.keys[..n]) == Some(Prefix(s, n))
  {
    if n > 0 {
      LegacyLoadResourcesDump(s, n - 1);
      LegacyLoadResourcesDumpStep(s, n);
    } else {
      assert Prefix(s, 0) == Empty();
    }
  }

  lemma LegacyLoadResourcesDumpStep(s: Store<Object>, n: nat)
    requires WellFormed(s) && 0 < n <= |s.keys|
    requires forall r | r in s.vals :: StringKeyed(s.vals[r])
    requires KeysHashable(s)
    requires LegacyLoadResources(LegacyDump(s).obj, s.keys[..n - 1]) == Some(Prefix(s, n - 1))
    ensures LegacyLoadResources(LegacyDump(s).obj, s.keys[..n]) == Some(Prefix(s, n))
  {
    var r := s.keys[n - 1];
    assert r in s.vals;
    var t := s.vals[r];
    LegacyTableRoundTrip(t, |t.keys|);
    PrefixAll(t);
    var o := LegacyDump(s).obj;
    assert o.vals[r] == JObj(LegacyTableJson(t, |t.keys|));
    TakeSnoc(s.keys, n);
    LegacyLoadResourcesPush(o, s.keys[..n - 1], r, Prefix(s, n - 1), t);
    PrefixStep(s, n - 1);
  }

  /** Loading one more resource whose object loads adds it, at the end. */
  lemma LegacyLoadResourcesPush(o: Object, ks: seq<string>, r: string, acc: Store<Object>, t: Table<Object>)
    requires LegacyLoadResources(o, ks) == Some(acc)
    requires r in o.vals && o.vals[r].JObj? && LegacyLoadTable(o.vals[r].obj, o.vals[r].obj.keys) == Some(t)
    ensures LegacyLoadResources(o, ks + [r]) == Some(acc.Put(r, t))
  {
    assert (ks + [r])[..|ks|] == ks;
  }


  /** With string ids only, restarting the older version against its own file gives back the same store. */
  lemma LegacyLoadAfterDump(s: Store<Object>)
    requires WellFormed(s) && forall r | r in s.vals :: StringKeyed(s.vals[r])
    ensures KeysHashable(s)
    ensures LegacyLoad(LegacyDump(s)) == Some(s)
  {
    LegacyLoadResourcesDump(s, |s.keys|);
    assert s.keys[..|s.keys|] == s.keys;
    PrefixAll(s);
  }

  /** A store holding one `users` record created with the integer id 5. */
  function IntIdStore(): Store<Object> {
    var rec := ODict(["id"], map["id" := JInt(5)]);
    ODict(["users"], map["users" := ODict([JInt(5)], map[JInt(5) := rec])])
  }

  /**
   * The older file format loses the id's type: after a restart the record
   * created under the integer id 5 sits under the string id "5".
   */
  lemma LegacyIntIdComesBackAsString()
    ensures KeysHashable(IntIdStore()) && WellFormed(IntIdStore())
    ensures LegacyLoad(LegacyDump(IntIdStore())).Some?
    ensures JStr("5") in LegacyLoad(LegacyDump(IntIdStore())).value.vals["users"].vals
    ensures LegacyLoad(LegacyDump(IntIdStore())) != Some(IntIdStore())
  {
    var s := IntIdStore();
    var rec := ODict(["id"], map["id" := JInt(5)]);
    assert NatToString(5) == "5";
    var tj := LegacyTableJson(s.vals["users"], 1);
    assert tj == ODict(["5"], map["5" := JObj(rec)]);
    var loaded := LegacyLoadTable(tj, ["5"]);
    assert ["5"][..0] == [];
    assert LegacyLoadTable(tj, []) == Some(Empty());
    var p := Empty<Json, Object>().Put(JStr("5"), rec);
    assert loaded == Some(p);
    assert p.keys == [JStr("5")] && p.vals == map[JStr("5") := rec];
    assert loaded == Some(ODict([JStr("5")], map[JStr("5") := rec]));
    var d := LegacyDump(s);
    assert d.obj.keys == ["users"];
    assert d.obj.vals["users"] == JObj(tj);
    var u := Empty<string, Table<Object>>().Put("users", ODict([JStr("5")], map[JStr("5") := rec]));
    assert u.keys == ["users"] && u.vals == map["users" := ODict([JStr("5")], map[JStr("5") := rec])];
    assert LegacyLoadResources(d.obj, []) == Some(Empty());
    assert LegacyLoadResources(d.obj, ["users"]) == Some(u);
    assert LegacyLoad(d) == LegacyLoadResources(d.obj, ["users"]);
    assert ["users"][..0] == [];
    assert LegacyLoad(d) == Some(ODict(["users"], map["users" := ODict([JStr("5")], map[JStr("5") := rec])]));
  }

  /** The list format keeps it: the same store survives a restart of the `src` version. */
  lemma IntIdSurvivesRestart()
    ensures WellFormed(IntIdStore())
    ensures Load(Dump(IntIdStore()), "id") == Some(IntIdStore())
  {
    LoadAfterDump(IntIdStore(), "id");
  }

  // ------------------------------------------- what a loaded file holds

  /** A loaded table holds JSON objects, each under the value of its own id field. */
  lemma {:induction false} LoadTableFacts(items: seq<Json>, idField: string)
    requires forall i | 0 <= i < |items| :: WellFormedJson(items[i])
    ensures LoadTable(items, idField).Some? ==>
      var t := LoadTable(items, idField).value;
      forall k | k in t.vals ::
        WellFormedJson(JObj(t.vals[k])) && Hashable(k) && idField in t.vals[k].vals && t.vals[k].vals[idField] == k
    decreases |items|
  {
    if items != [] {
      LoadTableFacts(items[..|items| - 1], idField);
      assert WellFormedJson(items[|items| - 1]);
    }
  }

  lemma {:induction false} LoadResourcesFacts(o: Object, ks: seq<string>, idField: string)
    requires WellFormedJson(JObj(o))
    ensures LoadResources(o, ks, idField).Some? ==>
      RecordsValid(LoadResources(o, ks, idField).value) && IdsConsistent(LoadResources(o, ks, idField).value, idField)
    decreases |ks|
  {
    if ks != [] {
      LoadResourcesFacts(o, ks[..|ks| - 1], idField);
      LoadResourcesFactsStep(o, ks, idField);
    }
  }

  lemma LoadResourcesFactsStep(o: Object, ks: seq<string>, idField: string)
    requires WellFormedJson(JObj(o)) && ks != []
    requires LoadResources(o, ks[..|ks| - 1], idField).Some? ==>
      RecordsValid(LoadResources(o, ks[..|ks| - 1], idField).value) && IdsConsistent(LoadResources(o, ks[..|ks| - 1], idField).value, idField)
    ensures LoadResources(o, ks, idField).Some? ==>
      RecordsValid(LoadResources(o, ks, idField).value) && IdsConsistent(LoadResources(o, ks, idField).value, idField)
  {
    if LoadResources(o, ks, idField).Some? {
      var r := ks[|ks| - 1];
      var acc := LoadResources(o, ks[..|ks| - 1], idField).value;
      var t := LoadedTable(o, ks, idField);
      PutTableFacts(acc, r, t, idField);
    }
  }

  /** The table the last resource of `ks` loads to, with what it holds. */
  lemma LoadedTable(o: Object, ks: seq<string>, idField: string) returns (t: Table<Object>)
    requires WellFormedJson(JObj(o)) && ks != [] && LoadResources(o, ks, idField).Some?
    ensures LoadResources(o, ks[..|ks| - 1], idField).Some?
    ensures LoadResources(o, ks, idField).value == LoadResources(o, ks[..|ks| - 1], idField).value.Put(ks[|ks| - 1], t)
    ensures forall k | k in t.vals ::
      WellFormedJson(JObj(t.vals[k])) && Hashable(k) && idField in t.vals[k].vals && t.vals[k].vals[idField] == k
  {
    var r := ks[|ks| - 1];
    var items := Iterated(o.vals[r]).value;
    assert WellFormedJson(o.vals[r]);
    LoadTableFacts(items, idField);
    t := LoadTable(items, idField).value;
  }

  /** Adding a table of JSON records, each under its own id, keeps both invariants. */
  lemma PutTableFacts(acc: Store<Object>, r: string, t: Table<Object>, idField: string)
    requires acc.Valid() && RecordsValid(acc) && IdsConsistent(acc, idField)
    requires forall k | k in t.vals ::
      WellFormedJson(JObj(t.vals[k])) && Hashable(k) && idField in t.vals[k].vals && t.vals[k].vals[idField] == k
    ensures RecordsValid(acc.Put(r, t)) && IdsConsistent(acc.Put(r, t), idField)
  {
    var res := acc.Put(r, t);
    assert res.vals == acc.vals[r := t];
  }

  /** Loading a file of JSON gives JSON records, each under its own id. */
  lemma LoadFacts(j: Json, idField: string)
    requires WellFormedJson(j)
    ensures Load(j, idField).Some? ==>
      RecordsValid(Load(j, idField).value) && IdsConsistent(Load(j, idField).value, idField)
  {
    if j.JObj? {
      LoadResourcesFacts(j.obj, j.obj.keys, idField);
    }
  }

  /** What `_persist` writes is JSON of the same kind `json.load` reads. */
  lemma DumpWellFormed(s: Store<Object>)
    requires WellFormed(s) && RecordsValid(s)
    ensures WellFormedJson(Dump(s))
  {
    var d := Dump(s).obj;
    forall r | r in d.vals ensures WellFormedJson(d.vals[r]) {
      var t := s.vals[r];
      forall i | 0 <= i < |t.keys| ensures WellFormedJson(RowsJson(t)[i]) {
        assert t.keys[i] in t.vals;
      }
    }
  }

  lemma {:induction false} LegacyLoadTableFacts(o: Object, ks: seq<string>)
    requires WellFormedJson(JObj(o))
    ensures LegacyLoadTable(o, ks).Some? ==>
      forall k | k in LegacyLoadTable(o, ks).value.vals :: WellFormedJson(JObj(LegacyLoadTable(o, ks).value.vals[k]))
    decreases |ks|
  {
    if ks != [] {
      LegacyLoadTableFacts(o, ks[..|ks| - 1]);
      var k := ks[|ks| - 1];
      if k in o.vals {
        assert WellFormedJson(o.vals[k]);
      }
    }
  }

  lemma {:induction false} LegacyLoadResourcesFacts(o: Object, ks: seq<string>)
    requires WellFormedJson(JObj(o))
    ensures LegacyLoadResources(o, ks).Some? ==> RecordsValid(LegacyLoadResources(o, ks).value)
    decreases |ks|
  {
    if ks != [] {
      LegacyLoadResourcesFacts(o, ks[..|ks| - 1]);
      var r := ks[|ks| - 1];
      if r in o.vals && o.vals[r].JObj? {
        assert WellFormedJson(o.vals[r]);
        LegacyLoadTableFacts(o.vals[r].obj, o.vals[r].obj.keys);
      }
    }
  }

  /** Loading a file of JSON in the older format gives JSON records under string ids. */
  lemma LegacyLoadFacts(j: Json)
    requires WellFormedJson(j)
    ensures LegacyLoad(j).Some? ==> RecordsValid(LegacyLoad(j).value) && KeysHashable(LegacyLoad(j).value)
  {
    if j.JObj? {
      LegacyLoadResourcesFacts(j.obj, j.obj.keys);
    }
  }

  /** Every id of the table can be a key and every record is a JSON object. */
  ghost predicate LegacyTableWritable(t: Table<Object>) {
    forall k | k in t.vals :: Hashable(k) && WellFormedJson(JObj(t.vals[k]))
  }

  /** Every entry of the object is well-formed JSON. */
  ghost predicate EntriesWellFormed(o: Object) {
    forall x | x in o.vals :: WellFormedJson(o.vals[x])
  }

  lemma {:induction false} LegacyTableJsonWellFormed(t: Table<Object>, n: nat)
    requires t.Valid() && n <= |t.keys| && LegacyTableWritable(t)
    ensures EntriesWellFormed(LegacyTableJson(t, n))
  {
    if n > 0 {
      LegacyTableJsonWellFormed(t, n - 1);
      LegacyTableJsonWellFormedStep(t, n);
    }
  }

  lemma LegacyTableJsonWellFormedStep(t: Table<Object>, n: nat)
    requires t.Valid() && 0 < n <= |t.keys| && LegacyTableWritable(t)
    requires EntriesWellFormed(LegacyTableJson(t, n - 1))
    ensures EntriesWellFormed(LegacyTableJson(t, n))
  {
    var k := t.keys[n - 1];
    assert k in t.vals;
    var before := LegacyTableJson(t, n - 1);
    var o := LegacyTableJson(t, n);
    assert o.vals == before.vals[KeyText(k) := JObj(t.vals[k])];
    assert WellFormedJson(JObj(t.vals[k]));
  }

  /** What the older `_persist` writes is JSON of the same kind `json.load` reads. */
  lemma LegacyDumpWellFormed(s: Store<Object>)
    requires WellFormed(s) && RecordsValid(s) && KeysHashable(s)
    ensures WellFormedJson(LegacyDump(s))
  {
    var d := LegacyDump(s).obj;
    forall r | r in d.vals ensures WellFormedJson(d.vals[r]) {
      var t := s.vals[r];
      assert LegacyTableWritable(t);
      LegacyTableJsonWellFormed(t, |t.keys|);
      assert d.vals[r] == JObj(LegacyTableJson(t, |t.keys|));
      assert EntriesWellFormed(LegacyTableJson(t, |t.keys|));
    }
  }
}
