/**
 * The record filters of the older `mock_rest_server/server.py`
 * (`record_param_*_value`). Equals, starts-with and ends-with test exactly
 * what `DataFilters.Matches` tests; the contains-filter reads `rec[param]`
 * before it checks that the field is there, so on a record without the
 * field it raises `KeyError` instead of answering false. The older
 * `list_resource` chains the filters lazily, so the first record that
 * reaches such a test aborts the whole listing.
 */
module LegacyFilters {
  import opened Results
  import opened OrderedDicts
  import opened JsonValues
  import opened Text
  import opened DataFilters
  import opened StoreModel

  /** The older `_filter_func(rec)`: its truth value, or the `KeyError` it raises. */
  function Check(f: Filter, rec: Object): (r: Result<bool, StoreError>)
    ensures r.Err? <==> f.Contains? && f.param !in rec.vals
  {
    match f
    case Contains(param, search) =>
      if param !in rec.vals then Err(StoreError(KeyError, param))
      else Ok(IsSubstring(CaseFold(search), CaseFold(Str(rec.vals[param]))))
    case Equals(param, search) =>
      Ok(param in rec.vals && CaseFold(search) == CaseFold(Str(rec.vals[param])))
    case StartsWith(param, search) =>
      Ok(param in rec.vals && Truthy(rec.vals[param]) && IsPrefix(CaseFold(search), CaseFold(Str(rec.vals[param]))))
    case EndsWith(param, search) =>
      Ok(param in rec.vals && Truthy(rec.vals[param]) && IsSuffix(CaseFold(search), CaseFold(Str(rec.vals[param]))))
  }

  /**
   * One record pulled through the chain `filter(f_n, ... filter(f_1, rows))`:
   * the filters run in order and stop at the first that answers false.
   */
  function Passes(filters: seq<Filter>, rec: Object): Result<bool, StoreError> {
    if filters == [] then Ok(true)
    else match Check(filters[0], rec)
      case Err(e) => Err(e)
      case Ok(b) => if b then Passes(filters[1..], rec) else Ok(false)
  }

  /** `list(...)` of the filter chain: the records that pass, in stored order, unless a test raises first. */
  function LegacySelect(rows: seq<Object>, filters: seq<Filter>): Result<seq<Object>, StoreError> {
    if rows == [] then Ok([])
    else match Passes(filters, rows[0])
      case Err(e) => Err(e)
      case Ok(b) =>
        match LegacySelect(rows[1..], filters)
        case Err(e) => Err(e)
        case Ok(rest) => Ok((if b then [rows[0]] else []) + rest)
  }

  /** No contains-filter names a field the record lacks. */
  predicate ContainsFieldsPresent(filters: seq<Filter>, rec: Object) {
    forall i | 0 <= i < |filters| :: filters[i].Contains? ==> filters[i].param in rec.vals
  }

  /** Where the older test answers, it answers as the corrected one does. */
  lemma CheckAgrees(f: Filter, rec: Object)
    ensures Check(f, rec).Ok? ==> Check(f, rec).value == Matches(f, rec)
    ensures !f.Contains? || f.param in rec.vals ==> Check(f, rec) == Ok(Matches(f, rec))
  {
  }

  /** A record's trip through the chain, when it ends, ends with the verdict of all filters together. */
  lemma {:induction false} PassesAgrees(filters: seq<Filter>, rec: Object)
    ensures Passes(filters, rec).Ok? ==> Passes(filters, rec).value == AllMatch(filters, rec)
    ensures ContainsFieldsPresent(filters, rec) ==> Passes(filters, rec) == Ok(AllMatch(filters, rec))
    decreases |filters|
  {
    if filters != [] {
      CheckAgrees(filters[0], rec);
      PassesAgrees(filters[1..], rec);
      assert AllMatch(filters, rec) <==> Matches(filters[0], rec) && AllMatch(filters[1..], rec) by {
        assert forall i | 1 <= i < |filters| :: filters[1..][i - 1] == filters[i];
      }
      assert ContainsFieldsPresent(filters, rec) ==> ContainsFieldsPresent(filters[1..], rec) by {
        assert forall i | 0 <= i < |filters| - 1 :: filters[1..][i] == filters[i + 1];
      }
    }
  }

  /**
   * A listing that does not raise is exactly the corrected selection, and
   * it cannot raise when every record has every field a contains-filter names.
   */
  lemma {:induction false} LegacySelectAgrees(rows: seq<Object>, filters: seq<Filter>)
    ensures LegacySelect(rows, filters).Ok? ==> LegacySelect(rows, filters).value == Select(rows, filters)
    ensures (forall x | x in rows :: ContainsFieldsPresent(filters, x)) ==> LegacySelect(rows, filters) == Ok(Select(rows, filters))
    decreases |rows|
  {
    if rows != [] {
      PassesAgrees(filters, rows[0]);
      LegacySelectAgrees(rows[1..], filters);
      assert forall x | x in rows[1..] :: x in rows;
    }
  }

  /** The record `{"id": "1"}`, which has no `name` field. */
  function Nameless(): Object {
    ODict(["id"], map["id" := JStr("1")])
  }

  /**
   * `GET /users?name=*a*` over a resource holding a record without `name`:
   * the older filter raises `KeyError('name')`, where the corrected one
   * leaves that record out and lists the rest.
   */
  lemma ContainsOnAbsentFieldRaises()
    ensures LegacySelect([Nameless()], [Contains("name", "a")]) == Err(StoreError(KeyError, "name"))
    ensures Select([Nameless()], [Contains("name", "a")]) == []
  {
    var fs := [Contains("name", "a")];
    assert "name" !in Nameless().vals;
    assert !Matches(fs[0], Nameless());
    assert !AllMatch(fs, Nameless());
    assert [Nameless()][1..] == [];
  }
}
