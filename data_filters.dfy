/**
 * Query filters for listing a resource: a query value picks one of four
 * case-insensitive tests on one field of a record, by where the wildcard
 * stands in it (`*text*` contains, `*text` ends with, `text*` starts with,
 * anything else equals).
 */
module DataFilters {
  import opened Text
  import opened JsonValues
  import OrderedDicts

  /** The curried predicates `_record_param_*_value(param, search)`, as data. */
  datatype Filter =
    | Equals(param: string, search: string)
    | Contains(param: string, search: string)
    | StartsWith(param: string, search: string)
    | EndsWith(param: string, search: string)

  /** `build_query_filter(param, value, wild_card)` */
  function BuildQueryFilter(param: string, value: string, wild: char): (f: Filter)
  {
    if IsPrefix([wild], value) then
      if IsSuffix([wild], value) then Contains(param, Strip(value, wild))
      else EndsWith(param, StripLeft(value, wild))
    else if IsSuffix([wild], value) then StartsWith(param, StripRight(value, wild))
    else Equals(param, value)
  }

  /** The value `_filter_func(rec)` returns, read as a truth value. */
  predicate Matches(f: Filter, rec: Object) {
    && f.param in rec.vals
    && var value := rec.vals[f.param];
       var text := CaseFold(Str(value));
       var search := CaseFold(f.search);
       match f
       case Equals(_, _) => search == text
       case Contains(_, _) => IsSubstring(search, text)
       case StartsWith(_, _) => Truthy(value) && IsPrefix(search, text)
       case EndsWith(_, _) => Truthy(value) && IsSuffix(search, text)
  }

  /** The search term carries no wildcard at either end. */
  predicate Bare(w: string, wild: char) {
    w == [] || (w[0] != wild && w[|w| - 1] != wild)
  }

  lemma StartsWithChar(c: char, s: string)
    ensures IsPrefix([c], s) <==> s != [] && s[0] == c
  {
    if s != [] { assert s[..1] == [s[0]]; }
  }

  lemma EndsWithChar(c: char, s: string)
    ensures IsSuffix([c], s) <==> s != [] && s[|s| - 1] == c
  {
    if s != [] { assert s[|s| - 1..] == [s[|s| - 1]]; }
  }

  /** `*text*`: the contains term is the value without its two runs of wildcards. */
  lemma StripBothShape(value: string, wild: char)
    requires value != [] && value[0] == wild && value[|value| - 1] == wild
    ensures var s := Strip(value, wild);
      && Bare(s, wild)
      && exists a: nat, b: nat :: 1 <= a && value == Repeat(wild, a) + s + Repeat(wild, b)
  {
    var l := StripLeft(value, wild);
    var s := StripRight(l, wild);
    var a, b := |value| - |l|, |l| - |s|;
    OrderedDicts.ConcatAssoc(Repeat(wild, a), s, Repeat(wild, b));
    assert value == Repeat(wild, a) + s + Repeat(wild, b);
    assert s != [] ==> s[0] == l[0];
  }

  /** `*text`: the ends-with term is the value without its leading run. */
  lemma StripLeftShape(value: string, wild: char)
    requires value != [] && value[0] == wild && value[|value| - 1] != wild
    ensures var s := StripLeft(value, wild);
      && s != [] && Bare(s, wild)
      && exists a: nat :: 1 <= a && value == Repeat(wild, a) + s
  {
    var l := StripLeft(value, wild);
    var a := |value| - |l|;
    assert l[|l| - 1] == value[|value| - 1];
  }

  /** `text*`: the starts-with term is the value without its trailing run. */
  lemma StripRightShape(value: string, wild: char)
    requires value != [] && value[0] != wild && value[|value| - 1] == wild
    ensures var s := StripRight(value, wild);
      && s != [] && Bare(s, wild)
      && exists b: nat :: 1 <= b && value == s + Repeat(wild, b)
  {
    var r := StripRight(value, wild);
    var b := |value| - |r|;
    assert r[0] == value[0];
  }

  /**
   * What `build_query_filter` makes of a value: the filter kind is decided by
   * the wildcard at each end, and the value is the search term with runs of
   * wildcards around it exactly on the ends that chose the kind.
   */
  lemma {:induction false} BuildQueryFilterShape(param: string, value: string, wild: char)
    ensures var f := BuildQueryFilter(param, value, wild);
      && f.param == param
      && Bare(f.search, wild)
      && (f.Contains? <==> IsPrefix([wild], value) && IsSuffix([wild], value))
      && (f.EndsWith? <==> IsPrefix([wild], value) && !IsSuffix([wild], value))
      && (f.StartsWith? <==> !IsPrefix([wild], value) && IsSuffix([wild], value))
      && (f.Equals? <==> !IsPrefix([wild], value) && !IsSuffix([wild], value))
      && (f.Contains? ==> exists a: nat, b: nat :: 1 <= a && value == Repeat(wild, a) + f.search + Repeat(wild, b))
      && (f.EndsWith? ==> f.search != [] && exists a: nat :: 1 <= a && value == Repeat(wild, a) + f.search)
      && (f.StartsWith? ==> f.search != [] && exists b: nat :: 1 <= b && value == f.search + Repeat(wild, b))
      && (f.Equals? ==> f.search == value)
  {
    StartsWithChar(wild, value);
    EndsWithChar(wild, value);
    if IsPrefix([wild], value) && IsSuffix([wild], value) {
      StripBothShape(value, wild);
    } else if IsPrefix([wild], value) {
      StripLeftShape(value, wild);
    } else if IsSuffix([wild], value) {
      StripRightShape(value, wild);
    }
  }

  /**
   * The inverse direction: putting wildcards around a bare search term
   * gives back the filter of that kind with that very term.
   */
  lemma {:induction false} QueryPatternRoundTrip(param: string, w: string, wild: char)
    requires Bare(w, wild)
    ensures BuildQueryFilter(param, [wild] + w + [wild], wild) == Contains(param, w)
    ensures w != [] ==> BuildQueryFilter(param, [wild] + w, wild) == EndsWith(param, w)
    ensures w != [] ==> BuildQueryFilter(param, w + [wild], wild) == StartsWith(param, w)
    ensures BuildQueryFilter(param, w, wild) == Equals(param, w)
  {
    StartsWithChar(wild, w);
    EndsWithChar(wild, w);
    ContainsPattern(param, w, wild);
    if w != [] {
      EndsWithPattern(param, w, wild);
      StartsWithPattern(param, w, wild);
    }
  }

  lemma ContainsPattern(param: string, w: string, wild: char)
    requires Bare(w, wild)
    ensures BuildQueryFilter(param, [wild] + w + [wild], wild) == Contains(param, w)
  {
    var both := [wild] + w + [wild];
    StartsWithChar(wild, both);
    EndsWithChar(wild, both);
    assert both[1..] == w + [wild];
    assert StripLeft(both, wild) == StripLeft(w + [wild], wild);
    if w == [] {
      assert StripLeft([wild], wild) == StripLeft([], wild) == [];
    } else {
      StartsWithChar(wild, w);
      EndsWithChar(wild, w);
      assert StripLeft(w + [wild], wild) == w + [wild];
      assert (w + [wild])[..|w|] == w;
      assert StripRight(w + [wild], wild) == StripRight(w, wild) == w;
    }
    assert Strip(both, wild) == w;
  }

  lemma EndsWithPattern(param: string, w: string, wild: char)
    requires w != [] && Bare(w, wild)
    ensures BuildQueryFilter(param, [wild] + w, wild) == EndsWith(param, w)
  {
    var left := [wild] + w;
    StartsWithChar(wild, left);
    EndsWithChar(wild, left);
    assert left[1..] == w;
  }

  lemma StartsWithPattern(param: string, w: string, wild: char)
    requires w != [] && Bare(w, wild)
    ensures BuildQueryFilter(param, w + [wild], wild) == StartsWith(param, w)
  {
    var right := w + [wild];
    StartsWithChar(wild, right);
    EndsWithChar(wild, right);
    assert right[..|w|] == w;
  }

  /** Every filter kind fails on a record that lacks the field. */
  lemma AbsentFieldNeverMatches(f: Filter, rec: Object)
    requires f.param !in rec.vals
    ensures !Matches(f, rec)
  {
  }

  /**
   * Equality is the strongest test: a record that equals `s` also contains
   * it, and starts and ends with it as soon as its value is truthy.
   */
  lemma EqualsImpliesOthers(param: string, s: string, rec: Object)
    requires Matches(Equals(param, s), rec)
    ensures Matches(Contains(param, s), rec)
    ensures Truthy(rec.vals[param]) ==> Matches(StartsWith(param, s), rec) && Matches(EndsWith(param, s), rec)
  {
    var t := CaseFold(Str(rec.vals[param]));
    assert IsPrefix(t, t) && IsSuffix(t, t);
  }

  /** `*` and `**` select every record that has the field, whatever its value. */
  lemma EmptyContainsMatchesPresent(param: string, rec: Object)
    ensures Matches(Contains(param, ""), rec) <==> param in rec.vals
  {
  }

  /** `0`, `""`, `false`, `null`, `[]` and `{}` never pass a prefix or suffix test. */
  lemma FalsyFailsAffixes(param: string, s: string, rec: Object)
    requires param in rec.vals && !Truthy(rec.vals[param])
    ensures !Matches(StartsWith(param, s), rec) && !Matches(EndsWith(param, s), rec)
  {
  }

  lemma CaseFoldIdempotent(s: string)
    ensures CaseFold(CaseFold(s)) == CaseFold(s)
  {
  }

  /** Folding the search term first changes nothing: the match ignores ASCII case. */
  lemma {:induction false} SearchCaseInsensitive(f: Filter, rec: Object)
    ensures Matches(f.(search := CaseFold(f.search)), rec) == Matches(f, rec)
  {
    CaseFoldIdempotent(f.search);
  }

  /** Two string values that differ only in ASCII case pass the same filters. */
  lemma {:induction false} ValueCaseInsensitive(f: Filter, rec: Object, t: string, u: string)
    requires rec.Valid() && CaseFold(t) == CaseFold(u)
    ensures Matches(f, rec.Put(f.param, JStr(t))) == Matches(f, rec.Put(f.param, JStr(u)))
  {
    assert |t| == |u|;
  }
}
