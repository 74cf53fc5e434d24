/**
 * Python dictionaries. A `dict` is a finite map whose keys remember the
 * order of their first insertion: assigning to an existing key keeps its
 * position, assigning to a new key appends it, `del` drops it. Iteration
 * (`keys()`, `values()`, `items()`) follows that order.
 */
module OrderedDicts {

  /** No element occurs twice. */
  ghost predicate Distinct<T>(s: seq<T>) {
    forall i, j | 0 <= i < j < |s| :: s[i] != s[j]
  }

  lemma DistinctTail<T>(s: seq<T>)
    requires s != []
    ensures Distinct(s) ==> Distinct(s[1..]) && s[0] !in s[1..]
  {
    if Distinct(s) {
      forall j | 0 <= j < |s| - 1 ensures s[1..][j] != s[0] {
        assert s[1..][j] == s[j + 1];
      }
    }
  }

  /** In a list without repeats, an element does not occur before its own position. */
  lemma DistinctNotBefore<T>(s: seq<T>, n: nat)
    requires Distinct(s) && n < |s|
    ensures s[n] !in s[..n]
  {
    forall i | 0 <= i < n ensures s[..n][i] != s[n] {
      assert s[..n][i] == s[i];
    }
  }

  /** A prefix one longer is the shorter prefix and the next element. */
  lemma TakeSnoc<T>(s: seq<T>, n: nat)
    requires 0 < n <= |s|
    ensures s[..n] == s[..n - 1] + [s[n - 1]]
  {
    assert forall i | 0 <= i < n :: s[..n][i] == (s[..n - 1] + [s[n - 1]])[i];
  }

  /** An element other than the last one occurs in the list without its last element. */
  lemma InInit<T>(s: seq<T>, x: T)
    requires x in s && x != s[|s| - 1]
    ensures x in s[..|s| - 1]
  {
    var i :| 0 <= i < |s| && s[i] == x;
    assert s[..|s| - 1][i] == x;
  }

  /** An element of the list without its last element is in the list. */
  lemma InitIn<T>(s: seq<T>, x: T)
    requires s != [] && x in s[..|s| - 1]
    ensures x in s
  {
    var i :| 0 <= i < |s| - 1 && s[..|s| - 1][i] == x;
    assert s[i] == x;
  }

  /** Concatenation is associative. */
  lemma ConcatAssoc<T>(a: seq<T>, b: seq<T>, c: seq<T>)
    ensures (a + b) + c == a + (b + c)
  {
  }

  lemma DistinctCons<T>(x: T, r: seq<T>)
    ensures Distinct(r) && x !in r ==> Distinct([x] + r)
  {
  }

  /** `s` with every occurrence of `x` taken out, the rest in order. */
  function Without<T(==,!new)>(s: seq<T>, x: T): (r: seq<T>)
    ensures forall y :: y in r <==> y in s && y != x
    ensures Distinct(s) ==> Distinct(r)
    ensures |r| <= |s|
  {
    if s == [] then []
    else
      var rest := Without(s[1..], x);
      assert forall y :: y in s[1..] ==> y in s;
      DistinctTail(s);
      if s[0] == x then rest else DistinctCons(s[0], rest); [s[0]] + rest
  }

  /** The elements of `s` that occur in `keep`, in the order of `s`. */
  function KeepIn<T(==,!new)>(s: seq<T>, keep: seq<T>): (r: seq<T>)
    ensures forall y :: y in r <==> y in s && y in keep
    ensures Distinct(s) ==> Distinct(r)
    ensures |r| <= |s|
  {
    if s == [] then []
    else
      var rest := KeepIn(s[1..], keep);
      assert forall y :: y in s[1..] ==> y in s;
      DistinctTail(s);
      if s[0] in keep then DistinctCons(s[0], rest); [s[0]] + rest else rest
  }

  /**
   * The elements of `ks` that are not in `present`, each once, in the order
   * of their first occurrence in `ks`: the keys that assigning `ks` one after
   * the other appends.
   */
  function NewKeys<T(==,!new)>(ks: seq<T>, present: seq<T>): (r: seq<T>)
    ensures forall y :: y in r <==> y in ks && y !in present
    decreases |ks|
  {
    if ks == [] then []
    else
      assert forall y :: y in ks <==> y == ks[0] || y in ks[1..];
      if ks[0] in present then NewKeys(ks[1..], present)
      else [ks[0]] + NewKeys(ks[1..], present + [ks[0]])
  }

  datatype ODict<K(==,!new), V> = ODict(keys: seq<K>, vals: map<K, V>)
  {
    /** The keys are listed once each, and they are exactly the keys of the map. */
    ghost predicate Valid() {
      && Distinct(keys)
      && (forall k :: k in vals <==> k in keys)
    }

    /** `d[k] = v` */
    function Put(k: K, v: V): (d: ODict<K, V>)
      requires Valid()
      ensures d.Valid()
      ensures d.vals == vals[k := v]
      ensures k in vals ==> d.keys == keys
      ensures k !in vals ==> d.keys == keys + [k]
    {
      if k in vals then ODict(keys, vals[k := v]) else ODict(keys + [k], vals[k := v])
    }

    /** `del d[k]` */
    function Remove(k: K): (d: ODict<K, V>)
      requires Valid() && k in vals
      ensures d.Valid()
      ensures d.vals == vals - {k}
      ensures d.keys == Without(keys, k)
    {
      ODict(Without(keys, k), vals - {k})
    }

    /** `list(d.values())` */
    function Values(): (vs: seq<V>)
      requires Valid()
      ensures |vs| == |keys|
      ensures forall i | 0 <= i < |keys| :: vs[i] == vals[keys[i]]
    {
      seq(|keys|, i requires 0 <= i < |keys| => vals[keys[i]])
    }

    /** `{k: v for k, v in d.items() if k in fields}` */
    function Project(fields: seq<K>): (d: ODict<K, V>)
      requires Valid()
      ensures d.Valid()
      ensures d.keys == KeepIn(keys, fields)
      ensures forall k :: k in d.vals <==> k in vals && k in fields
      ensures forall k :: k in d.vals ==> d.vals[k] == vals[k]
    {
      ODict(KeepIn(keys, fields), map k | k in vals && k in fields :: vals[k])
    }

    /** `d.update(patch)`: every key of the patch is assigned in the patch's order. */
    function Update(patch: ODict<K, V>): (d: ODict<K, V>)
      requires Valid() && patch.Valid()
      ensures d.Valid()
      ensures d.vals == vals + patch.vals
      ensures |keys| <= |d.keys| && d.keys[..|keys|] == keys
      ensures d.keys == keys + NewKeys(patch.keys, keys)
    {
      var d := AssignAll(patch.keys, patch.vals);
      assert d.vals == vals + patch.vals;
      AssignAllKeys(patch.keys, patch.vals);
      d
    }

    /** Assigns `src[k]` to every `k` of `ks`, one after the other. */
    function AssignAll(ks: seq<K>, src: map<K, V>): (d: ODict<K, V>)
      requires Valid()
      requires forall k :: k in ks ==> k in src
      ensures d.Valid()
      ensures forall k :: k in d.vals <==> k in vals || k in ks
      ensures forall k :: k in d.vals ==> d.vals[k] == if k in ks then src[k] else vals[k]
      ensures |keys| <= |d.keys| && d.keys[..|keys|] == keys
      decreases |ks|
    {
      if ks == [] then this
      else
        var next := Put(ks[0], src[ks[0]]);
        var d := next.AssignAll(ks[1..], src);
        assert d.keys[..|keys|] == d.keys[..|next.keys|][..|keys|];
        assert forall k :: k in ks <==> k == ks[0] || k in ks[1..];
        d
    }

    /** Assigning `ks` appends the keys of `ks` not yet present, in the order they first come. */
    lemma {:induction false} AssignAllKeys(ks: seq<K>, src: map<K, V>)
      requires Valid()
      requires forall k :: k in ks ==> k in src
      ensures AssignAll(ks, src).keys == keys + NewKeys(ks, keys)
      decreases |ks|
    {
      if ks != [] {
        var next := Put(ks[0], src[ks[0]]);
        assert forall k :: k in ks[1..] ==> k in ks;
        next.AssignAllKeys(ks[1..], src);
        if ks[0] !in keys {
          ConcatAssoc(keys, [ks[0]], NewKeys(ks[1..], keys + [ks[0]]));
        }
      }
    }
  }

  function Empty<K(==,!new), V>(): (d: ODict<K, V>)
    ensures d.Valid() && d.keys == [] && d.vals == map[]
  {
    ODict([], map[])
  }
}
