/**
 * The `str` methods the core relies on: `startswith`, `endswith`, `in`,
 * `lstrip`/`rstrip`/`strip` with one character, `split` on one character,
 * and `casefold`.
 */
module Text {
  import OrderedDicts

  /** `s.startswith(p)` */
  predicate IsPrefix(p: string, s: string) {
    |p| <= |s| && s[..|p|] == p
  }

  /** `s.endswith(p)` */
  predicate IsSuffix(p: string, s: string) {
    |p| <= |s| && s[|s| - |p|..] == p
  }

  /** `p in s` */
  predicate IsSubstring(p: string, s: string) {
    IsPrefix(p, s) || (s != [] && IsSubstring(p, s[1..]))
  }

  /** A string made of `n` copies of `c`. */
  function Repeat(c: char, n: nat): (r: string)
    ensures |r| == n && forall i | 0 <= i < n :: r[i] == c
  {
    if n == 0 then [] else [c] + Repeat(c, n - 1)
  }

  /** `s.lstrip(c)`: the leading run of `c` taken off. */
  function StripLeft(s: string, c: char): (r: string)
    ensures |r| <= |s| && s == Repeat(c, |s| - |r|) + r
    ensures r != [] ==> r[0] != c
  {
    if s != [] && s[0] == c then StripLeft(s[1..], c) else s
  }

  /** `s.rstrip(c)`: the trailing run of `c` taken off. */
  function StripRight(s: string, c: char): (r: string)
    ensures |r| <= |s| && s == r + Repeat(c, |s| - |r|)
    ensures r != [] ==> r[|r| - 1] != c
  {
    if s != [] && s[|s| - 1] == c then
      var r := StripRight(s[..|s| - 1], c);
      RepeatSnoc(c, |s| - 1 - |r|);
      r
    else s
  }

  lemma RepeatSnoc(c: char, n: nat)
    ensures Repeat(c, n) + [c] == Repeat(c, n + 1)
  {
  }

  /** `s.strip(c)`: both runs taken off. */
  function Strip(s: string, c: char): (r: string)
    ensures r != [] ==> r[0] != c && r[|r| - 1] != c
  {
    var l := StripLeft(s, c);
    var r := StripRight(l, c);
    assert r != [] ==> r[0] == l[0];
    r
  }

  /** What `strip(c)` takes off is a run of `c` at each end and nothing else. */
  lemma StripShape(s: string, c: char)
    ensures exists a: nat, b: nat :: s == Repeat(c, a) + Strip(s, c) + Repeat(c, b)
  {
    var l := StripLeft(s, c);
    var r := StripRight(l, c);
    OrderedDicts.ConcatAssoc(Repeat(c, |s| - |l|), r, Repeat(c, |l| - |r|));
  }

  /** `parts` joined with the separator `c` between neighbours. */
  function Join(parts: seq<string>, c: char): string
    requires parts != []
  {
    if |parts| == 1 then parts[0] else parts[0] + [c] + Join(parts[1..], c)
  }

  /** Index of the first `c` in `s`, or `|s|` when there is none. */
  function Find(s: string, c: char): (i: nat)
    ensures i <= |s| && c !in s[..i]
    ensures i < |s| ==> s[i] == c
  {
    if s == [] || s[0] == c then 0 else 1 + Find(s[1..], c)
  }

  /** `s.split(c)`: always at least one part, none containing `c`. */
  function Split(s: string, c: char): (parts: seq<string>)
    ensures |parts| >= 1
    ensures forall p | p in parts :: c !in p
    ensures Join(parts, c) == s
    decreases |s|
  {
    var i := Find(s, c);
    if i == |s| then
      assert s[..i] == s;
      [s]
    else
      var rest := Split(s[i + 1..], c);
      assert s == s[..i] + [c] + s[i + 1..];
      [s[..i]] + rest
  }

  /** Splitting undoes joining when no part contains the separator. */
  lemma {:induction false} SplitJoin(parts: seq<string>, c: char)
    requires parts != [] && forall p | p in parts :: c !in p
    ensures Split(Join(parts, c), c) == parts
  {
    var s := Join(parts, c);
    if |parts| == 1 {
      assert Find(s, c) == |s| by {
        FindAbsent(s, c);
      }
    } else {
      var tail := Join(parts[1..], c);
      assert s == parts[0] + [c] + tail;
      FindAfter(parts[0], c, tail);
      assert s[|parts[0]| + 1..] == tail;
      SplitJoin(parts[1..], c);
    }
  }

  lemma FindAbsent(s: string, c: char)
    requires c !in s
    ensures Find(s, c) == |s|
  {
    if s != [] {
      assert c !in s[1..] by {
        assert forall x | x in s[1..] :: x in s;
      }
      FindAbsent(s[1..], c);
    }
  }

  lemma FindAfter(p: string, c: char, t: string)
    requires c !in p
    ensures Find(p + [c] + t, c) == |p| && (p + [c] + t)[..|p|] == p
  {
    if p != [] {
      assert (p + [c] + t)[1..] == p[1..] + [c] + t;
      assert c !in p[1..] by {
        assert forall x | x in p[1..] :: x in p;
      }
      FindAfter(p[1..], c, t);
    }
  }

  /** ASCII lower-casing of one character. */
  function Lower(ch: char): char {
    if 'A' <= ch <= 'Z' then (ch as int + 32) as char else ch
  }

  /** `s.casefold()`, restricted to ASCII letters. */
  function CaseFold(s: string): (r: string)
    ensures |r| == |s| && forall i | 0 <= i < |s| :: r[i] == Lower(s[i])
  {
    seq(|s|, i requires 0 <= i < |s| => Lower(s[i]))
  }

  // ------------------------------------------------------------ ordering

  /** Python's `a < b` on strings: code point by code point, a proper prefix first. */
  predicate Below(a: string, b: string)
    decreases |a|
  {
    if a == [] then b != []
    else b != [] && (a[0] < b[0] || (a[0] == b[0] && Below(a[1..], b[1..])))
  }

  lemma {:induction false} BelowIrreflexive(a: string)
    ensures !Below(a, a)
    decreases |a|
  {
    if a != [] {
      BelowIrreflexive(a[1..]);
    }
  }

  lemma {:induction false} BelowTransitive(a: string, b: string, c: string)
    requires Below(a, b) && Below(b, c)
    ensures Below(a, c)
    decreases |a|
  {
    if a != [] && a[0] == b[0] && b[0] == c[0] {
      BelowTransitive(a[1..], b[1..], c[1..]);
    }
  }

  /** Any two different strings are ordered one way and not the other. */
  lemma {:induction false} BelowTotal(a: string, b: string)
    ensures a != b ==> (Below(a, b) || Below(b, a))
    ensures !(Below(a, b) && Below(b, a))
    decreases |a|
  {
    if a != [] && b != [] && a[0] == b[0] {
      BelowTotal(a[1..], b[1..]);
      if a != b {
        assert a == [a[0]] + a[1..] && b == [b[0]] + b[1..];
      }
    }
  }

  /** Strictly increasing, hence without repeats. */
  predicate Ascending(s: seq<string>) {
    forall i, j | 0 <= i < j < |s| :: Below(s[i], s[j])
  }

  /** Inserts a new name into an ascending list at its place. */
  function InsertName(x: string, s: seq<string>): (r: seq<string>)
    requires Ascending(s) && x !in s
    ensures Ascending(r) && |r| == |s| + 1
    ensures forall y :: y in r <==> y == x || y in s
  {
    if s == [] then [x]
    else
      BelowTotal(x, s[0]);
      if Below(x, s[0]) then
        assert forall j | 0 < j < |s| :: Below(x, s[j]) by {
          forall j | 0 < j < |s| ensures Below(x, s[j]) { BelowTransitive(x, s[0], s[j]); }
        }
        [x] + s
      else
        var rest := InsertName(x, s[1..]);
        assert forall y | y in rest :: Below(s[0], y);
        [s[0]] + rest
  }

  /** `sorted(set(names))` */
  function SortedNames(names: seq<string>): (r: seq<string>)
    ensures Ascending(r)
    ensures forall y :: y in r <==> y in names
    ensures |r| <= |names|
  {
    if names == [] then []
    else
      var rest := SortedNames(names[1..]);
      if names[0] in rest then rest else InsertName(names[0], rest)
  }

  /** An ascending list is determined by its elements: `sorted` has only one possible answer. */
  lemma {:induction false} AscendingUnique(a: seq<string>, b: seq<string>)
    requires Ascending(a) && Ascending(b)
    requires forall y :: y in a <==> y in b
    ensures a == b
    decreases |a|
  {
    if a != [] {
      assert a[0] in b;
      assert b != [] && b[0] in a;
      var i :| 0 <= i < |b| && b[i] == a[0];
      var j :| 0 <= j < |a| && a[j] == b[0];
      BelowTotal(a[0], b[0]);
      assert i == 0 || j == 0;
      assert a[0] == b[0];
      BelowIrreflexive(a[0]);
      TailElements(a, b);
      TailElements(b, a);
      AscendingUnique(a[1..], b[1..]);
      assert a == [a[0]] + a[1..] && b == [b[0]] + b[1..];
    } else {
      NoElements(b);
    }
  }

  lemma NoElements(b: seq<string>)
    ensures (forall y :: y !in b) ==> b == []
  {
    if b != [] {
      assert b[0] in b;
    }
  }

  lemma TailElements(a: seq<string>, b: seq<string>)
    requires Ascending(a) && Ascending(b) && a != [] && b != [] && a[0] == b[0]
    requires forall y :: y in a <==> y in b
    requires !Below(a[0], a[0])
    ensures forall y | y in a[1..] :: y in b[1..]
  {
    forall y | y in a[1..] ensures y in b[1..] {
      var i :| 0 <= i < |a[1..]| && a[1..][i] == y;
      assert Below(a[0], a[i + 1]);
      assert y in b;
      var k :| 0 <= k < |b| && b[k] == y;
      assert k != 0;
      assert b[1..][k - 1] == y;
    }
  }
}
