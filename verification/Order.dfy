// Orders and canonical sequences. Every place where the node puts gossiped events
// "in canonical order" (Array.prototype.sort on a strict order) is a use of Sort;
// SortIsCanonical is why the arrival order of those events cannot matter.
module Order {

  // JavaScript's `<` on strings: lexicographic on code units.
  predicate Before(a: string, b: string) {
    if b == [] then false
    else if a == [] then true
    else if a[0] != b[0] then a[0] < b[0]
    else Before(a[1..], b[1..])
  }

  lemma {:induction false} BeforeIsStrict(a: string, b: string)
    ensures !(Before(a, b) && Before(b, a))
    ensures !Before(a, a)
    ensures Before(a, b) || Before(b, a) || a == b
    decreases |a|
  {
    if a != [] {
      BeforeIsStrict(a[1..], if b == [] then [] else b[1..]);
      if b != [] && a[0] == b[0] && a[1..] == b[1..] {
        assert a == [a[0]] + a[1..] == b;
      }
    }
  }

  lemma {:induction false} BeforeIsTransitive(a: string, b: string, c: string)
    requires Before(a, b) && Before(b, c)
    ensures Before(a, c)
    decreases |a|
  {
    if a != [] && a[0] == b[0] == c[0] {
      BeforeIsTransitive(a[1..], b[1..], c[1..]);
    }
  }

  // ---- sorting with a strict order ----

  ghost predicate Strict<T(!new)>(less: (T, T) -> bool) {
    && (forall a :: !less(a, a))
    && (forall a, b, c :: less(a, b) && less(b, c) ==> less(a, c))
  }

  // Any two entries at different positions are comparable.
  ghost predicate Comparable<T>(less: (T, T) -> bool, s: seq<T>) {
    forall i, j :: 0 <= i < j < |s| ==> less(s[i], s[j]) || less(s[j], s[i])
  }

  predicate Ascending<T>(less: (T, T) -> bool, s: seq<T>) {
    forall i, j :: 0 <= i < j < |s| ==> less(s[i], s[j])
  }

  function Insert<T(!new)>(less: (T, T) -> bool, x: T, s: seq<T>): (r: seq<T>)
    ensures |r| == |s| + 1
    ensures forall y :: y in r <==> y == x || y in s
  {
    if s == [] || less(x, s[0]) then [x] + s
    else
      var t := Insert(less, x, s[1..]);
      assert forall y :: y in s <==> y == s[0] || y in s[1..];
      [s[0]] + t
  }

  function Sort<T(!new)>(less: (T, T) -> bool, s: seq<T>): (r: seq<T>)
    ensures |r| == |s|
    ensures forall x :: x in r <==> x in s
  {
    if s == [] then []
    else
      assert forall y :: y in s <==> y == s[0] || y in s[1..];
      Insert(less, s[0], Sort(less, s[1..]))
  }

  lemma {:induction false} InsertAscends<T(!new)>(less: (T, T) -> bool, x: T, s: seq<T>)
    requires Strict(less) && Ascending(less, s)
    requires forall y :: y in s ==> less(x, y) || less(y, x)
    ensures Ascending(less, Insert(less, x, s))
  {
    if s != [] && !less(x, s[0]) {
      var t := Insert(less, x, s[1..]);
      InsertAscends(less, x, s[1..]);
      forall k | 0 <= k < |t| ensures less(s[0], t[k]) {
        assert t[k] in t;
        if t[k] != x {
          var m :| 0 <= m < |s[1..]| && s[1..][m] == t[k];
          assert s[m + 1] == t[k];
        }
      }
    } else if s != [] {
      forall k | 0 <= k < |s| ensures less(x, s[k]) { }
    }
  }

  lemma {:induction false} SortAscends<T(!new)>(less: (T, T) -> bool, s: seq<T>)
    requires Strict(less) && Comparable(less, s)
    ensures Ascending(less, Sort(less, s))
  {
    if s != [] {
      SortAscends(less, s[1..]);
      forall y | y in Sort(less, s[1..]) ensures less(s[0], y) || less(y, s[0]) {
        var m :| 0 <= m < |s[1..]| && s[1..][m] == y;
        assert s[m + 1] == y;
      }
      InsertAscends(less, s[0], Sort(less, s[1..]));
    }
  }

  // Two strictly ascending sequences with the same elements are the same sequence.
  lemma {:induction false} AscendingIsUnique<T(!new)>(less: (T, T) -> bool, s: seq<T>, t: seq<T>)
    requires Strict(less) && Ascending(less, s) && Ascending(less, t)
    requires forall x :: x in s <==> x in t
    ensures s == t
    decreases |s|
  {
    HasElement(s);
    HasElement(t);
    if s != [] {
      assert s[0] in t && t[0] in s;
      assert forall a, b :: less(a, b) ==> !less(b, a);
      assert s[0] == t[0];
      forall x ensures x in s[1..] <==> x in t[1..] {
        TailElements(less, s, x);
        TailElements(less, t, x);
      }
      AscendingIsUnique(less, s[1..], t[1..]);
      assert s == [s[0]] + s[1..];
    }
  }

  lemma HasElement<T(!new)>(s: seq<T>)
    ensures s != [] <==> exists x :: x in s
  {
    if s != [] { assert s[0] in s; }
  }

  lemma TailElements<T(!new)>(less: (T, T) -> bool, s: seq<T>, x: T)
    requires Strict(less) && Ascending(less, s) && s != []
    ensures x in s[1..] <==> x in s && x != s[0]
  {
    if x in s[1..] {
      var m :| 0 <= m < |s[1..]| && s[1..][m] == x;
      assert less(s[0], s[m + 1]);
    }
  }

  // The heart of every "arrival order does not matter" argument.
  lemma SortIsCanonical<T(!new)>(less: (T, T) -> bool, s: seq<T>, t: seq<T>)
    requires Strict(less) && Comparable(less, s) && Comparable(less, t)
    requires forall x :: x in s <==> x in t
    ensures Sort(less, s) == Sort(less, t)
  {
    SortAscends(less, s);
    SortAscends(less, t);
    AscendingIsUnique(less, Sort(less, s), Sort(less, t));
  }

  // ---- filtering ----

  function Filter<T(!new)>(keep: T -> bool, s: seq<T>): (r: seq<T>)
    ensures forall x :: x in r <==> x in s && keep(x)
    ensures |r| <= |s|
  {
    if s == [] then []
    else
      var n := |s| - 1;
      assert forall y :: y in s <==> y in s[..n] || y == s[n];
      Filter(keep, s[..n]) + (if keep(s[n]) then [s[n]] else [])
  }

  lemma {:induction false} FilterAscends<T(!new)>(less: (T, T) -> bool, keep: T -> bool, s: seq<T>)
    requires Ascending(less, s)
    ensures Ascending(less, Filter(keep, s))
  {
    if s != [] {
      var n := |s| - 1;
      var t := Filter(keep, s[..n]);
      FilterAscends(less, keep, s[..n]);
      forall k | 0 <= k < |t| ensures less(t[k], s[n]) {
        assert t[k] in s[..n];
      }
    }
  }

  lemma {:induction false} FilterKeepsAll<T(!new)>(keep: T -> bool, s: seq<T>)
    requires forall x :: x in s ==> keep(x)
    ensures Filter(keep, s) == s
  {
    if s != [] {
      var n := |s| - 1;
      FilterKeepsAll(keep, s[..n]);
      assert keep(s[n]) && s == s[..n] + [s[n]];
    }
  }

  lemma {:induction false} FilterKeepsNone<T(!new)>(keep: T -> bool, s: seq<T>)
    requires forall x :: x in s ==> !keep(x)
    ensures Filter(keep, s) == []
  {
    if s != [] { FilterKeepsNone(keep, s[..|s| - 1]); }
  }

  lemma FilterSkipsLast<T(!new)>(keep: T -> bool, s: seq<T>, x: T)
    requires !keep(x)
    ensures Filter(keep, s + [x]) == Filter(keep, s)
  {
    assert (s + [x])[..|s|] == s;
  }

  // A sequence kept under distinct keys, as a JavaScript Map keeps its values.
  ghost predicate Distinct<T>(key: T -> string, s: seq<T>) {
    forall i, j :: 0 <= i < j < |s| ==> key(s[i]) != key(s[j])
  }

  // The place of the first element under a key, or the end if there is none.
  function PlaceOf<T(!new)>(key: T -> string, s: seq<T>, id: string): (k: nat)
    ensures k <= |s|
    ensures k < |s| ==> key(s[k]) == id
    ensures forall i :: 0 <= i < k ==> key(s[i]) != id
  {
    if s == [] || key(s[0]) == id then 0 else 1 + PlaceOf(key, s[1..], id)
  }

  lemma {:induction false} FilterIsDistinct<T(!new)>(key: T -> string, keep: T -> bool, s: seq<T>)
    requires Distinct(key, s)
    ensures Distinct(key, Filter(keep, s))
  {
    if s != [] {
      var n := |s| - 1;
      var t := Filter(keep, s[..n]);
      FilterIsDistinct(key, keep, s[..n]);
      forall k | 0 <= k < |t| ensures key(t[k]) != key(s[n]) {
        assert t[k] in s[..n];
      }
    }
  }

  lemma SubsetCount<T>(a: set<T>, b: set<T>)
    requires a <= b
    ensures |a| <= |b|
  {
    assert b == a + (b - a);
  }

  // ---- names ----

  // [...new Set(ids)]: first occurrences, in order.
  function Dedup(ids: seq<string>): (r: seq<string>)
    ensures forall x :: x in r <==> x in ids
    ensures forall i, j :: 0 <= i < j < |r| ==> r[i] != r[j]
  {
    if ids == [] then []
    else
      var init := Dedup(ids[..|ids| - 1]);
      var x := ids[|ids| - 1];
      assert forall y :: y in ids <==> y in ids[..|ids| - 1] || y == x;
      if x in init then init else init + [x]
  }

  function ByName(): (string, string) -> bool { (a: string, b: string) => Before(a, b) }

  lemma ByNameIsStrict()
    ensures Strict(ByName())
  {
    forall a: string ensures !ByName()(a, a) { BeforeIsStrict(a, a); }
    forall a: string, b: string, c: string | ByName()(a, b) && ByName()(b, c) ensures ByName()(a, c) {
      BeforeIsTransitive(a, b, c);
    }
  }

  // [...new Set(names)].sort()
  function SortedNames(names: seq<string>): seq<string> { Sort(ByName(), Dedup(names)) }

  lemma SortedNamesAscend(names: seq<string>)
    ensures Ascending(ByName(), SortedNames(names))
  {
    ByNameIsStrict();
    var d := Dedup(names);
    forall i, j | 0 <= i < j < |d| ensures ByName()(d[i], d[j]) || ByName()(d[j], d[i]) { BeforeIsStrict(d[i], d[j]); }
    SortAscends(ByName(), d);
  }

  lemma SortedNamesDiffer(names: seq<string>)
    ensures forall i, j :: 0 <= i < j < |SortedNames(names)| ==> SortedNames(names)[i] != SortedNames(names)[j]
  {
    SortedNamesAscend(names);
    forall i, j | 0 <= i < j < |SortedNames(names)| ensures SortedNames(names)[i] != SortedNames(names)[j] {
      BeforeIsStrict(SortedNames(names)[i], SortedNames(names)[j]);
    }
  }

  lemma SortedNamesIgnoreOrder(names: seq<string>, other: seq<string>)
    requires forall x :: x in names <==> x in other
    ensures SortedNames(names) == SortedNames(other)
  {
    ByNameIsStrict();
    SortedNamesAscend(names);
    SortedNamesAscend(other);
    AscendingIsUnique(ByName(), SortedNames(names), SortedNames(other));
  }

  ghost predicate IsFirst(s: set<string>, x: string) {
    x in s && forall y :: y in s && y != x ==> Before(x, y)
  }

  lemma {:induction false} FirstExists(s: set<string>) returns (x: string)
    requires s != {}
    ensures IsFirst(s, x)
  {
    var a :| a in s;
    if s == {a} {
      x := a;
    } else {
      assert s == {a} + (s - {a});
      var b := FirstExists(s - {a});
      BeforeIsStrict(a, b);
      if Before(a, b) {
        x := a;
        forall y | y in s && y != a ensures Before(a, y) { if y != b { BeforeIsTransitive(a, b, y); } }
      } else {
        x := b;
      }
    }
  }

  // The elements of a finite set of names, in ascending order.
  ghost function Ascend(s: set<string>): (r: seq<string>)
    ensures forall x :: x in r <==> x in s
    ensures Ascending(ByName(), r)
  {
    if s == {} then []
    else
      assert exists x :: IsFirst(s, x) by { var x := FirstExists(s); }
      var x :| IsFirst(s, x);
      [x] + Ascend(s - {x})
  }

  lemma AscendIsSortedNames(s: set<string>, names: seq<string>)
    requires forall x :: x in names <==> x in s
    ensures SortedNames(names) == Ascend(s)
  {
    ByNameIsStrict();
    SortedNamesAscend(names);
    AscendingIsUnique(ByName(), SortedNames(names), Ascend(s));
  }
}
