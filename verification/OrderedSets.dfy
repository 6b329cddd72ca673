/** Sorting followed by removing neighbours that are equal: the standard way the
    views turn a list into a strictly sorted list of its elements. */
module OrderedSets {
  /** A strict total order. */
  ghost predicate TotalOrder<T(!new)>(less: (T, T) -> bool) {
    && (forall a, b :: less(a, b) ==> !less(b, a) && a != b)
    && (forall a, b :: a != b ==> less(a, b) || less(b, a))
    && (forall a, b, c :: less(a, b) && less(b, c) ==> less(a, c))
  }

  function Insert<T>(s: seq<T>, x: T, less: (T, T) -> bool): seq<T> {
    if s == [] then [x]
    else if less(x, s[0]) then [x] + s
    else [s[0]] + Insert(s[1..], x, less)
  }

  function Sort<T>(items: seq<T>, less: (T, T) -> bool): seq<T> {
    if items == [] then [] else Insert(Sort(items[..|items| - 1], less), items[|items| - 1], less)
  }

  function Dedup<T(==)>(s: seq<T>): seq<T> {
    if |s| <= 1 then s
    else if s[0] == s[1] then Dedup(s[1..])
    else [s[0]] + Dedup(s[1..])
  }

  function SortedSet<T(==)>(items: seq<T>, less: (T, T) -> bool): seq<T> {
    Dedup(Sort(items, less))
  }

  ghost predicate Ascending<T>(s: seq<T>, less: (T, T) -> bool) {
    forall i, j :: 0 <= i < j < |s| ==> !less(s[j], s[i])
  }

  ghost predicate Strict<T>(s: seq<T>, less: (T, T) -> bool) {
    forall i, j :: 0 <= i < j < |s| ==> less(s[i], s[j])
  }

  ghost predicate Same<T(!new)>(a: seq<T>, b: seq<T>) {
    forall x :: x in a <==> x in b
  }

  lemma {:induction false} InsertMembers<T>(s: seq<T>, x: T, less: (T, T) -> bool, y: T)
    ensures y in Insert(s, x, less) <==> y == x || y in s
  {
    if s != [] {
      assert s == [s[0]] + s[1..];
      if !less(x, s[0]) { InsertMembers(s[1..], x, less, y); }
    }
  }

  lemma {:induction false} InsertAscending<T(!new)>(s: seq<T>, x: T, less: (T, T) -> bool)
    requires TotalOrder(less) && Ascending(s, less)
    ensures Ascending(Insert(s, x, less), less)
  {
    if s != [] {
      if less(x, s[0]) {
        forall j | 0 <= j < |s| ensures !less(s[j], x) {
          assert !less(s[j], s[0]);
        }
      } else {
        var rest := Insert(s[1..], x, less);
        InsertAscending(s[1..], x, less);
        forall j | 0 <= j < |rest| ensures !less(rest[j], s[0]) {
          InsertMembers(s[1..], x, less, rest[j]);
        }
      }
    }
  }

  lemma {:induction false} SortAscending<T(!new)>(items: seq<T>, less: (T, T) -> bool)
    requires TotalOrder(less)
    ensures Ascending(Sort(items, less), less)
  {
    if items != [] {
      SortAscending(items[..|items| - 1], less);
      InsertAscending(Sort(items[..|items| - 1], less), items[|items| - 1], less);
    }
  }

  lemma {:induction false} SortMembers<T>(items: seq<T>, less: (T, T) -> bool, y: T)
    ensures y in Sort(items, less) <==> y in items
  {
    if items != [] {
      var front, x := items[..|items| - 1], items[|items| - 1];
      SortMembers(front, less, y);
      InsertMembers(Sort(front, less), x, less, y);
      assert items == front + [x];
    }
  }

  lemma {:induction false} DedupMembers<T>(s: seq<T>, y: T)
    ensures y in Dedup(s) <==> y in s
  {
    if |s| > 1 {
      DedupMembers(s[1..], y);
      assert s == [s[0]] + s[1..];
      assert s[1..][0] == s[1];
    }
  }

  lemma {:induction false} DedupStrict<T(!new)>(s: seq<T>, less: (T, T) -> bool)
    requires TotalOrder(less) && Ascending(s, less)
    ensures Strict(Dedup(s), less)
  {
    if |s| > 1 {
      DedupStrict(s[1..], less);
      if s[0] != s[1] {
        var rest := Dedup(s[1..]);
        forall j | 0 <= j < |rest| ensures less(s[0], rest[j]) {
          DedupMembers(s[1..], rest[j]);
          Above(s, less, rest[j]);
        }
      }
    }
  }

  lemma Above<T(!new)>(s: seq<T>, less: (T, T) -> bool, y: T)
    requires TotalOrder(less) && Ascending(s, less) && |s| > 1 && s[0] != s[1] && y in s[1..]
    ensures less(s[0], y)
  {
    var k :| 0 <= k < |s| - 1 && s[1..][k] == y;
    assert less(s[0], s[1]);
    if k > 0 {
      assert !less(s[k + 1], s[1]);
      assert y == s[1] || less(s[1], y);
    }
  }

  /** The result is strictly sorted and has exactly the given elements. */
  lemma SortedSetExact<T(!new)>(items: seq<T>, less: (T, T) -> bool)
    requires TotalOrder(less)
    ensures Strict(SortedSet(items, less), less) && Same(SortedSet(items, less), items)
  {
    SortAscending(items, less);
    DedupStrict(Sort(items, less), less);
    forall y ensures y in SortedSet(items, less) <==> y in items {
      SortMembers(items, less, y);
      DedupMembers(Sort(items, less), y);
    }
  }

  /** And it is the only such list. */
  lemma {:induction false} StrictUnique<T(!new)>(a: seq<T>, b: seq<T>, less: (T, T) -> bool)
    requires TotalOrder(less) && Strict(a, less) && Strict(b, less) && Same(a, b)
    ensures a == b
  {
    assert |a| > 0 ==> a[0] in a;
    assert |b| > 0 ==> b[0] in b;
    if a != [] {
      Heads(a, b, less);
      forall x ensures x in a[1..] <==> x in b[1..] {
        TailMembers(a, less, x);
        TailMembers(b, less, x);
      }
      StrictUnique(a[1..], b[1..], less);
    }
  }

  lemma Heads<T(!new)>(a: seq<T>, b: seq<T>, less: (T, T) -> bool)
    requires TotalOrder(less) && Strict(a, less) && Strict(b, less) && Same(a, b) && a != [] && b != []
    ensures a[0] == b[0]
  {
    assert a[0] in b && b[0] in a;
    var i :| 0 <= i < |b| && b[i] == a[0];
    var j :| 0 <= j < |a| && a[j] == b[0];
  }

  lemma TailMembers<T(!new)>(a: seq<T>, less: (T, T) -> bool, x: T)
    requires TotalOrder(less) && Strict(a, less) && a != []
    ensures x in a[1..] <==> x in a && x != a[0]
  {
    assert a == [a[0]] + a[1..];
  }
}
