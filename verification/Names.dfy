/**
 Qualified names: `key=value` components separated by commas, with `*` as a component of its own.
 Parsing sorts the components by key; printing gives the canonical form back.
 */
module Names {
  import opened Basics

  /** A component; a NULL value is None. */
  datatype Part = Part(key: string, value: Option<string>, wildcard: bool)

  datatype QName = QName(parts: seq<Part>, wildcard: bool)

  // ---------------------------------------------------------------- strcmp order

  predicate Below(a: string, b: string) {
    b != "" && (a == "" || a[0] < b[0] || (a[0] == b[0] && Below(a[1..], b[1..])))
  }

  lemma {:induction false} BelowTotal(a: string, b: string)
    ensures a == b || Below(a, b) || Below(b, a)
    ensures !(Below(a, b) && Below(b, a)) && !Below(a, a)
  {
    if a != "" && b != "" {
      BelowTotal(a[1..], b[1..]);
      BelowTotal(a[1..], a[1..]);
      assert a == [a[0]] + a[1..] && b == [b[0]] + b[1..];
    } else if a != "" {
      BelowTotal(a[1..], a[1..]);
    }
  }

  lemma {:induction false} BelowTransitive(a: string, b: string, c: string)
    requires Below(a, b) && Below(b, c)
    ensures Below(a, c)
  {
    if a != "" && a[0] == b[0] == c[0] {
      BelowTransitive(a[1..], b[1..], c[1..]);
    }
  }

  /** The strings agree up to `i`, where the first ends or has the smaller character. */
  predicate LessAt(a: string, b: string, i: int) {
    0 <= i <= |a| && i < |b| && a[..i] == b[..i] && (i == |a| || a[i] < b[i])
  }

  lemma LessAgrees(a: string, b: string, i: int)
    requires LessAt(a, b, i) && i > 0
    ensures a != "" && b != "" && a[0] == b[0]
  {
    assert a[0] == a[..i][0] && b[0] == b[..i][0];
  }

  lemma LessLater(a: string, b: string, i: nat)
    requires a != "" && b != "" && a[0] == b[0]
    ensures LessAt(a, b, i + 1) <==> LessAt(a[1..], b[1..], i)
  {
    if i < |a| && i < |b| {
      assert a[..i + 1] == [a[0]] + a[1..][..i] && b[..i + 1] == [b[0]] + b[1..][..i];
      assert a[..i + 1][1..] == a[1..][..i] && b[..i + 1][1..] == b[1..][..i];
    }
  }

  /** `strcmp`: one string ends within the other, or has the smaller character where they first differ. */
  lemma {:induction false} BelowIsStrcmp(a: string, b: string)
    ensures Below(a, b) <==> exists i :: LessAt(a, b, i)
  {
    if b == "" || a == "" || a[0] != b[0] {
      assert LessAt(a, b, 0) <==> b != "" && (a == "" || a[0] < b[0]);
      forall i | LessAt(a, b, i) ensures i == 0 {
        if i > 0 {
          LessAgrees(a, b, i);
        }
      }
    } else {
      BelowIsStrcmp(a[1..], b[1..]);
      if i :| LessAt(a, b, i) {
        LessLater(a, b, i - 1);
      }
      if i :| LessAt(a[1..], b[1..], i) {
        LessLater(a, b, i);
      }
    }
  }

  // ---------------------------------------------------------------- sorting

  /** Keys never decrease. */
  ghost predicate Sorted(parts: seq<Part>) {
    forall i, j | 0 <= i < j < |parts| :: !Below(parts[j].key, parts[i].key)
  }

  /** Keys strictly increase, so they are distinct. */
  ghost predicate Strict(parts: seq<Part>) {
    forall i, j | 0 <= i < j < |parts| :: Below(parts[i].key, parts[j].key)
  }

  function Insert(parts: seq<Part>, p: Part): seq<Part> {
    if parts == [] || !Below(p.key, Last(parts).key) then parts + [p]
    else Insert(Front(parts), p) + [Last(parts)]
  }

  /** `qsort` with the key comparison: a stable sort of the filled slots. */
  function Sort(parts: seq<Part>): seq<Part> {
    if parts == [] then [] else Insert(Sort(Front(parts)), Last(parts))
  }

  lemma {:induction false} InsertKeeps(parts: seq<Part>, p: Part)
    ensures multiset(Insert(parts, p)) == multiset(parts) + multiset{p}
    ensures |Insert(parts, p)| == |parts| + 1
  {
    if parts != [] && Below(p.key, Last(parts).key) {
      InsertKeeps(Front(parts), p);
      assert parts == Front(parts) + [Last(parts)];
    }
  }

  lemma {:induction false} InsertSorts(parts: seq<Part>, p: Part)
    requires Sorted(parts)
    ensures Sorted(Insert(parts, p))
  {
    if parts == [] || !Below(p.key, Last(parts).key) {
      SortedAppend(parts, p);
    } else {
      var before, last := Front(parts), Last(parts);
      assert Sorted(before) && forall q | q in before :: !Below(last.key, q.key) by {
        assert forall i | 0 <= i < |before| :: before[i] == parts[i];
        assert parts[|parts| - 1] == last;
      }
      InsertSorts(before, p);
      InsertKeeps(before, p);
      var r := Insert(before, p);
      forall q | q in r ensures !Below(last.key, q.key) {
        assert q in multiset(r);
        if q !in before {
          assert q == p;
          BelowTotal(p.key, last.key);
        }
      }
      SortedMore(r, last);
    }
  }

  lemma SortedMore(parts: seq<Part>, p: Part)
    requires Sorted(parts) && forall q | q in parts :: !Below(p.key, q.key)
    ensures Sorted(parts + [p])
  {
  }

  lemma SortedAppend(parts: seq<Part>, p: Part)
    requires Sorted(parts) && (parts != [] ==> !Below(p.key, Last(parts).key))
    ensures Sorted(parts + [p])
  {
    forall q | q in parts ensures !Below(p.key, q.key) {
      var i :| 0 <= i < |parts| && parts[i] == q;
      if i < |parts| - 1 {
        assert !Below(parts[|parts| - 1].key, parts[i].key);
        NotBelowTransitive(q.key, Last(parts).key, p.key);
      }
    }
    SortedMore(parts, p);
  }

  lemma NotBelowTransitive(a: string, b: string, c: string)
    requires !Below(b, a) && !Below(c, b)
    ensures !Below(c, a)
  {
    BelowTotal(a, b);
    BelowTotal(b, c);
    BelowTotal(a, c);
    if Below(a, b) && Below(b, c) {
      BelowTransitive(a, b, c);
    }
  }

  lemma {:induction false} SortSorts(parts: seq<Part>)
    ensures Sorted(Sort(parts)) && multiset(Sort(parts)) == multiset(parts) && |Sort(parts)| == |parts|
  {
    if parts == [] {
    } else {
      SortSorts(Front(parts));
      InsertSorts(Sort(Front(parts)), Last(parts));
      InsertKeeps(Sort(Front(parts)), Last(parts));
      assert parts == Front(parts) + [Last(parts)];
    }
  }

  /** Sorting is stable: what is sorted already stays as it is, equal keys included. */
  lemma {:induction false} SortOfSorted(parts: seq<Part>)
    requires Sorted(parts)
    ensures Sort(parts) == parts
  {
    if parts == [] {
    } else {
      var before, last := Front(parts), Last(parts);
      assert forall i | 0 <= i < |before| :: before[i] == parts[i];
      SortOfSorted(before);
      assert parts[|parts| - 1] == last;
      assert before != [] ==> Last(before) == parts[|parts| - 2];
      FrontLast(parts);
    }
  }

  ghost predicate NoRepeats(parts: seq<Part>) {
    forall i, j | 0 <= i < j < |parts| :: parts[i].key != parts[j].key
  }

  /** Sorted, with distinct keys, is strictly sorted. */
  lemma SortedNoRepeats(parts: seq<Part>)
    requires Sorted(parts) && NoRepeats(parts)
    ensures Strict(parts)
  {
    forall i, j | 0 <= i < j < |parts| ensures Below(parts[i].key, parts[j].key) {
      BelowTotal(parts[i].key, parts[j].key);
    }
  }

  /** A multiset of components with distinct keys has one strictly sorted arrangement. */
  lemma {:induction false} StrictUnique(a: seq<Part>, b: seq<Part>)
    requires Strict(a) && Strict(b) && multiset(a) == multiset(b)
    ensures a == b
  {
    hide Strict;
    assert |a| == |multiset(a)| == |multiset(b)| == |b|;
    if a == [] {
    } else {
      StrictLast(a, b);
      FrontMultiset(a);
      FrontMultiset(b);
      StrictFront(a);
      StrictFront(b);
      StrictUnique(Front(a), Front(b));
    }
  }

  lemma FrontMultiset<T>(a: seq<T>)
    requires a != []
    ensures multiset(Front(a)) == multiset(a) - multiset{Last(a)}
    ensures a == Front(a) + [Last(a)]
  {
    assert a == Front(a) + [Last(a)];
  }

  lemma StrictFront(a: seq<Part>)
    requires Strict(a) && a != []
    ensures Strict(Front(a))
  {
    assert forall i | 0 <= i < |a| - 1 :: Front(a)[i] == a[i];
  }

  lemma StrictLast(a: seq<Part>, b: seq<Part>)
    requires Strict(a) && Strict(b) && multiset(a) == multiset(b) && a != [] && |a| == |b|
    ensures Last(a) == Last(b)
  {
    assert Last(a) in multiset(b) && Last(b) in multiset(a);
    var i :| 0 <= i < |b| && b[i] == Last(a);
    var j :| 0 <= j < |a| && a[j] == Last(b);
    if i < |b| - 1 && j < |a| - 1 {
      assert Below(b[i].key, b[|b| - 1].key) && Below(a[j].key, a[|a| - 1].key);
      BelowTotal(Last(a).key, Last(b).key);
      assert false;
    }
  }
}
