/** Qualified names as finite maps and as patterns. */
module NameTheorems {
  import opened Basics
  import opened Names
  import opened NameText
  import opened NameOps

  // ---------------------------------------------------------------- edits refine a finite map

  /** The finite map a name stands for; later parts win. */
  function AsMap(parts: seq<Part>): map<string, Option<string>> {
    if parts == [] then map[] else AsMap(Front(parts))[Last(parts).key := Last(parts).value]
  }

  lemma {:induction false} AsMapHolds(parts: seq<Part>, p: Part)
    requires NoRepeats(parts) && p in parts
    ensures p.key in AsMap(parts) && AsMap(parts)[p.key] == p.value
  {
    var before, last := Front(parts), Last(parts);
    FrontMultiset(parts);
    NoRepeatsParts(parts);
    if p != last {
      AsMapHolds(before, p);
    }
  }

  lemma NoRepeatsParts(parts: seq<Part>)
    requires NoRepeats(parts) && parts != []
    ensures NoRepeats(Front(parts)) && forall p | p in Front(parts) :: p.key != Last(parts).key
  {
    assert forall i | 0 <= i < |parts| - 1 :: Front(parts)[i] == parts[i];
    assert parts[|parts| - 1] == Last(parts);
  }

  lemma {:induction false} AsMapOnly(parts: seq<Part>, key: string)
    ensures key in AsMap(parts) ==> exists p :: p in parts && p.key == key
  {
    if parts != [] && key in AsMap(parts) {
      if key == Last(parts).key {
        assert Last(parts) in parts;
      } else {
        AsMapOnly(Front(parts), key);
        var p :| p in Front(parts) && p.key == key;
        assert p in parts;
      }
    }
  }

  /** Two lists of parts with distinct keys and the same members stand for the same map. */
  lemma AsMapSameMembers(a: seq<Part>, b: seq<Part>)
    requires NoRepeats(a) && NoRepeats(b) && forall p :: p in a <==> p in b
    ensures AsMap(a) == AsMap(b)
  {
    hide AsMap, NoRepeats;
    forall k | k in AsMap(a) || k in AsMap(b)
      ensures k in AsMap(a) && k in AsMap(b) && AsMap(a)[k] == AsMap(b)[k]
    {
      AsMapOnly(a, k);
      AsMapOnly(b, k);
      var p :| p in a && p.key == k;
      AsMapHolds(a, p);
      AsMapHolds(b, p);
    }
  }

  lemma StrictNoRepeats(parts: seq<Part>)
    requires Strict(parts)
    ensures NoRepeats(parts)
  {
    hide Below, Strict;
    forall i, j | 0 <= i < j < |parts| ensures parts[i].key != parts[j].key {
      StrictAt(parts, i, j);
    }
  }

  lemma SortIsStrict(parts: seq<Part>)
    requires NoRepeats(parts)
    ensures Strict(Sort(parts)) && AsMap(Sort(parts)) == AsMap(parts)
    ensures forall p :: p in Sort(parts) <==> p in parts
  {
    hide NoRepeats, Sorted, Strict, AsMap, Sort;
    SortSorts(parts);
    NoRepeatsPermuted(parts, Sort(parts));
    SortedNoRepeats(Sort(parts));
    forall p ensures p in Sort(parts) <==> p in parts {
      assert p in multiset(Sort(parts)) <==> p in multiset(parts);
    }
    AsMapSameMembers(parts, Sort(parts));
  }

  lemma NewKey(parts: seq<Part>, key: string, value: Option<string>, wild: bool)
    requires Strict(parts) && FindKey(parts, key) == |parts|
    ensures var parts' := Sort(parts + [Part(key, value, wild)]);
            && Strict(parts') && AsMap(parts') == AsMap(parts)[key := value]
            && forall p :: p in parts' <==> p in parts || p == Part(key, value, wild)
  {
    hide Strict, Sort;
    StrictNoRepeats(parts);
    var all := parts + [Part(key, value, wild)];
    assert NoRepeats(all);
    SortIsStrict(all);
    assert Front(all) == parts && Last(all) == Part(key, value, wild);
  }

  lemma {:induction false} AsMapUpdate(parts: seq<Part>, i: nat, p: Part)
    requires NoRepeats(parts) && i < |parts| && p.key == parts[i].key
    ensures AsMap(parts[i := p]) == AsMap(parts)[p.key := p.value]
  {
    hide NoRepeats;
    var parts' := parts[i := p];
    NoRepeatsParts(parts);
    if i == |parts| - 1 {
      assert Front(parts') == Front(parts);
    } else {
      AsMapUpdate(Front(parts), i, p);
      assert Front(parts') == Front(parts)[i := p];
      assert parts[i] in Front(parts) by { assert Front(parts)[i] == parts[i]; }
    }
  }

  lemma StrictUpdate(parts: seq<Part>, i: nat, p: Part)
    requires Strict(parts) && i < |parts| && p.key == parts[i].key
    ensures Strict(parts[i := p])
  {
    hide Below;
    var parts' := parts[i := p];
    forall k, l | 0 <= k < l < |parts'| ensures Below(parts'[k].key, parts'[l].key) {
      assert parts'[k].key == parts[k].key && parts'[l].key == parts[l].key;
    }
  }

  /** `bolo_name_set` is update of the map; the order of keys is kept. */
  lemma SetRefines(parts: seq<Part>, key: string, value: Option<string>)
    requires Strict(parts)
    ensures Strict(SetPart(parts, key, value))
    ensures AsMap(SetPart(parts, key, value)) == AsMap(parts)[key := Stored(value)]
  {
    hide Strict, Sort, FindKey;
    var i := FindKey(parts, key);
    if i < |parts| {
      var p := parts[i].(value := Stored(value));
      StrictNoRepeats(parts);
      AsMapUpdate(parts, i, p);
      StrictUpdate(parts, i, p);
    } else {
      NewKey(parts, key, Stored(value), Stored(value).None?);
    }
  }

  /** `bolo_name_unset` is removal from the map. */
  lemma UnsetRefines(parts: seq<Part>, key: string)
    requires Strict(parts)
    ensures Strict(UnsetPart(parts, key))
    ensures AsMap(UnsetPart(parts, key)) == AsMap(parts) - {key}
  {
    hide FindKey, Below;
    var i := FindKey(parts, key);
    var parts' := UnsetPart(parts, key);
    StrictNoRepeats(parts);
    StrictSlices(parts, i);
    StrictNoRepeats(parts');
    forall k | k in AsMap(parts') || k in AsMap(parts) - {key}
      ensures k in AsMap(parts') && k in AsMap(parts) && k != key && AsMap(parts')[k] == AsMap(parts)[k]
    {
      UnsetAt(parts, key, k);
    }
  }

  lemma StrictSlices(parts: seq<Part>, i: nat)
    requires Strict(parts) && i <= |parts|
    ensures i < |parts| ==> Strict(parts[..i] + parts[i + 1..])
  {
    hide Below;
    if i < |parts| {
      var parts' := parts[..i] + parts[i + 1..];
      assert forall x | 0 <= x < |parts'| :: parts'[x] == parts[if x < i then x else x + 1];
    }
  }

  lemma UnsetAt(parts: seq<Part>, key: string, k: string)
    requires NoRepeats(parts) && NoRepeats(UnsetPart(parts, key))
    requires var m, m' := AsMap(parts), AsMap(UnsetPart(parts, key)); k in m' || (k in m && k != key)
    ensures var m, m' := AsMap(parts), AsMap(UnsetPart(parts, key)); k in m && k in m' && k != key && m'[k] == m[k]
  {
    hide AsMap, FindKey;
    var i, parts' := FindKey(parts, key), UnsetPart(parts, key);
    forall p ensures p in parts' <==> p in parts && p.key != key {
      if i < |parts| {
        assert parts == parts[..i] + [parts[i]] + parts[i + 1..];
      } else {
        assert p in parts ==> p.key != key;
      }
    }
    AsMapOnly(parts, k);
    AsMapOnly(parts', k);
    var p :| p in parts && p.key == k;
    AsMapHolds(parts, p);
    AsMapHolds(parts', p);
  }

  /** The map of what `bolo_name_concat` stores for each part of the other name. */
  function StoredMap(parts: seq<Part>): map<string, Option<string>> {
    if parts == [] then map[] else StoredMap(Front(parts))[Last(parts).key := Stored(Last(parts).value)]
  }

  /** `bolo_name_concat` is right-biased union. */
  lemma {:induction false} ConcatRefines(a: seq<Part>, b: seq<Part>)
    requires Strict(a)
    ensures Strict(SetAllParts(a, b))
    ensures AsMap(SetAllParts(a, b)) == AsMap(a) + StoredMap(b)
  {
    hide Strict, SetPart;
    if b == [] {
    } else {
      ConcatRefines(a, Front(b));
      SetRefines(SetAllParts(a, Front(b)), Last(b).key, Last(b).value);
    }
  }

  lemma {:induction false} ConcreteIsStored(b: seq<Part>)
    requires forall p | p in b :: p.value != Some("*")
    ensures StoredMap(b) == AsMap(b)
  {
    if b == [] {
    } else {
      FrontMultiset(b);
      ConcreteIsStored(Front(b));
    }
  }

  /**
   A component's flag and value agree, as they do after parsing, exactly when the value set is a
   string other than `*`, empty only where the component was a wildcard already.
   */
  lemma SetConsistentIff(parts: seq<Part>, key: string, value: Option<string>)
    requires forall p | p in parts :: p.value.Some? && p.wildcard == IsWild(p.value.value)
    ensures var i := FindKey(parts, key);
            (forall p | p in SetPart(parts, key, value) :: p.value.Some? && p.wildcard == IsWild(p.value.value))
            <==> value.Some? && value.value != "*" && (value.value == "" <==> i < |parts| && parts[i].wildcard)
  {
    hide FindKey, Sort;
    var i := FindKey(parts, key);
    var parts' := SetPart(parts, key, value);
    if i < |parts| {
      assert parts'[i] in parts';
      forall p | p in parts' ensures p == parts'[i] || p in parts {
        var k :| 0 <= k < |parts'| && parts'[k] == p;
      }
    } else {
      var added := Part(key, Stored(value), Stored(value).None?);
      SortSorts(parts + [added]);
      forall p ensures p in parts' <==> p in parts || p == added {
        assert p in multiset(parts') <==> p in multiset(parts + [added]);
      }
      assert added in parts';
    }
  }

  // ---------------------------------------------------------------- matching as a relation

  lemma MatchReflexive(a: QName)
    ensures Matches(a, a)
  {
    forall q | q in a.parts ensures Accepted(a, q) {
      assert Accepts(q, q);
    }
  }

  lemma AcceptedThrough(a: QName, b: QName, q: Part)
    requires AllWellFormed(b.parts) && WellFormed(q) && Accepted(b, q)
    requires forall r | r in b.parts :: Accepted(a, r)
    ensures Accepted(a, q)
  {
    hide Accepted;
    var r := AcceptedBy(b, q);
    var p := AcceptedBy(a, r);
    assert WellFormed(r);
    AcceptedIntro(a, q, p);
  }

  lemma AcceptedBy(a: QName, q: Part) returns (p: Part)
    requires Accepted(a, q)
    ensures p in a.parts && p.key == q.key && Accepts(q, p)
  {
    p :| p in a.parts && p.key == q.key && Accepts(q, p);
  }

  lemma AcceptedIntro(a: QName, q: Part, p: Part)
    requires p in a.parts && p.key == q.key && Accepts(q, p)
    ensures Accepted(a, q)
  {
  }

  lemma MatchTransitive(a: QName, b: QName, c: QName)
    requires AllWellFormed(b.parts) && AllWellFormed(c.parts)
    requires Matches(a, b) && Matches(b, c) && (b.wildcard ==> c.wildcard)
    ensures Matches(a, c)
  {
    hide Accepted, WellFormed;
    forall q | q in c.parts ensures Accepted(a, q) {
      AcceptedThrough(a, b, q);
    }
    if !c.wildcard {
      forall p | p in a.parts ensures Mentions(c, p.key) {
        var r :| r in b.parts && r.key == p.key;
        assert Mentions(c, r.key);
      }
    }
  }

  /** A key longer than all others. */
  function FreshKey(parts: seq<Part>): (k: string)
    ensures forall p | p in parts :: |p.key| < |k|
  {
    if parts == [] then "k"
    else
      var k := FreshKey(Front(parts));
      assert forall p | p in parts :: p in Front(parts) || p == Last(parts);
      if |Last(parts).key| < |k| then k else Last(parts).key + "k"
  }

  /**
   If `b` matches `c`, then everything that matches `b` matches `c` exactly when `c` has `*` wherever
   `b` has it: this is when matching is transitive.
   */
  lemma TransitiveIff(b: QName, c: QName)
    requires AllWellFormed(b.parts) && AllWellFormed(c.parts) && Strict(b.parts) && Matches(b, c)
    ensures (forall a: QName | Strict(a.parts) && Matches(a, b) :: Matches(a, c)) <==> (b.wildcard ==> c.wildcard)
  {
    if b.wildcard ==> c.wildcard {
      forall a: QName | Strict(a.parts) && Matches(a, b) ensures Matches(a, c) {
        MatchTransitive(a, b, c);
      }
    } else {
      var a := Longer(b, c);
    }
  }

  /** A name with one key more than the pattern `b` allows for without its `*`. */
  lemma Longer(b: QName, c: QName) returns (a: QName)
    requires Strict(b.parts) && Matches(b, c) && b.wildcard && !c.wildcard
    ensures Strict(a.parts) && Matches(a, b) && !Matches(a, c)
  {
    hide Strict, Sort, Accepted;
    var key := FreshKey(b.parts);
    FindKeyIs(b.parts, key, |b.parts|);
    NewKey(b.parts, key, Some("x"), false);
    var extra := Part(key, Some("x"), false);
    a := QName(Sort(b.parts + [extra]), false);
    forall q | q in b.parts ensures Accepted(a, q) {
      AcceptedIntro(a, q, q);
    }
    assert extra in a.parts;
    forall q | q in c.parts ensures q.key != key {
      var p := AcceptedBy(b, q);
    }
  }
}
