/** `bolo_name_t` as an object: parsing into it, printing it, matching and in-place edits. */
module NameOps {
  import opened Basics
  import opened Names
  import opened NameText

  // ---------------------------------------------------------------- specification of the edits

  /** What `bolo_name_set` stores: NULL for a wildcard value. */
  function Stored(value: Option<string>): Option<string> {
    if value == Some("*") then None else value
  }

  /** The position of a key, or the number of parts. */
  function FindKey(parts: seq<Part>, key: string): (i: nat)
    ensures i <= |parts| && (i < |parts| ==> parts[i].key == key)
    ensures forall k | 0 <= k < i :: parts[k].key != key
  {
    if parts == [] || parts[0].key == key then 0 else 1 + FindKey(parts[1..], key)
  }

  lemma FindKeyIs(parts: seq<Part>, key: string, i: nat)
    requires i <= |parts| && (i < |parts| ==> parts[i].key == key) && forall k | 0 <= k < i :: parts[k].key != key
    ensures FindKey(parts, key) == i
  {
  }

  function SetPart(parts: seq<Part>, key: string, value: Option<string>): seq<Part> {
    var i := FindKey(parts, key);
    if i < |parts| then parts[i := parts[i].(value := Stored(value))]
    else Sort(parts + [Part(key, Stored(value), Stored(value).None?)])
  }

  function UnsetPart(parts: seq<Part>, key: string): seq<Part> {
    var i := FindKey(parts, key);
    if i < |parts| then parts[..i] + parts[i + 1..] else parts
  }

  function SetAllParts(parts: seq<Part>, others: seq<Part>): seq<Part> {
    if others == [] then parts else SetPart(SetAllParts(parts, Front(others)), Last(others).key, Last(others).value)
  }

  // ---------------------------------------------------------------- matching

  /** A component of `b` accepts a component of `a` with the same key. */
  predicate Accepts(pb: Part, pa: Part) {
    pb.wildcard || pb.value == pa.value
  }

  /** The key of the pattern component `q` is in `a`, with a value it accepts. */
  ghost predicate Accepted(a: QName, q: Part) {
    exists p :: p in a.parts && p.key == q.key && Accepts(q, p)
  }

  /** The pattern `b` mentions the key. */
  ghost predicate Mentions(b: QName, key: string) {
    exists q :: q in b.parts && q.key == key
  }

  /** Every key of `b` is in `a` with an accepted value, and `b` has `*` or `a` has no other keys. */
  ghost predicate Matches(a: QName, b: QName) {
    && (forall q | q in b.parts :: Accepted(a, q))
    && (b.wildcard || forall p | p in a.parts :: Mentions(b, p.key))
  }

  /** A list whose elements after `i` have moved one place down, up to place `k`. */
  ghost function ShiftDown<T>(was: seq<T>, i: nat, k: nat): (now: seq<T>)
    requires i <= k < |was|
    ensures |now| == |was|
  {
    was[..i] + was[i + 1..k + 1] + was[k..]
  }

  lemma ShiftStart<T>(was: seq<T>, i: nat)
    requires i < |was|
    ensures ShiftDown(was, i, i) == was
  {
    assert was[i + 1..i + 1] == [];
  }

  lemma ShiftStep<T>(was: seq<T>, i: nat, k: nat)
    requires i <= k < |was| - 1
    ensures var now := ShiftDown(was, i, k); now[k := now[k + 1]] == ShiftDown(was, i, k + 1)
  {
    var now := ShiftDown(was, i, k);
    assert now[k + 1] == was[k + 1];
    assert was[i + 1..k + 2] == was[i + 1..k + 1] + [was[k + 1]];
  }

  lemma ShiftEnd<T>(was: seq<T>, i: nat)
    requires i < |was|
    ensures var now := ShiftDown(was, i, |was| - 1); now[..|now| - 1] == was[..i] + was[i + 1..]
  {
    assert was[i + 1..|was|] == was[i + 1..];
  }

  class Name {
    var parts: seq<Part>
    var wildcard: bool

    ghost function View(): QName
      reads this
    {
      QName(parts, wildcard)
    }

    constructor ()
      ensures View() == QName([], false)
    {
      parts, wildcard := [], false;
    }

    /** `bolo_name_parse`: null for a string that is not a qualified name. */
    static method Parse(s: string) returns (n: Name?)
      ensures n == null <==> ParseName(s).None?
      ensures n != null ==> fresh(n) && n.View() == ParseName(s).value
    {
      hide Split, ParseComponents, Prepended, Sort;
      n := new Name();
      if s == "" {
        return;
      }
      var count := CountParts(s);
      var parts: seq<Part>, wildcard := [], false;
      var a := 0;
      ParseStarts(s);
      while |parts| < count
        invariant ParsedTo(s, a, parts, wildcard, count)
        decreases |s| - a
      {
        var b := KeyEnd(s, a);
        if b == |s| || s[b] == ',' {
          if b - a == 1 && s[a] == '*' {
            StarParsed(s, a, parts, wildcard, count);
            wildcard := true;
            if b == |s| {
              break;
            }
            a := b + 1;
            continue;
          }
          BadParsed(s, a, b, parts, wildcard, count);
          return null;
        }
        var e := b;
        b := ValueEnd(s, e + 1);
        PairParsed(s, a, e, b, parts, wildcard, count);
        parts := parts + [Part(s[a..e], Some(s[e + 1..b]), IsWild(s[e + 1..b]))];
        if b == |s| {
          break;
        }
        a := b + 1;
      }
      n.parts, n.wildcard := Sort(parts), wildcard;
    }

    /** The number of components: one more than there are commas. */
    static method CountParts(s: string) returns (count: nat)
      ensures count == |Split(s)|
    {
      hide Split;
      count := 1;
      for k := 0 to |s|
        invariant count == 1 + CountCommas(s[..k])
      {
        assert Front(s[..k + 1]) == s[..k] && Last(s[..k + 1]) == s[k];
        if s[k] == ',' {
          count := count + 1;
        }
      }
      assert s[..|s|] == s;
      SplitCount(s);
    }

    /** Where the key that starts at `a` ends: at `=`, a comma or the end. */
    static method KeyEnd(s: string, a: nat) returns (b: nat)
      requires a <= |s|
      ensures a <= b <= |s| && (b < |s| ==> s[b] == '=' || s[b] == ',')
      ensures forall k | a <= k < b :: s[k] != '=' && s[k] != ','
    {
      b := a;
      while b < |s| && s[b] != '=' && s[b] != ','
        invariant a <= b <= |s| && forall k | a <= k < b :: s[k] != '=' && s[k] != ','
      {
        b := b + 1;
      }
    }

    /** Where the value that starts at `a` ends: at a comma or the end. */
    static method ValueEnd(s: string, a: nat) returns (b: nat)
      requires a <= |s|
      ensures a <= b <= |s| && (b < |s| ==> s[b] == ',') && forall k | a <= k < b :: s[k] != ','
    {
      b := a;
      while b < |s| && s[b] != ','
        invariant a <= b <= |s| && forall k | a <= k < b :: s[k] != ','
      {
        b := b + 1;
      }
    }

    /** `bolo_name_string`: computes the length, fills a buffer of that size, and ends it with a NUL. */
    method String() returns (str: string)
      requires forall p | p in parts :: p.value.Some?
      ensures str == PrintName(View())
    {
      hide Text, Join, PartTexts, Body, PrintName;
      BodyOfNone();
      var len := 0;
      for i := 0 to |parts|
        invariant len == |Body(parts[..i])|
      {
        assert parts[i] in parts;
        BodyStep(parts, i);
        len := len + |parts[i].key| + 1 + |parts[i].value.value| + 1;
      }
      assert parts[..|parts|] == parts;
      if wildcard {
        len := len + 2;
      }
      BodyIsJoin(View());
      if len == 0 {
        return "";
      }
      var s := new char[len];
      var p := 0;
      for i := 0 to |parts|
        invariant p == |Body(parts[..i])| <= len && s[..p] == Body(parts[..i])
      {
        BodyStep(parts, i);
        BodyFits(parts, i + 1);
        assert parts[i] in parts;
        p := WritePart(s, p, parts[i]);
      }
      if wildcard {
        s[p] := '*';
        s[p + 1] := ',';
        p := p + 2;
        assert s[..p] == Body(parts) + "*,";
      }
      assert p == len;
      p := p - 1;
      s[p] := '\0';
      str := s[..p];
    }

    /** `bolo_name_match`: 0 if `a` matches the pattern `b`. */
    static method Match(a: Name, b: Name) returns (rc: int)
      requires (forall p | p in a.parts :: p.value.Some?) && (forall q | q in b.parts :: q.wildcard || q.value.Some?)
      ensures rc == 0 || rc == 1
      ensures Strict(a.parts) && Strict(b.parts) ==> (rc == 0 <==> Matches(a.View(), b.View()))
      ensures !b.wildcard ==> (rc == 0 <==> PartByPart(a.View(), b.View()))
      ensures b.wildcard ==> (rc == 0 <==> Pickable(a.View(), b.View()))
    {
      hide Paired, Matches, Strict, Walking, PartByPart, Pickable;
      ghost var x, y := a.View(), b.View();
      ghost var strict := Strict(a.parts) && Strict(b.parts);
      PairedNone(x, y);
      ghost var ps := WalkStarts(x, y);
      if |b.parts| == 0 && b.wildcard {
        AllAccepted(x, y, 0);
        WalkDecides(x, y, 0, 0, ps);
        return 0;
      }
      var i, j := 0, 0;
      while true
        invariant 0 <= i <= |a.parts| && 0 <= j <= |b.parts|
        invariant strict ==> Paired(x, y, i, j)
        invariant Walking(x, y, i, j, ps)
        decreases |a.parts| - i
      {
        if i < |a.parts| && j < |b.parts| {
          if a.parts[i].key == b.parts[j].key {
            if !b.parts[j].wildcard && a.parts[i].value != b.parts[j].value {
              if strict { WrongValue(x, y, i, j); }
              WalkRefused(x, y, i, j, ps);
              return 1;
            }
            if strict { PairedBoth(x, y, i, j); }
            ps := WalkBoth(x, y, i, j, ps);
            i, j := i + 1, j + 1;
            continue;
          }
          if b.wildcard {
            if strict { PairedSkip(x, y, i, j); }
            WalkSkip(x, y, i, j, ps);
            i := i + 1;
            continue;
          }
        }
        if strict { Decided(x, y, i, j); }
        WalkDecides(x, y, i, j, ps);
        if i == |a.parts| && j == |b.parts| {
          return 0;
        }
        if j == |b.parts| && b.wildcard {
          return 0;
        }
        return 1;
      }
    }

    /** `bolo_name_set`: NULL or `*` make the value a wildcard. */
    method Set(key: string, value: Option<string>)
      modifies this
      ensures parts == SetPart(old(parts), key, value) && wildcard == old(wildcard)
    {
      var wild := value.None? || value.value == "*";
      for i := 0 to |parts|
        invariant parts == old(parts) && wildcard == old(wildcard)
        invariant forall k | 0 <= k < i :: parts[k].key != key
      {
        if parts[i].key == key {
          FindKeyIs(parts, key, i);
          parts := parts[i := parts[i].(value := if wild then None else value)];
          return;
        }
      }
      FindKeyIs(parts, key, |parts|);
      parts := Sort(parts + [Part(key, if wild then None else value, wild)]);
    }

    /** `bolo_name_unset`: shifts the parts after the key one place down. */
    method Unset(key: string)
      modifies this
      ensures parts == UnsetPart(old(parts), key) && wildcard == old(wildcard)
    {
      hide FindKey;
      for i := 0 to |parts|
        invariant parts == old(parts) && wildcard == old(wildcard)
        invariant forall k | 0 <= k < i :: parts[k].key != key
      {
        if parts[i].key == key {
          FindKeyIs(parts, key, i);
          Remove(i);
          return;
        }
      }
      FindKeyIs(parts, key, |parts|);
    }

    /** The inner loop of `bolo_name_unset`. */
    method Remove(i: nat)
      requires i < |parts|
      modifies `parts
      ensures parts == old(parts)[..i] + old(parts)[i + 1..]
    {
      hide ShiftDown;
      var k := i;
      ShiftStart(parts, i);
      while k < |parts| - 1
        invariant i <= k < |old(parts)| && parts == ShiftDown(old(parts), i, k)
      {
        ShiftStep(old(parts), i, k);
        parts := parts[k := parts[k + 1]];
        k := k + 1;
      }
      ShiftEnd(old(parts), i);
      parts := parts[..|parts| - 1];
    }

    /** `bolo_name_concat`: sets every part of `b` in this name. */
    method Concat(b: Name)
      requires b != this
      modifies this
      ensures parts == SetAllParts(old(parts), b.parts) && wildcard == old(wildcard)
    {
      for i := 0 to |b.parts|
        invariant parts == SetAllParts(old(parts), b.parts[..i]) && wildcard == old(wildcard)
      {
        assert Front(b.parts[..i + 1]) == b.parts[..i];
        Set(b.parts[i].key, b.parts[i].value);
      }
      assert b.parts[..|b.parts|] == b.parts;
    }
  }

  // ---------------------------------------------------------------- printing, step by step

  /** Copies a string into a buffer, one character at a time. */
  method Copy(s: array<char>, p: nat, q: string) returns (r: nat)
    requires p + |q| <= s.Length
    modifies s
    ensures r == p + |q| && s[..r] == old(s[..p]) + q
    ensures s[r..] == old(s[r..])
  {
    r := p;
    for k := 0 to |q|
      invariant r == p + k && s[..r] == old(s[..p]) + q[..k]
      invariant s[r..] == old(s[r..])
    {
      s[r] := q[k];
      r := r + 1;
      assert q[..k + 1] == q[..k] + [q[k]];
    }
    assert q[..|q|] == q;
  }

  /** One component and its comma. */
  method WritePart(s: array<char>, p: nat, part: Part) returns (r: nat)
    requires part.value.Some? && p + |Text(part)| + 1 <= s.Length
    modifies s
    ensures r == p + |Text(part)| + 1 && s[..r] == old(s[..p]) + Text(part) + ","
  {
    r := Copy(s, p, part.key);
    s[r] := '=';
    r := r + 1;
    assert s[..r] == old(s[..p]) + part.key + "=";
    r := Copy(s, r, part.value.value);
    s[r] := ',';
    r := r + 1;
    assert s[..r] == old(s[..p]) + part.key + "=" + part.value.value + ",";
    assert old(s[..p]) + part.key + "=" + part.value.value == old(s[..p]) + Text(part);
  }

  /** Every component followed by a comma. */
  function Body(parts: seq<Part>): string {
    if parts == [] then "" else Body(Front(parts)) + Text(Last(parts)) + ","
  }

  lemma BodyOfNone()
    ensures Body([]) == ""
  {
  }

  lemma BodyStep(parts: seq<Part>, i: nat)
    requires i < |parts|
    ensures Body(parts[..i + 1]) == Body(parts[..i]) + Text(parts[i]) + ","
    ensures parts[i].value.Some? ==> Text(parts[i]) == parts[i].key + "=" + parts[i].value.value
  {
    assert Front(parts[..i + 1]) == parts[..i];
  }

  lemma {:induction false} BodyFits(parts: seq<Part>, i: nat)
    requires i <= |parts|
    ensures |Body(parts[..i])| <= |Body(parts)|
    decreases |parts| - i
  {
    if i == |parts| {
      assert parts[..i] == parts;
    } else {
      BodyStep(parts, i);
      BodyFits(parts, i + 1);
    }
  }

  /** The printed form is the body, with `*,` if the name has a wildcard, less its last comma. */
  lemma BodyIsJoin(q: QName)
    ensures var full := Body(q.parts) + (if q.wildcard then "*," else "");
            PrintName(q) == if full == "" then "" else full[..|full| - 1]
  {
    BodyOfTexts(q.parts);
    var texts := PartTexts(q.parts);
    if q.wildcard {
      CommaJoin(texts, "*");
      assert texts + ["*"] == Texts(q);
    } else {
      assert Texts(q) == texts;
      if texts != [] {
        CommaJoin(Front(texts), Last(texts));
        assert Front(texts) + [Last(texts)] == texts;
      }
    }
  }

  function WithCommas(cs: seq<string>): string {
    if cs == [] then "" else cs[0] + "," + WithCommas(cs[1..])
  }

  lemma {:induction false} CommaJoin(cs: seq<string>, last: string)
    ensures Join(cs + [last]) == WithCommas(cs) + last
    ensures WithCommas(cs + [last]) == WithCommas(cs) + last + ","
  {
    if cs == [] {
      assert cs + [last] == [last] && [last][1..] == [];
    } else {
      CommaJoin(cs[1..], last);
      assert (cs + [last])[1..] == cs[1..] + [last];
    }
  }

  lemma {:induction false} BodyOfTexts(parts: seq<Part>)
    ensures Body(parts) == WithCommas(PartTexts(parts))
    ensures parts != [] ==> PartTexts(parts) == PartTexts(Front(parts)) + [Text(Last(parts))]
  {
    if parts == [] {
    } else {
      BodyOfTexts(Front(parts));
      TextsAppend(Front(parts), Last(parts));
      assert Front(parts) + [Last(parts)] == parts;
      CommaJoin(PartTexts(Front(parts)), Text(Last(parts)));
    }
  }

  lemma {:induction false} TextsAppend(parts: seq<Part>, p: Part)
    ensures PartTexts(parts + [p]) == PartTexts(parts) + [Text(p)]
  {
    if parts == [] {
      assert [p][1..] == [];
    } else {
      TextsAppend(parts[1..], p);
      assert (parts + [p])[1..] == parts[1..] + [p];
    }
  }

  // ---------------------------------------------------------------- matching, whatever the keys

  /** Without `*`: as many parts on both sides, with equal keys and accepted values in their places. */
  ghost predicate PartByPart(a: QName, b: QName) {
    && |a.parts| == |b.parts|
    && forall k | 0 <= k < |a.parts| :: a.parts[k].key == b.parts[k].key && Accepts(b.parts[k], a.parts[k])
  }

  /** Where the search for the next part starts. */
  function After(ps: seq<nat>): nat {
    if ps == [] then 0 else Last(ps) + 1
  }

  /** `p` is the first place from `from` on with the key of `q`, and its value is accepted. */
  ghost predicate FirstFor(a: QName, q: Part, from: nat, p: nat) {
    && from <= p < |a.parts| && a.parts[p].key == q.key && Accepts(q, a.parts[p])
    && forall k | from <= k < p :: a.parts[k].key != q.key
  }

  /** The places picked so far: for each part of the pattern the first with its key after the one before. */
  ghost predicate PicksTo(a: QName, b: QName, ps: seq<nat>) {
    |ps| <= |b.parts| && forall j | 0 <= j < |ps| :: FirstFor(a, b.parts[j], After(ps[..j]), ps[j])
  }

  /** With `*`: every part of the pattern has its place. */
  ghost predicate Picks(a: QName, b: QName, ps: seq<nat>) {
    |ps| == |b.parts| && PicksTo(a, b, ps)
  }

  ghost predicate Pickable(a: QName, b: QName) {
    exists ps :: Picks(a, b, ps)
  }

  lemma OneFirst(a: QName, q: Part, from: nat, p: nat, p': nat)
    requires FirstFor(a, q, from, p) && FirstFor(a, q, from, p')
    ensures p == p'
  {
    hide Accepts;
  }

  /** Picking leaves no choice. */
  lemma {:induction false} PicksAgree(a: QName, b: QName, ps: seq<nat>, qs: seq<nat>)
    requires PicksTo(a, b, ps) && PicksTo(a, b, qs) && |ps| <= |qs|
    ensures ps == qs[..|ps|]
  {
    hide FirstFor, After;
    if ps == [] {
    } else {
      var n := |ps| - 1;
      PicksPrefix(a, b, ps, n);
      PicksAgree(a, b, ps[..n], qs);
      OneFirst(a, b.parts[n], After(ps[..n]), ps[n], qs[n]);
      assert ps == ps[..n] + [ps[n]] && qs[..n + 1] == qs[..n] + [qs[n]];
    }
  }

  lemma PicksPrefix(a: QName, b: QName, ps: seq<nat>, n: nat)
    requires PicksTo(a, b, ps) && n <= |ps|
    ensures PicksTo(a, b, ps[..n])
  {
    hide FirstFor;
    forall j | 0 <= j < n ensures FirstFor(a, b.parts[j], After(ps[..n][..j]), ps[..n][j]) {
      assert ps[..n][..j] == ps[..j];
    }
  }

  /** The loop, for any names: in step without `*`, picking with it. */
  ghost predicate Walking(a: QName, b: QName, i: nat, j: nat, ps: seq<nat>) {
    && i <= |a.parts| && j <= |b.parts|
    && (!b.wildcard ==>
          i == j && forall k | 0 <= k < i :: a.parts[k].key == b.parts[k].key && Accepts(b.parts[k], a.parts[k]))
    && (b.wildcard ==>
          && |ps| == j && PicksTo(a, b, ps) && After(ps) <= i
          && (j < |b.parts| ==> forall k | After(ps) <= k < i :: a.parts[k].key != b.parts[j].key))
  }

  lemma WalkStarts(a: QName, b: QName) returns (ps: seq<nat>)
    ensures Walking(a, b, 0, 0, ps)
  {
    ps := [];
  }

  lemma WalkSkip(a: QName, b: QName, i: nat, j: nat, ps: seq<nat>)
    requires Walking(a, b, i, j, ps) && b.wildcard && i < |a.parts| && j < |b.parts|
    requires a.parts[i].key != b.parts[j].key
    ensures Walking(a, b, i + 1, j, ps)
  {
    hide PicksTo;
  }

  lemma WalkBoth(a: QName, b: QName, i: nat, j: nat, ps: seq<nat>) returns (qs: seq<nat>)
    requires Walking(a, b, i, j, ps) && i < |a.parts| && j < |b.parts|
    requires a.parts[i].key == b.parts[j].key && Accepts(b.parts[j], a.parts[i])
    ensures Walking(a, b, i + 1, j + 1, qs)
  {
    hide Accepts;
    qs := ps + [i];
    if b.wildcard {
      assert FirstFor(a, b.parts[j], After(ps), i);
      PicksMore(a, b, ps, i);
    }
  }

  lemma PicksMore(a: QName, b: QName, ps: seq<nat>, i: nat)
    requires PicksTo(a, b, ps) && |ps| < |b.parts| && FirstFor(a, b.parts[|ps|], After(ps), i)
    ensures PicksTo(a, b, ps + [i])
  {
    hide FirstFor;
    var qs := ps + [i];
    forall j | 0 <= j < |qs| ensures FirstFor(a, b.parts[j], After(qs[..j]), qs[j]) {
      if j < |ps| {
        assert qs[..j] == ps[..j];
      } else {
        assert qs[..j] == ps;
      }
    }
  }

  /** The next part has one place to be, and is refused there. */
  lemma WalkRefused(a: QName, b: QName, i: nat, j: nat, ps: seq<nat>)
    requires Walking(a, b, i, j, ps) && i < |a.parts| && j < |b.parts|
    requires a.parts[i].key == b.parts[j].key && !Accepts(b.parts[j], a.parts[i])
    ensures if b.wildcard then !Pickable(a, b) else !PartByPart(a, b)
  {
    hide Accepts;
    if b.wildcard {
      forall qs ensures !Picks(a, b, qs) {
        if Picks(a, b, qs) {
          NextPick(a, b, ps, qs);
          assert false;
        }
      }
    }
  }

  lemma NextPick(a: QName, b: QName, ps: seq<nat>, qs: seq<nat>)
    requires PicksTo(a, b, ps) && Picks(a, b, qs) && |ps| < |b.parts|
    ensures FirstFor(a, b.parts[|ps|], After(ps), qs[|ps|])
  {
    PicksAgree(a, b, ps, qs);
  }

  /** When the loop can go no further, what is left decides. */
  lemma WalkDecides(a: QName, b: QName, i: nat, j: nat, ps: seq<nat>)
    requires Walking(a, b, i, j, ps)
    requires i == |a.parts| || j == |b.parts| || (a.parts[i].key != b.parts[j].key && !b.wildcard)
    ensures var ok := j == |b.parts| && (i == |a.parts| || b.wildcard);
            if b.wildcard then ok <==> Pickable(a, b) else ok <==> PartByPart(a, b)
  {
    hide Accepts;
    if b.wildcard {
      if j == |b.parts| {
        assert Picks(a, b, ps);
      } else {
        forall qs ensures !Picks(a, b, qs) {
          if Picks(a, b, qs) {
            NextPick(a, b, ps, qs);
            assert false;
          }
        }
      }
    }
  }

  // ---------------------------------------------------------------- matching, step by step

  /** One of the first `i` parts of `a` has the key of `q`, with a value it accepts. */
  ghost predicate Met(a: QName, q: Part, i: nat)
    requires i <= |a.parts|
  {
    exists k :: 0 <= k < i && a.parts[k].key == q.key && Accepts(q, a.parts[k])
  }

  lemma MetStill(a: QName, q: Part, i: nat)
    requires i < |a.parts| && Met(a, q, i)
    ensures Met(a, q, i + 1)
  {
  }

  /** The two-pointer state: the first `j` parts of `b` are accepted by parts of `a` before `i`. */
  ghost predicate Paired(a: QName, b: QName, i: nat, j: nat)
    requires i <= |a.parts| && j <= |b.parts|
  {
    && (forall l | 0 <= l < j :: Met(a, b.parts[l], i))
    && (j < |b.parts| ==> forall k | 0 <= k < i :: a.parts[k].key != b.parts[j].key)
    && (!b.wildcard ==> i == j && forall k | 0 <= k < i :: a.parts[k].key == b.parts[k].key)
  }

  lemma PairedNone(a: QName, b: QName)
    ensures Paired(a, b, 0, 0)
  {
  }

  lemma StrictAt(parts: seq<Part>, i: nat, j: nat)
    requires Strict(parts) && i < j < |parts|
    ensures Below(parts[i].key, parts[j].key) && parts[i].key != parts[j].key
  {
    BelowTotal(parts[i].key, parts[j].key);
  }

  lemma PairedBoth(a: QName, b: QName, i: nat, j: nat)
    requires i < |a.parts| && j < |b.parts| && Strict(a.parts) && Strict(b.parts) && Paired(a, b, i, j)
    requires a.parts[i].key == b.parts[j].key && Accepts(b.parts[j], a.parts[i])
    ensures Paired(a, b, i + 1, j + 1)
  {
    hide Strict;
    AcceptedMore(a, b, i, j);
    NextKeyIsNew(a, b, i, j);
  }

  lemma AcceptedMore(a: QName, b: QName, i: nat, j: nat)
    requires i < |a.parts| && j < |b.parts| && forall l | 0 <= l < j :: Met(a, b.parts[l], i)
    requires a.parts[i].key == b.parts[j].key && Accepts(b.parts[j], a.parts[i])
    ensures forall l | 0 <= l < j + 1 :: Met(a, b.parts[l], i + 1)
  {
    assert Met(a, b.parts[j], i + 1);
    forall l | 0 <= l < j ensures Met(a, b.parts[l], i + 1) {
      MetStill(a, b.parts[l], i);
    }
  }

  lemma NextKeyIsNew(a: QName, b: QName, i: nat, j: nat)
    requires i < |a.parts| && j < |b.parts| && Strict(a.parts) && Strict(b.parts) && a.parts[i].key == b.parts[j].key
    ensures j + 1 < |b.parts| ==> forall k | 0 <= k < i + 1 :: a.parts[k].key != b.parts[j + 1].key
  {
    hide Below, Strict;
    if j + 1 < |b.parts| {
      forall k | 0 <= k < i + 1 ensures a.parts[k].key != b.parts[j + 1].key {
        StrictAt(b.parts, j, j + 1);
        if k < i {
          StrictAt(a.parts, k, i);
          BelowTransitive(a.parts[k].key, b.parts[j].key, b.parts[j + 1].key);
          BelowTotal(a.parts[k].key, a.parts[k].key);
        }
      }
    }
  }

  lemma PairedSkip(a: QName, b: QName, i: nat, j: nat)
    requires i < |a.parts| && j < |b.parts| && Paired(a, b, i, j) && b.wildcard
    requires a.parts[i].key != b.parts[j].key
    ensures Paired(a, b, i + 1, j)
  {
    hide Met;
    forall l | 0 <= l < j ensures Met(a, b.parts[l], i + 1) {
      MetStill(a, b.parts[l], i);
    }
  }

  /** With strictly increasing keys, one key has one part. */
  lemma OnePart(parts: seq<Part>, p: Part, q: Part)
    requires Strict(parts) && p in parts && q in parts && p.key == q.key
    ensures p == q
  {
    hide Below, Strict;
    var i :| 0 <= i < |parts| && parts[i] == p;
    var k :| 0 <= k < |parts| && parts[k] == q;
    if i < k {
      StrictAt(parts, i, k);
    } else if k < i {
      StrictAt(parts, k, i);
    }
  }

  lemma WrongValue(a: QName, b: QName, i: nat, j: nat)
    requires i < |a.parts| && j < |b.parts| && Strict(a.parts)
    requires a.parts[i].key == b.parts[j].key && !Accepts(b.parts[j], a.parts[i])
    ensures !Matches(a, b)
  {
    hide Strict;
    var q := b.parts[j];
    assert q in b.parts && a.parts[i] in a.parts;
    forall p | p in a.parts && p.key == q.key ensures !Accepts(q, p) {
      OnePart(a.parts, a.parts[i], p);
    }
  }

  /** A key that is not among the first `j` and comes before the next is not there at all. */
  lemma NotThere(parts: seq<Part>, j: nat, key: string)
    requires Strict(parts) && j <= |parts|
    requires forall l | 0 <= l < j :: parts[l].key != key
    requires j < |parts| ==> Below(key, parts[j].key)
    ensures forall q | q in parts :: q.key != key
  {
    hide Below, Strict;
    forall q | q in parts ensures q.key != key {
      var l :| 0 <= l < |parts| && parts[l] == q;
      BelowTotal(key, key);
      if l > j {
        StrictAt(parts, j, l);
        BelowTransitive(key, parts[j].key, parts[l].key);
      }
    }
  }

  /** When the loop can go no further, the return value is decided by what is left. */
  lemma Decided(a: QName, b: QName, i: nat, j: nat)
    requires i <= |a.parts| && j <= |b.parts| && Strict(a.parts) && Strict(b.parts) && Paired(a, b, i, j)
    requires i == |a.parts| || j == |b.parts| || (a.parts[i].key != b.parts[j].key && !b.wildcard)
    ensures Matches(a, b) <==> j == |b.parts| && (i == |a.parts| || b.wildcard)
  {
    hide Strict, Matches;
    if j == |b.parts| && (i == |a.parts| || b.wildcard) {
      AllAccepted(a, b, i);
    } else if i == |a.parts| {
      Missing(a, b, i, j);
    } else {
      Stuck(a, b, i);
    }
  }

  lemma Missing(a: QName, b: QName, i: nat, j: nat)
    requires i == |a.parts| && j < |b.parts| && Paired(a, b, i, j)
    ensures !Matches(a, b)
  {
    hide Met, Accepts;
    var q := b.parts[j];
    assert q in b.parts;
    forall p | p in a.parts ensures p.key != q.key {
      var k :| 0 <= k < |a.parts| && a.parts[k] == p;
    }
    assert !Accepted(a, q);
  }

  lemma AllAccepted(a: QName, b: QName, i: nat)
    requires i <= |a.parts| && Paired(a, b, i, |b.parts|) && (i == |a.parts| || b.wildcard)
    ensures Matches(a, b)
  {
    forall q | q in b.parts ensures Accepted(a, q) {
      var l :| 0 <= l < |b.parts| && b.parts[l] == q;
      var k :| 0 <= k < i && a.parts[k].key == b.parts[l].key && Accepts(b.parts[l], a.parts[k]);
      assert a.parts[k] in a.parts;
    }
    if !b.wildcard {
      forall p | p in a.parts ensures Mentions(b, p.key) {
        var k :| 0 <= k < |a.parts| && a.parts[k] == p;
        assert b.parts[k] in b.parts;
      }
    }
  }

  lemma Stuck(a: QName, b: QName, i: nat)
    requires i < |a.parts| && i <= |b.parts| && Strict(a.parts) && Strict(b.parts) && Paired(a, b, i, i) && !b.wildcard
    requires i < |b.parts| ==> a.parts[i].key != b.parts[i].key
    ensures !Matches(a, b)
  {
    hide Below, Strict;
    var p := a.parts[i];
    assert p in a.parts;
    forall l | 0 <= l < i ensures a.parts[l].key != p.key {
      StrictAt(a.parts, l, i);
    }
    if i < |b.parts| && !Below(p.key, b.parts[i].key) {
      var q := b.parts[i];
      assert q in b.parts;
      BelowTotal(p.key, q.key);
      NotThere(a.parts, i, q.key);
    } else {
      NotThere(b.parts, i, p.key);
    }
  }

  // ---------------------------------------------------------------- parsing, step by step

  function CountCommas(s: string): nat {
    if s == "" then 0 else CountCommas(Front(s)) + (if Last(s) == ',' then 1 else 0)
  }

  lemma {:induction false} CountConcat(a: string, b: string)
    ensures CountCommas(a + b) == CountCommas(a) + CountCommas(b)
  {
    if b == "" {
      assert a + b == a;
    } else {
      assert Front(a + b) == a + Front(b);
      CountConcat(a, Front(b));
    }
  }

  lemma {:induction false} CountNone(s: string)
    requires forall k | 0 <= k < |s| :: s[k] != ','
    ensures CountCommas(s) == 0
  {
    if s != "" {
      CountNone(Front(s));
    }
  }

  lemma {:induction false} SplitCount(s: string)
    ensures |Split(s)| == 1 + CountCommas(s)
  {
    hide IndexOf;
    var i := IndexOf(s, ',');
    CountNone(s[..i]);
    if i == |s| {
      assert s[..i] == s;
    } else {
      SplitCount(s[i + 1..]);
      assert s == s[..i] + ("," + s[i + 1..]);
      CountConcat(s[..i], "," + s[i + 1..]);
      CountConcat(",", s[i + 1..]);
      assert Front(",") == "" && CountCommas(",") == 1;
    }
  }

  lemma SplitNotEmpty(s: string)
    ensures Split(s) != []
  {
  }

  /** The component that starts at `a` ends at `b`, the next comma or the end; `rest` are those after it. */
  lemma NextComponent(s: string, a: nat, b: nat) returns (rest: seq<string>)
    requires a <= b <= |s| && (b < |s| ==> s[b] == ',') && forall k | a <= k < b :: s[k] != ','
    ensures rest == (if b == |s| then [] else Split(s[b + 1..]))
    ensures Split(s[a..]) == [s[a..b]] + rest
  {
    hide IndexOf;
    var t := s[a..];
    rest := if b == |s| then [] else Split(s[b + 1..]);
    assert forall k | 0 <= k < b - a :: t[k] == s[a + k];
    IndexOfIs(t, ',', b - a);
    assert t[..b - a] == s[a..b];
    if b < |s| {
      assert t[b - a + 1..] == s[b + 1..];
    } else {
      assert t == s[a..b] && [t] + [] == [t];
    }
  }

  /** A component without `=` is `*` or bad. */
  lemma PlainComponent(c: string)
    requires forall k | 0 <= k < |c| :: c[k] != '='
    ensures ParseComponent(c) == if |c| == 1 && c[0] == '*' then Star else Bad
  {
    IndexOfIs(c, '=', |c|);
  }

  lemma PairComponent(s: string, a: nat, e: nat, b: nat)
    requires a <= e < b <= |s| && s[e] == '=' && forall k | a <= k < e :: s[k] != '='
    ensures ParseComponent(s[a..b]) == Pair(Part(s[a..e], Some(s[e + 1..b]), IsWild(s[e + 1..b])))
  {
    var c := s[a..b];
    IndexOfIs(c, '=', e - a);
    assert c[..e - a] == s[a..e] && c[e - a + 1..] == s[e + 1..b];
  }

  /** A parse of the rest of a string, with what was parsed before it. */
  function Prepended(parts: seq<Part>, wild: bool, rest: Option<QName>): Option<QName> {
    if rest.None? then None else Some(QName(parts + rest.value.parts, wild || rest.value.wildcard))
  }

  lemma PrependedNothing(rest: Option<QName>)
    ensures Prepended([], false, rest) == rest
  {
    if rest.Some? {
      assert [] + rest.value.parts == rest.value.parts;
    }
  }

  lemma PrependedAll(parts: seq<Part>, wild: bool)
    ensures Prepended(parts, wild, ParseComponents([])) == Some(QName(parts, wild))
  {
    assert parts + [] == parts;
  }

  lemma PrependedStep(parts: seq<Part>, wild: bool, c: string, rest: seq<string>)
    ensures Prepended(parts, wild, ParseComponents([c] + rest)) ==
            match ParseComponent(c)
            case Bad => None
            case Star => Prepended(parts, true, ParseComponents(rest))
            case Pair(p) => Prepended(parts + [p], wild, ParseComponents(rest))
  {
    assert ([c] + rest)[1..] == rest;
    if ParseComponent(c).Pair? && ParseComponents(rest).Some? {
      var p, q := ParseComponent(c).part, ParseComponents(rest).value.parts;
      assert parts + ([p] + q) == (parts + [p]) + q;
    }
  }

  /** The loop of the parser at `a`: what it has, followed by a parse of the rest, is the parse of the whole. */
  ghost predicate ParsedTo(s: string, a: nat, parts: seq<Part>, wild: bool, count: nat) {
    && a <= |s| && |parts| < count && |parts| + |Split(s[a..])| <= count
    && ParseComponents(Split(s)) == Prepended(parts, wild, ParseComponents(Split(s[a..])))
  }

  lemma ParseStarts(s: string)
    ensures ParsedTo(s, 0, [], false, |Split(s)|)
  {
    hide Split, ParseComponents;
    assert s[0..] == s;
    SplitNotEmpty(s);
    PrependedNothing(ParseComponents(Split(s)));
  }

  /** The component from `a` to `b` is taken; `p` and `w` are what the parse has after it. */
  lemma ComponentTaken(s: string, a: nat, b: nat, parts: seq<Part>, wild: bool, count: nat, p: seq<Part>, w: bool)
    requires ParsedTo(s, a, parts, wild, count)
    requires a <= b <= |s| && (b < |s| ==> s[b] == ',') && forall k | a <= k < b :: s[k] != ','
    requires |p| <= |parts| + 1
    requires forall rest ::
               Prepended(parts, wild, ParseComponents([s[a..b]] + rest)) == Prepended(p, w, ParseComponents(rest))
    ensures if b == |s| then ParseComponents(Split(s)) == Some(QName(p, w)) else ParsedTo(s, b + 1, p, w, count)
  {
    hide Split, ParseComponents, Prepended;
    var rest := NextComponent(s, a, b);
    assert ParseComponents(Split(s)) == Prepended(p, w, ParseComponents(rest));
    if b == |s| {
      PrependedAll(p, w);
    } else {
      SplitNotEmpty(s[b + 1..]);
    }
  }

  lemma StarParsed(s: string, a: nat, parts: seq<Part>, wild: bool, count: nat)
    requires ParsedTo(s, a, parts, wild, count) && a < |s| && s[a] == '*' && (a + 1 < |s| ==> s[a + 1] == ',')
    ensures if a + 1 == |s| then ParseComponents(Split(s)) == Some(QName(parts, true))
            else ParsedTo(s, a + 2, parts, true, count)
  {
    hide Split, ParseComponents, Prepended, ParsedTo;
    var c := s[a..a + 1];
    assert c == "*";
    PlainComponent(c);
    forall rest
      ensures Prepended(parts, wild, ParseComponents([c] + rest))
        == Prepended(parts, true, ParseComponents(rest))
    {
      PrependedStep(parts, wild, c, rest);
    }
    ComponentTaken(s, a, a + 1, parts, wild, count, parts, true);
  }

  lemma BadParsed(s: string, a: nat, b: nat, parts: seq<Part>, wild: bool, count: nat)
    requires ParsedTo(s, a, parts, wild, count) && a <= b <= |s| && (b < |s| ==> s[b] == ',')
    requires (forall k | a <= k < b :: s[k] != '=' && s[k] != ',') && !(b - a == 1 && s[a] == '*')
    ensures ParseComponents(Split(s)) == None
  {
    hide Split, ParseComponents;
    var rest := NextComponent(s, a, b);
    PlainComponent(s[a..b]);
    PrependedStep(parts, wild, s[a..b], rest);
  }

  lemma PairParsed(s: string, a: nat, e: nat, b: nat, parts: seq<Part>, wild: bool, count: nat)
    requires ParsedTo(s, a, parts, wild, count) && a <= e < b <= |s| && s[e] == '=' && (b < |s| ==> s[b] == ',')
    requires (forall k | a <= k < e :: s[k] != '=' && s[k] != ',') && forall k | e < k < b :: s[k] != ','
    ensures var all := parts + [Part(s[a..e], Some(s[e + 1..b]), IsWild(s[e + 1..b]))];
            if b == |s| then ParseComponents(Split(s)) == Some(QName(all, wild))
            else ParsedTo(s, b + 1, all, wild, count)
  {
    hide Split, ParseComponents, Prepended, ParsedTo;
    PairComponent(s, a, e, b);
    var c, p := s[a..b], Part(s[a..e], Some(s[e + 1..b]), IsWild(s[e + 1..b]));
    forall rest
      ensures Prepended(parts, wild, ParseComponents([c] + rest))
        == Prepended(parts + [p], wild, ParseComponents(rest))
    {
      PrependedStep(parts, wild, c, rest);
    }
    ComponentTaken(s, a, b, parts, wild, count, parts + [p], wild);
  }
}
