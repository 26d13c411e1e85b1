/** The text form of qualified names: what the parser accepts, what the printer writes, and that they fit. */
module NameText {
  import opened Basics
  import opened Names

  /** The first position of `c`, or the length of the string. */
  function IndexOf(s: string, c: char): (i: nat)
    ensures i <= |s| && (i < |s| ==> s[i] == c)
    ensures forall k | 0 <= k < i :: s[k] != c
  {
    if s == "" || s[0] == c then 0 else 1 + IndexOf(s[1..], c)
  }

  lemma IndexOfIs(s: string, c: char, i: nat)
    requires i <= |s| && (i < |s| ==> s[i] == c) && forall k | 0 <= k < i :: s[k] != c
    ensures IndexOf(s, c) == i
  {
  }

  function Split(s: string): seq<string> {
    var i := IndexOf(s, ',');
    if i == |s| then [s] else [s[..i]] + Split(s[i + 1..])
  }

  function Join(cs: seq<string>): string
    requires cs != []
  {
    if |cs| == 1 then cs[0] else cs[0] + "," + Join(cs[1..])
  }

  lemma {:induction false} SplitParts(s: string)
    ensures Split(s) != [] && Join(Split(s)) == s
    ensures forall c | c in Split(s) :: ',' !in c
  {
    hide IndexOf;
    var i := IndexOf(s, ',');
    if i < |s| {
      SplitParts(s[i + 1..]);
      assert s == s[..i] + "," + s[i + 1..];
    }
  }

  lemma FirstComponent(c: string, rest: string)
    requires ',' !in c
    ensures var s := c + "," + rest; IndexOf(s, ',') == |c| < |s| && s[..|c|] == c && s[|c| + 1..] == rest
  {
    var s := c + "," + rest;
    assert s[..|c|] == c && s[|c| + 1..] == rest && s[|c|] == ',';
    assert forall k | 0 <= k < |c| :: s[k] == c[k];
    IndexOfIs(s, ',', |c|);
  }

  lemma {:induction false} SplitJoin(cs: seq<string>)
    requires cs != [] && forall c | c in cs :: ',' !in c
    ensures Split(Join(cs)) == cs
  {
    hide IndexOf;
    var s := Join(cs);
    if |cs| == 1 {
      assert s == cs[0] && cs[0] in cs;
      IndexOfIs(s, ',', |s|);
    } else {
      SplitJoin(cs[1..]);
      assert cs[0] in cs;
      FirstComponent(cs[0], Join(cs[1..]));
      assert cs == [cs[0]] + cs[1..];
    }
  }

  // ---------------------------------------------------------------- parsing

  datatype Component = Bad | Star | Pair(part: Part)

  /** A value compares equal to "*" over its own length when it is empty or is "*". */
  predicate IsWild(value: string) { value == "" || value == "*" }

  function ParseComponent(c: string): Component {
    var e := IndexOf(c, '=');
    if e == |c| then (if c == "*" then Star else Bad)
    else Pair(Part(c[..e], Some(c[e + 1..]), IsWild(c[e + 1..])))
  }

  /** The components in the order they come; None if one of them is bad. */
  function ParseComponents(cs: seq<string>): Option<QName> {
    if cs == [] then Some(QName([], false))
    else match (ParseComponent(cs[0]), ParseComponents(cs[1..]))
      case (Bad, _) => None
      case (_, None) => None
      case (Star, Some(q)) => Some(q.(wildcard := true))
      case (Pair(p), Some(q)) => Some(q.(parts := [p] + q.parts))
  }

  function ParseName(s: string): Option<QName> {
    if s == "" then Some(QName([], false))
    else match ParseComponents(Split(s))
      case None => None
      case Some(q) => Some(q.(parts := Sort(q.parts)))
  }

  // ---------------------------------------------------------------- printing

  function Text(p: Part): string {
    p.key + "=" + (if p.value.None? then "" else p.value.value)
  }

  function PartTexts(parts: seq<Part>): seq<string> {
    if parts == [] then [] else [Text(parts[0])] + PartTexts(parts[1..])
  }

  function Texts(q: QName): seq<string> {
    PartTexts(q.parts) + (if q.wildcard then ["*"] else [])
  }

  function PrintName(q: QName): string {
    if Texts(q) == [] then "" else Join(Texts(q))
  }

  // ---------------------------------------------------------------- canonical form

  /** A component as the parser makes them. */
  predicate WellFormed(p: Part) {
    && p.value.Some? && '=' !in p.key && ',' !in p.key && ',' !in p.value.value
    && p.wildcard == IsWild(p.value.value)
  }

  ghost predicate AllWellFormed(parts: seq<Part>) {
    forall p | p in parts :: WellFormed(p)
  }

  ghost predicate Canonical(q: QName) {
    AllWellFormed(q.parts) && Sorted(q.parts)
  }

  lemma TextParses(p: Part)
    requires WellFormed(p)
    ensures ParseComponent(Text(p)) == Pair(p) && ',' !in Text(p)
  {
    var t := Text(p);
    assert t[..|p.key|] == p.key && t[|p.key|] == '=' && t[|p.key| + 1..] == p.value.value;
    IndexOfIs(t, '=', |p.key|);
  }

  lemma ParsedText(c: string)
    requires ',' !in c && ParseComponent(c).Pair?
    ensures WellFormed(ParseComponent(c).part) && Text(ParseComponent(c).part) == c
  {
    var e := IndexOf(c, '=');
    assert c == c[..e] + "=" + c[e + 1..];
  }

  lemma {:induction false} TextsParse(parts: seq<Part>, tail: seq<string>, wild: bool)
    requires AllWellFormed(parts) && tail == (if wild then ["*"] else [])
    ensures ParseComponents(PartTexts(parts) + tail) == Some(QName(parts, wild))
    ensures forall c | c in PartTexts(parts) + tail :: ',' !in c
  {
    var all := PartTexts(parts) + tail;
    if parts == [] {
      assert all == tail;
      if wild {
        assert tail[1..] == [];
        IndexOfIs("*", '=', 1);
      }
    } else {
      assert parts[0] in parts;
      TextParses(parts[0]);
      TextsParse(parts[1..], tail, wild);
      assert all == [Text(parts[0])] + (PartTexts(parts[1..]) + tail);
      assert all[1..] == PartTexts(parts[1..]) + tail;
      assert [parts[0]] + parts[1..] == parts;
    }
  }

  /** Printing a canonical name and parsing it again gives it back. */
  lemma PrintThenParse(q: QName)
    requires Canonical(q)
    ensures ParseName(PrintName(q)) == Some(q)
  {
    hide Split, Join, ParseComponents, Sort;
    var texts := Texts(q);
    TextsParse(q.parts, if q.wildcard then ["*"] else [], q.wildcard);
    if texts != [] {
      SplitJoin(texts);
      SortOfSorted(q.parts);
      assert PrintName(q) != "" by {
        SplitOfNothing();
        if q.parts != [] { assert texts[0] == Text(q.parts[0]); } else { assert texts[0] == "*"; }
      }
    }
  }

  lemma SplitOfNothing()
    ensures Split("") == [""]
  {
  }

  lemma {:induction false} ParsedComponents(cs: seq<string>)
    requires forall c | c in cs :: ',' !in c
    ensures ParseComponents(cs).Some? ==> AllWellFormed(ParseComponents(cs).value.parts)
  {
    if cs != [] && ParseComponents(cs).Some? {
      assert cs[0] in cs;
      ParsedComponents(cs[1..]);
      if ParseComponent(cs[0]).Pair? {
        ParsedText(cs[0]);
      }
    }
  }

  lemma ParsedIsCanonical(s: string)
    requires ParseName(s).Some?
    ensures Canonical(ParseName(s).value)
  {
    if s != "" {
      SplitParts(s);
      ParsedComponents(Split(s));
      var parts := ParseComponents(Split(s)).value.parts;
      SortSorts(parts);
      forall p | p in Sort(parts) ensures WellFormed(p) {
        assert p in multiset(Sort(parts));
      }
    }
  }

  /** On every accepted string, parsing what is printed gives the same name again. */
  lemma CanonicalFormIsStable(s: string)
    requires ParseName(s).Some?
    ensures ParseName(PrintName(ParseName(s).value)) == ParseName(s)
  {
    ParsedIsCanonical(s);
    PrintThenParse(ParseName(s).value);
  }

  // ---------------------------------------------------------------- order and repetition of components

  /** The canonical form of a string, if it is accepted. */
  function Canon(s: string): Option<string> {
    match ParseName(s)
    case None => None
    case Some(q) => Some(PrintName(q))
  }

  /** The parse of a list of components from the parses of two halves. */
  function Both(p: Option<QName>, q: Option<QName>): Option<QName> {
    if p.None? || q.None? then None
    else Some(QName(p.value.parts + q.value.parts, p.value.wildcard || q.value.wildcard))
  }

  lemma BothAssociates(p: Option<QName>, q: Option<QName>, r: Option<QName>)
    ensures Both(p, Both(q, r)) == Both(Both(p, q), r)
  {
    if p.Some? && q.Some? && r.Some? {
      assert p.value.parts + (q.value.parts + r.value.parts) == (p.value.parts + q.value.parts) + r.value.parts;
    }
  }

  /** The parse of one component by itself. */
  function One(c: string): Option<QName> {
    match ParseComponent(c)
    case Bad => None
    case Star => Some(QName([], true))
    case Pair(p) => Some(QName([p], false))
  }

  lemma FirstThenRest(cs: seq<string>)
    requires cs != []
    ensures ParseComponents(cs) == Both(One(cs[0]), ParseComponents(cs[1..]))
  {
    var q := ParseComponents(cs[1..]);
    if ParseComponent(cs[0]).Star? && q.Some? {
      assert [] + q.value.parts == q.value.parts;
    }
  }

  lemma {:induction false} ComponentsConcat(a: seq<string>, b: seq<string>)
    ensures ParseComponents(a + b) == Both(ParseComponents(a), ParseComponents(b))
  {
    hide ParseComponent, One, Both;
    if a == [] {
      assert a + b == b;
      NothingFirst(ParseComponents(b));
    } else {
      hide ParseComponents;
      ComponentsConcat(a[1..], b);
      assert (a + b)[1..] == a[1..] + b && (a + b)[0] == a[0];
      FirstThenRest(a);
      FirstThenRest(a + b);
      BothAssociates(One(a[0]), ParseComponents(a[1..]), ParseComponents(b));
    }
  }

  lemma NothingFirst(q: Option<QName>)
    ensures Both(Some(QName([], false)), q) == q
  {
    if q.Some? {
      assert [] + q.value.parts == q.value.parts;
    }
  }

  /** Both rejected, or the same components, in some order, with the same flag. */
  ghost predicate Agree(p: Option<QName>, q: Option<QName>) {
    && (p.Some? <==> q.Some?)
    && (p.Some? ==> multiset(p.value.parts) == multiset(q.value.parts) && p.value.wildcard == q.value.wildcard)
  }

  lemma AgreeCons(c: string, a: seq<string>, b: seq<string>)
    requires Agree(ParseComponents(a), ParseComponents(b))
    ensures Agree(ParseComponents([c] + a), ParseComponents([c] + b))
  {
    assert ([c] + a)[1..] == a && ([c] + b)[1..] == b;
  }

  lemma MoveToFront(left: seq<string>, c: string, right: seq<string>)
    ensures Agree(ParseComponents([c] + (left + right)), ParseComponents(left + ([c] + right)))
  {
    hide ParseComponents;
    ComponentsConcat(left, [c] + right);
    ComponentsConcat([c], right);
    ComponentsConcat([c], left + right);
    ComponentsConcat(left, right);
  }

  lemma TakeOut<T>(a: seq<T>, b: seq<T>) returns (i: nat)
    requires a != [] && multiset(a) == multiset(b)
    ensures i < |b| && b[i] == a[0]
    ensures multiset(a[1..]) == multiset(b[..i] + b[i + 1..])
    ensures b == b[..i] + ([a[0]] + b[i + 1..])
  {
    assert a == [a[0]] + a[1..];
    assert a[0] in multiset(b);
    i :| 0 <= i < |b| && b[i] == a[0];
    assert b == b[..i] + ([a[0]] + b[i + 1..]);
    var x, y := a[1..], b[..i] + b[i + 1..];
    assert multiset(a) == multiset(x) + multiset{a[0]};
    assert multiset(b) == multiset(y) + multiset{a[0]};
    assert multiset(x) == multiset(a) - multiset{a[0]};
  }

  /** The same components in another order give the same components, flag and acceptance. */
  lemma {:induction false} ComponentsPermuted(a: seq<string>, b: seq<string>)
    requires multiset(a) == multiset(b)
    ensures Agree(ParseComponents(a), ParseComponents(b))
    decreases |a|
  {
    hide ParseComponents;
    if a == [] {
      assert |multiset(b)| == |b|;
    } else {
      var i := TakeOut(a, b);
      var left, right := b[..i], b[i + 1..];
      ComponentsPermuted(a[1..], left + right);
      AgreeCons(a[0], a[1..], left + right);
      assert a == [a[0]] + a[1..];
      MoveToFront(left, a[0], right);
    }
  }

  /** For distinct keys, any permutation of the components prints identically. */
  lemma OrderDoesNotMatter(a: seq<string>, b: seq<string>)
    requires a != [] && multiset(a) == multiset(b) && forall c | c in a :: ',' !in c
    requires ParseComponents(a).Some? && NoRepeats(ParseComponents(a).value.parts)
    ensures b != [] && Canon(Join(b)) == Canon(Join(a))
  {
    assert |a| == |multiset(a)| == |multiset(b)| == |b|;
    forall c | c in b ensures ',' !in c { assert c in multiset(a); }
    ComponentsPermuted(a, b);
    SplitJoin(a);
    SplitJoin(b);
    AcceptedIsNotEmpty(a);
    AcceptedIsNotEmpty(b);
    var p, q := ParseComponents(a).value.parts, ParseComponents(b).value.parts;
    SortSorts(p);
    SortSorts(q);
    NoRepeatsPermuted(p, Sort(p));
    NoRepeatsPermuted(p, Sort(q));
    SortedNoRepeats(Sort(p));
    SortedNoRepeats(Sort(q));
    StrictUnique(Sort(p), Sort(q));
  }

  lemma AcceptedIsNotEmpty(a: seq<string>)
    requires a != [] && ParseComponents(a).Some?
    ensures Join(a) != ""
  {
  }

  lemma NoRepeatsPermuted(a: seq<Part>, b: seq<Part>)
    requires NoRepeats(a) && multiset(a) == multiset(b)
    ensures NoRepeats(b)
  {
    forall i, j | 0 <= i < j < |b| ensures b[i].key != b[j].key {
      assert b == b[..i] + [b[i]] + b[i + 1..j] + [b[j]] + b[j + 1..];
      assert b[i] in multiset(a) && b[j] in multiset(a);
      var k :| 0 <= k < |a| && a[k] == b[i];
      var l :| 0 <= l < |a| && a[l] == b[j];
      if k == l {
        assert multiset(b)[b[i]] >= 2;
        NoRepeatsOnce(a, b[i]);
      }
    }
  }

  lemma {:induction false} NoRepeatsOnce(a: seq<Part>, p: Part)
    requires NoRepeats(a)
    ensures multiset(a)[p] <= 1
  {
    if a == [] {
    } else {
      FrontMultiset(a);
      assert forall i | 0 <= i < |a| - 1 :: Front(a)[i] == a[i];
      NoRepeatsOnce(Front(a), p);
      if p == Last(a) {
        assert p !in Front(a);
      }
    }
  }

  /** A further `*`, wherever it stands, changes nothing. */
  lemma StarsCollapse(left: seq<string>, right: seq<string>)
    requires "*" in left + right && forall c | c in left + right :: ',' !in c
    ensures ParseName(Join(left + ["*"] + right)) == ParseName(Join(left + right))
  {
    var a, b := left + right, left + ["*"] + right;
    forall c | c in b ensures ',' !in c {
      assert c == "*" || c in a;
    }
    SplitJoin(a);
    SplitJoin(b);
    NotEmpty(a);
    NotEmpty(b);
    HasStar(a);
    StarInside(left, right);
  }

  lemma StarInside(left: seq<string>, right: seq<string>)
    ensures var p, q := ParseComponents(left + right), ParseComponents(left + ["*"] + right);
            && (p.Some? <==> q.Some?)
            && (p.Some? ==> q.value == QName(p.value.parts, true))
  {
    ComponentsConcat(left, right);
    ComponentsConcat(left + ["*"], right);
    ComponentsConcat(left, ["*"]);
    IndexOfIs("*", '=', 1);
    assert ["*"][1..] == [];
    if ParseComponents(left).Some? {
      assert ParseComponents(left).value.parts + [] == ParseComponents(left).value.parts;
    }
  }

  lemma NotEmpty(a: seq<string>)
    requires "*" in a
    ensures a != [] && Join(a) != ""
  {
    if |a| > 1 {
      assert |Join(a)| >= 1;
    }
  }

  lemma {:induction false} HasStar(a: seq<string>)
    requires "*" in a
    ensures ParseComponents(a).Some? ==> ParseComponents(a).value.wildcard
  {
    if a[0] == "*" {
      IndexOfIs("*", '=', 1);
    } else {
      HasStar(a[1..]);
    }
  }
}
