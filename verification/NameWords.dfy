/** Qualified names as they are written: which strings are accepted, and what parsing, printing and matching mean. */
module NameWords {
  import opened Basics
  import opened Names
  import opened NameText
  import opened NameOps

  /** A component as it is written: `key=value`, or `*`. */
  datatype Word = Field(key: string, value: string) | Any

  function Written(w: Word): string {
    match w
    case Field(key, value) => key + "=" + value
    case Any => "*"
  }

  /** The text of a word gives the word back: no `=` in its key, no comma in it. */
  predicate Writable(w: Word) {
    w.Field? ==> '=' !in w.key && ',' !in w.key && ',' !in w.value
  }

  ghost predicate AllWritable(ws: seq<Word>) {
    forall w | w in ws :: Writable(w)
  }

  function WrittenAll(ws: seq<Word>): seq<string> {
    if ws == [] then [] else [Written(ws[0])] + WrittenAll(ws[1..])
  }

  /** The words, with commas between them. */
  function TextOf(ws: seq<Word>): string {
    if ws == [] then "" else Join(WrittenAll(ws))
  }

  // ---------------------------------------------------------------- acceptance

  /** The word a component is the text of. */
  lemma WordOf(c: string) returns (w: Word)
    requires ',' !in c && (c == "*" || '=' in c)
    ensures Writable(w) && Written(w) == c
  {
    if c == "*" {
      w := Any;
    } else {
      var e := IndexOf(c, '=');
      assert '=' in c[..|c|];
      w := Field(c[..e], c[e + 1..]);
      assert c == c[..e] + "=" + c[e + 1..];
    }
  }

  lemma {:induction false} WordsOf(cs: seq<string>) returns (ws: seq<Word>)
    requires forall c | c in cs :: ',' !in c && (c == "*" || '=' in c)
    ensures AllWritable(ws) && WrittenAll(ws) == cs
  {
    hide Writable;
    if cs == [] {
      ws := [];
    } else {
      assert cs[0] in cs;
      var w := WordOf(cs[0]);
      var rest := WordsOf(cs[1..]);
      ws := [w] + rest;
    }
  }

  lemma {:induction false} BadComponent(cs: seq<string>, c: string)
    requires c in cs && c != "*" && '=' !in c
    ensures ParseComponents(cs).None?
  {
    if c == cs[0] {
      IndexOfIs(c, '=', |c|);
    } else {
      BadComponent(cs[1..], c);
    }
  }

  /** Accepted are the empty string and the strings whose components each have an `=` or are a `*`. */
  lemma AcceptedIff(s: string)
    ensures ParseName(s).Some? <==> s == "" || forall c | c in Split(s) :: c == "*" || '=' in c
  {
    hide Split, Join, ParseComponents;
    SplitParts(s);
    if c :| c in Split(s) && c != "*" && '=' !in c {
      BadComponent(Split(s), c);
    } else {
      var ws := WordsOf(Split(s));
      WordsParse(ws);
    }
  }

  /** Every accepted string is the text of some words. */
  lemma AcceptedIsWritten(s: string) returns (ws: seq<Word>)
    requires ParseName(s).Some?
    ensures AllWritable(ws) && TextOf(ws) == s
  {
    hide ParseName, Split, Join;
    AcceptedIff(s);
    SplitParts(s);
    if s == "" {
      ws := [];
    } else {
      ws := WordsOf(Split(s));
    }
  }

  // ---------------------------------------------------------------- parsing

  /** The part a pair stands for: it is a wildcard when its value is `*`, or empty. */
  function PartOf(w: Word): Part
    requires w.Field?
  {
    Part(w.key, Some(w.value), w.value == "*" || w.value == "")
  }

  function PartsOf(ws: seq<Word>): seq<Part> {
    if ws == [] then [] else (if ws[0].Field? then [PartOf(ws[0])] else []) + PartsOf(ws[1..])
  }

  lemma WordParses(w: Word)
    requires Writable(w)
    ensures ',' !in Written(w)
    ensures ParseComponent(Written(w)) == if w.Any? then Star else Component.Pair(PartOf(w))
  {
    var t := Written(w);
    if w.Any? {
      IndexOfIs(t, '=', 1);
    } else {
      assert t[..|w.key|] == w.key && t[|w.key|] == '=' && t[|w.key| + 1..] == w.value;
      IndexOfIs(t, '=', |w.key|);
    }
  }

  lemma {:induction false} WordsParse(ws: seq<Word>)
    requires AllWritable(ws)
    ensures ParseComponents(WrittenAll(ws)) == Some(QName(PartsOf(ws), Any in ws))
    ensures forall c | c in WrittenAll(ws) :: ',' !in c
  {
    hide Writable, Written, ParseComponent, PartOf;
    if ws == [] {
    } else {
      assert ws[0] in ws;
      WordParses(ws[0]);
      WordsParse(ws[1..]);
      assert WrittenAll(ws)[1..] == WrittenAll(ws[1..]);
      assert [] + PartsOf(ws[1..]) == PartsOf(ws[1..]);
      assert Any in ws <==> ws[0].Any? || Any in ws[1..];
    }
  }

  /** The name some words stand for: the parts of the pairs, sorted, and whether there is a `*`. */
  function NameOf(ws: seq<Word>): QName {
    QName(Sort(PartsOf(ws)), Any in ws)
  }

  lemma TextParses(ws: seq<Word>)
    requires AllWritable(ws)
    ensures ParseName(TextOf(ws)) == Some(NameOf(ws))
  {
    hide Split, Join, ParseComponents, Sort;
    assert Sort([]) == [] by { NothingSorted(); }
    WordsParse(ws);
    if ws != [] {
      SplitJoin(WrittenAll(ws));
      AcceptedIsNotEmpty(WrittenAll(ws));
    }
  }

  lemma NothingSorted()
    ensures Sort([]) == []
  {
  }

  lemma {:induction false} PartsOfHas(ws: seq<Word>, p: Part)
    ensures p in PartsOf(ws) <==> exists w :: w in ws && w.Field? && PartOf(w) == p
  {
    if ws == [] {
    } else {
      PartsOfHas(ws[1..], p);
      assert ws[0] in ws;
      if p in PartsOf(ws[1..]) {
        var w :| w in ws[1..] && w.Field? && PartOf(w) == p;
        assert w in ws;
      }
      if w :| w in ws && w.Field? && PartOf(w) == p {
        assert w == ws[0] || w in ws[1..];
      }
    }
  }

  /** The name, part by part. */
  lemma NameHas(ws: seq<Word>, p: Part)
    ensures p in NameOf(ws).parts <==> exists w :: w in ws && w.Field? && PartOf(w) == p
  {
    hide PartsOf, PartOf, Sort;
    SortSorts(PartsOf(ws));
    assert p in multiset(Sort(PartsOf(ws))) <==> p in multiset(PartsOf(ws));
    PartsOfHas(ws, p);
  }

  // ---------------------------------------------------------------- matching

  /** No key is written twice. */
  ghost predicate DistinctKeys(ws: seq<Word>) {
    forall i, j | 0 <= i < j < |ws| && ws[i].Field? && ws[j].Field? :: ws[i].key != ws[j].key
  }

  lemma {:induction false} DistinctParts(ws: seq<Word>)
    requires DistinctKeys(ws)
    ensures NoRepeats(PartsOf(ws))
  {
    hide NoRepeats;
    if ws == [] {
      assert NoRepeats([]) by { NoneRepeats(); }
    } else {
      assert forall i | 0 <= i < |ws| - 1 :: ws[1..][i] == ws[i + 1];
      DistinctParts(ws[1..]);
      if ws[0].Field? {
        forall p | p in PartsOf(ws[1..]) ensures p.key != ws[0].key {
          PartsOfHas(ws[1..], p);
          var w :| w in ws[1..] && w.Field? && PartOf(w) == p;
          var i :| 0 <= i < |ws| - 1 && ws[1..][i] == w;
          assert ws[i + 1] == w;
        }
        NewFirst(PartOf(ws[0]), PartsOf(ws[1..]));
      } else {
        assert PartsOf(ws) == PartsOf(ws[1..]);
      }
    }
  }

  lemma NoneRepeats()
    ensures NoRepeats([])
  {
  }

  lemma NewFirst(p: Part, parts: seq<Part>)
    requires NoRepeats(parts) && forall q | q in parts :: q.key != p.key
    ensures NoRepeats([p] + parts)
  {
  }

  /** The pattern word accepts the key and value: its own value is `*`, or empty, or the same. */
  predicate Allows(v: Word, key: string, value: string) {
    v.Field? && v.key == key && (v.value == "*" || v.value == "" || v.value == value)
  }

  /** Every pair of the pattern allows a pair of the name; the name has no other keys, unless the pattern has a `*`. */
  ghost predicate TextMatches(ws: seq<Word>, vs: seq<Word>) {
    && (forall v | v in vs && v.Field? :: exists w :: w in ws && w.Field? && Allows(v, w.key, w.value))
    && (Any in vs || forall w | w in ws && w.Field? :: exists v :: v in vs && v.Field? && v.key == w.key)
  }

  lemma AcceptedText(ws: seq<Word>, v: Word)
    requires v.Field?
    ensures Accepted(NameOf(ws), PartOf(v)) <==> exists w :: w in ws && w.Field? && Allows(v, w.key, w.value)
  {
    hide NameOf;
    var a := NameOf(ws);
    if p :| p in a.parts && p.key == v.key && Accepts(PartOf(v), p) {
      NameHas(ws, p);
      var w :| w in ws && w.Field? && PartOf(w) == p;
      assert Allows(v, w.key, w.value);
    }
    if w :| w in ws && w.Field? && Allows(v, w.key, w.value) {
      NameHas(ws, PartOf(w));
      assert PartOf(w) in a.parts && Accepts(PartOf(v), PartOf(w));
    }
  }

  lemma MentionedText(vs: seq<Word>, key: string)
    ensures Mentions(NameOf(vs), key) <==> exists v :: v in vs && v.Field? && v.key == key
  {
    hide NameOf;
    var b := NameOf(vs);
    if q :| q in b.parts && q.key == key {
      NameHas(vs, q);
      var v :| v in vs && v.Field? && PartOf(v) == q;
      assert v.key == key;
    }
    if v :| v in vs && v.Field? && v.key == key {
      NameHas(vs, PartOf(v));
      assert PartOf(v) in b.parts;
    }
  }

  /**
   Matching on texts: what is parsed from two texts matches exactly when the texts do.  For texts that write no
   key twice the parses are strictly sorted, and this is what `bolo_name_match` decides.
   */
  lemma MatchesAsWritten(ws: seq<Word>, vs: seq<Word>)
    requires AllWritable(ws) && AllWritable(vs)
    ensures ParseName(TextOf(ws)).Some? && ParseName(TextOf(vs)).Some?
    ensures Matches(ParseName(TextOf(ws)).value, ParseName(TextOf(vs)).value) <==> TextMatches(ws, vs)
    ensures DistinctKeys(ws) ==> Strict(ParseName(TextOf(ws)).value.parts)
  {
    hide ParseName, TextOf, PartOf, Accepted, Mentions, Allows, Sort, Strict, DistinctKeys;
    TextParses(ws);
    TextParses(vs);
    if DistinctKeys(ws) {
      DistinctIsStrict(ws);
    }
    FieldsAccepted(ws, vs);
    KeysMentioned(ws, vs);
  }

  lemma DistinctIsStrict(ws: seq<Word>)
    requires DistinctKeys(ws)
    ensures Strict(NameOf(ws).parts)
  {
    hide Sort, NoRepeats, Sorted, Strict, PartsOf;
    DistinctParts(ws);
    SortSorts(PartsOf(ws));
    NoRepeatsPermuted(PartsOf(ws), Sort(PartsOf(ws)));
    SortedNoRepeats(Sort(PartsOf(ws)));
  }

  lemma FieldsAccepted(ws: seq<Word>, vs: seq<Word>)
    ensures (forall q | q in NameOf(vs).parts :: Accepted(NameOf(ws), q))
            <==> (forall v | v in vs && v.Field? :: exists w :: w in ws && w.Field? && Allows(v, w.key, w.value))
  {
    hide NameOf, PartOf, Accepted, Allows;
    forall v | v in vs && v.Field?
      ensures PartOf(v) in NameOf(vs).parts
      ensures Accepted(NameOf(ws), PartOf(v)) <==> exists w :: w in ws && w.Field? && Allows(v, w.key, w.value)
    {
      NameHas(vs, PartOf(v));
      AcceptedText(ws, v);
    }
    forall q | q in NameOf(vs).parts ensures exists v :: v in vs && v.Field? && PartOf(v) == q {
      NameHas(vs, q);
    }
  }

  lemma KeysMentioned(ws: seq<Word>, vs: seq<Word>)
    ensures (forall p | p in NameOf(ws).parts :: Mentions(NameOf(vs), p.key))
            <==> (forall w | w in ws && w.Field? :: exists v :: v in vs && v.Field? && v.key == w.key)
  {
    hide NameOf, Mentions;
    forall w | w in ws && w.Field?
      ensures PartOf(w) in NameOf(ws).parts
      ensures Mentions(NameOf(vs), w.key) <==> exists v :: v in vs && v.Field? && v.key == w.key
    {
      NameHas(ws, PartOf(w));
      MentionedText(vs, w.key);
    }
    forall p | p in NameOf(ws).parts ensures exists w :: w in ws && w.Field? && PartOf(w) == p {
      NameHas(ws, p);
    }
  }

  /** One key: `k=v` matches `k=*` and `k=`, whatever `v` is, and any other `k=w` exactly when the values agree. */
  lemma OneKeyMatches(key: string, value: string, pattern: string)
    requires Writable(Field(key, value)) && Writable(Field(key, pattern))
    ensures var a, b := ParseName(key + "=" + value), ParseName(key + "=" + pattern);
            a.Some? && b.Some? && (Matches(a.value, b.value) <==> pattern == "*" || pattern == "" || pattern == value)
  {
    hide ParseName, Matches;
    var ws, vs := [Field(key, value)], [Field(key, pattern)];
    OneWord(ws[0]);
    OneWord(vs[0]);
    MatchesAsWritten(ws, vs);
    assert vs[0] in vs && ws[0] in ws;
    assert TextMatches(ws, vs) <==> Allows(vs[0], key, value);
  }

  lemma OneWord(w: Word)
    ensures TextOf([w]) == Written(w)
  {
    assert [w][1..] == [] && WrittenAll([]) == [];
    assert WrittenAll([w]) == [Written(w)];
  }

  // ---------------------------------------------------------------- printing

  function FieldOf(p: Part): Word {
    Field(p.key, if p.value.None? then "" else p.value.value)
  }

  /** The words of some parts, in their order. */
  function FieldsOf(parts: seq<Part>): seq<Word> {
    seq(|parts|, i requires 0 <= i < |parts| => FieldOf(parts[i]))
  }

  lemma {:induction false} PartsAreWritten(parts: seq<Part>)
    ensures PartTexts(parts) == WrittenAll(FieldsOf(parts))
  {
    if parts == [] {
    } else {
      PartsAreWritten(parts[1..]);
      assert FieldsOf(parts)[1..] == FieldsOf(parts[1..]);
    }
  }

  lemma {:induction false} WrittenMore(ws: seq<Word>, w: Word)
    ensures WrittenAll(ws + [w]) == WrittenAll(ws) + [Written(w)]
  {
    if ws == [] {
      assert [w][1..] == [];
    } else {
      WrittenMore(ws[1..], w);
      assert (ws + [w])[1..] == ws[1..] + [w];
    }
  }

  /** Printing writes the parts in their order, and a `*` at the end if there is one. */
  lemma PrintedIsWritten(q: QName)
    ensures PrintName(q) == TextOf(FieldsOf(q.parts) + (if q.wildcard then [Any] else []))
  {
    hide FieldsOf, Join;
    var ws := FieldsOf(q.parts);
    PartsAreWritten(q.parts);
    assert |ws| == |q.parts| by { FieldsLength(q.parts); }
    if q.wildcard {
      WrittenMore(ws, Any);
    } else {
      assert ws + [] == ws && PartTexts(q.parts) + [] == PartTexts(q.parts);
    }
  }

  lemma FieldsLength(parts: seq<Part>)
    ensures |FieldsOf(parts)| == |parts|
  {
  }

  /** The words without the `*`s. */
  function Pairs(ws: seq<Word>): seq<Word> {
    if ws == [] then [] else (if ws[0].Field? then [ws[0]] else []) + Pairs(ws[1..])
  }

  /**
   The canonical form of a text: its pairs, keys in the order of `strcmp`, and after them a `*` if it has any.
   */
  lemma CanonicalText(ws: seq<Word>) returns (sorted: seq<Word>)
    requires AllWritable(ws)
    ensures Canon(TextOf(ws)) == Some(TextOf(sorted + (if Any in ws then [Any] else [])))
    ensures multiset(sorted) == multiset(Pairs(ws))
    ensures forall i, j | 0 <= i < j < |sorted| :: sorted[i].Field? && sorted[j].Field?
                                                   && !Below(sorted[j].key, sorted[i].key)
  {
    hide ParseName, PrintName, NameOf, TextOf, Below;
    TextParses(ws);
    var q := NameOf(ws);
    PrintedIsWritten(q);
    sorted := FieldsOf(q.parts);
    FieldsAreWords(ws);
    NameIsSorted(ws);
    assert q.wildcard == (Any in ws);
  }

  lemma NameIsSorted(ws: seq<Word>)
    ensures Sorted(NameOf(ws).parts) && NameOf(ws).wildcard == (Any in ws)
    ensures |NameOf(ws).parts| == |PartsOf(ws)|
  {
    SortSorts(PartsOf(ws));
  }

  /** The words of a name are the pairs it was made of. */
  lemma FieldsAreWords(ws: seq<Word>)
    ensures multiset(FieldsOf(NameOf(ws).parts)) == multiset(Pairs(ws))
  {
    hide FieldsOf, PartsOf, Sort, Pairs;
    SortSorts(PartsOf(ws));
    FieldsPermuted(Sort(PartsOf(ws)), PartsOf(ws));
    FieldsOfParts(ws);
  }

  lemma {:induction false} FieldsOfParts(ws: seq<Word>)
    ensures FieldsOf(PartsOf(ws)) == Pairs(ws)
  {
    hide FieldsOf;
    if ws == [] {
      FieldsLength([]);
    } else {
      FieldsOfParts(ws[1..]);
      var parts := PartsOf(ws[1..]);
      if ws[0].Field? {
        FieldsFirst(PartOf(ws[0]), parts);
      } else {
        assert [] + parts == parts && [] + Pairs(ws[1..]) == Pairs(ws[1..]);
      }
    }
  }

  lemma FieldsFirst(p: Part, parts: seq<Part>)
    ensures FieldsOf([p] + parts) == [FieldOf(p)] + FieldsOf(parts)
  {
  }

  /** The same parts in another order have the same words in another order. */
  lemma {:induction false} FieldsPermuted(a: seq<Part>, b: seq<Part>)
    requires multiset(a) == multiset(b)
    ensures multiset(FieldsOf(a)) == multiset(FieldsOf(b))
    decreases |a|
  {
    if a == [] {
      assert |multiset(b)| == |b|;
    } else {
      var i := TakeOut(a, b);
      var left, right := b[..i], b[i + 1..];
      FieldsPermuted(a[1..], left + right);
      assert FieldsOf(a) == [FieldOf(a[0])] + FieldsOf(a[1..]);
      assert FieldsOf(left + right) == FieldsOf(left) + FieldsOf(right);
      assert FieldsOf(b) == FieldsOf(left) + [FieldOf(a[0])] + FieldsOf(right);
    }
  }
}
