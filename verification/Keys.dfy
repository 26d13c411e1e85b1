/**
 The key table: SET.KEYS batches and the keys file.  A deleted key stays in the table with a NULL
 value, so a table entry is an optional string.
 */
module Keys {
  import opened Basics

  /** Hash table entries in the order a walk yields them. */
  type Entries = seq<(string, Option<string>)>

  /** The pairs a walk does not skip. */
  function Live(entries: Entries): seq<(string, string)> {
    if entries == [] then []
    else if Last(entries).1.None? then Live(Front(entries))
    else Live(Front(entries)) + [(Last(entries).0, Last(entries).1.value)]
  }

  // ---------------------------------------------------------------- batching

  const BATCH := 30

  function Concat<T>(batches: seq<seq<T>>): seq<T> {
    if batches == [] then [] else Concat(Front(batches)) + Last(batches)
  }

  lemma NoneLive<T>()
    ensures Live([]) == [] && Concat<T>([]) == []
  {
  }

  lemma ConcatAppend<T>(batches: seq<seq<T>>, last: seq<T>)
    ensures Concat(batches + [last]) == Concat(batches) + last
  {
    assert Front(batches + [last]) == batches;
  }

  lemma LiveAppend(entries: Entries, k: nat)
    requires k < |entries|
    ensures Live(entries[..k + 1]) ==
            if entries[k].1.None? then Live(entries[..k]) else Live(entries[..k]) + [(entries[k].0, entries[k].1.value)]
  {
    assert Front(entries[..k + 1]) == entries[..k] && Last(entries[..k + 1]) == entries[k];
  }

  /** `broadcast_setkeys`: one PDU per thirty pairs, and one for the remainder if there is one. */
  method BroadcastSetKeys(entries: Entries) returns (batches: seq<seq<(string, string)>>)
    ensures Concat(batches) == Live(entries)
    ensures forall i | 0 <= i < |batches| :: 1 <= |batches[i]| <= BATCH
    ensures forall i | 0 <= i < |batches| - 1 :: |batches[i]| == BATCH
  {
    hide Live, Concat;
    batches := [];
    NoneLive<(string, string)>();
    var pdu: seq<(string, string)> := [];
    for k := 0 to |entries|
      invariant |pdu| < BATCH
      invariant forall i | 0 <= i < |batches| :: |batches[i]| == BATCH
      invariant Concat(batches) + pdu == Live(entries[..k])
    {
      LiveAppend(entries, k);
      if entries[k].1.None? {
        continue;
      }
      var grown := pdu + [(entries[k].0, entries[k].1.value)];
      assert Concat(batches) + grown == Live(entries[..k + 1]);
      if |grown| == BATCH {
        ConcatAppend(batches, grown);
        batches, pdu := batches + [grown], [];
      } else {
        pdu := grown;
      }
    }
    assert entries[..|entries|] == entries;
    if |pdu| > 0 {
      ConcatAppend(batches, pdu);
      batches := batches + [pdu];
    }
  }

  // ---------------------------------------------------------------- the keys file

  function Digit(d: nat): char
    requires d < 10
  {
    "0123456789"[d]
  }

  function Decimal(n: nat): string {
    if n < 10 then [Digit(n)] else Decimal(n / 10) + [Digit(n % 10)]
  }

  function KeyLine(key: string, value: string): string {
    key + " = " + value + "\n"
  }

  function KeyLines(pairs: seq<(string, string)>): string {
    if pairs == [] then "" else KeyLines(Front(pairs)) + KeyLine(Last(pairs).0, Last(pairs).1)
  }

  function KeysFile(now: u64, pairs: seq<(string, string)>): string {
    "# generated " + Decimal(now) + "\n" + KeyLines(pairs) + "# " + Decimal(|pairs|) + " keys\n"
  }

  lemma KeyLinesMore(pairs: seq<(string, string)>, key: string, value: string)
    ensures KeyLines(pairs + [(key, value)]) == KeyLines(pairs) + KeyLine(key, value)
  {
    assert Front(pairs + [(key, value)]) == pairs;
  }

  lemma NothingSaved()
    ensures Live([]) == [] && KeyLines(Live([])) == ""
  {
  }

  /** `save_keys`, up to opening and closing the file. */
  method SaveKeys(entries: Entries, now: u64) returns (text: string)
    ensures text == KeysFile(now, Live(entries))
  {
    hide Live, KeyLines, KeyLine, Decimal;
    text := "# generated " + Decimal(now) + "\n";
    ghost var head, lines := text, "";
    var n := 0;
    NothingSaved();
    for k := 0 to |entries|
      invariant lines == KeyLines(Live(entries[..k])) && text == head + lines && n == |Live(entries[..k])|
    {
      LiveAppend(entries, k);
      if entries[k].1.Some? {
        KeyLinesMore(Live(entries[..k]), entries[k].0, entries[k].1.value);
        text := text + KeyLine(entries[k].0, entries[k].1.value);
        lines := lines + KeyLine(entries[k].0, entries[k].1.value);
        n := n + 1;
      }
    }
    assert entries[..|entries|] == entries;
    text := text + "# " + Decimal(n) + " keys\n";
  }

  /** `isspace` in the C locale. */
  predicate IsSpace(c: char) {
    c == ' ' || c == '\t' || c == '\n' || c == '\r' || c == 11 as char || c == 12 as char
  }

  /** The first position from `i` on that is not white space. */
  function SkipSpace(s: string, i: nat): (j: nat)
    requires i <= |s|
    ensures i <= j <= |s|
    ensures forall k | i <= k < j :: IsSpace(s[k])
    ensures j < |s| ==> !IsSpace(s[j])
    decreases |s| - i
  {
    if i < |s| && IsSpace(s[i]) then SkipSpace(s, i + 1) else i
  }

  function SkipWord(s: string, i: nat): (j: nat)
    requires i <= |s|
    ensures i <= j <= |s|
    ensures forall k | i <= k < j :: !IsSpace(s[k])
    ensures j < |s| ==> IsSpace(s[j])
    decreases |s| - i
  {
    if i < |s| && !IsSpace(s[i]) then SkipWord(s, i + 1) else i
  }

  function SkipLine(s: string, i: nat): (j: nat)
    requires i <= |s|
    ensures i <= j <= |s|
    ensures forall k | i <= k < j :: s[k] != '\n'
    ensures j < |s| ==> s[j] == '\n'
    decreases |s| - i
  {
    if i < |s| && s[i] != '\n' then SkipLine(s, i + 1) else i
  }

  /**
   What one line yields.  `Overrun`: the line ends with the key, so the source steps over the
   terminating NUL and goes on with whatever an earlier line left in the buffer.
   */
  datatype Parsed = Skipped | Pair(key: string, value: string) | Overrun

  function ParseLine(s: string): Parsed {
    var k := SkipSpace(s, 0);
    if k < |s| && s[k] == '#' then Skipped
    else
      var e := SkipWord(s, k);
      if e == |s| then Overrun
      else
        var q := SkipSpace(s, e + 1);
        if q == |s| || s[q] != '=' then Skipped
        else
          var v := SkipSpace(s, q + 1);
          Pair(s[k..e], s[v..SkipLine(s, v)])
  }

  const LINE_MAX := 8191

  /** What `fgets` takes off the front of the file: a line with its newline, or LINE_MAX characters. */
  function ChunkLength(text: string): (n: nat)
    ensures n <= |text| && (text != "" ==> n > 0)
  {
    var nl := SkipLine(text, 0);
    var n := if nl < |text| then nl + 1 else nl;
    if n > LINE_MAX then LINE_MAX else n
  }

  /** The table after reading a file into it; None where the source overruns its buffer. */
  function ReadAll(text: string, keys: map<string, string>): Option<map<string, string>>
    decreases |text|
  {
    if text == "" then Some(keys)
    else
      var n := ChunkLength(text);
      match ParseLine(text[..n])
      case Overrun => None
      case Skipped => ReadAll(text[n..], keys)
      case Pair(key, value) => ReadAll(text[n..], keys[key := value])
  }

  /** `read_keys`: the loop over `fgets`. */
  method ReadKeys(text: string, keys: map<string, string>) returns (r: Option<map<string, string>>)
    ensures r == ReadAll(text, keys)
  {
    var rest, table := text, keys;
    while rest != ""
      invariant ReadAll(rest, table) == ReadAll(text, keys)
      decreases |rest|
    {
      var n := ChunkLength(rest);
      match ParseLine(rest[..n]) {
        case Overrun => return None;
        case Skipped =>
        case Pair(key, value) => table := table[key := value];
      }
      rest := rest[n..];
    }
    return Some(table);
  }

  // ---------------------------------------------------------------- round trip

  /** Pairs the line format can carry. */
  predicate Storable(key: string, value: string) {
    && key != "" && key[0] != '#' && (forall i | 0 <= i < |key| :: !IsSpace(key[i]))
    && '\n' !in value && (value != "" ==> !IsSpace(value[0]))
  }

  lemma SkipSpaceIs(s: string, i: nat, j: nat)
    requires i <= j <= |s|
    requires forall k | i <= k < j :: IsSpace(s[k])
    requires j < |s| ==> !IsSpace(s[j])
    ensures SkipSpace(s, i) == j
  {
  }

  lemma SkipWordIs(s: string, i: nat, j: nat)
    requires i <= j < |s|
    requires forall k | i <= k < j :: !IsSpace(s[k])
    requires IsSpace(s[j])
    ensures SkipWord(s, i) == j
  {
  }

  lemma SkipLineIs(s: string, i: nat, j: nat)
    requires i <= j < |s|
    requires forall k | i <= k < j :: s[k] != '\n'
    requires s[j] == '\n'
    ensures SkipLine(s, i) == j
  {
  }

  lemma StorableParses(key: string, value: string)
    requires Storable(key, value)
    ensures ParseLine(KeyLine(key, value)) == Pair(key, value)
  {
    hide SkipSpace, SkipWord, SkipLine;
    var s := KeyLine(key, value);
    assert s == key + " = " + (value + "\n");
    KeyFound(key, value + "\n");
    ValueFound(key + " = ", value);
  }

  /** The reader takes the key up to the space, and the `=` after it. */
  lemma KeyFound(key: string, rest: string)
    requires key != "" && forall i | 0 <= i < |key| :: !IsSpace(key[i])
    ensures var s, n := key + " = " + rest, |key|;
            && SkipSpace(s, 0) == 0 && SkipWord(s, 0) == n && SkipSpace(s, n + 1) == n + 1
            && s[n + 1] == '=' && s[..n] == key
  {
    hide SkipSpace, SkipWord;
    var s, n := key + " = " + rest, |key|;
    assert s[..n] == key && s[n] == ' ' && s[n + 1] == '=';
    assert forall i | 0 <= i < n :: s[i] == key[i];
    SkipSpaceIs(s, 0, 0);
    SkipWordIs(s, 0, n);
    SkipSpaceIs(s, n + 1, n + 1);
  }

  /** From the space before it, the reader finds the value. */
  lemma ValueFound(pre: string, value: string)
    requires pre != "" && Last(pre) == ' ' && '\n' !in value && (value != "" ==> !IsSpace(value[0]))
    ensures var s := pre + value + "\n";
            var v := SkipSpace(s, |pre| - 1);
            s[v..SkipLine(s, v)] == value
  {
    hide SkipSpace, SkipLine, IsSpace;
    if value == "" {
      NoValueFound(pre);
    } else {
      SomeValueFound(pre, value, pre + value + "\n");
    }
  }

  lemma NoValueFound(pre: string)
    requires pre != "" && Last(pre) == ' '
    ensures var s := pre + "" + "\n"; SkipSpace(s, |pre| - 1) == |s| && SkipLine(s, |s|) == |s|
  {
    hide SkipSpace;
    var s := pre + "" + "\n";
    assert s[|pre| - 1] == ' ' && s[|pre|] == '\n';
    SkipSpaceIs(s, |pre| - 1, |s|);
  }

  lemma SomeValueFound(pre: string, value: string, s: string)
    requires pre != "" && Last(pre) == ' ' && '\n' !in value && value != "" && !IsSpace(value[0])
    requires s == pre + value + "\n"
    ensures SkipSpace(s, |pre| - 1) == |pre| && SkipLine(s, |pre|) == |pre| + |value|
    ensures s[|pre|..|pre| + |value|] == value
  {
    hide SkipSpace, SkipLine, IsSpace;
    NoBreakIn(pre, value, s);
    ValueBetween(s, |pre|, |pre| + |value|);
  }

  lemma NoBreakIn(pre: string, value: string, s: string)
    requires pre != "" && '\n' !in value && value != "" && s == pre + value + "\n"
    ensures |s| == |pre| + |value| + 1 && s[|pre| - 1] == Last(pre) && s[|pre|] == value[0] && Last(s) == '\n'
    ensures s[|pre|..|pre| + |value|] == value
    ensures forall k | |pre| <= k < |pre| + |value| :: s[k] != '\n'
  {
    forall k | |pre| <= k < |pre| + |value| ensures s[k] != '\n' {
      assert s[k] == value[k - |pre|];
    }
  }

  lemma ValueBetween(s: string, n: nat, m: nat)
    requires 0 < n < m < |s| && s[n - 1] == ' ' && !IsSpace(s[n])
    requires s[m] == '\n' && forall k | n <= k < m :: s[k] != '\n'
    ensures SkipSpace(s, n - 1) == n && SkipLine(s, n) == m
  {
    hide SkipSpace, SkipLine;
    SkipSpaceIs(s, n - 1, n);
    SkipLineIs(s, n, m);
  }

  lemma ParsedIsStorable(s: string)
    ensures var p := ParseLine(s); p.Pair? ==> Storable(p.key, p.value)
  {
  }

  /** White space from `i` up to `j`. */
  ghost predicate Blank(s: string, i: nat, j: nat) {
    forall x | i <= x < j && x < |s| :: IsSpace(s[x])
  }

  /**
   A line that sets a key: white space, the key, white space, an equals sign, white space, and the value, up to
   the end of the line; these start at 0, `k`, `e`, `q`, `q + 1` and `v`, and the value ends at `n`.
   */
  ghost predicate Spelt(s: string, key: string, value: string, k: nat, e: nat, q: nat, v: nat, n: nat) {
    && k < e < q < v <= n <= |s| && key == s[k..e] && value == s[v..n]
    && Blank(s, 0, k) && s[k] != '#' && (forall i | k <= i < e :: !IsSpace(s[i]))
    && Blank(s, e, q) && s[q] == '=' && Blank(s, q + 1, v) && (v < |s| ==> !IsSpace(s[v]))
    && (forall i | v <= i < n :: s[i] != '\n') && (n < |s| ==> s[n] == '\n')
  }

  /** Exactly these lines set a key, whether or not they were written by `save_keys`. */
  lemma PairIff(s: string, key: string, value: string)
    ensures ParseLine(s) == Pair(key, value) <==> exists k, e, q, v, n :: Spelt(s, key, value, k, e, q, v, n)
  {
    hide Spelt;
    if ParseLine(s) == Pair(key, value) {
      PairIsSpelt(s, key, value);
    }
    if k: nat, e: nat, q: nat, v: nat, n: nat :| Spelt(s, key, value, k, e, q, v, n) {
      SpeltIsPair(s, key, value, k, e, q, v, n);
    }
  }

  lemma PairIsSpelt(s: string, key: string, value: string)
    requires ParseLine(s) == Pair(key, value)
    ensures exists k, e, q, v, n :: Spelt(s, key, value, k, e, q, v, n)
  {
    hide SkipSpace, SkipWord, SkipLine;
    var k := SkipSpace(s, 0);
    var e := SkipWord(s, k);
    var q := SkipSpace(s, e + 1);
    var v := SkipSpace(s, q + 1);
    assert Spelt(s, key, value, k, e, q, v, SkipLine(s, v));
  }

  lemma SpeltIsPair(s: string, key: string, value: string, k: nat, e: nat, q: nat, v: nat, n: nat)
    requires Spelt(s, key, value, k, e, q, v, n)
    ensures ParseLine(s) == Pair(key, value)
  {
    hide SkipSpace, SkipWord, SkipLine;
    SkipSpaceIs(s, 0, k);
    SkipWordIs(s, k, e);
    SkipSpaceIs(s, e + 1, q);
    SkipSpaceIs(s, q + 1, v);
    SkipsTo(s, v, n);
  }

  lemma SkipsTo(s: string, i: nat, j: nat)
    requires i <= j <= |s| && (forall k | i <= k < j :: s[k] != '\n') && (j < |s| ==> s[j] == '\n')
    ensures SkipLine(s, i) == j
  {
  }

  /** The reader overruns exactly on lines that end with their first word, comments excepted. */
  lemma OverrunIff(s: string)
    ensures ParseLine(s).Overrun? <==>
            exists k | 0 <= k <= |s| ::
              Blank(s, 0, k) && (forall i | k <= i < |s| :: !IsSpace(s[i])) && (k < |s| ==> s[k] != '#')
  {
    hide SkipSpace, SkipWord;
    if ParseLine(s).Overrun? {
      assert Blank(s, 0, SkipSpace(s, 0));
    }
    if k: nat :| k <= |s| && Blank(s, 0, k) && (forall i | k <= i < |s| :: !IsSpace(s[i]))
                 && (k < |s| ==> s[k] != '#') {
      SkipSpaceIs(s, 0, k);
      assert SkipWord(s, k) == |s|;
    }
  }

  /** Of the lines short enough for the reader's buffer, exactly those of storable pairs come back as they went. */
  lemma LineSurvivesIffStorable(key: string, value: string)
    requires |KeyLine(key, value)| <= LINE_MAX
    ensures var line := KeyLine(key, value);
            ParseLine(line[..ChunkLength(line)]) == Pair(key, value) <==> Storable(key, value)
  {
    var line := KeyLine(key, value);
    ParsedIsStorable(line[..ChunkLength(line)]);
    if Storable(key, value) {
      KeyLineIsLine(key, value);
      ChunkIsLine(line, "");
      assert line + "" == line;
      StorableParses(key, value);
    }
  }

  /** A single line, with its newline, that fits the reader's buffer. */
  ghost predicate IsLine(line: string) {
    0 < |line| <= LINE_MAX && Last(line) == '\n' && forall i | 0 <= i < |line| - 1 :: line[i] != '\n'
  }

  lemma ChunkIsLine(line: string, rest: string)
    requires IsLine(line)
    ensures ChunkLength(line + rest) == |line|
    ensures (line + rest)[..|line|] == line && (line + rest)[|line|..] == rest
  {
    SkipLineIs(line + rest, 0, |line| - 1);
  }

  lemma KeyLineIsLine(key: string, value: string)
    requires Storable(key, value) && |KeyLine(key, value)| <= LINE_MAX
    ensures IsLine(KeyLine(key, value))
  {
    var s, n := KeyLine(key, value), |key|;
    assert s[..n] == key && s[n..n + 3] == " = " && s[n + 3..|s| - 1] == value;
    forall i | 0 <= i < |s| - 1 ensures s[i] != '\n' {
      if i < n {
        assert s[i] == key[i];
      } else if i < n + 3 {
        assert s[i] == " = "[i - n];
      } else {
        assert s[i] == value[i - n - 3];
      }
    }
  }

  /** The table after setting the pairs in order. */
  function SetAll(keys: map<string, string>, pairs: seq<(string, string)>): map<string, string> {
    if pairs == [] then keys else SetAll(keys, Front(pairs))[Last(pairs).0 := Last(pairs).1]
  }

  ghost predicate AllStorable(pairs: seq<(string, string)>) {
    forall i | 0 <= i < |pairs| :: Storable(pairs[i].0, pairs[i].1)
  }

  /** Every line fits the reader's buffer. */
  ghost predicate LinesFit(pairs: seq<(string, string)>) {
    forall i | 0 <= i < |pairs| :: |KeyLine(pairs[i].0, pairs[i].1)| <= LINE_MAX
  }

  ghost predicate AllFit(pairs: seq<(string, string)>) {
    AllStorable(pairs) && LinesFit(pairs)
  }

  lemma {:induction false} ReadsLines(pairs: seq<(string, string)>, rest: string, keys: map<string, string>)
    requires AllFit(pairs)
    ensures ReadAll(KeyLines(pairs) + rest, keys) == ReadAll(rest, SetAll(keys, pairs))
  {
    if pairs == [] {
      assert KeyLines(pairs) + rest == rest;
    } else {
      hide ParseLine, ChunkLength, KeyLine, Storable;
      var (key, value) := Last(pairs);
      assert pairs[|pairs| - 1] == (key, value);
      var line := KeyLine(key, value);
      assert KeyLines(pairs) + rest == KeyLines(Front(pairs)) + (line + rest);
      ReadsLines(Front(pairs), line + rest, keys);
      KeyLineIsLine(key, value);
      ChunkIsLine(line, rest);
      StorableParses(key, value);
      assert ReadAll(line + rest, SetAll(keys, Front(pairs))) == ReadAll(rest, SetAll(keys, pairs));
    }
  }

  function Pow10(k: nat): nat {
    if k == 0 then 1 else 10 * Pow10(k - 1)
  }

  lemma {:induction false} DecimalShort(n: nat, k: nat)
    requires k > 0 && n < Pow10(k)
    ensures 0 < |Decimal(n)| <= k
    ensures forall i | 0 <= i < |Decimal(n)| :: '0' <= Decimal(n)[i] <= '9'
  {
    if n >= 10 {
      assert k > 1;
      DecimalShort(n / 10, k - 1);
    }
  }

  /** The number a string of digits stands for. */
  function Number(s: string): nat
    requires forall i | 0 <= i < |s| :: '0' <= s[i] <= '9'
  {
    if s == "" then 0 else Number(Front(s)) * 10 + (Last(s) as nat - '0' as nat)
  }

  /** What is printed for a number stands for that number. */
  lemma {:induction false} DecimalReads(n: nat)
    ensures forall i | 0 <= i < |Decimal(n)| :: '0' <= Decimal(n)[i] <= '9'
    ensures Number(Decimal(n)) == n
  {
    if n >= 10 {
      DecimalReads(n / 10);
      assert Front(Decimal(n)) == Decimal(n / 10);
    } else {
      assert Front(Decimal(n)) == "";
    }
  }

  /** A line that starts with `#` and has no newline inside is skipped. */
  lemma ReadsComment(line: string, rest: string, keys: map<string, string>)
    requires IsLine(line) && line[0] == '#'
    ensures ReadAll(line + rest, keys) == ReadAll(rest, keys)
  {
    ChunkIsLine(line, rest);
    SkipSpaceIs(line, 0, 0);
  }

  /** A comment line of the keys file, with a number of up to twenty digits in it. */
  lemma CommentIsLine(before: string, n: nat, after: string)
    requires n < TWO64 && |before| + |after| < 100 && before != "" && before[0] == '#'
    requires '\n' !in before && '\n' !in after
    ensures var line := before + Decimal(n) + after + "\n"; IsLine(line) && line[0] == '#'
  {
    hide Decimal;
    PowTwenty();
    DecimalShort(n, 20);
    var d := Decimal(n);
    var line := before + d + after + "\n";
    forall i | 0 <= i < |line| - 1 ensures line[i] != '\n' {
      if i < |before| {
        assert line[i] == before[i];
      } else if i < |before| + |d| {
        assert line[i] == d[i - |before|];
      } else {
        assert line[i] == after[i - |before| - |d|];
      }
    }
  }

  /** Reading a keys file back sets exactly the pairs that were saved, in order. */
  lemma KeysSurvive(now: u64, pairs: seq<(string, string)>, keys: map<string, string>)
    requires AllFit(pairs) && |pairs| < TWO64
    ensures ReadAll(KeysFile(now, pairs), keys) == Some(SetAll(keys, pairs))
  {
    hide ParseLine, ChunkLength, KeyLines, Decimal, IsLine, ReadAll, AllFit, SetAll;
    var head, tail := "# generated " + Decimal(now) + "\n", "# " + Decimal(|pairs|) + " keys\n";
    var lines := KeyLines(pairs);
    assert KeysFile(now, pairs) == head + (lines + tail);
    CommentIsLine("# generated ", now, "");
    assert "# generated " + Decimal(now) + "" + "\n" == head;
    CommentIsLine("# ", |pairs|, " keys");
    assert "# " + Decimal(|pairs|) + " keys" + "\n" == tail;
    ReadsComment(head, lines + tail, keys);
    ReadsLines(pairs, tail, keys);
    assert tail + "" == tail;
    ReadsComment(tail, "", SetAll(keys, pairs));
    NothingToRead(SetAll(keys, pairs));
  }

  lemma NothingToRead(keys: map<string, string>)
    ensures ReadAll("", keys) == Some(keys)
  {
  }

  lemma PowTwenty()
    ensures Pow10(20) == 100_000_000_000_000_000_000
  {
    assert Pow10(5) == 100_000;
    assert Pow10(10) == 10_000_000_000;
    assert Pow10(15) == 1_000_000_000_000_000;
  }

  /** For a table with distinct keys, the result holds a pair iff the table had it and did not delete it. */
  lemma {:induction false} SetAllHolds(pairs: seq<(string, string)>, key: string, value: string)
    requires DistinctKeys(pairs)
    ensures key in SetAll(map[], pairs) && SetAll(map[], pairs)[key] == value <==> (key, value) in pairs
    ensures key in SetAll(map[], pairs) ==> exists i | 0 <= i < |pairs| :: pairs[i].0 == key
  {
    hide DistinctKeys;
    if pairs == [] {
    } else {
      var before, last := Front(pairs), Last(pairs);
      DistinctParts(pairs);
      SetAllHolds(before, key, value);
      FrontLast(pairs);
      assert pairs[|pairs| - 1] == last;
      if key in SetAll(map[], before) {
        var i :| 0 <= i < |before| && before[i].0 == key;
        assert pairs[i].0 == key && before[i] in before;
      }
    }
  }

  lemma DistinctParts(pairs: seq<(string, string)>)
    requires DistinctKeys(pairs) && pairs != []
    ensures DistinctKeys(Front(pairs)) && forall p | p in Front(pairs) :: p.0 != Last(pairs).0
  {
    assert Last(pairs) == pairs[|pairs| - 1];
    assert forall i | 0 <= i < |pairs| - 1 :: Front(pairs)[i] == pairs[i];
  }

  ghost predicate DistinctKeys<V>(pairs: seq<(string, V)>) {
    forall i, j | 0 <= i < j < |pairs| :: pairs[i].0 != pairs[j].0
  }

  lemma {:induction false} LiveHolds(entries: Entries)
    requires DistinctKeys(entries)
    ensures DistinctKeys(Live(entries))
    ensures forall key, value :: (key, value) in Live(entries) <==> (key, Some(value)) in entries
  {
    if entries == [] {
    } else {
      var before, last := Front(entries), Last(entries);
      assert entries == before + [last];
      assert forall i | 0 <= i < |before| :: before[i] == entries[i] && entries[i].0 != entries[|entries| - 1].0;
      LiveHolds(before);
      var live := Live(before);
      forall i | 0 <= i < |live| ensures live[i].0 != last.0 {
        assert live[i] in live;
        assert (live[i].0, Some(live[i].1)) in before;
      }
    }
  }

  /** What one chunk can yield: a storable pair that, with a space and a `=`, is no longer than the chunk. */
  predicate Readable(key: string, value: string) {
    Storable(key, value) && |key| + |value| + 2 <= LINE_MAX
  }

  ghost predicate TableReadable(keys: map<string, string>) {
    forall key | key in keys :: Readable(key, keys[key])
  }

  lemma ParsedIsReadable(s: string)
    requires |s| <= LINE_MAX
    ensures var p := ParseLine(s); p.Pair? ==> Readable(p.key, p.value)
  {
    hide Storable;
    ParsedIsStorable(s);
  }

  /** Whatever is read into a table, it is pairs that one chunk can yield. */
  lemma {:induction false} ReadIsReadable(text: string, keys: map<string, string>)
    requires TableReadable(keys)
    ensures ReadAll(text, keys).Some? ==> TableReadable(ReadAll(text, keys).value)
    decreases |text|
  {
    hide ParseLine, Readable;
    if text == "" {
    } else {
      var n := ChunkLength(text);
      ParsedIsReadable(text[..n]);
      match ParseLine(text[..n])
      case Overrun =>
      case Skipped => ReadIsReadable(text[n..], keys);
      case Pair(key, value) => ReadIsReadable(text[n..], keys[key := value]);
    }
  }

  // ---------------------------------------------------------------- lines one or two characters too long

  /** A line of white space makes the reader overrun. */
  lemma BlankOverruns(line: string, rest: string, keys: map<string, string>)
    requires IsLine(line) && forall i | 0 <= i < |line| :: IsSpace(line[i])
    ensures ReadAll(line + rest, keys) == None
  {
    hide SkipSpace, SkipWord, SkipLine;
    ChunkIsLine(line, rest);
    SkipSpaceIs(line, 0, |line|);
    assert ParseLine(line) == Overrun by {
      assert SkipWord(line, |line|) == |line|;
    }
  }

  /** A line of one other character is skipped. */
  lemma StubSkipped(line: string, rest: string, keys: map<string, string>)
    requires |line| == 2 && line[1] == '\n' && !IsSpace(line[0])
    ensures ReadAll(line + rest, keys) == ReadAll(rest, keys)
  {
    hide SkipSpace, SkipWord, SkipLine;
    assert IsLine(line);
    ChunkIsLine(line, rest);
    SkipSpaceIs(line, 0, 0);
    if line[0] != '#' {
      SkipWordIs(line, 0, 1);
      SkipSpaceIs(line, 2, 2);
    }
  }

  /** A chunk cut off in the value yields what is there of it. */
  lemma CutParses(key: string, value: string)
    requires Storable(key, value)
    ensures ParseLine(key + " = " + value) == Pair(key, value)
  {
    hide SkipSpace, SkipWord, SkipLine;
    var s, n := key + " = " + value, |key| + 3;
    KeyFound(key, value);
    assert s[n - 1] == ' ' && s[n..] == value;
    if value != "" {
      assert s[n] == value[0];
    }
    SkipSpaceIs(s, n - 1, n);
    assert forall k | n <= k < |s| :: s[k] == value[k - n];
    assert SkipLine(s, n) == |s|;
    assert s[n..|s|] == value;
  }

  /** What `fgets` takes of a line that is too long. */
  lemma ChunkOfLong(line: string, rest: string)
    requires |line| > LINE_MAX && Last(line) == '\n' && forall i | 0 <= i < |line| - 1 :: line[i] != '\n'
    ensures ChunkLength(line + rest) == LINE_MAX
    ensures (line + rest)[..LINE_MAX] == line[..LINE_MAX] && (line + rest)[LINE_MAX..] == line[LINE_MAX..] + rest
  {
    SkipLineIs(line + rest, 0, |line| - 1);
  }

  /** A line up to two characters too long: the reader overruns, or takes another value for the key. */
  lemma LongLine(key: string, value: string, rest: string, keys: map<string, string>) returns (got: string)
    requires Storable(key, value) && LINE_MAX < |KeyLine(key, value)| <= LINE_MAX + 2
    ensures got != value
    ensures var r := ReadAll(KeyLine(key, value) + rest, keys); r == None || r == ReadAll(rest, keys[key := got])
  {
    hide ParseLine, SkipSpace, SkipWord, SkipLine, ChunkLength;
    var line := KeyLine(key, value);
    KeyLineHasNoBreak(key, value);
    ChunkOfLong(line, rest);
    var chunk, stub := line[..LINE_MAX], line[LINE_MAX..];
    assert IsLine(stub) && chunk + stub == line;
    if |stub| == 2 && !IsSpace(stub[0]) {
      LongValue(key, value);
      got := value[..|value| - 1];
      CutParses(key, got);
      StubSkipped(stub, rest, keys[key := got]);
    } else {
      got := value + "?";
      OverrunAfter(chunk, stub, rest, keys);
    }
  }

  lemma KeyLineHasNoBreak(key: string, value: string)
    requires Storable(key, value)
    ensures var line := KeyLine(key, value); Last(line) == '\n' && forall i | 0 <= i < |line| - 1 :: line[i] != '\n'
  {
    var line, n := KeyLine(key, value), |key|;
    forall i | 0 <= i < |line| - 1 ensures line[i] != '\n' {
      if i < n {
        assert line[i] == key[i];
      } else if i < n + 3 {
        assert line[i] == " = "[i - n];
      } else {
        assert line[i] == value[i - n - 3];
      }
    }
  }

  /** Two characters too many, the first no space: the line is cut before the last character of the value. */
  lemma LongValue(key: string, value: string)
    requires Storable(key, value)
    requires var line := KeyLine(key, value); |line| == LINE_MAX + 2 && !IsSpace(line[LINE_MAX])
    ensures value != "" && Storable(key, value[..|value| - 1])
    ensures KeyLine(key, value)[..LINE_MAX] == key + " = " + value[..|value| - 1]
  {
    var line := KeyLine(key, value);
    var cut := key + " = " + value[..|value| - 1];
    assert |cut| == LINE_MAX && line == cut + value[|value| - 1..] + "\n";
  }

  /** Whatever a first chunk yields, a blank one after it makes the reader overrun. */
  lemma OverrunAfter(chunk: string, stub: string, rest: string, keys: map<string, string>)
    requires |chunk| == LINE_MAX && ChunkLength(chunk + stub + rest) == LINE_MAX
    requires IsLine(stub) && forall i | 0 <= i < |stub| :: IsSpace(stub[i])
    ensures ReadAll(chunk + stub + rest, keys) == None
  {
    hide ParseLine, ChunkLength, IsLine;
    var text := chunk + stub + rest;
    assert text[..LINE_MAX] == chunk && text[LINE_MAX..] == stub + rest;
    match ParseLine(chunk)
    case Overrun =>
    case Skipped => BlankOverruns(stub, rest, keys);
    case Pair(k, v) => BlankOverruns(stub, rest, keys[k := v]);
  }

  // ---------------------------------------------------------------- the whole file

  /** The pairs with other values. */
  function Revalued(pairs: seq<(string, string)>, got: seq<string>): seq<(string, string)>
    requires |got| == |pairs|
  {
    seq(|pairs|, i requires 0 <= i < |pairs| => (pairs[i].0, got[i]))
  }

  /** `got` are the values of the pairs, except where a line does not fit. */
  ghost predicate Taken(pairs: seq<(string, string)>, got: seq<string>) {
    && |got| == |pairs|
    && forall i | 0 <= i < |pairs| :: got[i] == pairs[i].1 <==> |KeyLine(pairs[i].0, pairs[i].1)| <= LINE_MAX
  }

  ghost predicate AlmostFit(pairs: seq<(string, string)>) {
    forall i | 0 <= i < |pairs| :: |KeyLine(pairs[i].0, pairs[i].1)| <= LINE_MAX + 2
  }

  /** What reading one line does, whether it fits or is a little too long. */
  lemma AnyLine(key: string, value: string, rest: string, keys: map<string, string>) returns (got: string)
    requires Storable(key, value) && |KeyLine(key, value)| <= LINE_MAX + 2
    ensures got == value <==> |KeyLine(key, value)| <= LINE_MAX
    ensures var r := ReadAll(KeyLine(key, value) + rest, keys); r == None || r == ReadAll(rest, keys[key := got])
  {
    hide ParseLine, ChunkLength, Storable;
    if |KeyLine(key, value)| <= LINE_MAX {
      got := value;
      KeyLineIsLine(key, value);
      ChunkIsLine(KeyLine(key, value), rest);
      StorableParses(key, value);
    } else {
      got := LongLine(key, value, rest, keys);
    }
  }

  lemma {:induction false} LinesRead(pairs: seq<(string, string)>, rest: string, keys: map<string, string>)
    returns (got: seq<string>)
    requires AllStorable(pairs) && AlmostFit(pairs)
    ensures Taken(pairs, got)
    ensures var r := ReadAll(KeyLines(pairs) + rest, keys);
            r == None || r == ReadAll(rest, SetAll(keys, Revalued(pairs, got)))
  {
    hide ReadAll, KeyLine, Storable;
    if pairs == [] {
      got := [];
      assert KeyLines(pairs) + rest == rest;
    } else {
      var (key, value) := Last(pairs);
      assert pairs[|pairs| - 1] == (key, value);
      assert forall i | 0 <= i < |pairs| - 1 :: Front(pairs)[i] == pairs[i];
      var line := KeyLine(key, value);
      assert KeyLines(pairs) + rest == KeyLines(Front(pairs)) + (line + rest);
      var before := LinesRead(Front(pairs), line + rest, keys);
      var last := AnyLine(key, value, rest, SetAll(keys, Revalued(Front(pairs), before)));
      got := before + [last];
      assert Front(Revalued(pairs, got)) == Revalued(Front(pairs), before);
    }
  }

  /** A saved file read back: nothing, or its pairs with their values except where a line does not fit. */
  lemma FileRead(now: u64, pairs: seq<(string, string)>) returns (got: seq<string>)
    requires AllStorable(pairs) && AlmostFit(pairs) && |pairs| < TWO64
    ensures Taken(pairs, got)
    ensures var r := ReadAll(KeysFile(now, pairs), map[]); r == None || r == Some(SetAll(map[], Revalued(pairs, got)))
  {
    hide ParseLine, ChunkLength, KeyLines, KeyLine, Decimal, IsLine, ReadAll, SetAll, Storable, Taken;
    var head, tail := "# generated " + Decimal(now) + "\n", "# " + Decimal(|pairs|) + " keys\n";
    var lines := KeyLines(pairs);
    assert KeysFile(now, pairs) == head + (lines + tail);
    CommentIsLine("# generated ", now, "");
    assert "# generated " + Decimal(now) + "" + "\n" == head;
    CommentIsLine("# ", |pairs|, " keys");
    assert "# " + Decimal(|pairs|) + " keys" + "\n" == tail;
    ReadsComment(head, lines + tail, map[]);
    got := LinesRead(pairs, tail, map[]);
    TakenLength(pairs, got);
    var table := SetAll(map[], Revalued(pairs, got));
    assert tail + "" == tail;
    ReadsComment(tail, "", table);
    NothingToRead(table);
  }

  lemma TakenLength(pairs: seq<(string, string)>, got: seq<string>)
    requires Taken(pairs, got)
    ensures |got| == |pairs|
  {
  }

  /** The table holds every pair of the entries that has a value, and no other. */
  ghost predicate Restores(r: Option<map<string, string>>, entries: Entries) {
    && r.Some?
    && forall key, value :: (key in r.value && r.value[key] == value) <==> (key, Some(value)) in entries
  }

  /**
   Saving a key table and reading it back into an empty one gives every pair that was not deleted, and no
   other, if and only if all of those pairs are storable and their lines fit the buffer.
   */
  lemma TableSurvives(entries: Entries, now: u64)
    requires DistinctKeys(entries) && |Live(entries)| < TWO64
    ensures Restores(ReadAll(KeysFile(now, Live(entries)), map[]), entries) <==> AllFit(Live(entries))
  {
    hide ReadAll, KeysFile, Live, SetAll, Storable, KeyLine;
    var pairs := Live(entries);
    LiveHolds(entries);
    if AllFit(pairs) {
      KeysSurvive(now, pairs, map[]);
      var table := SetAll(map[], pairs);
      forall key, value ensures (key in table && table[key] == value) <==> (key, Some(value)) in entries {
        SetAllHolds(pairs, key, value);
      }
    }
    if Restores(ReadAll(KeysFile(now, pairs), map[]), entries) {
      RestoredIsReadable(entries, now);
      RestoredFits(entries, now);
    }
  }

  lemma RestoredIsReadable(entries: Entries, now: u64)
    requires DistinctKeys(entries) && Restores(ReadAll(KeysFile(now, Live(entries)), map[]), entries)
    ensures AllStorable(Live(entries)) && AlmostFit(Live(entries))
  {
    hide ReadAll, KeysFile, Live, Storable;
    var pairs := Live(entries);
    LiveHolds(entries);
    var r := ReadAll(KeysFile(now, pairs), map[]);
    ReadIsReadable(KeysFile(now, pairs), map[]);
    forall i | 0 <= i < |pairs| ensures Readable(pairs[i].0, pairs[i].1) {
      var (key, value) := pairs[i];
      assert (key, value) in pairs && (key, Some(value)) in entries;
      assert key in r.value && r.value[key] == value;
    }
  }

  lemma RestoredFits(entries: Entries, now: u64)
    requires DistinctKeys(entries) && Restores(ReadAll(KeysFile(now, Live(entries)), map[]), entries)
    requires AllStorable(Live(entries)) && AlmostFit(Live(entries)) && |Live(entries)| < TWO64
    ensures LinesFit(Live(entries))
  {
    hide ReadAll, KeysFile, Live, SetAll, Storable, KeyLine, AllStorable, AlmostFit;
    var pairs := Live(entries);
    LiveHolds(entries);
    var got := FileRead(now, pairs);
    var taken := Revalued(pairs, got);
    assert DistinctKeys(taken);
    var table := ReadAll(KeysFile(now, pairs), map[]).value;
    forall i | 0 <= i < |pairs| ensures got[i] == pairs[i].1 {
      var (key, value) := pairs[i];
      assert (key, value) in pairs && (key, Some(value)) in entries;
      assert key in table && table[key] == value;
      SetAllHolds(taken, key, value);
      var j :| 0 <= j < |taken| && taken[j] == (key, value);
      assert pairs[j].0 == pairs[i].0;
    }
  }
}
