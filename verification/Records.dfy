/** One record of the savefile: its bytes, and what reading them back gives. */
module Records {
  import opened Basics
  import opened Bytes

  // ---------------------------------------------------------------- records

  /** The packed fields. `stats` holds min, max, sum, mean, mean_, var and var_, in that order. */
  datatype Body =
    | State(lastSeen: u32, status: u8, stale: u8, ignore: u8)
    | Counter(lastSeen: u32, value: u64, ignore: u8)
    | Sample(lastSeen: u32, n: u64, stats: seq<real>, ignore: u8)
    | Event(timestamp: u32)
    | Rate(firstSeen: u32, lastSeen: u32, first: u64, last: u64, ignore: u8)

  /** `text` is a state's summary or an event's extra; the other kinds have none. */
  datatype Record = Record(body: Body, name: seq<byte>, text: seq<byte>)

  function Type(b: Body): (t: nat)
    ensures 1 <= t <= 5
  {
    match b
    case State(_, _, _, _) => 1
    case Counter(_, _, _) => 2
    case Sample(_, _, _, _) => 3
    case Event(_) => 4
    case Rate(_, _, _, _, _) => 5
  }

  /** The packed struct sizes. */
  function Size(t: nat): nat {
    match t
    case 1 => 7
    case 2 => 13
    case 3 => 69
    case 4 => 4
    case _ => 25
  }

  predicate TwoStrings(t: nat) {
    t == 1 || t == 4
  }

  /** A statistic whose conversion to uint32_t is defined. */
  predicate Converts(x: real) {
    -1.0 < x < TWO32 as real
  }

  predicate Whole(x: real) {
    0.0 <= x && x == x.Floor as real
  }

  predicate Defined(b: Body) {
    b.Sample? ==> |b.stats| == 7 && forall x <- b.stats :: Converts(x)
  }

  /** What C guarantees of a record in memory, with conversions that are defined. */
  predicate Writable(r: Record) {
    && 0 !in r.name && 0 !in r.text
    && (!TwoStrings(Type(r.body)) ==> r.text == [])
    && Defined(r.body)
  }

  // ---------------------------------------------------------------- statistics

  function Truncate(x: real): (n: u32)
    requires Converts(x)
    ensures n as real == x <==> Whole(x)
  {
    if x < 0.0 then 0 else x.Floor
  }

  /** `htonl` of a double, stored in a double: converted, swapped, converted back. */
  function StatBytes(x: real): (bs: seq<byte>)
    requires Converts(x)
    ensures |bs| == 8
  {
    Reverse(Be(DoubleBits(Swap32(Truncate(x))), 8))
  }

  function StatFrom(bs: seq<byte>): Option<real> {
    match BitsToU32(FromBe(Reverse(bs)))
    case Some(v) => Some(Swap32(v) as real)
    case None => None
  }

  /** A statistic comes back truncated, so it survives exactly when it is whole. */
  lemma StatSurvivesIff(x: real)
    requires Converts(x)
    ensures StatFrom(StatBytes(x)) == Some(Truncate(x) as real)
    ensures StatFrom(StatBytes(x)) == Some(x) <==> Whole(x)
  {
    hide Be, FromBe, DoubleBits, BitsToU32, Swap32;
    var v := Swap32(Truncate(x));
    Powers();
    DoubleRoundTrip(v);
    FromBeOfBe(DoubleBits(v), 8);
    assert Reverse(Reverse(Be(DoubleBits(v), 8))) == Be(DoubleBits(v), 8);
    SwapTwice(Truncate(x));
  }

  function StatsBytes(xs: seq<real>): (bs: seq<byte>)
    requires forall x <- xs :: Converts(x)
    ensures |bs| == 8 * |xs|
  {
    if xs == [] then [] else StatBytes(xs[0]) + StatsBytes(xs[1..])
  }

  function StatsFrom(bs: seq<byte>, n: nat): (r: Option<seq<real>>)
    requires |bs| == 8 * n
    ensures r.Some? ==> |r.value| == n
  {
    if n == 0 then Some([])
    else match StatFrom(bs[..8])
      case None => None
      case Some(x) =>
        match StatsFrom(bs[8..], n - 1)
        case None => None
        case Some(xs) => Some([x] + xs)
  }

  lemma {:induction false} StatsSurviveIff(xs: seq<real>)
    requires forall x <- xs :: Converts(x)
    ensures StatsFrom(StatsBytes(xs), |xs|).Some?
    ensures StatsFrom(StatsBytes(xs), |xs|) == Some(xs) <==> forall x <- xs :: Whole(x)
  {
    hide StatBytes, StatFrom, Whole, Truncate;
    if xs == [] {
    } else {
      var bs := StatsBytes(xs);
      assert bs[..8] == StatBytes(xs[0]) && bs[8..] == StatsBytes(xs[1..]);
      StatSurvivesIff(xs[0]);
      StatsSurviveIff(xs[1..]);
      var rest := StatsFrom(bs[8..], |xs| - 1).value;
      var x := StatFrom(bs[..8]).value;
      assert StatsFrom(bs, |xs|) == Some([x] + rest);
      assert xs == [xs[0]] + xs[1..];
      assert [x] + rest == xs ==> x == xs[0] && rest == xs[1..] by {
        assert ([x] + rest)[0] == x && ([x] + rest)[1..] == rest;
      }
    }
  }

  // ---------------------------------------------------------------- the packed struct

  function BodyBytes(b: Body): (bs: seq<byte>)
    requires Defined(b)
    ensures |bs| == Size(Type(b))
  {
    match b
    case State(seen, status, stale, ignore) => Be(seen, 4) + [status, stale, ignore]
    case Counter(seen, value, ignore) => Be(seen, 4) + Htonll(value) + [ignore]
    case Sample(seen, n, stats, ignore) => Be(seen, 4) + Htonll(n) + StatsBytes(stats) + [ignore]
    case Event(ts) => Be(ts, 4)
    case Rate(since, seen, first, last, ignore) => Be(since, 4) + Be(seen, 4) + Htonll(first) + Htonll(last) + [ignore]
  }

  lemma IntegerLayout(n: nat)
    ensures n < TWO32 ==> FromBe(Be(n, 4)) == n
    ensures n < TWO64 ==> FromBe(Htonll(n)) == n
  {
    hide Be, FromBe, Htonll;
    Powers();
    if n < TWO32 {
      FromBeOfBe(n, 4);
    }
    if n < TWO64 {
      HtonllIsBigEndian(n);
      FromBeOfBe(n, 8);
    }
  }

  /** Where each field of a record lies: type numbers, the order of fields, and integers in network order. */
  lemma BodyLayout(b: Body)
    requires Defined(b)
    ensures var bs := BodyBytes(b);
      match b
      case State(seen, status, stale, ignore) =>
        Type(b) == 1 && |bs| == 7 && FromBe(bs[..4]) == seen && bs[4..] == [status, stale, ignore]
      case Counter(seen, value, ignore) =>
        Type(b) == 2 && |bs| == 13 && FromBe(bs[..4]) == seen && FromBe(bs[4..12]) == value && bs[12] == ignore
      case Sample(seen, n, stats, ignore) =>
        && Type(b) == 3 && |bs| == 69 && FromBe(bs[..4]) == seen && FromBe(bs[4..12]) == n && bs[68] == ignore
        && bs[12..68] == StatsBytes(stats)
      case Event(ts) => Type(b) == 4 && |bs| == 4 && FromBe(bs) == ts
      case Rate(since, seen, first, last, ignore) =>
        && Type(b) == 5 && |bs| == 25 && FromBe(bs[..4]) == since && FromBe(bs[4..8]) == seen
        && FromBe(bs[8..16]) == first && FromBe(bs[16..24]) == last && bs[24] == ignore
  {
    hide Be, FromBe, Htonll, StatsBytes, Converts;
    var bs := BodyBytes(b);
    match b {
      case State(seen, _, _, _) =>
        IntegerLayout(seen);
        assert bs[..4] == Be(seen, 4);
      case Counter(seen, value, _) =>
        IntegerLayout(seen);
        IntegerLayout(value);
        assert bs[..4] == Be(seen, 4) && bs[4..12] == Htonll(value);
      case Sample(seen, n, stats, _) =>
        IntegerLayout(seen);
        IntegerLayout(n);
        assert bs[..4] == Be(seen, 4) && bs[4..12] == Htonll(n) && bs[12..68] == StatsBytes(stats);
      case Event(ts) =>
        IntegerLayout(ts);
      case Rate(since, seen, first, last, _) =>
        IntegerLayout(since);
        IntegerLayout(seen);
        IntegerLayout(first);
        IntegerLayout(last);
        assert bs[..4] == Be(since, 4) && bs[4..8] == Be(seen, 4);
        assert bs[8..16] == Htonll(first) && bs[16..24] == Htonll(last);
    }
  }

  function Be32(bs: seq<byte>): u32
    requires |bs| == 4
  {
    Powers();
    BeOfFromBe(bs);
    FromBe(bs)
  }

  lemma Be32OfBe(n: u32)
    ensures Be32(Be(n, 4)) == n
  {
    Powers();
    FromBeOfBe(n, 4);
  }

  function BodyFrom(t: nat, bs: seq<byte>): Option<Body>
    requires 1 <= t <= 5 && |bs| == Size(t)
  {
    match t
    case 1 => Some(State(Be32(bs[..4]), bs[4], bs[5], bs[6]))
    case 2 => Some(Counter(Be32(bs[..4]), Ntohll(bs[4..12]), bs[12]))
    case 3 =>
      (match StatsFrom(bs[12..68], 7)
       case None => None
       case Some(stats) => Some(Sample(Be32(bs[..4]), Ntohll(bs[4..12]), stats, bs[68])))
    case 4 => Some(Event(Be32(bs)))
    case _ => Some(Rate(Be32(bs[..4]), Be32(bs[4..8]), Ntohll(bs[8..16]), Ntohll(bs[16..24]), bs[24]))
  }

  predicate WholeStats(b: Body) {
    b.Sample? ==> forall x <- b.stats :: Whole(x)
  }

  lemma BodySurvivesIff(b: Body)
    requires Defined(b)
    ensures BodyFrom(Type(b), BodyBytes(b)).Some?
    ensures Type(BodyFrom(Type(b), BodyBytes(b)).value) == Type(b)
    ensures BodyFrom(Type(b), BodyBytes(b)) == Some(b) <==> WholeStats(b)
  {
    hide Be, Be32, Htonll, Ntohll, StatsBytes, StatsFrom, Whole;
    var bs := BodyBytes(b);
    match b {
      case State(seen, _, _, _) =>
        assert bs[..4] == Be(seen, 4);
        Be32OfBe(seen);
      case Counter(seen, value, _) =>
        assert bs[..4] == Be(seen, 4) && bs[4..12] == Htonll(value);
        Be32OfBe(seen);
        NtohllOfHtonll(value);
      case Sample(seen, n, stats, _) =>
        assert bs[..4] == Be(seen, 4) && bs[4..12] == Htonll(n) && bs[12..68] == StatsBytes(stats);
        Be32OfBe(seen);
        NtohllOfHtonll(n);
        StatsSurviveIff(stats);
      case Event(ts) =>
        Be32OfBe(ts);
      case Rate(since, seen, first, last, _) =>
        assert bs[..4] == Be(since, 4) && bs[4..8] == Be(seen, 4);
        assert bs[8..16] == Htonll(first) && bs[16..24] == Htonll(last);
        Be32OfBe(since);
        Be32OfBe(seen);
        NtohllOfHtonll(first);
        NtohllOfHtonll(last);
    }
  }

  // ---------------------------------------------------------------- the strings

  function TextBytes(r: Record): seq<byte> {
    if TwoStrings(Type(r.body)) then r.name + [0] + r.text + [0] else r.name + [0]
  }

  /** The number of bytes before the first NUL, where a NUL stands after the end. */
  function NulAt(bs: seq<byte>): (z: nat)
    ensures z <= |bs|
    ensures 0 !in bs[..z] && (z < |bs| ==> bs[z] == 0)
  {
    if bs == [] || bs[0] == 0 then 0
    else
      var z := NulAt(bs[1..]);
      assert bs[..1 + z] == [bs[0]] + bs[1..][..z];
      1 + z
  }

  lemma NulAfter(s: seq<byte>, rest: seq<byte>)
    requires 0 !in s
    ensures NulAt(s + [0] + rest) == |s|
  {
    var bs := s + [0] + rest;
    var z := NulAt(bs);
    assert bs[|s|] == 0;
  }

  datatype Texts = Texts(name: seq<byte>, text: seq<byte>) | Refused | Overrun

  /** The strings of a record of type `t`, from the bytes after its fixed part. */
  function TextsFrom(t: nat, buf: seq<byte>): Texts {
    var z := NulAt(buf);
    if t == 2 || t == 3 then Texts(buf[..z], [])
    else if z + 2 == |buf| then Refused
    else if t == 5 then Texts(buf[..z], [])
    else if z == |buf| then Overrun
    else Texts(buf[..z], buf[z + 1..][..NulAt(buf[z + 1..])])
  }

  lemma TextsSurvive(r: Record)
    requires Writable(r)
    ensures TextsFrom(Type(r.body), TextBytes(r)) ==
            if TwoStrings(Type(r.body)) && r.text == [] then Refused else Texts(r.name, r.text)
  {
    hide NulAt;
    var bs := TextBytes(r);
    if TwoStrings(Type(r.body)) {
      assert bs == r.name + [0] + (r.text + [0]);
      NulAfter(r.name, r.text + [0]);
      assert bs[|r.name| + 1..] == r.text + [0] == r.text + [0] + [];
      NulAfter(r.text, []);
    } else {
      assert bs == r.name + [0] + [];
      NulAfter(r.name, []);
    }
  }

  // ---------------------------------------------------------------- whole records

  function Length(r: Record): nat {
    4 + Size(Type(r.body)) + |TextBytes(r)|
  }

  /** The bytes of a record; its 16-bit length field wraps. */
  function Encode(r: Record): (bs: seq<byte>)
    requires Writable(r)
    ensures |bs| == Length(r)
  {
    Be(Length(r) % 0x1_0000, 2) + Be(Type(r.body), 2) + BodyBytes(r.body) + TextBytes(r)
  }

  /** A record starts with its length modulo 2^16 and its type, and ends with its strings. */
  lemma RecordLayout(r: Record)
    requires Writable(r)
    ensures var bs, body := Encode(r), BodyBytes(r.body);
      && FromBe(bs[..2]) == |bs| % 0x1_0000 && FromBe(bs[2..4]) == Type(r.body)
      && bs[4..4 + |body|] == body
      && bs[4 + |body|..] == r.name + [0] + (if r.body.State? || r.body.Event? then r.text + [0] else [])
  {
    hide Be, FromBe, BodyBytes;
    var bs, body := Encode(r), BodyBytes(r.body);
    Powers();
    FromBeOfBe(Length(r) % 0x1_0000, 2);
    FromBeOfBe(Type(r.body), 2);
    assert bs[..2] == Be(Length(r) % 0x1_0000, 2) && bs[2..4] == Be(Type(r.body), 2);
    assert bs[4..4 + |body|] == body;
    assert bs[4 + |body|..] == TextBytes(r);
    assert r.name + [0] + [] == r.name + [0];
    assert r.name + [0] + (r.text + [0]) == r.name + [0] + r.text + [0];
  }

  datatype Read =
    | Got(record: Record, next: nat)
    | Rejected
    | Fault // the reader leaves the file, its buffer, or defined arithmetic

  function Be16(bs: seq<byte>): u16
    requires |bs| == 2
  {
    Powers();
    BeOfFromBe(bs);
    FromBe(bs)
  }

  function Decode(bs: seq<byte>, at: nat): Read {
    if at + 4 > |bs| then Fault
    else
      var len, t := Be16(bs[at..at + 2]), Be16(bs[at + 2..at + 4]) % 16;
      if t < 1 || t > 5 then Rejected
      else if len < 4 + Size(t) || at + len > |bs| then Fault
      else
        match BodyFrom(t, bs[at + 4..at + 4 + Size(t)])
        case None => Fault
        case Some(body) =>
          match TextsFrom(t, bs[at + 4 + Size(t)..at + len])
          case Texts(name, text) => Got(Record(body, name, text), at + len)
          case Refused => Rejected
          case Overrun => Fault
  }

  /** What the reader takes for a record is of the type and length its header says, with the name that stands there. */
  lemma DecodedMeans(bs: seq<byte>, at: nat)
    ensures var r := Decode(bs, at);
      r.Got? ==>
        && at + 4 <= |bs| && r.next == at + FromBe(bs[at..at + 2]) <= |bs|
        && Type(r.record.body) == FromBe(bs[at + 2..at + 4]) % 16
        && var name := at + 4 + Size(Type(r.record.body));
           name + |r.record.name| <= r.next && r.record.name == bs[name..name + |r.record.name|] && 0 !in r.record.name
  {
    hide Be16, FromBe, BodyFrom, TextsFrom, Size, Type;
    if Decode(bs, at).Got? {
      var len, t := Be16(bs[at..at + 2]), Be16(bs[at + 2..at + 4]) % 16;
      Be16Is(bs[at..at + 2]);
      Be16Is(bs[at + 2..at + 4]);
      var start := at + 4 + Size(t);
      TypeRead(t, bs[at + 4..start]);
      NameRead(t, bs[start..at + len]);
      var name := Decode(bs, at).record.name;
      assert bs[start..at + len][..|name|] == bs[start..start + |name|];
    }
  }

  lemma Be16Is(bs: seq<byte>)
    requires |bs| == 2
    ensures Be16(bs) == FromBe(bs)
  {
  }

  lemma TypeRead(t: nat, bs: seq<byte>)
    requires 1 <= t <= 5 && |bs| == Size(t)
    ensures BodyFrom(t, bs).Some? ==> Type(BodyFrom(t, bs).value) == t
  {
    hide Be32, Ntohll, StatsFrom;
  }

  /** The name read is what stands before the first NUL. */
  lemma NameRead(t: nat, buf: seq<byte>)
    ensures var s := TextsFrom(t, buf); s.Texts? ==> |s.name| <= |buf| && s.name == buf[..|s.name|] && 0 !in s.name
  {
    hide NulAt;
  }

  /**
   The records that come back: short enough for the length field, with a text where one is due, and whole
   statistics.
   */
  predicate Storable(r: Record) {
    && Length(r) < 0x1_0000
    && (TwoStrings(Type(r.body)) ==> r.text != [])
    && WholeStats(r.body)
  }

  lemma Be16OfBe(n: u16)
    ensures Be16(Be(n, 2)) == n
  {
    Powers();
    FromBeOfBe(n, 2);
  }

  /** Where the parts of a record lie in a file. */
  lemma Layout(pre: seq<byte>, a: seq<byte>, b: seq<byte>, c: seq<byte>, d: seq<byte>, post: seq<byte>, bs: seq<byte>)
    requires bs == pre + (a + b + c + d) + post
    requires |a| == 2 && |b| == 2
    ensures var at := |pre|;
      && |bs| == at + 4 + |c| + |d| + |post|
      && bs[at..at + 2] == a && bs[at + 2..at + 4] == b
      && bs[at + 4..at + 4 + |c|] == c
      && bs[at + 4 + |c|..at + 4 + |c| + |d|] == d
  {
  }

  lemma HeaderSurvives(pre: seq<byte>, r: Record, post: seq<byte>, bs: seq<byte>)
    requires Writable(r) && bs == pre + Encode(r) + post
    ensures var at, c := |pre|, Size(Type(r.body));
      && |bs| == at + Length(r) + |post|
      && Be16(bs[at..at + 2]) == Length(r) % 0x1_0000 && Be16(bs[at + 2..at + 4]) == Type(r.body)
      && bs[at + 4..at + 4 + c] == BodyBytes(r.body)
      && bs[at + 4 + c..at + Length(r)] == TextBytes(r)
  {
    hide Be, Be16, BodyBytes, TextBytes, Type, Size;
    Layout(pre, Be(Length(r) % 0x1_0000, 2), Be(Type(r.body), 2), BodyBytes(r.body), TextBytes(r), post, bs);
    Be16OfBe(Length(r) % 0x1_0000);
    Be16OfBe(Type(r.body));
  }

  /** A record within the length limit is read up to its end. */
  lemma ShortDecodes(pre: seq<byte>, r: Record, post: seq<byte>, bs: seq<byte>)
    requires Writable(r) && bs == pre + Encode(r) + post && Length(r) < 0x1_0000
    ensures Decode(bs, |pre|) == Got(r, |pre| + Length(r)) <==> Storable(r)
    ensures TwoStrings(Type(r.body)) && r.text == [] ==> Decode(bs, |pre|).Rejected?
    ensures Decode(bs, |pre|).Got? ==> Decode(bs, |pre|).next == |pre| + Length(r)
  {
    hide Be, Be16, BodyBytes, BodyFrom, TextBytes, TextsFrom, Size, WholeStats, Encode, Defined;
    var t := Type(r.body);
    HeaderSurvives(pre, r, post, bs);
    BodySurvivesIff(r.body);
    TextsSurvive(r);
    assert Length(r) % 0x1_0000 == Length(r) && t % 16 == t;
  }

  /** The strings that come out of a buffer, and their NULs, exceed it by at most one NUL. */
  lemma TextsFit(t: nat, buf: seq<byte>)
    requires TextsFrom(t, buf).Texts? && 1 <= t <= 5
    ensures var s := TextsFrom(t, buf); if TwoStrings(t) then |s.name| + 1 + |s.text| <= |buf| else |s.name| <= |buf|
  {
  }

  /** A record too long for the length field never comes back. */
  lemma LongIsLost(pre: seq<byte>, r: Record, post: seq<byte>, bs: seq<byte>)
    requires Writable(r) && bs == pre + Encode(r) + post && Length(r) >= 0x1_0000
    ensures Decode(bs, |pre|).Got? ==> Decode(bs, |pre|).record != r
  {
    hide Be, Be16, BodyBytes, BodyFrom, TextsFrom, WholeStats, Encode, Defined;
    var at, t := |pre|, Type(r.body);
    HeaderSurvives(pre, r, post, bs);
    var len := Length(r) % 0x1_0000;
    assert t % 16 == t;
    if Decode(bs, at).Got? {
      var buf := bs[at + 4 + Size(t)..at + len];
      TextsFit(t, buf);
      assert |buf| < |TextBytes(r)| - 1;
    }
  }

  /** A written record is read back, wherever it lies, exactly when it is storable. */
  lemma RecordSurvivesIff(pre: seq<byte>, r: Record, post: seq<byte>, bs: seq<byte>)
    requires Writable(r) && bs == pre + Encode(r) + post
    ensures Storable(r) ==> Decode(bs, |pre|) == Got(r, |pre| + |Encode(r)|)
    ensures Decode(bs, |pre|).Got? && Decode(bs, |pre|).record == r ==> Storable(r)
  {
    hide Decode, Writable;
    if Length(r) < 0x1_0000 {
      ShortDecodes(pre, r, post, bs);
    } else {
      LongIsLost(pre, r, post, bs);
    }
  }
}
