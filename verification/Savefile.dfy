/** The savefile: header, records, trailer; written into and read from a mapped file. */
module Savefile {
  import opened Basics
  import opened Bytes
  import opened Records

  const MAGIC: seq<byte> := [66, 79, 76, 79] // "BOLO"

  // ---------------------------------------------------------------- the file as bytes

  function Header(timestamp: u32, count: nat): (bs: seq<byte>)
    ensures |bs| == 16
  {
    MAGIC + Be(1, 2) + Be(0, 2) + Be(timestamp, 4) + Be(count % TWO32, 4)
  }

  /** The header of the file: "BOLO", version 1, no flags, the time and the number of records, in network order. */
  lemma HeaderLayout(timestamp: u32, count: nat)
    ensures var bs := Header(timestamp, count);
      && bs[..4] == [66, 79, 76, 79] && FromBe(bs[4..6]) == 1 && FromBe(bs[6..8]) == 0
      && FromBe(bs[8..12]) == timestamp && FromBe(bs[12..16]) == count % TWO32
  {
    hide Be, FromBe;
    var bs := Header(timestamp, count);
    Powers();
    FromBeOfBe(1, 2);
    FromBeOfBe(0, 2);
    FromBeOfBe(timestamp, 4);
    FromBeOfBe(count % TWO32, 4);
    HeaderParts(MAGIC, Be(1, 2), Be(0, 2), Be(timestamp, 4), Be(count % TWO32, 4), bs);
  }

  lemma HeaderParts(a: seq<byte>, b: seq<byte>, c: seq<byte>, d: seq<byte>, e: seq<byte>, bs: seq<byte>)
    requires |a| == 4 && |b| == 2 && |c| == 2 && |d| == 4 && |e| == 4 && bs == a + b + c + d + e
    ensures bs[..4] == a && bs[4..6] == b && bs[6..8] == c && bs[8..12] == d && bs[12..16] == e
  {
  }

  predicate AllWritable(rs: seq<Record>) {
    forall i | 0 <= i < |rs| :: Writable(rs[i])
  }

  predicate AllStorable(rs: seq<Record>) {
    forall i | 0 <= i < |rs| :: Storable(rs[i])
  }

  function RecordBytes(rs: seq<Record>): seq<byte>
    requires AllWritable(rs)
  {
    if rs == [] then [] else RecordBytes(Front(rs)) + Encode(Last(rs))
  }

  function FileBytes(timestamp: u32, rs: seq<Record>): seq<byte>
    requires AllWritable(rs)
  {
    Header(timestamp, |rs|) + RecordBytes(rs) + [0, 0]
  }

  datatype Outcome = Complete | Failed | Crashed

  /** The records read so far, the offset after them, and whether reading went on. */
  datatype Scan = Scan(records: seq<Record>, at: nat, outcome: Outcome)

  function ReadRecords(bs: seq<byte>, at: nat, count: nat): Scan {
    if count == 0 then Scan([], at, Complete)
    else
      var s := ReadRecords(bs, at, count - 1);
      if s.outcome != Complete then s else More(s, Decode(bs, s.at))
  }

  function More(s: Scan, r: Read): Scan {
    match r
    case Got(record, next) => Scan(s.records + [record], next, Complete)
    case Rejected => s.(outcome := Failed)
    case Fault => s.(outcome := Crashed)
  }

  /** The records a file delivers, and how reading it ends. */
  function ReadFile(bs: seq<byte>): Scan {
    if |bs| < 16 then Scan([], 0, Crashed)
    else if bs[..4] != MAGIC || Be16(bs[4..6]) != 1 then Scan([], 16, Failed)
    else
      var s := ReadRecords(bs, 16, Be32(bs[12..16]));
      if s.outcome != Complete then s
      else if s.at + 2 > |bs| then s.(outcome := Crashed)
      else if bs[s.at] != 0 || bs[s.at + 1] != 0 then s.(outcome := Failed)
      else s
  }

  // ---------------------------------------------------------------- round trip

  /** `part` stands in `bs` at offset `at`. */
  predicate Stands(part: seq<byte>, bs: seq<byte>, at: nat) {
    at + |part| <= |bs| && bs[at..at + |part|] == part
  }

  lemma StandsBoth(a: seq<byte>, b: seq<byte>, bs: seq<byte>, at: nat)
    requires Stands(a + b, bs, at)
    ensures Stands(a, bs, at) && Stands(b, bs, at + |a|)
  {
    assert (a + b)[..|a|] == a && (a + b)[|a|..] == b;
    assert bs[at..at + |a + b|][..|a|] == bs[at..at + |a|];
    assert bs[at..at + |a + b|][|a|..] == bs[at + |a|..at + |a + b|];
  }

  lemma StandingRecord(r: Record, bs: seq<byte>, at: nat)
    requires Writable(r) && Stands(Encode(r), bs, at)
    ensures Storable(r) ==> Decode(bs, at) == Got(r, at + |Encode(r)|)
    ensures Decode(bs, at).Got? && Decode(bs, at).record == r ==> Storable(r)
  {
    hide Writable, Encode, Storable, Decode;
    var pre, post := bs[..at], bs[at + |Encode(r)|..];
    assert bs == pre + Encode(r) + post;
    RecordSurvivesIff(pre, r, post, bs);
  }

  lemma Parts(rs: seq<Record>)
    requires rs != [] && AllWritable(rs)
    ensures AllWritable(Front(rs)) && Writable(Last(rs))
    ensures AllStorable(rs) <==> AllStorable(Front(rs)) && Storable(Last(rs))
    ensures RecordBytes(rs) == RecordBytes(Front(rs)) + Encode(Last(rs))
  {
    hide Writable, Storable, Encode;
    if AllStorable(Front(rs)) && Storable(Last(rs)) {
      assert forall i | 0 <= i < |rs| - 1 :: rs[i] == Front(rs)[i];
    }
  }

  lemma NoParts()
    ensures AllStorable([]) && RecordBytes([]) == []
  {
  }

  lemma {:induction false} RecordsSurvive(rs: seq<Record>, bs: seq<byte>, at: nat)
    requires AllWritable(rs) && AllStorable(rs)
    requires Stands(RecordBytes(rs), bs, at)
    ensures ReadRecords(bs, at, |rs|) == Scan(rs, at + |RecordBytes(rs)|, Complete)
  {
    hide Writable, Storable, AllWritable, AllStorable, RecordBytes, Encode, Decode, Stands;
    if rs == [] {
      NoParts();
    } else {
      Parts(rs);
      FrontLast(rs);
      var before := RecordBytes(Front(rs));
      StandsBoth(before, Encode(Last(rs)), bs, at);
      RecordsSurvive(Front(rs), bs, at);
      StandingRecord(Last(rs), bs, at + |before|);
    }
  }

  lemma {:induction false} OnlyStorableSurvive(rs: seq<Record>, bs: seq<byte>, at: nat)
    requires AllWritable(rs)
    requires Stands(RecordBytes(rs), bs, at)
    requires ReadRecords(bs, at, |rs|).outcome.Complete? && ReadRecords(bs, at, |rs|).records == rs
    ensures AllStorable(rs)
  {
    hide Writable, Storable, AllWritable, AllStorable, RecordBytes, Encode, Decode, Stands;
    if rs == [] {
      NoParts();
    } else {
      Parts(rs);
      FrontLast(rs);
      var before := RecordBytes(Front(rs));
      var s := ReadRecords(bs, at, |rs| - 1);
      assert Front(s.records + [Decode(bs, s.at).record]) == s.records;
      StandsBoth(before, Encode(Last(rs)), bs, at);
      OnlyStorableSurvive(Front(rs), bs, at);
      RecordsSurvive(Front(rs), bs, at);
      StandingRecord(Last(rs), bs, at + |before|);
    }
  }

  lemma {:induction false} CountIsRead(bs: seq<byte>, at: nat, count: nat)
    ensures |ReadRecords(bs, at, count).records| <= count
  {
    hide Decode;
    if count > 0 {
      CountIsRead(bs, at, count - 1);
    }
  }

  lemma HeaderReads(timestamp: u32, count: nat, rest: seq<byte>, bs: seq<byte>)
    requires bs == Header(timestamp, count) + rest
    ensures bs[..4] == MAGIC && Be16(bs[4..6]) == 1 && Be32(bs[12..16]) == count % TWO32
  {
    hide Be, Be16, Be32;
    assert bs[4..6] == Be(1, 2) && bs[12..16] == Be(count % TWO32, 4);
    Be16OfBe(1);
    Be32OfBe(count % TWO32);
  }

  /** A saved file, with anything after its trailer, gives its records back exactly when each is storable. */
  lemma FileSurvivesIff(timestamp: u32, rs: seq<Record>, slack: seq<byte>)
    requires AllWritable(rs)
    ensures var s := ReadFile(FileBytes(timestamp, rs) + slack);
      s.outcome.Complete? && s.records == rs <==> |rs| < TWO32 && AllStorable(rs)
  {
    hide Header, RecordBytes, ReadRecords, Writable, Storable, Be16, Be32;
    var bs := FileBytes(timestamp, rs) + slack;
    var header, body, post := Header(timestamp, |rs|), RecordBytes(rs), [0, 0] + slack;
    assert bs == header + (body + post);
    HeaderReads(timestamp, |rs|, body + post, bs);
    assert Stands(body, bs, 16);
    var s := ReadRecords(bs, 16, |rs| % TWO32);
    CountIsRead(bs, 16, |rs| % TWO32);
    if |rs| >= TWO32 {
      assert |rs| % TWO32 < |rs|;
    } else if AllStorable(rs) {
      RecordsSurvive(rs, bs, 16);
      assert bs[s.at] == 0 && bs[s.at + 1] == 0;
    } else if s.outcome.Complete? && s.records == rs {
      OnlyStorableSurvive(rs, bs, 16);
    }
  }

  /** A state without a summary or an event without an extra ends the reading; the records before it are delivered. */
  lemma EmptyTextStops(timestamp: u32, rs: seq<Record>, bad: Record, rest: seq<Record>, slack: seq<byte>)
    requires AllWritable(rs + [bad] + rest) && |rs + [bad] + rest| < TWO32
    requires AllWritable(rs) && AllStorable(rs)
    requires TwoStrings(Type(bad.body)) && bad.text == [] && Length(bad) < 0x1_0000
    ensures var s := ReadFile(FileBytes(timestamp, rs + [bad] + rest) + slack); s.records == rs && s.outcome == Failed
  {
    hide Header, RecordBytes, ReadRecords, Encode, Writable, AllWritable, AllStorable, Be16, Be32, Type, Length;
    var all, tail := rs + [bad] + rest, [bad] + rest;
    assert all == rs + tail;
    RecordBytesConcat(rs, tail);
    FirstRecord(bad, rest);
    var bs, slack' := FileBytes(timestamp, all) + slack, [0, 0] + slack;
    assert bs == Header(timestamp, |all|) + (RecordBytes(all) + slack');
    HeaderReads(timestamp, |all|, RecordBytes(all) + slack', bs);
    assert Stands(RecordBytes(all), bs, 16);
    StopsAt(bs, rs, bad, RecordBytes(rest), |all|);
  }

  lemma StopsAt(bs: seq<byte>, rs: seq<Record>, bad: Record, tail: seq<byte>, count: nat)
    requires AllWritable(rs) && AllStorable(rs) && Writable(bad) && |rs| < count
    requires TwoStrings(Type(bad.body)) && bad.text == [] && Length(bad) < 0x1_0000
    requires Stands(RecordBytes(rs) + (Encode(bad) + tail), bs, 16)
    ensures ReadRecords(bs, 16, count) == Scan(rs, 16 + |RecordBytes(rs)|, Failed)
  {
    hide RecordBytes, ReadRecords, Encode, Writable, AllWritable, AllStorable, Storable, Decode, Type, Length;
    var before := RecordBytes(rs);
    var at := 16 + |before|;
    StandsBoth(before, Encode(bad) + tail, bs, 16);
    StandsBoth(Encode(bad), tail, bs, at);
    RecordsSurvive(rs, bs, 16);
    assert bs == bs[..at] + Encode(bad) + bs[at + |Encode(bad)|..];
    ShortDecodes(bs[..at], bad, bs[at + |Encode(bad)|..], bs);
    OneMoreRead(bs, |rs|);
    Stuck(bs, 16, |rs| + 1, count);
  }

  lemma OneMoreRead(bs: seq<byte>, n: nat)
    ensures var s := ReadRecords(bs, 16, n);
            s.outcome.Complete? ==> ReadRecords(bs, 16, n + 1) == More(s, Decode(bs, s.at))
  {
    hide Decode;
  }

  lemma Joined(a: seq<byte>, b: seq<byte>, c: seq<byte>)
    ensures (a + b) + c == a + (b + c)
  {
  }

  lemma BothWritable(a: seq<Record>, b: seq<Record>)
    requires AllWritable(a + b)
    ensures AllWritable(a) && AllWritable(b)
  {
    hide Writable;
    assert forall i | 0 <= i < |a| :: (a + b)[i] == a[i];
    forall i | 0 <= i < |b| ensures Writable(b[i]) {
      assert (a + b)[|a| + i] == b[i];
    }
  }

  lemma {:induction false} RecordBytesConcat(a: seq<Record>, b: seq<Record>)
    requires AllWritable(a + b)
    ensures AllWritable(a) && AllWritable(b) && RecordBytes(a + b) == RecordBytes(a) + RecordBytes(b)
  {
    hide Writable, AllWritable, AllStorable, Storable, RecordBytes, Encode;
    BothWritable(a, b);
    if b == [] {
      assert a + b == a;
      NoParts();
    } else {
      var before, last := Front(b), Last(b);
      assert Front(a + b) == a + before && Last(a + b) == last;
      Parts(a + b);
      Parts(b);
      RecordBytesConcat(a, before);
      Joined(RecordBytes(a), RecordBytes(before), Encode(last));
    }
  }

  lemma FirstRecord(r: Record, rest: seq<Record>)
    requires AllWritable([r] + rest)
    ensures Writable(r) && AllWritable(rest) && RecordBytes([r] + rest) == Encode(r) + RecordBytes(rest)
  {
    hide AllWritable, RecordBytes, Encode;
    RecordBytesConcat([r], rest);
    Parts([r]);
    NoParts();
    assert Front([r]) == [] && [] + Encode(r) == Encode(r);
  }

  /**
   A file that is read to the end starts with "BOLO" and version 1, delivers as many records as its header says,
   and has two zero bytes after them; one with another magic or version delivers none.
   */
  lemma CompleteMeans(bs: seq<byte>)
    ensures var s := ReadFile(bs);
      && (s.outcome.Complete? ==>
            && 16 <= s.at && s.at + 2 <= |bs| && bs[..4] == [66, 79, 76, 79] && FromBe(bs[4..6]) == 1
            && |s.records| == FromBe(bs[12..16]) && bs[s.at..s.at + 2] == [0, 0])
      && (|bs| < 16 || bs[..4] != [66, 79, 76, 79] || FromBe(bs[4..6]) != 1 ==>
            !s.outcome.Complete? && s.records == [])
  {
    hide ReadRecords, FromBe;
    if |bs| >= 16 {
      CountWhenComplete(bs, 16, Be32(bs[12..16]));
    }
  }

  lemma {:induction false} CountWhenComplete(bs: seq<byte>, at: nat, count: nat)
    ensures var s := ReadRecords(bs, at, count); s.outcome.Complete? ==> |s.records| == count && at <= s.at
  {
    hide Decode;
    if count > 0 {
      CountWhenComplete(bs, at, count - 1);
      var s := ReadRecords(bs, at, count - 1);
      NextIsLater(bs, s.at);
    }
  }

  lemma NextIsLater(bs: seq<byte>, at: nat)
    ensures Decode(bs, at).Got? ==> at < Decode(bs, at).next <= |bs|
  {
  }

  // ---------------------------------------------------------------- writing

  function Overwrite(bs: seq<byte>, at: nat, part: seq<byte>): (r: seq<byte>)
    requires at + |part| <= |bs|
    ensures |r| == |bs|
  {
    bs[..at] + part + bs[at + |part|..]
  }

  lemma OverwriteBoth(bs: seq<byte>, at: nat, a: seq<byte>, b: seq<byte>)
    requires at + |a| + |b| <= |bs|
    ensures Overwrite(Overwrite(bs, at, a), at + |a|, b) == Overwrite(bs, at, a + b)
  {
  }

  /** `memcpy`: only the bytes at `at` change. */
  method Copy(addr: array<byte>, at: nat, part: seq<byte>) returns (next: nat)
    requires at + |part| <= addr.Length
    modifies addr
    ensures next == at + |part|
    ensures addr[..] == Overwrite(old(addr[..]), at, part)
  {
    for i := 0 to |part|
      invariant forall k | 0 <= k < i :: addr[at + k] == part[k]
      invariant forall k | 0 <= k < addr.Length && !(at <= k < at + i) :: addr[k] == old(addr[k])
    {
      addr[at + i] := part[i];
    }
    next := at + |part|;
  }

  method WriteRecord(addr: array<byte>, at: nat, r: Record) returns (next: nat)
    requires Writable(r) && at + |Encode(r)| <= addr.Length
    modifies addr
    ensures next == at + |Encode(r)|
    ensures addr[..] == Overwrite(old(addr[..]), at, Encode(r))
  {
    hide Be, BodyBytes, Defined, Overwrite;
    var was := addr[..];
    var header, body := Be(Length(r) % 0x1_0000, 2) + Be(Type(r.body), 2), BodyBytes(r.body);
    next := Copy(addr, at, header);
    next := Copy(addr, next, body);
    OverwriteBoth(was, at, header, body);
    next := Copy(addr, next, r.name + [0]);
    OverwriteBoth(was, at, header + body, r.name + [0]);
    if TwoStrings(Type(r.body)) {
      next := Copy(addr, next, r.text + [0]);
      OverwriteBoth(was, at, header + body + (r.name + [0]), r.text + [0]);
      assert header + body + (r.name + [0]) + (r.text + [0]) == Encode(r);
    } else {
      assert header + body + (r.name + [0]) == Encode(r);
    }
  }

  /** Writes the records in the order the tables and the event list are walked. */
  method Save(addr: array<byte>, timestamp: u32, rs: seq<Record>) returns (next: nat)
    requires AllWritable(rs) && |FileBytes(timestamp, rs)| <= addr.Length
    modifies addr
    ensures next == |FileBytes(timestamp, rs)|
    ensures addr[..] == Overwrite(old(addr[..]), 0, FileBytes(timestamp, rs))
  {
    hide Encode, Writable, AllWritable, RecordBytes, Overwrite, Header;
    var was := addr[..];
    var header := Header(timestamp, |rs|);
    next := Copy(addr, 0, header);
    ghost var written := header;
    NothingYet(header, rs);
    for i := 0 to |rs|
      invariant AllWritable(rs[..i]) && written == header + RecordBytes(rs[..i])
      invariant next == |written| <= |FileBytes(timestamp, rs)| - 2
      invariant addr[..] == Overwrite(was, 0, written)
    {
      OneMore(header, rs, i);
      next := WriteRecord(addr, next, rs[i]);
      OverwriteBoth(was, 0, written, Encode(rs[i]));
      written := written + Encode(rs[i]);
    }
    assert rs[..|rs|] == rs;
    next := Copy(addr, next, [0, 0]);
    OverwriteBoth(was, 0, written, [0, 0]);
  }

  lemma NothingYet(header: seq<byte>, rs: seq<Record>)
    ensures AllWritable(rs[..0]) && header + RecordBytes(rs[..0]) == header
  {
  }

  lemma OneMore(header: seq<byte>, rs: seq<Record>, i: nat)
    requires i < |rs| && AllWritable(rs)
    ensures AllWritable(rs[..i]) && AllWritable(rs[..i + 1]) && Writable(rs[i])
    ensures header + RecordBytes(rs[..i]) + Encode(rs[i]) == header + RecordBytes(rs[..i + 1])
    ensures |RecordBytes(rs[..i])| + |Encode(rs[i])| <= |RecordBytes(rs)|
  {
    hide Encode, Writable, RecordBytes;
    Prefix(rs, i);
  }

  lemma Prefix(rs: seq<Record>, i: nat)
    requires i < |rs| && AllWritable(rs)
    ensures AllWritable(rs[..i]) && AllWritable(rs[..i + 1])
    ensures RecordBytes(rs[..i + 1]) == RecordBytes(rs[..i]) + Encode(rs[i])
    ensures |RecordBytes(rs[..i + 1])| <= |RecordBytes(rs)|
  {
    hide Encode, Writable;
    assert Front(rs[..i + 1]) == rs[..i];
    PrefixShorter(rs, i + 1);
  }

  lemma {:induction false} PrefixShorter(rs: seq<Record>, i: nat)
    requires i <= |rs| && AllWritable(rs) && AllWritable(rs[..i])
    ensures |RecordBytes(rs[..i])| <= |RecordBytes(rs)|
  {
    hide Encode, Writable;
    if i < |rs| {
      assert Front(rs)[..i] == rs[..i];
      PrefixShorter(Front(rs), i);
    } else {
      assert rs[..i] == rs;
    }
  }

  // ---------------------------------------------------------------- reading

  method FindNul(buf: seq<byte>) returns (z: nat)
    ensures z == NulAt(buf)
  {
    z := 0;
    while z < |buf| && buf[z] != 0
      invariant z <= |buf| && NulAt(buf) == z + NulAt(buf[z..])
    {
      assert buf[z..][1..] == buf[z + 1..];
      z := z + 1;
    }
  }

  method ReadTexts(t: nat, buf: seq<byte>) returns (s: Texts)
    ensures s == TextsFrom(t, buf)
  {
    var z := FindNul(buf);
    if t != 2 && t != 3 && z + 2 == |buf| {
      return Refused;
    }
    if t == 2 || t == 3 || t == 5 {
      return Texts(buf[..z], []);
    }
    if z == |buf| {
      return Overrun;
    }
    var y := FindNul(buf[z + 1..]);
    return Texts(buf[..z], buf[z + 1..][..y]);
  }

  method ReadRecord(addr: array<byte>, at: nat) returns (r: Read)
    ensures r == Decode(addr[..], at)
  {
    hide Be16, BodyFrom, TextsFrom, Size;
    if at + 4 > addr.Length {
      return Fault;
    }
    var bs := addr[..];
    assert bs[at..at + 2] == addr[at..at + 2] && bs[at + 2..at + 4] == addr[at + 2..at + 4];
    var len, t := Be16(addr[at..at + 2]), Be16(addr[at + 2..at + 4]) % 16;
    if t < 1 || t > 5 {
      return Rejected;
    }
    var start := at + 4 + Size(t);
    if len < 4 + Size(t) || at + len > addr.Length {
      return Fault;
    }
    assert bs[at + 4..start] == addr[at + 4..start] && bs[start..at + len] == addr[start..at + len];
    var body := BodyFrom(t, addr[at + 4..start]);
    if body.None? {
      return Fault;
    }
    var texts := ReadTexts(t, addr[start..at + len]);
    match texts {
      case Texts(name, text) => return Got(Record(body.value, name, text), at + len);
      case Refused => return Rejected;
      case Overrun => return Fault;
    }
  }

  // ---------------------------------------------------------------- restoring the database

  /** Where an entry is kept: which table, and under which name. */
  datatype Key = Key(table: nat, name: seq<byte>)

  function KeyOf(r: Record): Key {
    Key(Type(r.body), r.name)
  }

  /** Two records are about the same entry exactly when they are of one kind and one name. */
  lemma KeysApart(r: Record, q: Record)
    ensures KeyOf(r) == KeyOf(q) <==> Type(r.body) == Type(q.body) && r.name == q.name
  {
  }

  datatype Database = Database(entries: map<Key, Record>, events: seq<Record>)

  /**
   One record applied: an event is appended; an entry replaces the one it names, or is added if a
   regex rule of the configuration matches its name (`ruled`), and is skipped otherwise.
   */
  function Restored(ruled: Key -> bool, db: Database, r: Record): Database {
    if r.body.Event? then db.(events := db.events + [r])
    else if KeyOf(r) in db.entries || ruled(KeyOf(r)) then db.(entries := db.entries[KeyOf(r) := r])
    else db
  }

  function RestoredAll(ruled: Key -> bool, db: Database, rs: seq<Record>): Database {
    if rs == [] then db else Restored(ruled, RestoredAll(ruled, db, Front(rs)), Last(rs))
  }

  class Store {
    const ruled: Key -> bool
    var entries: map<Key, Record>
    var events: seq<Record>

    constructor (ruled: Key -> bool, entries: map<Key, Record>)
      ensures this.ruled == ruled && this.entries == entries && events == []
    {
      this.ruled := ruled;
      this.entries := entries;
      events := [];
    }

    function Contents(): Database
      reads this
    {
      Database(entries, events)
    }

    method Restore(r: Record)
      modifies this
      ensures Contents() == Restored(ruled, old(Contents()), r)
    {
      if r.body.Event? {
        events := events + [r];
      } else if KeyOf(r) in entries || ruled(KeyOf(r)) {
        entries := entries[KeyOf(r) := r];
      }
    }

    /** Applies each record as it is read; a failure keeps those read before it. */
    method LoadRecords(addr: array<byte>, count: nat) returns (outcome: Outcome, at: nat)
      modifies this
      ensures var s := ReadRecords(addr[..], 16, count); && outcome == s.outcome && (outcome == Complete ==> at == s.at)
      ensures Contents() == RestoredAll(ruled, old(Contents()), ReadRecords(addr[..], 16, count).records)
    {
      hide Decode, Restored, RestoredAll;
      ghost var bs := addr[..];
      ghost var seen := ReadRecords(bs, 16, 0);
      RestoredNone(ruled, Contents());
      var i := 0;
      outcome, at := Complete, 16;
      while i < count && outcome == Complete
        invariant i <= count && seen == ReadRecords(bs, 16, i)
        invariant outcome == seen.outcome && (outcome == Complete ==> at == seen.at)
        invariant Contents() == RestoredAll(ruled, old(Contents()), seen.records)
        decreases count - i
      {
        var r := ReadRecord(addr, at);
        match r {
          case Got(record, next) =>
            Restore(record);
            RestoredMore(ruled, old(Contents()), seen.records, record);
            at := next;
          case Rejected =>
            outcome := Failed;
          case Fault =>
            outcome := Crashed;
        }
        seen := More(seen, r);
        i := i + 1;
      }
      Stuck(bs, 16, i, count);
    }

    method Load(addr: array<byte>) returns (outcome: Outcome)
      modifies this
      ensures outcome == ReadFile(addr[..]).outcome
      ensures Contents() == RestoredAll(ruled, old(Contents()), ReadFile(addr[..]).records)
    {
      hide ReadRecords, Be16, Be32, Restored, RestoredAll;
      RestoredNone(ruled, Contents());
      if addr.Length < 16 {
        return Crashed;
      }
      ghost var bs := addr[..];
      assert bs[..4] == addr[..4] && bs[4..6] == addr[4..6] && bs[12..16] == addr[12..16];
      if addr[..4] != MAGIC || Be16(addr[4..6]) != 1 {
        return Failed;
      }
      var at;
      outcome, at := LoadRecords(addr, Be32(addr[12..16]));
      if outcome == Complete {
        if at + 2 > addr.Length {
          outcome := Crashed;
        } else if addr[at] != 0 || addr[at + 1] != 0 {
          outcome := Failed;
        }
      }
    }
  }

  lemma RestoredNone(ruled: Key -> bool, db: Database)
    ensures RestoredAll(ruled, db, []) == db
  {
  }

  lemma RestoredMore(ruled: Key -> bool, db: Database, rs: seq<Record>, r: Record)
    ensures RestoredAll(ruled, db, rs + [r]) == Restored(ruled, RestoredAll(ruled, db, rs), r)
  {
    hide Restored;
    assert Front(rs + [r]) == rs;
  }

  lemma {:induction false} Stuck(bs: seq<byte>, at: nat, i: nat, count: nat)
    requires i <= count && (i < count ==> ReadRecords(bs, at, i).outcome != Complete)
    ensures ReadRecords(bs, at, count) == ReadRecords(bs, at, i)
  {
    hide Decode;
    if i < count {
      Stuck(bs, at, i, count - 1);
    }
  }

  // ---------------------------------------------------------------- restart

  function EventsIn(rs: seq<Record>): seq<Record> {
    if rs == [] then []
    else if Last(rs).body.Event? then EventsIn(Front(rs)) + [Last(rs)]
    else EventsIn(Front(rs))
  }

  predicate Mentions(rs: seq<Record>, k: Key) {
    rs != [] && (Mentions(Front(rs), k) || (!Last(rs).body.Event? && KeyOf(Last(rs)) == k))
  }

  /** Every entry among the records is the database's entry of that name. */
  ghost predicate Agrees(rs: seq<Record>, db: Database) {
    forall r <- rs :: !r.body.Event? ==> KeyOf(r) in db.entries && db.entries[KeyOf(r)] == r
  }

  /** The records are a walk of the database: all its entries, in any order, and its events in theirs. */
  ghost predicate Walks(rs: seq<Record>, db: Database) {
    && Agrees(rs, db)
    && EventsIn(rs) == db.events
    && forall k <- db.entries :: Mentions(rs, k)
  }

  /** The configured entries, with the saved values where there are any, and the saved entries a rule matches. */
  ghost function Merged(ruled: Key -> bool, start: map<Key, Record>, saved: map<Key, Record>): map<Key, Record> {
    map k | k in start.Keys + saved.Keys && (k in start || ruled(k)) :: if k in saved then saved[k] else start[k]
  }

  lemma {:induction false} RestoredAt(ruled: Key -> bool, start: Database, rs: seq<Record>, db: Database, k: Key)
    requires Agrees(rs, db)
    ensures Mentions(rs, k) ==> k in db.entries
    ensures var r := RestoredAll(ruled, start, rs);
      && r.events == start.events + EventsIn(rs)
      && (k in r.entries <==> k in start.entries || (Mentions(rs, k) && ruled(k)))
      && (k in r.entries ==> r.entries[k] == if Mentions(rs, k) then db.entries[k] else start.entries[k])
  {
    hide Type;
    if rs == [] {
    } else {
      assert Last(rs) in rs;
      assert forall r <- Front(rs) :: r in rs;
      RestoredAt(ruled, start, Front(rs), db, k);
    }
  }

  /**
   Entries the new configuration names or has a rule for get their saved values, the others keep theirs; no
   event is lost.
   */
  lemma RestartRestores(ruled: Key -> bool, timestamp: u32, rs: seq<Record>, slack: seq<byte>, db: Database,
                        start: Database)
    requires |rs| < TWO32 && AllWritable(rs) && AllStorable(rs) && Walks(rs, db)
    ensures RestoredAll(ruled, start, ReadFile(FileBytes(timestamp, rs) + slack).records) ==
            Database(Merged(ruled, start.entries, db.entries), start.events + db.events)
  {
    hide FileBytes, ReadFile, RestoredAll, Agrees, AllWritable, AllStorable;
    FileSurvivesIff(timestamp, rs, slack);
    var r := RestoredAll(ruled, start, rs);
    var expected := Merged(ruled, start.entries, db.entries);
    forall k
      ensures r.events == start.events + db.events
      ensures k in r.entries <==> k in expected
      ensures k in r.entries ==> r.entries[k] == expected[k]
    {
      RestoredAt(ruled, start, rs, db, k);
    }
    assert r.entries == expected;
    RestoredAt(ruled, start, rs, db, Key(0, []));
  }
}
