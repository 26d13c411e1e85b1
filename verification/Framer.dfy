/**
 The dbolo line framer: `s_sink` collects what a child process writes in a fixed buffer and hands
 complete lines on, however the pipe happens to chunk the bytes.
 */
module Framers {
  import opened Basics

  type byte = u8

  const NEWLINE: byte := 10
  const NUL: byte := 0
  const CAPACITY: nat := 8192

  // ---------------------------------------------------------------- lines

  /** The first newline, or the length if there is none before a NUL, where `strchr` stops. */
  function NewlineAt(s: seq<byte>): (i: nat)
    ensures i <= |s|
  {
    if s == [] || s[0] == NEWLINE then 0 else if s[0] == NUL then |s| else 1 + NewlineAt(s[1..])
  }

  lemma {:induction false} NewlineFound(s: seq<byte>)
    ensures var i := NewlineAt(s);
            i < |s| ==> s[i] == NEWLINE && forall k | 0 <= k < i :: s[k] != NEWLINE && s[k] != NUL
  {
    if s == [] || s[0] == NEWLINE || s[0] == NUL {
    } else {
      NewlineFound(s[1..]);
      assert forall k | 0 < k < |s| :: s[k] == s[1..][k - 1];
    }
  }

  /** A newline with neither a newline nor a NUL before it is the one found. */
  lemma {:induction false} NewlineIs(s: seq<byte>, i: nat)
    requires i < |s| && s[i] == NEWLINE && forall k | 0 <= k < i :: s[k] != NEWLINE && s[k] != NUL
    ensures NewlineAt(s) == i
  {
    if i == 0 {
    } else {
      assert forall k | 0 <= k < i - 1 :: s[1..][k] == s[k + 1];
      NewlineIs(s[1..], i - 1);
    }
  }

  /** None is found if the first of either is a NUL, or there is neither. */
  lemma NewlineIsNot(s: seq<byte>, z: nat)
    requires z <= |s| && (z < |s| ==> s[z] == NUL) && forall k | 0 <= k < z :: s[k] != NEWLINE && s[k] != NUL
    ensures NewlineAt(s) == |s|
  {
    hide NewlineAt;
    NewlineFound(s);
  }

  /** The complete lines that can be seen in a byte string. */
  function Lines(s: seq<byte>): seq<seq<byte>>
    decreases |s|
  {
    var i := NewlineAt(s);
    if i == |s| then [] else [s[..i]] + Lines(s[i + 1..])
  }

  /** What follows the last newline that can be seen. */
  function Tail(s: seq<byte>): seq<byte>
    decreases |s|
  {
    var i := NewlineAt(s);
    if i == |s| then s else Tail(s[i + 1..])
  }

  lemma TailHasNoNewline(s: seq<byte>)
    ensures NewlineAt(Tail(s)) == |Tail(s)| && |Tail(s)| <= |s|
    decreases |s|
  {
    var i := NewlineAt(s);
    if i < |s| {
      TailHasNoNewline(s[i + 1..]);
    }
  }

  lemma FirstLine(s: seq<byte>)
    ensures var i := NewlineAt(s);
            i < |s| ==> Lines(s) == [s[..i]] + Lines(s[i + 1..]) && Tail(s) == Tail(s[i + 1..])
  {
    hide Lines, Tail;
    LinesUnfold(s);
    TailUnfolds(s);
  }

  lemma LinesUnfold(s: seq<byte>)
    ensures var i := NewlineAt(s); i < |s| ==> Lines(s) == [s[..i]] + Lines(s[i + 1..])
  {
    hide NewlineAt;
  }

  lemma TailUnfolds(s: seq<byte>)
    ensures var i := NewlineAt(s); i < |s| ==> Tail(s) == Tail(s[i + 1..])
  {
    hide NewlineAt;
  }

  lemma NoLines(s: seq<byte>)
    requires NewlineAt(s) == |s|
    ensures Lines(s) == [] && Tail(s) == s
  {
  }

  /** Splitting bytes in two does not change the lines: the unfinished tail of the first part carries over. */
  lemma {:induction false} LinesConcat(a: seq<byte>, b: seq<byte>)
    ensures Lines(a + b) == Lines(a) + Lines(Tail(a) + b)
    ensures Tail(a + b) == Tail(Tail(a) + b)
    decreases |a|
  {
    hide NewlineAt, Lines, Tail;
    var i := NewlineAt(a);
    NewlineFound(a);
    if i == |a| {
      NoLines(a);
      assert [] + Lines(a + b) == Lines(a + b);
    } else {
      FirstLine(a);
      FirstLine(a + b);
      assert forall k | 0 <= k < i :: (a + b)[k] == a[k];
      NewlineIs(a + b, i);
      LinesConcat(a[i + 1..], b);
      assert (a + b)[i + 1..] == a[i + 1..] + b && (a + b)[..i] == a[..i];
      assert [a[..i]] + (Lines(a[i + 1..]) + Lines(Tail(a) + b)) == Lines(a) + Lines(Tail(a) + b);
    }
  }

  /** The first newline, whatever is before it, or the length. */
  function BreakAt(s: seq<byte>): (i: nat)
    ensures i <= |s| && (i < |s| ==> s[i] == NEWLINE)
    ensures forall k | 0 <= k < i :: s[k] != NEWLINE
  {
    if s == [] || s[0] == NEWLINE then 0 else 1 + BreakAt(s[1..])
  }

  /** The complete lines of a byte string, NULs and all. */
  function AllLines(s: seq<byte>): seq<seq<byte>>
    decreases |s|
  {
    var i := BreakAt(s);
    if i == |s| then [] else [s[..i]] + AllLines(s[i + 1..])
  }

  ghost predicate NulFree(lines: seq<seq<byte>>) {
    forall i | 0 <= i < |lines| :: NUL !in lines[i]
  }

  /** All complete lines are seen if and only if none of them contains a NUL. */
  lemma {:induction false} AllSeenIffNulFree(s: seq<byte>)
    ensures Lines(s) == AllLines(s) <==> NulFree(AllLines(s))
    decreases |s|
  {
    hide NewlineAt, BreakAt, Lines;
    var i := BreakAt(s);
    if i == |s| {
      NoBreak(s);
      NoLines(s);
    } else if NUL in s[..i] {
      HiddenBreak(s);
      NoLines(s);
      assert AllLines(s)[0] == s[..i];
    } else {
      assert forall k | 0 <= k < i :: s[k] == s[..i][k];
      NewlineIs(s, i);
      FirstLine(s);
      AllSeenIffNulFree(s[i + 1..]);
      var rest := AllLines(s[i + 1..]);
      assert AllLines(s)[0] == s[..i] && AllLines(s)[1..] == rest && Lines(s)[1..] == Lines(s[i + 1..]);
      assert forall k | 0 <= k < |rest| :: AllLines(s)[k + 1] == rest[k];
    }
  }

  lemma NoBreak(s: seq<byte>)
    requires BreakAt(s) == |s|
    ensures NewlineAt(s) == |s|
  {
    hide NewlineAt, BreakAt;
    NewlineFound(s);
    assert forall k | 0 <= k < |s| :: s[k] != NEWLINE;
  }

  lemma HiddenBreak(s: seq<byte>)
    requires NUL in s[..BreakAt(s)]
    ensures NewlineAt(s) == |s|
  {
    hide NewlineAt, BreakAt;
    NewlineFound(s);
    var z :| 0 <= z < BreakAt(s) && s[z] == NUL;
  }

  // ---------------------------------------------------------------- reads

  /** How many bytes one `read` returns: what it was given, what fits, what is there. */
  function ReadCount(held: nat, available: nat, size: nat): (n: nat)
    requires held < CAPACITY
    ensures n <= available && held + n < CAPACITY
  {
    var room := CAPACITY - 1 - held;
    var n := if size < available then size else available;
    if n < room then n else room
  }

  /** Lines handed on, bytes held and bytes left in the pipe after a series of reads. */
  datatype Sunk = Sunk(lines: seq<seq<byte>>, held: seq<byte>, rest: seq<byte>)

  /** The reads of `s_sink`; a read that returns nothing ends it. */
  function SinkAll(held: seq<byte>, pipe: seq<byte>, sizes: seq<nat>): Sunk
    requires |held| < CAPACITY
    decreases |sizes|
  {
    if sizes == [] then Sunk([], held, pipe)
    else
      var n := ReadCount(|held|, |pipe|, sizes[0]);
      if n == 0 then Sunk([], held, pipe)
      else
        var got := held + pipe[..n];
        TailHasNoNewline(got);
        var more := SinkAll(Tail(got), pipe[n..], sizes[1..]);
        more.(lines := Lines(got) + more.lines)
  }

  /** Whether another read happens. */
  predicate Reads(held: seq<byte>, pipe: seq<byte>, sizes: seq<nat>)
    requires |held| < CAPACITY
  {
    sizes != [] && ReadCount(|held|, |pipe|, sizes[0]) > 0
  }

  lemma SinkStops(held: seq<byte>, pipe: seq<byte>, sizes: seq<nat>)
    requires |held| < CAPACITY && !Reads(held, pipe, sizes)
    ensures SinkAll(held, pipe, sizes) == Sunk([], held, pipe)
  {
  }

  lemma SinkReads(held: seq<byte>, pipe: seq<byte>, sizes: seq<nat>)
    requires |held| < CAPACITY && Reads(held, pipe, sizes)
    ensures var n := ReadCount(|held|, |pipe|, sizes[0]);
            var got := held + pipe[..n];
            && |Tail(got)| < CAPACITY && NewlineAt(Tail(got)) == |Tail(got)|
            && var more := SinkAll(Tail(got), pipe[n..], sizes[1..]);
               SinkAll(held, pipe, sizes) == more.(lines := Lines(got) + more.lines)
  {
    hide NewlineAt, Lines, Tail;
    TailHasNoNewline(held + pipe[..ReadCount(|held|, |pipe|, sizes[0])]);
  }

  /** What is taken in one read and then in others is taken in all. */
  lemma TakenInParts(held: seq<byte>, pipe: seq<byte>, n: nat, left: nat)
    requires n <= |pipe| && left <= |pipe| - n
    ensures pipe[n..][|pipe| - n - left..] == pipe[|pipe| - left..]
    ensures (held + pipe[..n]) + pipe[n..][..|pipe| - n - left] == held + pipe[..|pipe| - left]
  {
  }

  /**
   Chunking does not matter: whatever the sizes of the reads, the lines handed on are the complete
   lines of the bytes taken off the pipe, and the buffer holds the unfinished tail.
   */
  lemma {:induction false} ChunkingDoesNotMatter(held: seq<byte>, pipe: seq<byte>, sizes: seq<nat>)
    requires |held| < CAPACITY && NewlineAt(held) == |held|
    ensures var r := SinkAll(held, pipe, sizes);
            && |r.rest| <= |pipe| && r.rest == pipe[|pipe| - |r.rest|..]
            && var taken := held + pipe[..|pipe| - |r.rest|];
               r.lines == Lines(taken) && r.held == Tail(taken)
    decreases |sizes|
  {
    hide NewlineAt, Lines, Tail, SinkAll, ReadCount;
    if !Reads(held, pipe, sizes) {
      SinkStops(held, pipe, sizes);
      assert held + pipe[..0] == held && pipe[0..] == pipe;
      NoLines(held);
    } else {
      SinkReads(held, pipe, sizes);
      var n := ReadCount(|held|, |pipe|, sizes[0]);
      var got, rest := held + pipe[..n], pipe[n..];
      ChunkingDoesNotMatter(Tail(got), rest, sizes[1..]);
      var r := SinkAll(held, pipe, sizes);
      TakenInParts(held, pipe, n, |r.rest|);
      LinesConcat(got, rest[..|rest| - |r.rest|]);
    }
  }

  /** The lines handed on are exactly the complete lines of what was taken iff none of those contains a NUL. */
  lemma HandsOnAllIff(held: seq<byte>, pipe: seq<byte>, sizes: seq<nat>)
    requires |held| < CAPACITY && NewlineAt(held) == |held|
    ensures var r := SinkAll(held, pipe, sizes);
            && |r.rest| <= |pipe|
            && var all := AllLines(held + pipe[..|pipe| - |r.rest|]);
               r.lines == all <==> NulFree(all)
  {
    hide NewlineAt, Lines, AllLines, NulFree, SinkAll;
    ChunkingDoesNotMatter(held, pipe, sizes);
    AllSeenIffNulFree(held + pipe[..|pipe| - |SinkAll(held, pipe, sizes).rest|]);
  }

  // ---------------------------------------------------------------- when everything gets through

  /** No complete line is longer than the buffer can hold with its newline, and the tail fits. */
  ghost predicate Fits(s: seq<byte>) {
    (forall line | line in Lines(s) :: |line| < CAPACITY - 1) && |Tail(s)| < CAPACITY
  }

  lemma FitsConcat(a: seq<byte>, b: seq<byte>)
    requires |a| < CAPACITY
    ensures Fits(a + b) <==> Fits(Tail(a) + b)
  {
    hide Lines, Tail;
    LinesConcat(a, b);
    forall line | line in Lines(a) ensures |line| < CAPACITY - 1 {
      LinesAreShorter(a, line);
    }
    assert forall line :: line in Lines(a + b) <==> line in Lines(a) || line in Lines(Tail(a) + b);
  }

  lemma {:induction false} LinesAreShorter(s: seq<byte>, line: seq<byte>)
    requires line in Lines(s)
    ensures |line| < |s|
    decreases |s|
  {
    var i := NewlineAt(s);
    if line != s[..i] {
      LinesAreShorter(s[i + 1..], line);
    }
  }

  /** With no newline within its reach, a full buffer can never be emptied. */
  lemma FullDoesNotFit(held: seq<byte>, pipe: seq<byte>)
    requires |held| == CAPACITY - 1 && NewlineAt(held) == |held| && pipe != []
    ensures !Fits(held + pipe)
  {
    hide NewlineAt, Lines, Tail;
    var s := held + pipe;
    assert forall k | 0 <= k < |held| :: s[k] == held[k];
    var i := NewlineAt(s);
    NewlineFound(s);
    assert i >= |held| by {
      if i < |held| { NewlineIs(held, i); }
    }
    if i == |s| {
      NoLines(s);
    } else {
      FirstLine(s);
      assert s[..i] in Lines(s) && |s[..i]| == i;
    }
  }

  /**
   Given at least as many non-empty reads as there are bytes, the whole pipe is consumed if and only
   if no line is too long for the buffer; otherwise the framer wedges and never drains the pipe.
   */
  lemma {:induction false} DrainsIffFits(held: seq<byte>, pipe: seq<byte>, sizes: seq<nat>)
    requires |held| < CAPACITY && NewlineAt(held) == |held|
    requires |sizes| >= |pipe| && forall i | 0 <= i < |sizes| :: sizes[i] > 0
    ensures SinkAll(held, pipe, sizes).rest == [] <==> Fits(held + pipe)
    decreases |sizes|
  {
    hide NewlineAt, Lines, Tail, Fits, SinkAll;
    if pipe == [] {
      SinkStops(held, pipe, sizes);
      assert held + pipe == held;
      HeldFits(held);
    } else if !Reads(held, pipe, sizes) {
      SinkStops(held, pipe, sizes);
      FullDoesNotFit(held, pipe);
    } else {
      SinkReads(held, pipe, sizes);
      var n := ReadCount(|held|, |pipe|, sizes[0]);
      var got, rest := held + pipe[..n], pipe[n..];
      DrainsIffFits(Tail(got), rest, sizes[1..]);
      FitsConcat(got, rest);
      assert got + rest == held + pipe;
    }
  }

  lemma HeldFits(held: seq<byte>)
    requires |held| < CAPACITY && NewlineAt(held) == |held|
    ensures Fits(held)
  {
  }

  // ---------------------------------------------------------------- the buffer

  lemma Prefixes(was: seq<byte>, n: nat, nl: nat)
    requires nl <= n <= |was|
    ensures was[..n][..nl] == was[..nl]
  {
  }

  /** What a `memmove` to the front leaves of the first `n` bytes and the one after them. */
  lemma Shifted(was: seq<byte>, now: seq<byte>, n: nat, from: nat)
    requires from <= n < |was| == |now| && now[..|was| - from] == was[from..]
    ensures now[..n - from] == was[..n][from..] && now[n - from] == was[n]
  {
    assert now[n - from] == now[..|was| - from][n - from];
    forall k | 0 <= k < n - from ensures now[k] == was[from + k] {
      assert now[k] == now[..|was| - from][k];
    }
  }

  class Command {
    const buffer: array<byte>
    var nread: nat
    var sent: seq<seq<byte>>  // the lines handed to `bolo_stream_pdu`

    /** The buffer holds an unfinished line and its terminating NUL. */
    ghost predicate Valid()
      reads this, buffer
    {
      && buffer.Length == CAPACITY && nread < CAPACITY && buffer[nread] == NUL
      && NewlineAt(buffer[..nread]) == nread
    }

    constructor ()
      ensures Valid() && nread == 0 && sent == [] && fresh(buffer)
    {
      buffer := new byte[CAPACITY](_ => NUL);
      nread, sent := 0, [];
    }

    /** `strchr(buffer, '\n')`, which stops at the first NUL; `nread` if it finds nothing. */
    method FindNewline() returns (nl: nat)
      requires buffer.Length == CAPACITY && nread < CAPACITY && buffer[nread] == NUL
      ensures nl == NewlineAt(buffer[..nread])
    {
      hide NewlineAt;
      nl := 0;
      while buffer[nl] != NUL && buffer[nl] != NEWLINE
        invariant nl <= nread && forall k | 0 <= k < nl :: buffer[k] != NEWLINE && buffer[k] != NUL
        decreases nread - nl
      {
        nl := nl + 1;
      }
      ghost var held := buffer[..nread];
      assert forall k | 0 <= k < nread :: held[k] == buffer[k];
      if buffer[nl] == NEWLINE {
        assert nl < nread;
        NewlineIs(held, nl);
      } else {
        NewlineIsNot(held, nl);
        nl := nread;
      }
    }

    /** `memmove(buffer, buffer + from, CAPACITY - from)` */
    method Shift(from: nat)
      requires buffer.Length == CAPACITY && from <= CAPACITY
      modifies buffer
      ensures buffer[..CAPACITY - from] == old(buffer[from..])
    {
      for k := 0 to CAPACITY - from
        invariant buffer[..k] == old(buffer[from..from + k])
        invariant buffer[k..] == old(buffer[k..])
      {
        assert buffer[from + k] == old(buffer[from + k]) by { assert buffer[k..][from] == old(buffer[k..])[from]; }
        buffer[k] := buffer[from + k];
      }
      assert old(buffer[from..from + (CAPACITY - from)]) == old(buffer[from..]);
    }

    /** The inner loop: hands on every complete line in the buffer. */
    method Drain()
      requires buffer.Length == CAPACITY && nread < CAPACITY && buffer[nread] == NUL
      modifies this, buffer
      ensures Valid() && buffer[..nread] == Tail(old(buffer[..nread])) && sent
              == old(sent) + Lines(old(buffer[..nread]))
    {
      hide NewlineAt, Lines, Tail;
      ghost var all := buffer[..nread];
      while true
        invariant nread < CAPACITY && buffer[nread] == NUL
        invariant Tail(buffer[..nread]) == Tail(all) && sent + Lines(buffer[..nread]) == old(sent) + Lines(all)
        decreases nread
      {
        var nl := FindNewline();
        ghost var held := buffer[..nread];
        if nl == nread {
          NoLines(held);
          assert sent + [] == sent;
          break;
        }
        FirstLine(held);
        TakeLine(nl);
        assert (old(sent) + Lines(all)) == (sent + Lines(buffer[..nread]));
      }
    }

    /** Hands on the line that ends at `nl` and moves the rest of the buffer to its front. */
    method TakeLine(nl: nat)
      requires buffer.Length == CAPACITY && nl < nread < CAPACITY && buffer[nread] == NUL
      modifies this, buffer
      ensures nread == old(nread) - (nl + 1) && buffer[nread] == NUL
      ensures buffer[..nread] == old(buffer[..nread])[nl + 1..] && sent == old(sent) + [old(buffer[..nread])[..nl]]
    {
      ghost var was, n := buffer[..], nread;
      Prefixes(was, n, nl);
      sent := sent + [buffer[..nl]];
      Shift(nl + 1);
      nread := nread - (nl + 1);
      Shifted(was, buffer[..], n, nl + 1);
    }

    /** The bytes of one `read`, and the NUL after them. */
    method Fill(chunk: seq<byte>)
      requires buffer.Length == CAPACITY && nread + |chunk| < CAPACITY
      modifies this`nread, buffer
      ensures nread == old(nread) + |chunk| && buffer[..nread] == old(buffer[..nread]) + chunk && buffer[nread] == NUL
    {
      for k := 0 to |chunk|
        invariant nread == old(nread) && buffer[..nread + k] == old(buffer[..nread]) + chunk[..k]
      {
        buffer[nread + k] := chunk[k];
        assert chunk[..k + 1] == chunk[..k] + [chunk[k]];
      }
      assert chunk[..|chunk|] == chunk;
      nread := nread + |chunk|;
      buffer[nread] := NUL;
    }

    /** `s_sink`: reads until the pipe has nothing more to give. */
    method Sink(pipe: seq<byte>, sizes: seq<nat>) returns (rest: seq<byte>)
      requires Valid()
      modifies this, buffer
      ensures Valid()
      ensures var r := SinkAll(old(buffer[..nread]), pipe, sizes);
              rest == r.rest && buffer[..nread] == r.held && sent == old(sent) + r.lines
    {
      hide NewlineAt, Lines, Tail;
      ghost var all := SinkAll(buffer[..nread], pipe, sizes);
      rest := pipe;
      assert sizes[0..] == sizes;
      for i := 0 to |sizes|
        invariant Valid()
        invariant var r := SinkAll(buffer[..nread], rest, sizes[i..]);
                  all.rest == r.rest && all.held == r.held && old(sent) + all.lines == sent + r.lines
      {
        ghost var held, before := buffer[..nread], sent;
        ghost var r := SinkAll(held, rest, sizes[i..]);
        var n := ReadCount(nread, |rest|, sizes[i]);
        if n == 0 {
          break;
        }
        Fill(rest[..n]);
        ghost var got := held + rest[..n];
        Drain();
        rest := rest[n..];
        assert sizes[i..][1..] == sizes[i + 1..];
        ghost var r' := SinkAll(buffer[..nread], rest, sizes[i + 1..]);
        assert r == r'.(lines := Lines(got) + r'.lines);
        assert before + (Lines(got) + r'.lines) == (before + Lines(got)) + r'.lines;
      }
      assert sent + [] == sent;
    }
  }
}
