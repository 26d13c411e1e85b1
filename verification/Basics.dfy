/** Types shared by the models: C integer widths, options, and the PDUs the kernel broadcasts. */
module Basics {

  datatype Option<+T> = None | Some(value: T)

  type u8 = n: nat | n < 0x100
  type u16 = n: nat | n < 0x1_0000
  type u32 = n: nat | n < 0x1_0000_0000
  type i32 = n: int | -0x8000_0000 <= n < 0x8000_0000
  type u64 = n: nat | n < 0x1_0000_0000_0000_0000

  const TWO32: int := 0x1_0000_0000
  const TWO64: int := 0x1_0000_0000_0000_0000

  /** The int32_t a uint32_t is stored in. */
  function ToI32(n: u32): i32 {
    if n < 0x8000_0000 then n else n - TWO32
  }

  /** Addition of a (sign-extended) integer to a uint64_t. */
  function Add64(a: u64, b: int): u64 {
    (a + b) % TWO64
  }

  /** What `%u` prints of a wider count. */
  function Low32(n: nat): u32 {
    n % TWO32
  }

  /** Counts may be reduced before or after they are added. */
  lemma Low32Laws(a: nat, b: nat)
    ensures Low32(Low32(a) + b) == Low32(a + b) == Low32(a + Low32(b))
  {
    hide Low32;
    Low32First(a, b);
    Low32First(b, a);
  }

  lemma Low32First(a: nat, b: nat)
    ensures Low32(Low32(a) + b) == Low32(a + b)
  {
    var k := a / TWO32;
    assert a + b == (a % TWO32 + b) + k * TWO32;
  }

  lemma Add64Laws(a: u64, b: u64, c: int)
    ensures Add64(Add64(a, b), c) == Add64(a, Add64(b, c))
    ensures Add64(a, 0) == a && Add64(0, b) == b
  {
    Wraps(a + b + c, a + b, c);
    Wraps(a + b + c, b + c, a);
  }

  lemma Wraps(total: int, part: int, rest: int)
    requires total == part + rest
    ensures (part % TWO64 + rest) % TWO64 == total % TWO64
  {
    var k := part / TWO64;
    assert total == (part % TWO64 + rest) + k * TWO64;
  }

  /** Timestamps for which the kernel's "last seen" fields mean what they say: positive as int32_t. */
  predicate InRange(ts: int) {
    1 <= ts < 0x8000_0000
  }

  /** The four status labels that leave the kernel, as `statstr` prints them. */
  datatype Status = OK | WARNING | CRITICAL | UNKNOWN

  datatype RateValue = Undefined | PerSpan(value: real)

  datatype Broadcast =
    | StateCast(name: string, lastSeen: int, stale: bool, status: Status, summary: string)
    | TransitionCast(name: string, lastSeen: int, stale: bool, status: Status, summary: string)
    | CounterCast(ts: int, name: string, value: u64)
    | SampleCast(ts: int, name: string, n: nat, min: real, max: real, sum: real, mean: real, vari: real)
    | RateCast(ts: int, name: string, span: int, rate: RateValue)
    | EventCast(ts: int, name: string, extra: string)
    | SetKeysCast(pairs: seq<(string, string)>)

  function Last<T>(s: seq<T>): T
    requires s != []
  {
    s[|s| - 1]
  }

  function Front<T>(s: seq<T>): seq<T>
    requires s != []
  {
    s[..|s| - 1]
  }

  lemma FrontLast<T>(s: seq<T>)
    requires s != []
    ensures s == Front(s) + [Last(s)]
  {
  }
}
