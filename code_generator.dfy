/**
 * The random and composite code generators of the utilities package: fixed-length
 * codes over a 36-character alphabet, and the `KEY…`/`CODE…` codes built from a
 * base-36 timestamp, a base-36 process-wide counter and four random characters.
 * Random bytes and clock readings are parameters.
 */
module CodeGenerator {

  /** A byte as delivered by the random source. */
  type Byte = b: int | 0 <= b < 256

  /** The 36-character alphabet of generated codes. */
  const Charset: string := "ABCDEFGHIJKLMNOPQRSTUVWXYZ0123456789"

  /** The code the secure path builds from the given random bytes. */
  function CodeChars(random: seq<Byte>): string
  {
    seq(|random|, i requires 0 <= i < |random| => Charset[random[i] % |Charset|])
  }

  /**
   * GenerateRandomCode: fills a buffer with one charset character per random
   * byte, in place, byte `i` giving character `i`.
   */
  method GenerateRandomCode(length: nat, random: seq<Byte>) returns (code: string)
    requires |random| == length
    ensures |code| == length
    ensures forall i :: 0 <= i < length ==> code[i] == Charset[random[i] % 36]
    ensures forall c :: c in code ==> c in Charset
    ensures code == CodeChars(random)
  {
    var buffer := new char[length];
    var i := 0;
    while i < length
      invariant 0 <= i <= length
      invariant forall j :: 0 <= j < i ==> buffer[j] == Charset[random[j] % 36]
    {
      buffer[i] := Charset[random[i] % 36];
      i := i + 1;
    }
    code := buffer[..];
  }

  /** An 8-character invitation code. */
  method GenerateInviteCode(random: seq<Byte>) returns (code: string)
    requires |random| == 8
    ensures |code| == 8 && forall c :: c in code ==> c in Charset
    ensures code == CodeChars(random)
  {
    code := GenerateRandomCode(8, random);
  }

  /** A 6-character agent code. */
  method GenerateAgentCode(random: seq<Byte>) returns (code: string)
    requires |random| == 6
    ensures |code| == 6 && forall c :: c in code ==> c in Charset
    ensures code == CodeChars(random)
  {
    code := GenerateRandomCode(6, random);
  }

  // ---------------------------------------------------------------------------
  // Base-36 rendering (strconv.FormatInt(x, 36): digits 0-9 then a-z).

  function DigitChar(d: nat): (c: char)
    requires d < 36
  {
    if d < 10 then ('0' as int + d) as char else ('a' as int + d - 10) as char
  }

  function DigitValue(c: char): int
  {
    if '0' <= c <= '9' then c as int - '0' as int else c as int - 'a' as int + 10
  }

  lemma DigitRoundTrip(d: nat)
    requires d < 36
    ensures DigitValue(DigitChar(d)) == d && DigitChar(d) != '-'
  {
  }

  /** The base-36 digits of a non-negative number, most significant first. */
  function Base36(n: nat): (s: string)
    ensures |s| >= 1 && s[0] != '-'
  {
    if n < 36 then [DigitChar(n)] else Base36(n / 36) + [DigitChar(n % 36)]
  }

  /** strconv.FormatInt(x, 36): a leading minus sign exactly for a negative number. */
  function FormatInt36(x: int): (s: string)
    ensures |s| >= 1
    ensures s[0] == '-' <==> x < 0
  {
    if x < 0 then "-" + Base36(-x) else Base36(x)
  }

  /** Decoding the digits gives the number back. */
  function ParseBase36(s: string): int
  {
    if |s| == 0 then 0 else ParseBase36(s[..|s| - 1]) * 36 + DigitValue(s[|s| - 1])
  }

  lemma {:induction false} Base36RoundTrip(n: nat)
    ensures ParseBase36(Base36(n)) == n
  {
    var s := Base36(n);
    if n < 36 {
      DigitRoundTrip(n);
      assert s[..|s| - 1] == [];
    } else {
      Base36RoundTrip(n / 36);
      DigitRoundTrip(n % 36);
      assert s[..|s| - 1] == Base36(n / 36);
    }
  }

  /** Distinct non-negative counters render as distinct base-36 strings. */
  lemma Base36Injective(a: nat, b: nat)
    requires Base36(a) == Base36(b)
    ensures a == b
  {
    Base36RoundTrip(a);
    Base36RoundTrip(b);
  }

  /** FormatInt is injective on all integers: a negative value carries a '-'. */
  lemma FormatInt36Injective(x: int, y: int)
    requires FormatInt36(x) == FormatInt36(y)
    ensures x == y
  {
    if x < 0 && y < 0 {
      assert Base36(-x) == FormatInt36(x)[1..];
      Base36Injective(-x, -y);
    } else if x >= 0 && y >= 0 {
      Base36Injective(x, y);
    }
  }

  // ---------------------------------------------------------------------------
  // Composite codes and the shared counter.

  /** The process-wide counter, advanced atomically by one per call. */
  class Counter {
    var value: int

    constructor ()
      ensures value == 0
    {
      value := 0;
    }

    method Next() returns (n: int)
      modifies this
      ensures value == old(value) + 1 && n == value
    {
      value := value + 1;
      n := value;
    }
  }

  /** prefix ++ base36(timestamp) ++ base36(counter) ++ random characters. */
  function CompositeCode(prefix: string, nanos: int, count: int, random: seq<Byte>): string
  {
    prefix + FormatInt36(nanos) + FormatInt36(count) + CodeChars(random)
  }

  /**
   * Two composite codes with the same prefix differ whenever their timestamps
   * render to strings of one length and their (timestamp, counter) pairs differ.
   */
  lemma CompositeCodeInjective(prefix: string, n1: int, c1: int, r1: seq<Byte>,
                               n2: int, c2: int, r2: seq<Byte>)
    requires |r1| == |r2|
    requires |FormatInt36(n1)| == |FormatInt36(n2)|
    requires CompositeCode(prefix, n1, c1, r1) == CompositeCode(prefix, n2, c2, r2)
    ensures n1 == n2 && c1 == c2
  {
    var t1, t2 := FormatInt36(n1), FormatInt36(n2);
    var k1, k2 := FormatInt36(c1), FormatInt36(c2);
    var a, b := CompositeCode(prefix, n1, c1, r1), CompositeCode(prefix, n2, c2, r2);
    assert |k1| == |k2| by {
      assert |a| == |prefix| + |t1| + |k1| + |r1|;
      assert |b| == |prefix| + |t2| + |k2| + |r2|;
    }
    assert t1 == a[|prefix|..|prefix| + |t1|] == t2;
    assert k1 == a[|prefix| + |t1|..|prefix| + |t1| + |k1|] == k2;
    FormatInt36Injective(n1, n2);
    FormatInt36Injective(c1, c2);
  }

  /** GenerateSalespersonKeyCode: "KEY" + timestamp + counter + 4 characters. */
  method GenerateSalespersonKeyCode(counter: Counter, nanos: int, random: seq<Byte>)
    returns (code: string)
    requires |random| == 4
    modifies counter
    ensures counter.value == old(counter.value) + 1
    ensures code == CompositeCode("KEY", nanos, counter.value, random)
  {
    var count := counter.Next();
    var tail := GenerateRandomCode(4, random);
    code := "KEY" + FormatInt36(nanos) + FormatInt36(count) + tail;
  }

  /** GenerateSalespersonCode: "CODE" + timestamp + counter + 4 characters. */
  method GenerateSalespersonCode(counter: Counter, nanos: int, random: seq<Byte>)
    returns (code: string)
    requires |random| == 4
    modifies counter
    ensures counter.value == old(counter.value) + 1
    ensures code == CompositeCode("CODE", nanos, counter.value, random)
  {
    var count := counter.Next();
    var tail := GenerateRandomCode(4, random);
    code := "CODE" + FormatInt36(nanos) + FormatInt36(count) + tail;
  }
}
