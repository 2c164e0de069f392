/**
 * The key-handler code generators: 16 random bytes (or 6) are base32-encoded
 * without padding (section 6 of RFC 4648, standard alphabet), the confusable
 * characters 1, 0, O, I and L are deleted, the string is padded from a reduced
 * charset when it became too short, and it is cut to 16 characters shown in four
 * dash-separated groups (or to 8 characters).  The random bytes and the padding
 * draws (`rand.Intn(31)`) are parameters; the handler-wide counter is a
 * `Counter` object that each generator advances and whose value the codes do
 * not use.
 */
module KeyCodes {
  import opened CodeGenerator

  const Base32Alphabet: string := "ABCDEFGHIJKLMNOPQRSTUVWXYZ234567"
  const PadCharset: string := "ABCDEFGHJKMNPQRSTUVWXYZ23456789"

  // ---------------------------------------------------------------------------
  // Base32 without padding.

  /** The 40-bit big-endian value of a 5-byte block. */
  function BlockValue(b: seq<Byte>): nat
    requires |b| == 5
  {
    ((((b[0] as int) * 256 + b[1]) * 256 + b[2]) * 256 + b[3]) * 256 + b[4]
  }

  function Pow32(k: nat): (p: nat)
    ensures p >= 1
  {
    if k == 0 then 1 else 32 * Pow32(k - 1)
  }

  /** The first `n` of the eight 5-bit characters of a block. */
  function BlockChars(b: seq<Byte>, n: nat): (s: string)
    requires |b| == 5 && n <= 8
    ensures |s| == n
  {
    seq(n, j requires 0 <= j < n => Base32Alphabet[(BlockValue(b) / Pow32(7 - j)) % 32])
  }

  /** Characters a final block of `k` bytes yields when no padding is written. */
  function TailLength(k: nat): nat
    requires 1 <= k <= 4
  {
    match k
    case 1 => 2
    case 2 => 4
    case 3 => 5
    case 4 => 7
  }

  /** base32.StdEncoding.WithPadding(base32.NoPadding).EncodeToString */
  function Base32(bytes: seq<Byte>): string
    decreases |bytes|
  {
    if |bytes| == 0 then ""
    else if |bytes| >= 5 then BlockChars(bytes[..5], 8) + Base32(bytes[5..])
    else BlockChars(bytes + seq(5 - |bytes|, _ => 0), TailLength(|bytes|))
  }

  /** The unpadded output length is ceil(8n/5). */
  lemma {:induction false} Base32Length(bytes: seq<Byte>)
    ensures |Base32(bytes)| == (8 * |bytes| + 4) / 5
    decreases |bytes|
  {
    if |bytes| >= 5 {
      Base32Length(bytes[5..]);
    }
  }

  lemma {:induction false} Base32Alphabetic(bytes: seq<Byte>)
    ensures forall c :: c in Base32(bytes) ==> c in Base32Alphabet
    decreases |bytes|
  {
    if |bytes| >= 5 {
      Base32Alphabetic(bytes[5..]);
    }
  }

  // ---------------------------------------------------------------------------
  // Deleting the confusable characters.

  predicate Confusable(c: char)
  {
    c == '1' || c == '0' || c == 'O' || c == 'I' || c == 'L'
  }

  /** strings.ReplaceAll(s, string(c), ""). */
  function Without(s: string, c: char): string
  {
    if |s| == 0 then ""
    else if s[0] == c then Without(s[1..], c)
    else [s[0]] + Without(s[1..], c)
  }

  /** Deleting `c` keeps the other characters and no more. */
  lemma {:induction false} WithoutMembers(s: string, c: char)
    ensures forall x :: x in Without(s, c) <==> x in s && x != c
  {
    if |s| > 0 {
      WithoutMembers(s[1..], c);
      assert s == [s[0]] + s[1..];
    }
  }

  /** The five ReplaceAll calls, in the source's order. */
  function Unconfused(s: string): string
  {
    Without(Without(Without(Without(Without(s, '1'), '0'), 'O'), 'I'), 'L')
  }

  /** The deletions leave exactly the characters of `s` that are not confusable. */
  lemma UnconfusedMembers(s: string)
    ensures forall x :: x in Unconfused(s) <==> x in s && !Confusable(x)
  {
    WithoutMembers(s, '1');
    var s1 := Without(s, '1');
    WithoutMembers(s1, '0');
    var s2 := Without(s1, '0');
    WithoutMembers(s2, 'O');
    var s3 := Without(s2, 'O');
    WithoutMembers(s3, 'I');
    var s4 := Without(s3, 'I');
    WithoutMembers(s4, 'L');
  }

  /** A string free of confusable characters comes through unchanged. */
  lemma {:induction false} WithoutAbsent(s: string, c: char)
    requires c !in s
    ensures Without(s, c) == s
  {
    if |s| > 0 {
      assert c !in s[1..];
      WithoutAbsent(s[1..], c);
    }
  }

  lemma UnconfusedIdentity(s: string)
    requires forall x :: x in s ==> !Confusable(x)
    ensures Unconfused(s) == s
  {
    WithoutAbsent(s, '1');
    WithoutAbsent(s, '0');
    WithoutAbsent(s, 'O');
    WithoutAbsent(s, 'I');
    WithoutAbsent(s, 'L');
  }

  // ---------------------------------------------------------------------------
  // Padding and truncation.

  lemma PadCharsetClean()
    ensures forall c :: c in PadCharset ==> !Confusable(c)
  {
  }

  /** The characters `rand.Intn(31)` picks for the given draws. */
  function PadChars(draws: seq<nat>): string
  {
    seq(|draws|, i requires 0 <= i < |draws| => PadCharset[draws[i] % |PadCharset|])
  }

  /** `str` padded up to `target` characters, first draw first. */
  function Padded(str: string, target: nat, draws: seq<nat>): (r: string)
    requires |draws| >= target
    ensures |r| == if |str| < target then target else |str|
    ensures r[..|str|] == str
  {
    if |str| < target then str + PadChars(draws[..target - |str|]) else str
  }

  /** The `for len(str) < target` loop. */
  method PadTo(str: string, target: nat, draws: seq<nat>) returns (r: string)
    requires |draws| >= target
    ensures |r| == if |str| < target then target else |str|
    ensures r[..|str|] == str
    ensures forall i :: |str| <= i < |r| ==> r[i] in PadCharset
    ensures r == Padded(str, target, draws)
  {
    r := str;
    if |r| < target {
      var used := 0;
      while |r| < target
        invariant |str| <= |r| <= target
        invariant used == |r| - |str|
        invariant r == str + PadChars(draws[..used])
      {
        r := r + [PadCharset[draws[used] % 31]];
        used := used + 1;
        assert draws[..used] == draws[..used - 1] + [draws[used - 1]];
      }
    }
  }

  /** Encode, delete confusable characters, pad and cut to `target`. */
  method BuildCode(bytes: seq<Byte>, draws: seq<nat>, target: nat) returns (s: string)
    requires |draws| >= target
    ensures |s| == target
    ensures forall c :: c in s ==> !Confusable(c) && (c in Base32Alphabet || c in PadCharset)
    ensures var enc := Unconfused(Base32(bytes));
            if |enc| >= target then s == enc[..target]
            else s == enc + PadChars(draws[..target - |enc|])
  {
    var enc := Base32(bytes);
    Base32Alphabetic(bytes);
    UnconfusedMembers(enc);
    enc := Unconfused(enc);
    var padded := PadTo(enc, target, draws);
    PadCharsetClean();
    s := padded[..target];
    forall c | c in s
      ensures !Confusable(c) && (c in Base32Alphabet || c in PadCharset)
    {
      var i :| 0 <= i < |s| && s[i] == c;
      if i < |enc| {
        assert c == enc[i];
      } else {
        assert c == padded[i];
      }
    }
  }

  /** "%s-%s-%s-%s" over the four 4-character groups. */
  function Grouped(s: string): (r: string)
    requires |s| == 16
    ensures |r| == 19
    ensures forall i :: 0 <= i < 19 ==> r[i] == if i % 5 == 4 then '-' else s[i - i / 5]
  {
    s[0..4] + "-" + s[4..8] + "-" + s[8..12] + "-" + s[12..16]
  }

  /** The card code the given bytes and padding draws produce. */
  function UniqueCode(bytes: seq<Byte>, draws: seq<nat>): string
    requires |draws| >= 16
  {
    Grouped(Padded(Unconfused(Base32(bytes)), 16, draws)[..16])
  }

  /** The activation code the given bytes and padding draws produce. */
  function UniqueKeyCode(bytes: seq<Byte>, draws: seq<nat>): string
    requires |draws| >= 8
  {
    Padded(Unconfused(Base32(bytes)), 8, draws)[..8]
  }

  /** generateUniqueCode: 16 characters in four dash-separated groups. */
  method GenerateUniqueCode(counter: Counter, bytes: seq<Byte>, draws: seq<nat>)
    returns (code: string)
    requires |bytes| == 16 && |draws| >= 16
    modifies counter
    ensures counter.value == old(counter.value) + 1
    ensures |code| == 19
    ensures forall i :: 0 <= i < 19 && i % 5 == 4 ==> code[i] == '-'
    ensures forall i :: 0 <= i < 19 && i % 5 != 4 ==>
              !Confusable(code[i]) && (code[i] in Base32Alphabet || code[i] in PadCharset)
    ensures code == UniqueCode(bytes, draws)
  {
    var _ := counter.Next();
    var s := BuildCode(bytes, draws, 16);
    code := Grouped(s);
    forall i | 0 <= i < 19 && i % 5 != 4
      ensures !Confusable(code[i]) && (code[i] in Base32Alphabet || code[i] in PadCharset)
    {
      assert code[i] == s[i - i / 5];
      assert s[i - i / 5] in s;
    }
  }

  /** generateUniqueKeyCode: exactly 8 characters. */
  method GenerateUniqueKeyCode(counter: Counter, bytes: seq<Byte>, draws: seq<nat>)
    returns (code: string)
    requires |bytes| == 6 && |draws| >= 8
    modifies counter
    ensures counter.value == old(counter.value) + 1
    ensures |code| == 8
    ensures forall c :: c in code ==> !Confusable(c) && (c in Base32Alphabet || c in PadCharset)
    ensures code == UniqueKeyCode(bytes, draws)
  {
    var _ := counter.Next();
    code := BuildCode(bytes, draws, 8);
  }

  /** Sixteen bytes encode to 26 characters, six bytes to 10. */
  lemma EncodedLengths(bytes16: seq<Byte>, bytes6: seq<Byte>)
    requires |bytes16| == 16 && |bytes6| == 6
    ensures |Base32(bytes16)| == 26 && |Base32(bytes6)| == 10
  {
    Base32Length(bytes16);
    Base32Length(bytes6);
  }
}
