/** The kuid codec: 25 bits as five base-32 characters, the lowest bit an odd parity over the rest. */
module Kuid {
  import opened Powers

  const ALPHABET: string := "0123456789abcdefghjkmnpqrstvwxyz"
  const SENTINEL: string := "00000"
  const CHARS: nat := 5
  const LIMIT: nat := 0x200_0000

  datatype Decoded = Value(value: nat) | BadLength | BadChar | OutOfRange

  // --- input rules ---------------------------------------------------------------------

  function LowerChar(c: char): char {
    if 'A' <= c <= 'Z' then c - 'A' + 'a' else c
  }

  function Lower(s: string): string {
    seq(|s|, i requires 0 <= i < |s| => LowerChar(s[i]))
  }

  function Remove(s: string, c: char): string {
    if s == [] then [] else (if s[0] == c then [] else [s[0]]) + Remove(s[1..], c)
  }

  function Replace(s: string, a: char, b: char): string {
    seq(|s|, i requires 0 <= i < |s| => if s[i] == a then b else s[i])
  }

  function Canonicalize(s: string): string {
    Replace(Replace(Replace(Remove(Lower(s), '-'), 'o', '0'), 'i', '1'), 'l', '1')
  }

  /** What no input rule changes. */
  predicate CleanChar(c: char) {
    !('A' <= c <= 'Z') && c != '-' && c != 'o' && c != 'i' && c != 'l'
  }

  predicate Clean(s: string) {
    forall k | 0 <= k < |s| :: CleanChar(s[k])
  }

  lemma {:induction false} RemoveKeeps(s: string, c: char, x: char)
    requires x in Remove(s, c)
    ensures x != c && x in s
  {
    if x !in Remove(s[1..], c) {
      assert s[0] != c && x in [s[0]];
    } else {
      RemoveKeeps(s[1..], c, x);
      assert x in s[1..];
    }
  }

  lemma {:induction false} RemoveNone(s: string, c: char)
    requires c !in s
    ensures Remove(s, c) == s
  {
    if s != [] {
      RemoveNone(s[1..], c);
      assert s == [s[0]] + s[1..];
    }
  }

  /** A canonical form is clean. */
  lemma CanonicalIsClean(s: string)
    ensures Clean(Canonicalize(s))
  {
    var kept := Remove(Lower(s), '-');
    forall k | 0 <= k < |kept| ensures kept[k] != '-' && !('A' <= kept[k] <= 'Z') {
      RemoveKeeps(Lower(s), '-', kept[k]);
    }
  }

  /** The input rules character by character: hyphens go, letters are lowered, and what is easily misread is read
      as the digit it looks like. */
  lemma {:induction false} CanonicalizeIs(s: string)
    ensures Canonicalize("") == ""
    ensures s != "" ==>
              var c, rest := s[0], Canonicalize(s[1..]);
              Canonicalize(s) ==
              if c == '-' then rest
              else if c in "oO" then "0" + rest
              else if c in "iIlL" then "1" + rest
              else if 'A' <= c <= 'Z' then [c - 'A' + 'a'] + rest
              else [c] + rest
  {
    if s != "" {
      assert Lower(s)[1..] == Lower(s[1..]) && Lower(s)[0] == LowerChar(s[0]);
    }
  }

  /** The fixed points of the input rules are the clean strings; so folding twice is folding once. */
  lemma CanonicalizeFixed(s: string)
    ensures Canonicalize(s) == s <==> Clean(s)
    ensures Canonicalize(Canonicalize(s)) == Canonicalize(s)
  {
    CanonicalIsClean(s);
    if Clean(s) {
      CleanStays(s);
    }
    CleanStays(Canonicalize(s));
  }

  lemma CleanStays(s: string)
    requires Clean(s)
    ensures Canonicalize(s) == s
  {
    assert Lower(s) == s;
    assert '-' !in s;
    RemoveNone(s, '-');
    assert Replace(s, 'o', '0') == s && Replace(s, 'i', '1') == s && Replace(s, 'l', '1') == s;
  }

  // --- the alphabet --------------------------------------------------------------------

  /** The first index of `c` in `s`, or -1. */
  function Find(s: string, c: char): int {
    if s == [] then -1
    else if s[0] == c then 0
    else
      var rest := Find(s[1..], c);
      if rest < 0 then -1 else rest + 1
  }

  lemma {:induction false} FindFirst(s: string, c: char)
    ensures -1 <= Find(s, c) < |s|
    ensures Find(s, c) >= 0 ==> s[Find(s, c)] == c
    ensures Find(s, c) < 0 ==> c !in s
    ensures forall k | 0 <= k < |s| && s[k] == c :: 0 <= Find(s, c) <= k
  {
    if s != [] {
      FindFirst(s[1..], c);
      forall k | 0 <= k < |s| && s[k] == c ensures 0 <= Find(s, c) <= k {
        if k > 0 {
          assert s[1..][k - 1] == c;
        }
      }
    }
  }

  /** Thirty-two characters, ascending, that no input rule changes. */
  predicate Base32(a: string) {
    && |a| == 32 && Clean(a)
    && forall k | 0 < k < 32 :: a[k - 1] < a[k]
  }

  lemma AlphabetIsBase32()
    ensures Base32(ALPHABET)
  {
  }

  lemma {:induction false} Ascending(a: string, j: nat, k: nat)
    requires Base32(a) && j < k < 32
    ensures a[j] < a[k]
    decreases k
  {
    if j < k - 1 {
      Ascending(a, j, k - 1);
    }
    assert a[k - 1] < a[k];
  }

  lemma FindLetter(a: string, k: nat)
    requires Base32(a) && k < 32
    ensures Find(a, a[k]) == k
  {
    FindFirst(a, a[k]);
    var j := Find(a, a[k]);
    if j < k {
      Ascending(a, j, k);
    }
  }

  // --- the codec -----------------------------------------------------------------------

  function Pow32(n: nat): (p: nat)
    ensures p > 0
  {
    if n == 0 then 1 else Pow32(n - 1) * 32
  }

  /** The low `n` base-32 digits of `v` in the alphabet `a`, most significant first. */
  function Digits(a: string, v: nat, n: nat): (s: string)
    requires |a| == 32
    ensures |s| == n
  {
    if n == 0 then [] else Digits(a, v / 32, n - 1) + [a[v % 32]]
  }

  function Number(a: string, s: string): Decoded {
    if s == [] then Value(0)
    else
      var front := Number(a, s[..|s| - 1]);
      var idx := Find(a, s[|s| - 1]);
      if front.Value? && idx >= 0 then Value(front.value * 32 + idx) else BadChar
  }

  function Text(v: nat): string {
    Digits(ALPHABET, v, CHARS)
  }

  function Reading(s: string): Decoded {
    if |Canonicalize(s)| != CHARS then BadLength else Number(ALPHABET, Canonicalize(s))
  }

  /** `v` shifted right by `n` digits. */
  function Shift(v: nat, n: nat): nat {
    if n == 0 then v else Shift(v / 32, n - 1)
  }

  lemma {:induction false} ShiftOneMore(v: nat, n: nat)
    ensures Shift(v, n) / 32 == Shift(v, n + 1)
  {
    if n > 0 {
      ShiftOneMore(v / 32, n - 1);
    }
  }

  method Encode(value: int) returns (r: Decoded, out: string)
    ensures r.Value? <==> 0 <= value < LIMIT
    ensures r.Value? ==> out == Text(value)
  {
    out := [];
    if !(0 <= value < LIMIT) { return OutOfRange, out; }
    var alphabet := ALPHABET;
    assert |alphabet| == 32;
    for i := 0 to CHARS
      invariant alphabet == ALPHABET && |alphabet| == 32
      invariant out == Digits(alphabet, Shift(value, CHARS - i), i)
    {
      var shifted := Shift(value, CHARS - 1 - i);
      ShiftOneMore(value, CHARS - 1 - i);
      out := out + [alphabet[shifted % 32]];
    }
    r := Value(value);
  }

  method Decode(s: string) returns (r: Decoded)
    ensures r == Reading(s)
  {
    var t := Canonicalize(s);
    if |t| != CHARS { return BadLength; }
    var value: nat := 0;
    var alphabet := ALPHABET;
    for i := 0 to CHARS
      invariant alphabet == ALPHABET
      invariant Number(alphabet, t[..i]) == Value(value)
    {
      assert t[..i + 1][..i] == t[..i];
      var idx := Find(alphabet, t[i]);
      if idx < 0 {
        BadStays(alphabet, t, i + 1);
        return BadChar;
      }
      value := value * 32 + idx;
    }
    assert t[..CHARS] == t;
    r := Value(value);
  }

  lemma {:induction false} BadStays(a: string, t: string, k: nat)
    requires k <= |t| && Number(a, t[..k]) == BadChar
    ensures Number(a, t) == BadChar
    decreases |t| - k
  {
    if k == |t| {
      assert t[..k] == t;
    } else {
      assert t[..k + 1][..k] == t[..k];
      BadStays(a, t, k + 1);
    }
  }

  /** Digits read back as the number ... */
  lemma {:induction false} NumberDigits(a: string, v: nat, n: nat)
    requires Base32(a) && v < Pow32(n)
    ensures Number(a, Digits(a, v, n)) == Value(v) && Clean(Digits(a, v, n))
  {
    if n > 0 {
      NumberDigits(a, v / 32, n - 1);
      FindLetter(a, v % 32);
      var s := Digits(a, v, n);
      assert s[..n - 1] == Digits(a, v / 32, n - 1);
    }
  }

  /** ... and a readable string is the digits of what it reads as. */
  lemma {:induction false} DigitsNumber(a: string, s: string)
    requires Base32(a) && Number(a, s).Value?
    ensures Number(a, s).value < Pow32(|s|) && Digits(a, Number(a, s).value, |s|) == s
    decreases |s|
  {
    if s != [] {
      var front, idx := s[..|s| - 1], Find(a, s[|s| - 1]);
      DigitsNumber(a, front);
      FindFirst(a, s[|s| - 1]);
      assert s == front + [a[idx]];
      var v := Number(a, front).value * 32 + idx;
      assert v / 32 == Number(a, front).value && v % 32 == idx;
    }
  }

  lemma LimitIs()
    ensures Pow32(CHARS) == LIMIT
  {
    assert Pow32(1) == 32 && Pow32(2) == 1024 && Pow32(3) == 32768;
  }

  /** Every value in range decodes back to itself, and its text is canonical. */
  lemma DecodeEncode(v: nat)
    requires v < LIMIT
    ensures Reading(Text(v)) == Value(v)
    ensures Canonicalize(Text(v)) == Text(v)
  {
    LimitIs();
    AlphabetIsBase32();
    NumberDigits(ALPHABET, v, CHARS);
    CanonicalizeFixed(Text(v));
  }

  /** Whatever decodes is in range and encodes to its own canonical form. */
  lemma EncodeDecode(s: string)
    requires Reading(s).Value?
    ensures Reading(s).value < LIMIT
    ensures Text(Reading(s).value) == Canonicalize(s)
  {
    LimitIs();
    AlphabetIsBase32();
    DigitsNumber(ALPHABET, Canonicalize(s));
  }

  // --- parity --------------------------------------------------------------------------

  function Popcount(n: nat): nat {
    if n == 0 then 0 else n % 2 + Popcount(n / 2)
  }

  predicate Odd(n: nat) {
    Popcount(n) % 2 == 1
  }

  predicate IsValid(s: string) {
    Reading(s).Value? && Odd(Reading(s).value)
  }

  lemma ValidIsOdd(v: nat)
    requires v < LIMIT
    ensures IsValid(Text(v)) <==> Odd(v)
  {
    DecodeEncode(v);
  }

  /** `n` with bit `b` inverted. */
  function Flip(n: nat, b: nat): nat {
    if b == 0 then (if n % 2 == 0 then n + 1 else n - 1) else 2 * Flip(n / 2, b - 1) + n % 2
  }

  function Bit(n: nat, b: nat): nat {
    if b == 0 then n % 2 else Bit(n / 2, b - 1)
  }

  /** Inverting a bit adds or takes away its weight ... */
  lemma {:induction false} FlipIsOneBit(n: nat, b: nat)
    ensures Flip(n, b) == if Bit(n, b) == 0 then n + Pow2(b) else n - Pow2(b)
  {
    if b > 0 {
      FlipIsOneBit(n / 2, b - 1);
    }
  }

  lemma OddStep(n: nat)
    ensures Odd(n) <==> (n % 2 == 1) != Odd(n / 2)
  {
    ModTwo(n % 2, Popcount(n / 2));
  }

  lemma ModTwo(a: nat, b: nat)
    requires a < 2
    ensures (a + b) % 2 == 1 <==> (a == 1) != (b % 2 == 1)
  {
  }

  /** ... and changes the parity. */
  lemma {:induction false} FlipParity(n: nat, b: nat)
    ensures Odd(Flip(n, b)) <==> !Odd(n)
  {
    OddStep(n);
    OddStep(Flip(n, b));
    if b > 0 {
      FlipParity(n / 2, b - 1);
      HalfOf(Flip(n / 2, b - 1), n % 2);
    } else {
      HalfOf(n / 2, 1 - n % 2);
    }
  }

  lemma HalfOf(h: nat, r: nat)
    requires r < 2
    ensures (2 * h + r) / 2 == h && (2 * h + r) % 2 == r
  {
  }

  lemma {:induction false} FlipInRange(n: nat, b: nat, width: nat)
    requires b < width && n < Pow2(width)
    ensures Flip(n, b) < Pow2(width)
  {
    if b > 0 {
      FlipInRange(n / 2, b - 1, width - 1);
    }
  }

  lemma {:induction false} PowerOfFive(k: nat)
    ensures Pow2(5 * k) == Pow32(k)
  {
    if k > 0 {
      PowerOfFive(k - 1);
      var n := 5 * k - 5;
      assert Pow2(n + 1) == 2 * Pow2(n) && Pow2(n + 2) == 2 * Pow2(n + 1) && Pow2(n + 3) == 2 * Pow2(n + 2);
      assert Pow2(n + 4) == 2 * Pow2(n + 3) && Pow2(n + 5) == 2 * Pow2(n + 4);
    }
  }

  lemma TwentyFiveBits()
    ensures Pow2(25) == LIMIT
  {
    PowerOfFive(CHARS);
    LimitIs();
  }

  lemma FlipOnKuid(v: nat, b: nat)
    requires v < LIMIT && b < 25
    ensures Flip(v, b) < LIMIT
    ensures Odd(Flip(v, b)) <==> !Odd(v)
  {
    TwentyFiveBits();
    var width: nat := 25;
    FlipInRange(v, b, width);
    FlipParity(v, b);
  }

  /** Inverting any one of the 25 bits turns a valid kuid invalid, and an invalid one valid. */
  lemma OneBitFlipsValidity(v: nat, b: nat)
    requires v < LIMIT && b < 25
    ensures Flip(v, b) < LIMIT
    ensures IsValid(Text(Flip(v, b))) <==> !IsValid(Text(v))
  {
    FlipOnKuid(v, b);
    ValidIsOdd(v);
    ValidIsOdd(Flip(v, b));
  }

  /** The bits of a fresh kuid: milliseconds, randomness, parity. */
  function Assemble(ms: nat, random14: nat): nat {
    var data := ms * 0x4000 + random14;
    2 * data + (if Odd(data) then 0 else 1)
  }

  /** The fields of an assembled kuid can be read back, and its parity is odd. */
  lemma AssembledFields(ms: nat, random14: nat)
    requires ms < 1000 && random14 < 0x4000
    ensures
      var v := Assemble(ms, random14);
      v < LIMIT && v / 0x8000 == ms && v / 2 % 0x4000 == random14 && Odd(v)
  {
    var data := ms * 0x4000 + random14;
    ParityIsOdd(data);
    FieldsBack(ms, random14, if Odd(data) then 0 else 1);
  }

  lemma FieldsBack(ms: nat, random14: nat, r: nat)
    requires ms < 1000 && random14 < 0x4000 && r < 2
    ensures
      var v := 2 * (ms * 0x4000 + random14) + r;
      v < LIMIT && v / 0x8000 == ms && v / 2 % 0x4000 == random14
  {
    HalfOf(ms * 0x4000 + random14, r);
  }

  /** Every assembled kuid, whatever the clock and the randomness, is valid and not the sentinel. */
  lemma AssembledIsValid(now: nat, entropy: nat)
    ensures IsValid(Text(Assemble(now % 1000, entropy % 0x4000)))
    ensures Text(Assemble(now % 1000, entropy % 0x4000)) != SENTINEL
  {
    var ms, random14 := now % 1000, entropy % 0x4000;
    AssembledFields(ms, random14);
    ValidIsOdd(Assemble(ms, random14));
    SentinelIsZero();
  }

  lemma ParityIsOdd(data: nat)
    ensures Odd(2 * data + (if Odd(data) then 0 else 1))
  {
    var r := if Odd(data) then 0 else 1;
    HalfOf(data, r);
    OddStep(2 * data + r);
  }

  /** The sentinel is the text of zero, and invalid. */
  lemma SentinelIsZero()
    ensures Text(0) == SENTINEL && !IsValid(SENTINEL)
  {
    var a := ALPHABET;
    assert Digits(a, 0, 1) == "0" && Digits(a, 0, 2) == "00" && Digits(a, 0, 3) == "000" && Digits(a, 0, 4) == "0000";
    DecodeEncode(0);
  }
}
