/** The three string hashes of the builtin-command table (djb2, FNV-1a and a
    polynomial rolling hash). Each reads at most the first 20 characters of its
    input and yields a bucket index below 128. Each is written as the loop the
    shell runs, proved equal to a recursive specification, and that
    specification is related to an independent reference definition. */
module Hashing {
  import opened Common

  const TABLE_SIZE: nat := 128
  const MAX_HASH_INPUT_LENGTH: nat := 20

  /** `unsigned long` is 64 bits wide on the platforms the shell targets. */
  const ULONG_MODULUS: int := 0x1_0000_0000_0000_0000

  const DJB2_SEED: nat := 5381
  const FNV_OFFSET_BASIS: bv32 := 2166136261
  const FNV_PRIME: bv32 := 16777619
  const POLY_BASE: nat := 31

  /** The part of the input a hash reads. */
  function HashedPart(s: string): (r: string)
    ensures |r| == Min(|s|, MAX_HASH_INPUT_LENGTH)
    ensures IsPrefix(r, s)
  {
    if |s| <= MAX_HASH_INPUT_LENGTH then s else s[..MAX_HASH_INPUT_LENGTH]
  }

  // ---------------------------------------------------------------------------
  // Modular arithmetic used below

  lemma ModShift128(x: int, k: int)
    ensures (x + 128 * k) % 128 == x % 128
  {
  }

  /** Reducing modulo 2^64 first does not change the residue modulo 128. */
  lemma ULongModMod128(x: int)
    ensures (x % ULONG_MODULUS) % 128 == x % 128
  {
    var q := x / ULONG_MODULUS;
    assert x == ULONG_MODULUS * q + x % ULONG_MODULUS;
    ModShift128(x % ULONG_MODULUS, 0x200_0000_0000_0000 * q);
  }

  /** Residues modulo 128 are kept by `a * k + b` when `a` is replaced by its residue. */
  lemma MulAddMod128(a: int, k: int, b: int)
    ensures ((a % 128) * k + b) % 128 == (a * k + b) % 128
  {
    var q := a / 128;
    assert a == 128 * q + a % 128;
    assert a * k == (a % 128) * k + 128 * (q * k);
    ModShift128((a % 128) * k + b, q * k);
  }

  // ---------------------------------------------------------------------------
  // djb2 (myshell_hash_string)

  /** One djb2 step in `unsigned long`: `hash * 33 + c` with 64-bit wrap-around. */
  function Djb2Step(h: nat, c: char): (r: nat)
    ensures r < ULONG_MODULUS
  {
    (h * 33 + c as int) % ULONG_MODULUS
  }

  /** The djb2 accumulator after reading the first `n` characters of `s`. */
  function Djb2Prefix(s: string, n: nat): nat
    requires n <= |s|
  {
    if n == 0 then DJB2_SEED else Djb2Step(Djb2Prefix(s, n - 1), s[n - 1])
  }

  /** Hash of a C string (`None` is NULL). */
  function Djb2Hash(str: Option<string>): (r: nat)
    ensures r < TABLE_SIZE
    ensures str.None? ==> r == 0
  {
    match str
    case None => 0
    case Some(s) => var part := HashedPart(s); Djb2Prefix(part, |part|) % TABLE_SIZE
  }

  /** Reference definition: djb2 of the first `n` characters computed modulo 128
      at every step. */
  function Djb2Mod128(s: string, n: nat): (r: nat)
    requires n <= |s|
    ensures r < 128
  {
    if n == 0 then DJB2_SEED % 128 else (Djb2Mod128(s, n - 1) * 33 + s[n - 1] as int) % 128
  }

  /** Because 128 divides 2^64, the 64-bit wrap-around never changes the bucket:
      reducing modulo 128 after every step gives the same index. */
  lemma {:induction false} Djb2WrapAgreesWithMod128(s: string, n: nat)
    requires n <= |s|
    ensures Djb2Prefix(s, n) % 128 == Djb2Mod128(s, n)
  {
    if n > 0 {
      var h, c := Djb2Prefix(s, n - 1), s[n - 1] as int;
      Djb2WrapAgreesWithMod128(s, n - 1);
      ULongModMod128(h * 33 + c);
      MulAddMod128(h, 33, c);
    }
  }

  /** The loop of myshell_hash_string. */
  method HashString(str: Option<string>) returns (index: nat)
    ensures index == Djb2Hash(str)
    ensures index < TABLE_SIZE
  {
    if str.None? {
      return 0;
    }
    var s := str.value;
    var hash: nat := DJB2_SEED;
    var charCount := 0;
    ghost var part := HashedPart(s);
    while charCount < |s| && charCount < MAX_HASH_INPUT_LENGTH
      invariant 0 <= charCount <= |part|
      invariant hash == Djb2Prefix(part, charCount)
      decreases |s| - charCount
    {
      assert s[charCount] == part[charCount];
      hash := (hash * 33 + s[charCount] as int) % ULONG_MODULUS;
      charCount := charCount + 1;
    }
    index := hash % TABLE_SIZE;
  }

  // ---------------------------------------------------------------------------
  // FNV-1a (myshell_hash_string_fnv)

  /** A character as the `unsigned int` the C code xors into the state. */
  function CharBits(c: char): (r: bv32)
    requires IsAsciiChar(c)
    ensures r < 128
  {
    c as int as bv32
  }

  /** One FNV-1a step on a 32-bit `unsigned int`: xor the byte, then multiply. */
  function FnvStep(h: bv32, c: char): bv32
    requires IsAsciiChar(c)
  {
    (h ^ CharBits(c)) * FNV_PRIME
  }

  function FnvAcc(h: bv32, s: string): bv32
    requires IsAscii(s)
    decreases |s|
  {
    if s == [] then h else FnvAcc(FnvStep(h, s[0]), s[1..])
  }

  function FnvHash(str: Option<string>): (r: nat)
    requires str.Some? ==> IsAscii(str.value)
    ensures r < TABLE_SIZE
    ensures str.None? ==> r == 0
  {
    match str
    case None => 0
    case Some(s) => Bucket(FnvAcc(FNV_OFFSET_BASIS, HashedPart(s)))
  }

  /** `h % 128` of an `unsigned int`. */
  function Bucket(h: bv32): (r: nat)
    ensures r < TABLE_SIZE
  {
    (h & 127) as nat
  }

  /** One step of the seven-bit reference: the prime is 19 (16777619 mod 128). */
  function Fnv7Step(h: bv32, c: char): bv32
    requires IsAsciiChar(c)
  {
    ((h ^ CharBits(c)) * 19) & 127
  }

  /** Reference definition: FNV-1a kept to its low seven bits. */
  function Fnv7(h: bv32, s: string): bv32
    requires IsAscii(s)
    decreases |s|
  {
    if s == [] then h else Fnv7(Fnv7Step(h, s[0]), s[1..])
  }

  lemma FnvStepLowBits(h: bv32, c: char)
    requires IsAsciiChar(c)
    ensures FnvStep(h, c) & 127 == Fnv7Step(h & 127, c)
  {
    var x := CharBits(c);
    assert ((h ^ x) * FNV_PRIME) & 127 == (((h & 127) ^ x) * 19) & 127;
  }

  /** The bucket of FNV-1a depends only on the low seven bits of the state, so
      32-bit wrap-around agrees with arithmetic modulo 128: when `low` is the
      low seven bits of `h`, both runs end with the same low seven bits. */
  lemma {:induction false} FnvAgreesWithFnv7(h: bv32, low: bv32, s: string)
    requires IsAscii(s)
    requires low == h & 127
    ensures FnvAcc(h, s) & 127 == Fnv7(low, s)
    decreases |s|
  {
    if s != [] {
      var c, rest := s[0], s[1..];
      var h1, low1 := FnvStep(h, c), Fnv7Step(low, c);
      FnvStepLowBits(h, c);
      FnvAgreesWithFnv7(h1, low1, rest);
      assert FnvAcc(h, s) == FnvAcc(h1, rest);
      assert Fnv7(low, s) == Fnv7(low1, rest);
    }
  }

  /** The loop of myshell_hash_string_fnv. */
  method HashStringFnv(str: Option<string>) returns (index: nat)
    requires str.Some? ==> IsAscii(str.value)
    ensures index == FnvHash(str)
    ensures index < TABLE_SIZE
  {
    if str.None? {
      return 0;
    }
    var s := str.value;
    var hash: bv32 := FNV_OFFSET_BASIS;
    var charCount := 0;
    ghost var part := HashedPart(s);
    while charCount < |s| && charCount < MAX_HASH_INPUT_LENGTH
      invariant 0 <= charCount <= |part|
      invariant FnvAcc(hash, part[charCount..]) == FnvAcc(FNV_OFFSET_BASIS, part)
      decreases |s| - charCount
    {
      assert part[charCount..][1..] == part[charCount + 1..];
      hash := FnvStep(hash, s[charCount]);
      charCount := charCount + 1;
    }
    index := Bucket(hash);
  }

  // ---------------------------------------------------------------------------
  // Polynomial rolling hash (myshell_hash_string_poly)

  /** The per-character weight `c - 'a' + 1` (negative below `a`). */
  function Weight(c: char): int {
    c as int - 'a' as int + 1
  }

  /** One step as the C code computes it: the signed weight is converted to
      `unsigned long` for the product, the sum wraps at 2^64, then both `hash`
      and `pow` are reduced modulo 128. */
  function PolyStepHash(h: nat, pow: nat, c: char): nat {
    ((h + (Weight(c) % ULONG_MODULUS) * pow % ULONG_MODULUS) % ULONG_MODULUS) % 128
  }

  function PolyAcc(h: nat, pow: nat, s: string): nat
    decreases |s|
  {
    if s == [] then h else PolyAcc(PolyStepHash(h, pow, s[0]), (pow * POLY_BASE) % 128, s[1..])
  }

  function PolyHash(str: Option<string>): (r: nat)
    ensures r < TABLE_SIZE
    ensures str.None? ==> r == 0
  {
    match str
    case None => 0
    case Some(s) => PolyRange(HashedPart(s)); PolyAcc(0, 1, HashedPart(s))
  }

  /** Reference definition: the polynomial sum of weights times powers of 31, unreduced. */
  function PolySum(s: string): int
    decreases |s|
  {
    if s == [] then 0 else Weight(s[0]) + POLY_BASE * PolySum(s[1..])
  }

  lemma PolyStepMod(h: nat, pow: nat, c: char)
    ensures PolyStepHash(h, pow, c) == (h + Weight(c) * pow) % 128
  {
    var w := Weight(c);
    var wu := w % ULONG_MODULUS;
    var t := wu * pow % ULONG_MODULUS;
    ULongModMod128(h + t);
    ULongModMod128(wu * pow);
    ULongModMod128(w);
    // drop the wrap of the product
    calc {
      (h + t) % 128;
    == { MulAddMod128(wu * pow, 1, h); MulAddMod128(t, 1, h); }
      (wu * pow + h) % 128;
    == { MulAddMod128(wu, pow, h); MulAddMod128(w, pow, h); }
      (w * pow + h) % 128;
    }
  }

  lemma PolyInductiveStep(h: int, pow: int, w: int, rest: int, h1: int, p1: int)
    requires h1 == (h + w * pow) % 128
    requires p1 == (pow * POLY_BASE) % 128
    ensures (h1 + p1 * rest) % 128 == (h + pow * (w + POLY_BASE * rest)) % 128
  {
    var a := h + w * pow;
    MulAddMod128(a, 1, p1 * rest);
    assert (h1 + p1 * rest) % 128 == (a + p1 * rest) % 128;
    MulAddMod128(pow * POLY_BASE, rest, a);
    assert (a + p1 * rest) % 128 == (a + pow * POLY_BASE * rest) % 128;
    assert pow * (w + POLY_BASE * rest) == w * pow + pow * POLY_BASE * rest;
  }

  /** The reduced loop computes the polynomial hash: with `pow` the current power
      of 31 modulo 128, the final `hash` is `h + pow * PolySum(s)` modulo 128. */
  lemma {:induction false} PolyAccIsPolySum(h: nat, pow: nat, s: string)
    requires h < 128
    ensures PolyAcc(h, pow, s) == (h + pow * PolySum(s)) % 128
    decreases |s|
  {
    if s != [] {
      var h1 := PolyStepHash(h, pow, s[0]);
      var p1 := (pow * POLY_BASE) % 128;
      PolyStepMod(h, pow, s[0]);
      PolyAccIsPolySum(h1, p1, s[1..]);
      PolyInductiveStep(h, pow, Weight(s[0]), PolySum(s[1..]), h1, p1);
    }
  }

  /** The loop of myshell_hash_string_poly. */
  method HashStringPoly(str: Option<string>) returns (index: nat)
    requires str.Some? ==> IsAscii(str.value)
    ensures index == PolyHash(str)
    ensures index < TABLE_SIZE
  {
    if str.None? {
      return 0;
    }
    var s := str.value;
    var hash: nat := 0;
    var pow: nat := 1;
    var charCount := 0;
    ghost var part := HashedPart(s);
    while charCount < |s| && charCount < MAX_HASH_INPUT_LENGTH
      invariant 0 <= charCount <= |part|
      invariant hash < TABLE_SIZE
      invariant PolyAcc(hash, pow, part[charCount..]) == PolyAcc(0, 1, part)
      decreases |s| - charCount
    {
      assert part[charCount..][1..] == part[charCount + 1..];
      var w := s[charCount] as int - 'a' as int + 1;
      hash := ((hash + (w % ULONG_MODULUS) * pow % ULONG_MODULUS) % ULONG_MODULUS) % TABLE_SIZE;
      pow := (pow * POLY_BASE) % TABLE_SIZE;
      charCount := charCount + 1;
    }
    index := hash;
    PolyRange(part);
  }

  lemma PolyRange(s: string)
    ensures PolyAcc(0, 1, s) < 128
  {
    PolyAccIsPolySum(0, 1, s);
  }

  // ---------------------------------------------------------------------------
  // Properties shared by the three hashes

  /** Only the first 20 characters are read: strings with the same 20-character
      prefix land in the same bucket under every hash. */
  lemma SharedPrefixSameHash(s: string, t: string)
    requires IsAscii(s) && IsAscii(t)
    requires |s| >= MAX_HASH_INPUT_LENGTH && |t| >= MAX_HASH_INPUT_LENGTH
    requires s[..MAX_HASH_INPUT_LENGTH] == t[..MAX_HASH_INPUT_LENGTH]
    ensures Djb2Hash(Some(s)) == Djb2Hash(Some(t))
    ensures FnvHash(Some(s)) == FnvHash(Some(t))
    ensures PolyHash(Some(s)) == PolyHash(Some(t))
  {
    assert HashedPart(s) == HashedPart(t);
  }

  /** The empty string hashes to 5381 mod 128 = 5 under djb2. */
  lemma EmptyStringDjb2()
    ensures Djb2Hash(Some("")) == 5
  {
  }

  /** The buckets of the three hashes, stated through their reference definitions. */
  lemma {:induction false} HashesByReference(s: string)
    requires IsAscii(s)
    ensures Djb2Hash(Some(s)) == Djb2Mod128(HashedPart(s), |HashedPart(s)|)
    ensures FnvHash(Some(s)) == Fnv7(69, HashedPart(s)) as nat
    ensures PolyHash(Some(s)) == PolySum(HashedPart(s)) % 128
  {
    var part := HashedPart(s);
    Djb2WrapAgreesWithMod128(part, |part|);
    FnvAgreesWithFnv7(FNV_OFFSET_BASIS, 69, part);
    PolyAccIsPolySum(0, 1, part);
  }
}
