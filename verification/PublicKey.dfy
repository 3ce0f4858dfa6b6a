/** The Android encoding of an RSA public key: the modulus with its Montgomery parameters. Sizes are
    given in 32-bit words, so that nothing depends on the number 64. */
module PublicKey {
  import opened Bytes
  import opened Wrappers
  import Arith

  function Pow2(k: nat): (r: nat)
    ensures r >= 1
  {
    if k == 0 then 1 else 2 * Pow2(k - 1)
  }

  lemma {:induction false} Pow2Add(j: nat, k: nat)
    ensures Pow2(j + k) == Pow2(j) * Pow2(k)
  {
    if j > 0 {
      Pow2Add(j - 1, k);
      Arith.Twice(Pow2(j - 1), Pow2(k));
      assert j - 1 + k == (j + k) - 1;
    }
  }

  const B: nat := 0x1_0000_0000

  lemma Pow2Word()
    ensures Pow2(8) == 256 && Pow2(32) == B
  {
    assert Pow2(8) == 256;
    Pow2Add(8, 8);
    Pow2Add(16, 16);
  }

  // ---- Inverses modulo a power of two -----------------------------------------------------------

  /** The inverse of an odd number modulo 2^k, one bit at a time. */
  function Inverse(a: nat, k: nat): (x: nat)
    requires a % 2 == 1
    ensures 0 <= x < Pow2(k)
    ensures exists t: int :: a * x == 1 + t * Pow2(k)
    decreases k, a
  {
    if k == 0 then
      assert a * 0 == 1 + (-1) * Pow2(0);
      0
    else
      var x := Inverse(a, k - 1);
      var m := Pow2(k - 1);
      if (a * x - 1) % (2 * m) == 0 then
        EvenLift(a, x, m);
        x
      else
        OddLift(a, x, m);
        x + m
  }

  lemma EvenLift(a: nat, x: nat, m: nat)
    requires m > 0 && (a * x - 1) % (2 * m) == 0
    ensures exists t: int :: a * x == 1 + t * (2 * m)
  {
    var y := a * x - 1;
    var t := y / (2 * m);
    assert y == t * (2 * m);
    assert a * x == 1 + t * (2 * m);
  }

  lemma Halve(s: int, m: nat)
    ensures (2 * s) * m == s * (2 * m)
  {
  }

  lemma Distribute(a: int, b: int, m: int)
    ensures (a + b) * m == a * m + b * m && m * (a + b) == m * a + m * b
  {
  }

  /** An inverse modulo m that is none modulo 2m is off by an odd multiple of m. */
  lemma OddMultiple(y: int, t: int, m: nat)
    requires m > 0 && y == t * m && y % (2 * m) != 0
    ensures t % 2 == 1
  {
    if t % 2 == 0 {
      Halve(t / 2, m);
      Arith.RemainderIsUnique(y, t / 2, 0, 2 * m);
    }
  }

  lemma OddLift(a: nat, x: nat, m: nat)
    requires m > 0 && a % 2 == 1 && (a * x - 1) % (2 * m) != 0
    requires exists t: int :: a * x == 1 + t * m
    ensures exists t: int :: a * (x + m) == 1 + t * (2 * m)
  {
    var t: int :| a * x == 1 + t * m;
    OddMultiple(a * x - 1, t, m);
    var s := (t + a) / 2;
    assert t + a == 2 * s;
    Distribute(x, m, a);
    Distribute(t, a, m);
    Halve(s, m);
    assert a * (x + m) == 1 + s * (2 * m);
  }

  /** `mod_inverse` modulo 2^32: an even number has none. */
  function ModInverse(a: nat): (x: Option<nat>)
    ensures x.Some? ==> x.value < B
  {
    if a % 2 == 0 then
      None
    else
      Pow2Word();
      Some(Inverse(a, 32))
  }

  lemma EvenHasNone(a: nat, x: nat)
    requires a % 2 == 0
    ensures a * x % B != 1
  {
    var h, q := a / 2, a * x / B;
    assert a * x == 2 * (h * x) by {
      assert a == 2 * h;
      assert (2 * h) * x == 2 * (h * x);
    }
    assert a * x == q * B + a * x % B;
  }

  lemma InverseWorks(a: nat)
    requires a % 2 == 1
    ensures Inverse(a, 32) < B && a * Inverse(a, 32) % B == 1
  {
    Pow2Word();
    var y := Inverse(a, 32);
    var t: int :| a * y == 1 + t * Pow2(32);
    Arith.RemainderIsUnique(a * y, t, 1, B);
  }

  lemma InverseIsUnique(a: nat, x: nat, y: nat)
    requires x < B && y < B && a * x % B == 1 && a * y % B == 1
    ensures x == y
  {
    var u, t, d := a * x / B, a * y / B, x - y;
    assert a * x == 1 + u * B && a * y == 1 + t * B;
    assert a * d == (u - t) * B by {
      assert a * (x - y) == a * x - a * y;
      assert (u - t) * B == u * B - t * B;
    }
    assert (a * y) * d == d + (t * d) * B by {
      assert (1 + t * B) * d == d + t * B * d;
      assert t * B * d == (t * d) * B;
    }
    assert (a * y) * d == (y * (u - t)) * B by {
      assert (a * y) * d == y * (a * d);
      assert y * ((u - t) * B) == (y * (u - t)) * B;
    }
    SmallMultiple(d, y * (u - t) - t * d, B);
  }

  /** It is the inverse: it exists exactly for odd numbers, and it is the only one. */
  lemma ModInverseIsTheInverse(a: nat, x: nat)
    requires x < B
    ensures a * x % B == 1 <==> ModInverse(a) == Some(x)
  {
    if a % 2 == 0 {
      EvenHasNone(a, x);
    } else {
      InverseWorks(a);
      if a * x % B == 1 {
        InverseIsUnique(a, x, Inverse(a, 32));
      }
    }
  }

  lemma SmallMultiple(d: int, k: int, m: int)
    requires m > 0 && d == k * m && -m < d < m
    ensures d == 0
  {
    Arith.MulMono(1, if k >= 1 then k else 1, m);
    Arith.MulMono(if k <= -1 then k else -1, -1, m);
  }

  // ---- Montgomery reduction ---------------------------------------------------------------------

  /** `ninv` as the encoding computes it: 2^32 less the inverse. */
  function NInv(n: nat): Option<nat> {
    match ModInverse(n % B)
    case None => None
    case Some(x) => Some(B - x)
  }

  lemma NotZero(a: nat, x: nat)
    requires a * x % B == 1
    ensures x != 0
  {
  }

  lemma LowWordParity(n: nat)
    ensures n % B % 2 == n % 2
  {
    var q, r := n / B, n % B;
    assert n == q * B + r == 2 * (q * (B / 2)) + r;
  }

  /** `ninv` fits 32 bits and satisfies n * ninv = -1 modulo 2^32. */
  lemma NInvIsMinusInverse(n: nat)
    requires n % 2 == 1
    ensures NInv(n).Some? && 0 < NInv(n).value < B && (n * NInv(n).value + 1) % B == 0
  {
    var a := n % B;
    LowWordParity(n);
    InverseWorks(a);
    var x := Inverse(a, 32);
    NotZero(a, x);
    Negated(n, a, x);
  }

  lemma Negated(n: nat, a: nat, x: nat)
    requires a == n % B && a * x % B == 1 && x < B
    ensures (n * (B - x) + 1) % B == 0
  {
    var h, c, y := n / B, a * x / B, B - x;
    assert n == h * B + a && a * x == c * B + 1;
    assert n * y == (h * B) * y + a * y;
    assert (h * B) * y == (h * y) * B;
    assert a * y == a * B - a * x;
    Arith.RemainderIsUnique(n * y + 1, h * y + a - c, 0, B);
  }

  /** One word of the reduction: adds the multiple of `n` that clears the low word, and drops that word. */
  function Step(t: nat, n: nat, ninv: nat): nat {
    (t + t % B * ninv % B * n) / B
  }

  function Steps(t: nat, n: nat, ninv: nat, words: nat): nat
    decreases words, t
  {
    if words == 0 then t else Steps(Step(t, n, ninv), n, ninv, words - 1)
  }

  /** Word-wise Montgomery reduction, with its final subtraction. */
  function Reduce(t: nat, n: nat, ninv: nat, words: nat): nat {
    var r := Steps(t, n, ninv, words);
    if r >= n then r - n else r
  }

  lemma StepExact(t: nat, n: nat, ninv: nat) returns (m: nat)
    requires (n * ninv + 1) % B == 0
    ensures m < B && Step(t, n, ninv) * B == t + m * n
  {
    var low := t % B;
    m := low * ninv % B;
    var c, q, h := low * ninv / B, (n * ninv + 1) / B, t / B;
    assert low * ninv == c * B + m;
    assert n * ninv + 1 == q * B;
    assert t == h * B + low;
    assert m * n == low * (n * ninv) - (c * n) * B by {
      assert (low * ninv - c * B) * n == low * ninv * n - c * B * n;
      assert low * ninv * n == low * (n * ninv);
      assert c * B * n == (c * n) * B;
    }
    assert low * (n * ninv) == (low * q) * B - low by {
      assert low * (q * B - 1) == low * (q * B) - low;
      assert low * (q * B) == (low * q) * B;
    }
    var k := h + low * q - c * n;
    assert t + m * n == k * B by {
      assert (h + low * q - c * n) * B == h * B + (low * q) * B - (c * n) * B;
    }
    Arith.RemainderIsUnique(t + m * n, k, 0, B);
  }

  lemma {:induction false} StepsExact(t: nat, n: nat, ninv: nat, words: nat) returns (q: nat)
    requires (n * ninv + 1) % B == 0
    ensures q < Pow2(32 * words) && Steps(t, n, ninv, words) * Pow2(32 * words) == t + q * n
    decreases words
  {
    if words == 0 {
      q := 0;
    } else {
      var m := StepExact(t, n, ninv);
      var t' := Step(t, n, ninv);
      var q' := StepsExact(t', n, ninv, words - 1);
      q := m + q' * B;
      Pow2Word();
      Pow2Add(32, 32 * (words - 1));
      OneWord(t, t', Steps(t', n, ninv, words - 1), n, m, q', Pow2(32 * (words - 1)));
    }
  }

  lemma OneWord(t: nat, t': nat, s: nat, n: nat, m: nat, q: nat, r: nat)
    requires t' * B == t + m * n && s * r == t' + q * n && m < B && q < r
    ensures s * (B * r) == t + (m + q * B) * n && m + q * B < B * r
  {
    assert s * (B * r) == (s * r) * B == (t' + q * n) * B;
    assert (t' + q * n) * B == t' * B + (q * B) * n;
    assert (m + q * B) * n == m * n + (q * B) * n;
    Arith.MulMono(q, r - 1, B);
    assert (r - 1) * B == B * r - B;
  }

  /** A power of two has no factor in common with an odd number. */
  lemma {:induction false} OddCancels(n: nat, k: nat, y: int, z: int) returns (w: int)
    requires n % 2 == 1 && Pow2(k) * y == n * z
    ensures y == n * w
    decreases k
  {
    if k == 0 {
      w := z;
    } else {
      var h := z / 2;
      assert 2 * (Pow2(k - 1) * y) == n * z;
      var b := z % 2;
      assert n * z == 2 * (n * h) + n * b by {
        assert z == 2 * h + b;
        assert n * (2 * h + b) == n * (2 * h) + n * b;
      }
      assert b == 0 || n * b == n;
      assert n * z == 2 * (n * h);
      w := OddCancels(n, k - 1, y, h);
    }
  }

  /** R^2 mod n. */
  function RR(n: nat, words: nat): nat
    requires n > 0
  {
    Pow2(32 * words) * Pow2(32 * words) % n
  }

  lemma Core(n: nat, ninv: nat, words: nat, x: nat, r: nat, rr: nat, k: nat)
    requires (n * ninv + 1) % B == 0 && n % 2 == 1 && x < n <= r && rr < n
    requires r == Pow2(32 * words) && r * r == k * n + rr
    ensures Reduce(x * rr, n, ninv, words) == x * r % n
  {
    var t := x * rr;
    var s := Steps(t, n, ninv, words);
    var q := StepsExact(t, n, ninv, words);
    SmallProduct(x, rr, n, r);
    Below(s, r, t, q, n);
    CongruentTimesR(s, r, x, rr, q, n, k);
    var w := OddCancels(n, 32 * words, s - x * r, q - x * k);
    FinalSubtraction(s, x * r, n, w);
  }

  lemma RRDivides(n: nat, words: nat) returns (k: nat)
    requires n > 0
    ensures Pow2(32 * words) * Pow2(32 * words) == k * n + RR(n, words) && RR(n, words) < n
  {
    var rem;
    k, rem := Arith.DivMod(Pow2(32 * words) * Pow2(32 * words), n);
  }

  /** Montgomery multiplication with R^2 converts to Montgomery form: with the `ninv` of the encoding (see
      `NInvIsMinusInverse`), reducing x * rr word by word gives x * R mod n, for every odd n below R. */
  lemma MontgomeryConverts(n: nat, words: nat, x: nat, ninv: nat, rr: nat)
    requires n % 2 == 1 && n < Pow2(32 * words) && x < n
    requires (n * ninv + 1) % B == 0 && rr == RR(n, words)
    ensures Reduce(x * rr, n, ninv, words) == x * Pow2(32 * words) % n
  {
    var k := RRDivides(n, words);
    Core(n, ninv, words, x, Pow2(32 * words), rr, k);
  }

  lemma FinalSubtraction(s: nat, y: nat, n: nat, w: int)
    requires 0 <= s < 2 * n && s - y == n * w
    ensures (if s >= n then s - n else s) == y % n
  {
    assert (-w) * n == -(n * w);
    assert (1 - w) * n == n - n * w;
    Arith.RemainderIsUnique(y, if s >= n then 1 - w else -w, if s >= n then s - n else s, n);
  }

  lemma Below(s: nat, r: nat, t: nat, q: nat, n: nat)
    requires s * r == t + q * n && t < n * r && q < r
    ensures s < 2 * n
  {
    Arith.MulMono(q, r - 1, n);
    assert (r - 1) * n == r * n - n;
    assert (2 * n) * r == n * r + r * n;
    Arith.MulMono(2 * n, if s >= 2 * n then s else 2 * n, r);
  }

  lemma CongruentTimesR(s: nat, r: nat, x: nat, rr: nat, q: nat, n: nat, k: nat)
    requires s * r == x * rr + q * n && r * r == k * n + rr
    ensures r * (s - x * r) == n * (q - x * k)
  {
    assert r * (s - x * r) == s * r - x * (r * r) by {
      assert r * (x * r) == x * (r * r);
    }
    assert x * (r * r) == x * (k * n) + x * rr;
    assert n * (q - x * k) == q * n - x * (k * n);
  }

  lemma SmallProduct(x: nat, y: nat, n: nat, r: nat)
    requires x < n && y < n <= r
    ensures x * y < n * r
  {
    Arith.MulMono(x, n - 1, y);
    Arith.MulMono(y, r, n);
    assert (n - 1) * y == n * y - y;
  }

  // ---- The encoding -----------------------------------------------------------------------------

  /** `to_bytes_le`: as few bytes as the number needs, and one for zero. */
  function LeBytes(x: nat): (r: Data)
    ensures |r| >= 1
  {
    if x < 256 then [x] else [x % 256] + LeBytes(x / 256)
  }

  function FromLe(b: Data): nat {
    if b == [] then 0 else b[0] as nat + 256 * FromLe(b[1..])
  }

  lemma {:induction false} LeBytesRoundTrip(x: nat)
    ensures FromLe(LeBytes(x)) == x
  {
    if x < 256 {
      assert FromLe([x]) == x + 256 * FromLe([]);
    } else {
      LeBytesRoundTrip(x / 256);
      assert LeBytes(x)[1..] == LeBytes(x / 256);
    }
  }

  /** Little-endian: byte `i` counts 2^(8 i). */
  lemma {:induction false} LowestFirst(x: nat, i: nat)
    requires i < |LeBytes(x)|
    ensures LeBytes(x)[i] as int == x / Pow2(8 * i) % 256
  {
    if i > 0 {
      LowestFirst(x / 256, i - 1);
      OneByte(i);
      Arith.DivideTwice(x, 256, Pow2(8 * (i - 1)));
    }
  }

  lemma {:induction false} LeBytesLength(x: nat, k: nat)
    requires k >= 1
    ensures |LeBytes(x)| <= k <==> x < Pow2(8 * k)
  {
    OneByte(k);
    if k == 1 {
    } else if x >= 256 {
      LeBytesLength(x / 256, k - 1);
      OneByteLess(x, Pow2(8 * (k - 1)));
    }
  }

  lemma OneByte(k: nat)
    requires k >= 1
    ensures Pow2(8 * k) == 256 * Pow2(8 * (k - 1)) && Pow2(0) == 1
  {
    Pow2Word();
    Pow2Add(8, 8 * (k - 1));
    assert 8 + 8 * (k - 1) == 8 * k;
  }

  lemma OneByteLess(x: nat, m: nat)
    ensures x / 256 < m <==> x < 256 * m
  {
  }

  /** The bytes before base64, for a key of `words` 32-bit words (the transport uses 64), or the reason
      there are none. */
  function Encode(n: nat, e: nat, words: u32): Result<Data> {
    if n == 0 || |LeBytes(n)| != 4 * words then Err("wrong key size")
    else
      match NInv(n)
      case None => Err("mod_inverse")
      case Some(ninv) =>
        if ninv >= B then Err("ninv.to_u32")
        else if e >= B then Err("e.to_u32")
        else Ok(Le32(words) + Le32(ninv) + LeBytes(n) + LeBytes(RR(n, words)) + Le32(e))
  }

  /** Appends the fields one after the other. */
  method EncodePublicKey(n: nat, e: nat, words: u32) returns (r: Result<Data>)
    ensures r == Encode(n, e, words)
  {
    if n == 0 || |LeBytes(n)| != 4 * words {
      return Err("wrong key size");
    }
    var buf := Le32(words);
    var inverse := ModInverse(n % B);
    if inverse.None? {
      return Err("mod_inverse");
    }
    var ninv := B - inverse.value;
    if ninv >= B {
      return Err("ninv.to_u32");
    }
    buf := buf + Le32(ninv);
    buf := buf + LeBytes(n);
    buf := buf + LeBytes(RR(n, words));
    if e >= B {
      return Err("e.to_u32");
    }
    buf := buf + Le32(e);
    return Ok(buf);
  }

  /** A key is encoded exactly if it has the right size, is odd and has a 32-bit exponent. */
  lemma EncodesOddKeys(n: nat, e: nat, words: u32)
    ensures Encode(n, e, words).Ok? <==> n > 0 && |LeBytes(n)| == 4 * words && n % 2 == 1 && e < B
  {
    LowWordParity(n);
    if n % 2 == 1 {
      NInvIsMinusInverse(n);
    }
  }

  /** The fixed layout of the Android key: the number of words, ninv, n and rr in `words` words each, e. */
  datatype Key = Key(ninv: u32, n: nat, rr: nat, e: u32)

  function Parse(b: Data, words: u32): Option<Key> {
    var size := 4 * words;
    if |b| != 12 + 2 * size || FromLe32(b[0..4]) != words then None
    else
      Some(Key(FromLe32(b[4..8]), FromLe(b[8..8 + size]), FromLe(b[8 + size..8 + 2 * size]),
               FromLe32(b[8 + 2 * size..12 + 2 * size])))
  }

  /** The smallest number that needs all the bytes of a key. */
  function FullSize(words: nat): nat
    requires words >= 1
  {
    Pow2(8 * (4 * words - 1))
  }

  lemma RRLength(n: nat, words: nat)
    requires words >= 1 && n > 0 && |LeBytes(n)| == 4 * words
    ensures |LeBytes(RR(n, words))| <= 4 * words
    ensures |LeBytes(RR(n, words))| == 4 * words <==> RR(n, words) >= FullSize(words)
  {
    var k := RRDivides(n, words);
    LeBytesLength(n, 4 * words);
    LeBytesLength(RR(n, words), 4 * words);
    LeBytesLength(RR(n, words), 4 * words - 1);
  }

  lemma Fields(a: Data, b: Data, c: Data, d: Data, f: Data, size: nat)
    requires |a| == 4 && |b| == 4 && |c| == size && |d| == size && |f| == 4
    ensures var all := a + b + c + d + f;
            && |all| == 12 + 2 * size
            && all[0..4] == a && all[4..8] == b && all[8..8 + size] == c
            && all[8 + size..8 + 2 * size] == d && all[8 + 2 * size..12 + 2 * size] == f
  {
  }

  lemma SlicesParse(all: Data, a: Data, b: Data, c: Data, d: Data, f: Data, words: u32)
    requires |a| == 4 && |b| == 4 && |f| == 4 && |all| == 12 + 8 * words
    requires all[0..4] == a && all[4..8] == b && all[8..8 + 4 * words] == c
    requires all[8 + 4 * words..8 + 8 * words] == d && all[8 + 8 * words..12 + 8 * words] == f
    ensures Parse(all, words)
         == if FromLe32(a) != words then None else Some(Key(FromLe32(b), FromLe(c), FromLe(d), FromLe32(f)))
  {
  }

  lemma BlobParses(n: nat, rr: nat, ninv: u32, e: u32, words: u32)
    requires |LeBytes(n)| == 4 * words == |LeBytes(rr)|
    ensures Parse(Le32(words) + Le32(ninv) + LeBytes(n) + LeBytes(rr) + Le32(e), words)
         == Some(Key(ninv, n, rr, e))
  {
    var all := Le32(words) + Le32(ninv) + LeBytes(n) + LeBytes(rr) + Le32(e);
    Fields(Le32(words), Le32(ninv), LeBytes(n), LeBytes(rr), Le32(e), 4 * words);
    SlicesParse(all, Le32(words), Le32(ninv), LeBytes(n), LeBytes(rr), Le32(e), words);
    Le32RoundTrip(words);
    Le32RoundTrip(ninv);
    Le32RoundTrip(e);
    LeBytesRoundTrip(n);
    LeBytesRoundTrip(rr);
  }

  /** The encoding has the fixed layout, and gives back the key, exactly if rr needs all its bytes: rr is
      not padded. */
  lemma LayoutIsExact(n: nat, e: nat, words: u32)
    requires words >= 1
    ensures Encode(n, e, words).Ok? ==>
              && NInv(n).Some? && NInv(n).value < B && e < B
              && var blob, rr := Encode(n, e, words).value, RR(n, words);
                 && (|blob| == 12 + 8 * words <==> rr >= FullSize(words))
                 && (Parse(blob, words) == Some(Key(NInv(n).value, n, rr, e)) <==> rr >= FullSize(words))
  {
    if Encode(n, e, words).Ok? {
      RRLength(n, words);
      if RR(n, words) >= FullSize(words) {
        BlobParses(n, RR(n, words), NInv(n).value, e, words);
      }
    }
  }

  lemma TopByte(words: nat)
    requires words >= 1
    ensures Pow2(32 * words) == FullSize(words) * 256
  {
    Pow2Add(32 * words - 8, 8);
    assert Pow2(8) == 256;
    assert 8 * (4 * words - 1) == 32 * words - 8;
  }

  lemma SquareOfR(r: nat)
    requires r > 2
    ensures r * r % (r - 1) == 1
  {
    assert (r + 1) * (r - 1) == r * r - 1;
    Arith.RemainderIsUnique(r * r, r + 1, 1, r - 1);
  }

  lemma EndsInOnes(m: nat, n: int)
    requires m >= 1 && n == m * 256 - 1
    ensures n > 2 && n % 2 == 1
  {
    assert n == 2 * (m * 128 - 1) + 1;
  }

  lemma AllOnesSize(words: nat, m: nat, n: nat)
    requires words >= 1 && m == FullSize(words) && n == m * 256 - 1
    ensures n == Pow2(32 * words) - 1 && n > 2 && n % 2 == 1 && |LeBytes(n)| == 4 * words
  {
    TopByte(words);
    EndsInOnes(m, n);
    assert 8 * (4 * words) == 32 * words;
    LeBytesLength(n, 4 * words);
    LeBytesLength(n, 4 * words - 1);
  }

  /** The layout does fail: for n = R - 1, which is odd and of full size, rr is 1 and takes one byte. */
  lemma UnpaddedKey(words: u32)
    requires words >= 1
    ensures var r := Encode(AllOnes(words), 65537, words);
            r.Ok? && |r.value| == 12 + 4 * words + 1 && Parse(r.value, words) == None
  {
    var n := AllOnes(words);
    TopByte(words);
    AllOnesSize(words, FullSize(words), n);
    SquareOfR(n + 1);
    assert RR(n, words) == 1;
    EncodesOddKeys(n, 65537, words);
  }

  function AllOnes(words: nat): nat { Pow2(32 * words) - 1 }
}
