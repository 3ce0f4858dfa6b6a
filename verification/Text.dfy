/** Splitting, joining and decimal numbers. */
module Text {
  import opened Wrappers
  import Sequences
  import Arith

  predicate HasPrefix(s: string, p: string) { |p| <= |s| && s[..|p|] == p }

  function StripPrefix(s: string, p: string): Option<string> {
    if HasPrefix(s, p) then Some(s[|p|..]) else None
  }

  /** `str::split` on one character: there is always at least one piece. */
  function Split(s: string, c: char): (r: seq<string>)
    ensures r != []
    ensures forall i :: 0 <= i < |r| ==> c !in r[i]
  {
    if s == [] then [""]
    else
      var rest := Split(s[1..], c);
      if s[0] == c then [""] + rest else [[s[0]] + rest[0]] + rest[1..]
  }

  /** `str::split_once`: the text before and after the first occurrence. */
  function SplitOnce(s: string, sep: string): Option<(string, string)>
    decreases |s|
  {
    if HasPrefix(s, sep) then Some(("", s[|sep|..]))
    else if s == [] then None
    else
      match SplitOnce(s[1..], sep)
      case None => None
      case Some((a, b)) => Some(([s[0]] + a, b))
  }

  /** It splits at the first occurrence. */
  lemma {:induction false} SplitsAtFirst(a: string, b: string, c: char)
    ensures c !in a ==> SplitOnce(a + [c] + b, [c]) == Some((a, b))
    ensures SplitOnce(a, [c]).Some? ==> c !in SplitOnce(a, [c]).value.0
    ensures c !in a ==> SplitOnce(a, [c]) == None
    ensures c in a ==> SplitOnce(a + [c] + b, [c]).Some? && c !in SplitOnce(a + [c] + b, [c]).value.0
    decreases |a|
  {
    var s := a + [c] + b;
    if a == [] {
      assert s == [c] + b && s[..1] == [c] && s[1..] == b;
    } else {
      SplitsAtFirst(a[1..], b, c);
      assert s[1..] == a[1..] + [c] + b;
      assert s[..1] == [a[0]] == a[..1];
      assert [a[0]] + a[1..] == a;
    }
  }

  lemma {:induction false} SplitOnceJoins(s: string, sep: string)
    requires SplitOnce(s, sep).Some?
    ensures var (a, b) := SplitOnce(s, sep).value; s == a + sep + b
    decreases |s|
  {
    if HasPrefix(s, sep) {
      Sequences.Empty(sep);
      assert s == sep + s[|sep|..];
    } else {
      SplitOnceJoins(s[1..], sep);
      var (a, b) := SplitOnce(s[1..], sep).value;
      Sequences.FirstAndRest(s);
      Sequences.Assoc([s[0]], a + sep, b);
      Sequences.Assoc([s[0]], a, sep);
    }
  }

  /** The character at `i` does not begin two equal ones, also not across the end. */
  predicate NoPair(a: string, i: nat, c: char)
    requires i < |a|
  {
    a[i] != c || (i + 1 < |a| && a[i + 1] != c)
  }

  /** A separator of two equal characters does not occur in `a`, nor across its end. */
  predicate Separates(a: string, c: char) {
    forall i :: 0 <= i < |a| ==> NoPair(a, i, c)
  }

  /** Splitting at such a separator finds the one that was put there exactly if none came before. */
  lemma {:induction false} SplitsAtDouble(a: string, b: string, c: char)
    ensures SplitOnce(a + [c, c] + b, [c, c]) == Some((a, b)) <==> Separates(a, c)
    decreases |a|
  {
    var s := a + [c, c] + b;
    if a == [] {
      assert s[..2] == [c, c] && s[2..] == b;
    } else {
      SplitsAtDouble(a[1..], b, c);
      assert s[1..] == a[1..] + [c, c] + b;
      assert [a[0]] + a[1..] == a;
      assert s[0] == a[0] && s[1] == if |a| > 1 then a[1] else c;
      assert s[..2] == [s[0], s[1]];
      SeparatesTail(a, c);
    }
  }

  lemma SeparatesTail(a: string, c: char)
    requires a != []
    ensures Separates(a, c) <==> Separates(a[1..], c) && NoPair(a, 0, c)
  {
    var t := a[1..];
    forall i | 0 <= i < |t|
      ensures NoPair(t, i, c) <==> NoPair(a, i + 1, c)
    {
      assert t[i] == a[i + 1] && (i + 1 < |t| ==> t[i + 1] == a[i + 2]);
    }
    if Separates(t, c) && NoPair(a, 0, c) {
      forall i | 0 <= i < |a| ensures NoPair(a, i, c) {
        assert i > 0 ==> NoPair(t, i - 1, c);
      }
    }
    if Separates(a, c) {
      forall i | 0 <= i < |t| ensures NoPair(t, i, c) {
        assert NoPair(a, i + 1, c);
      }
    }
  }

  /** What `fold` over the pieces builds: each piece followed by the separator. */
  function Joined(pieces: seq<string>, c: char): string {
    if pieces == [] then "" else pieces[0] + [c] + Joined(pieces[1..], c)
  }

  lemma {:induction false} SplitPiece(p: string, rest: string, c: char)
    requires c !in p
    ensures Split(p + [c] + rest, c) == [p] + Split(rest, c)
    ensures Split(p, c) == [p]
  {
    if p == [] {
      assert p + [c] + rest == [c] + rest;
      assert ([c] + rest)[1..] == rest;
    } else {
      SplitPiece(p[1..], rest, c);
      assert (p + [c] + rest)[1..] == p[1..] + [c] + rest;
      assert [p[0]] + p[1..] == p;
    }
  }

  lemma WithoutLast(a: string, b: string)
    requires b != []
    ensures (a + b)[..|a + b| - 1] == a + b[..|b| - 1]
  {
  }

  /** Joining with separators, dropping the last one, and splitting gives the pieces back. */
  lemma {:induction false} SplitJoined(pieces: seq<string>, c: char)
    requires pieces != [] && forall p :: p in pieces ==> c !in p
    ensures Joined(pieces, c) != []
    ensures var j := Joined(pieces, c); Split(j[..|j| - 1], c) == pieces
  {
    var j := Joined(pieces, c);
    if |pieces| == 1 {
      assert pieces[1..] == [];
      Sequences.Empty(pieces[0] + [c]);
      WithoutLast(pieces[0], [c]);
      Sequences.Empty(pieces[0]);
      SplitPiece(pieces[0], "", c);
      assert pieces == [pieces[0]];
    } else {
      SplitJoined(pieces[1..], c);
      var k := Joined(pieces[1..], c);
      WithoutLast(pieces[0] + [c], k);
      SplitPiece(pieces[0], k[..|k| - 1], c);
      Sequences.FirstAndRest(pieces);
    }
  }

  // ---- Decimal numbers --------------------------------------------------------------------------

  function Digit(d: nat): char
    requires d < 10
  {
    "0123456789"[d]
  }

  predicate IsDigit(c: char) { '0' <= c <= '9' }

  function Value(c: char): (d: nat)
    requires IsDigit(c)
    ensures d < 10
  {
    c as int - '0' as int
  }

  function Decimal(n: nat): string {
    if n < 10 then [Digit(n)] else Decimal(n / 10) + [Digit(n % 10)]
  }

  /** The number that digits denote. */
  function Number(s: string): Option<nat> {
    if s == [] then Some(0)
    else
      var k := |s| - 1;
      match Number(s[..k])
      case None => None
      case Some(n) => if IsDigit(s[k]) then Some(10 * n + Value(s[k])) else None
  }

  /** `parse::<u16>`: an optional plus sign, at least one digit, and no overflow. */
  function ParseU16(s: string): Option<nat> {
    var digits := if s != [] && s[0] == '+' then s[1..] else s;
    if digits == [] then None
    else
      match Number(digits)
      case None => None
      case Some(n) => if n < 0x1_0000 then Some(n) else None
  }

  lemma {:induction false} NumberDecimal(n: nat)
    ensures Number(Decimal(n)) == Some(n) && Decimal(n) != [] && IsDigit(Decimal(n)[0])
  {
    if n < 10 {
      assert [Digit(n)][..0] == [];
    } else {
      NumberDecimal(n / 10);
      var s := Decimal(n);
      assert s[..|s| - 1] == Decimal(n / 10);
    }
  }

  function Pow10(k: nat): (r: nat)
    ensures r > 0
  {
    if k == 0 then 1 else 10 * Pow10(k - 1)
  }

  /** The digit that counts 10^k is `k` places from the end, in ASCII. */
  lemma {:induction false} DecimalIsSpelled(n: nat, k: nat)
    requires k < |Decimal(n)|
    ensures Decimal(n)[|Decimal(n)| - 1 - k] as int == '0' as int + n / Pow10(k) % 10
  {
    if k > 0 {
      DecimalIsSpelled(n / 10, k - 1);
      Arith.DivideTwice(n, 10, Pow10(k - 1));
    } else {
      assert n / 1 == n;
    }
  }

  lemma {:induction false} DecimalHasDigits(n: nat)
    ensures forall c :: c in Decimal(n) ==> IsDigit(c)
  {
    if n >= 10 {
      DecimalHasDigits(n / 10);
    }
  }

  // ---- What texts are numbers -------------------------------------------------------------------

  function Zeros(k: nat): (r: string)
    ensures |r| == k
  {
    seq(k, i => '0')
  }

  /** The digits of `n` after `k` zeros, and a plus sign before them or not. */
  predicate PortText(s: string, n: nat, k: nat) {
    s == Zeros(k) + Decimal(n) || s == "+" + (Zeros(k) + Decimal(n))
  }

  lemma {:induction false} OnlyZeros(k: nat)
    ensures Number(Zeros(k)) == Some(0)
  {
    if k > 0 {
      OnlyZeros(k - 1);
      assert Zeros(k)[..k - 1] == Zeros(k - 1);
    }
  }

  lemma {:induction false} AfterZeros(k: nat, s: string)
    ensures Number(Zeros(k) + s) == Number(s)
    decreases |s|
  {
    if s == [] {
      OnlyZeros(k);
      Sequences.Empty(Zeros(k));
    } else {
      var m := |s| - 1;
      AfterZeros(k, s[..m]);
      Sequences.Last(Zeros(k), s);
    }
  }

  /** Digits are the decimal form of their number, after some zeros. */
  lemma {:induction false} NumberIsDecimal(s: string) returns (k: nat)
    requires s != [] && Number(s).Some?
    ensures s == Zeros(k) + Decimal(Number(s).value)
  {
    var m := |s| - 1;
    var d := Value(s[m]);
    assert s == s[..m] + [s[m]] && Digit(d) == s[m];
    if m == 0 {
      k := 0;
      assert Number(s[..0]) == Some(0);
      Sequences.Empty(Decimal(d));
      assert s == [s[0]];
    } else {
      var n := Number(s[..m]).value;
      var j := NumberIsDecimal(s[..m]);
      if n == 0 {
        k := j + 1;
        assert Zeros(j) + [Digit(0)] == Zeros(j + 1);
        assert Decimal(0) == [Digit(0)] && Decimal(d) == [s[m]];
      } else {
        k := j;
        NextDigit(n, d);
        Sequences.Assoc(Zeros(j), Decimal(n), [s[m]]);
      }
    }
  }

  lemma NextDigit(n: nat, d: nat)
    requires n > 0 && d < 10
    ensures Decimal(10 * n + d) == Decimal(n) + [Digit(d)]
  {
    assert (10 * n + d) / 10 == n && (10 * n + d) % 10 == d;
  }

  /** A text is a 16-bit number exactly in these forms. */
  lemma U16IsExact(s: string)
    ensures ParseU16(s).Some? <==> exists n: nat, k: nat :: n < 0x1_0000 && PortText(s, n, k)
    ensures forall n: nat, k: nat :: n < 0x1_0000 && PortText(s, n, k) ==> ParseU16(s) == Some(n)
  {
    forall n: nat, k: nat | n < 0x1_0000 && PortText(s, n, k)
      ensures ParseU16(s) == Some(n)
    {
      FormParses(s, n, k);
    }
    if ParseU16(s).Some? {
      var digits := if s[0] == '+' then s[1..] else s;
      var k := NumberIsDecimal(digits);
      Sequences.FirstAndRest(s);
      assert PortText(s, Number(digits).value, k);
    }
  }

  lemma FormIsNumber(n: nat, k: nat)
    ensures var digits := Zeros(k) + Decimal(n);
            digits != [] && IsDigit(digits[0]) && Number(digits) == Some(n)
  {
    NumberDecimal(n);
    AfterZeros(k, Decimal(n));
    if k == 0 {
      Sequences.Empty(Decimal(n));
    } else {
      Sequences.Front(Zeros(k), Decimal(n));
    }
  }

  lemma DigitsParse(digits: string, n: nat)
    requires n < 0x1_0000 && digits != [] && IsDigit(digits[0]) && Number(digits) == Some(n)
    ensures ParseU16(digits) == Some(n) && ParseU16("+" + digits) == Some(n)
  {
    Sequences.Front("+", digits);
    Sequences.Empty(digits);
  }

  lemma FormParses(s: string, n: nat, k: nat)
    requires n < 0x1_0000 && PortText(s, n, k)
    ensures ParseU16(s) == Some(n)
  {
    FormIsNumber(n, k);
    DigitsParse(Zeros(k) + Decimal(n), n);
  }

  lemma ParseDecimal(n: nat)
    ensures ParseU16(Decimal(n)) == if n < 0x1_0000 then Some(n) else None
  {
    NumberDecimal(n);
  }
}
