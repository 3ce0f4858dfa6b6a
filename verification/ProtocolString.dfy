/** Strings on a stream: four hexadecimal digits of length, then the bytes. */
module ProtocolString {
  import opened Bytes
  import opened Wrappers
  import Sequences

  function HexDigit(d: nat): byte
    requires d < 16
  {
    if d < 10 then 48 + d else 87 + d
  }

  function HexValue(c: byte): Option<nat> {
    if 48 <= c <= 57 then Some(c - 48)
    else if 97 <= c <= 102 then Some(c - 87)
    else if 65 <= c <= 70 then Some(c - 55)
    else None
  }

  /** `{:x}`. */
  function Hex(n: nat): (r: Data)
    ensures r != []
  {
    if n < 16 then [HexDigit(n)] else Hex(n / 16) + [HexDigit(n % 16)]
  }

  function Zeros(k: nat): (r: Data)
    ensures |r| == k
  {
    seq(k, i => 48)
  }

  /** `{:04x}`: at least four digits. */
  function Hex4(n: nat): Data {
    var h := Hex(n);
    if |h| >= 4 then h else Zeros(4 - |h|) + h
  }

  function HexNumber(b: Data): Option<nat> {
    if b == [] then Some(0)
    else
      var k := |b| - 1;
      match (HexNumber(b[..k]), HexValue(b[k]))
      case (Some(n), Some(d)) => Some(16 * n + d)
      case _ => None
  }

  /** `usize::from_str_radix(_, 16)` on four bytes: a leading plus sign is allowed. */
  function ParseHex(b: Data): Option<nat>
    requires |b| == 4
  {
    if b[0] == 43 then HexNumber(b[1..]) else HexNumber(b)
  }

  function Write(d: Data): Data { Hex4(|d|) + d }

  /** One string from the front of a stream, and the rest; `utf8` says which byte strings are text. */
  function Read(s: Data, utf8: Data -> bool): Result<(Data, Data)> {
    if |s| < 4 then Err("unexpected end")
    else
      match ParseHex(s[..4])
      case None => Err("len")
      case Some(n) =>
        if |s| < 4 + n then Err("unexpected end")
        else if !utf8(s[4..4 + n]) then Err("service")
        else Ok((s[4..4 + n], s[4 + n..]))
  }

  class Stream {
    var data: Data

    constructor (data: Data)
      ensures this.data == data
    {
      this.data := data;
    }

    method ReadExact(n: nat) returns (r: Option<Data>)
      modifies this
      ensures if n <= |old(data)| then r == Some(old(data)[..n]) && data == old(data)[n..] else r == None
    {
      if n > |data| {
        return None;
      }
      r := Some(data[..n]);
      data := data[n..];
    }

    method WriteAll(d: Data)
      modifies this
      ensures data == old(data) + d
    {
      data := data + d;
    }

    method ReadProtocolString(utf8: Data -> bool) returns (r: Result<Data>)
      modifies this
      ensures match Read(old(data), utf8)
              case Ok((d, rest)) => r == Ok(d) && data == rest
              case Err(_) => r.Err?
    {
      var head := ReadExact(4);
      if head.None? {
        return Err("unexpected end");
      }
      var len := ParseHex(head.value);
      if len.None? {
        return Err("len");
      }
      var buf := ReadExact(len.value);
      assert head.value == old(data)[..4];
      if buf.None? {
        return Err("unexpected end");
      }
      assert old(data)[4..][..len.value] == old(data)[4..4 + len.value];
      assert old(data)[4..][len.value..] == old(data)[4 + len.value..];
      if !utf8(buf.value) {
        return Err("service");
      }
      return Ok(buf.value);
    }

    method WriteProtocolString(d: Data)
      modifies this
      ensures data == old(data) + Write(d)
    {
      WriteAll(Hex4(|d|));
      WriteAll(d);
    }
  }

  // ---- Round trip -------------------------------------------------------------------------------

  lemma HexDigits(d: nat)
    requires d < 16
    ensures HexValue(HexDigit(d)) == Some(d) && HexDigit(d) != 43
  {
  }

  lemma {:induction false} HexNumberOfHex(n: nat)
    ensures HexNumber(Hex(n)) == Some(n)
    ensures forall i :: 0 <= i < |Hex(n)| ==> Hex(n)[i] != 43
  {
    if n < 16 {
      assert Hex(n)[..0] == [];
      HexDigits(n);
    } else {
      HexNumberOfHex(n / 16);
      HexDigits(n % 16);
      assert Hex(n)[..|Hex(n)| - 1] == Hex(n / 16);
    }
  }

  lemma {:induction false} LeadingZeros(k: nat, b: Data)
    ensures HexNumber(Zeros(k) + b) == HexNumber(b)
    decreases |b|
  {
    if b == [] {
      OnlyZeros(k);
      assert Zeros(k) + b == Zeros(k);
    } else {
      var m := |b| - 1;
      LeadingZeros(k, b[..m]);
      assert (Zeros(k) + b)[..k + m] == Zeros(k) + b[..m];
    }
  }

  lemma {:induction false} OnlyZeros(k: nat)
    ensures HexNumber(Zeros(k)) == Some(0)
  {
    if k > 0 {
      OnlyZeros(k - 1);
      assert Zeros(k)[..k - 1] == Zeros(k - 1);
    }
  }

  lemma HexLength(n: nat)
    ensures |Hex(n)| <= 4 <==> n < 0x1_0000
  {
    assert Hex(n) == if n < 16 then [HexDigit(n)] else Hex(n / 16) + [HexDigit(n % 16)];
    var a := n / 16;
    assert Hex(a) == if a < 16 then [HexDigit(a)] else Hex(a / 16) + [HexDigit(a % 16)];
    var b := a / 16;
    assert Hex(b) == if b < 16 then [HexDigit(b)] else Hex(b / 16) + [HexDigit(b % 16)];
    var c := b / 16;
    assert Hex(c) == if c < 16 then [HexDigit(c)] else Hex(c / 16) + [HexDigit(c % 16)];
  }

  lemma Hex4Parses(n: nat)
    requires n < 0x1_0000
    ensures |Hex4(n)| == 4 && ParseHex(Hex4(n)) == Some(n)
  {
    HexLength(n);
    HexNumberOfHex(n);
    Padded(Hex(n));
  }

  /** Filling up with zeros changes no number. */
  lemma Padded(h: Data)
    requires 0 < |h| <= 4 && h[0] != 43
    ensures var b := if |h| >= 4 then h else Zeros(4 - |h|) + h; |b| == 4 && b[0] != 43 && HexNumber(b) == HexNumber(h)
  {
    if |h| < 4 {
      LeadingZeros(4 - |h|, h);
      Sequences.Front(Zeros(4 - |h|), h);
    }
  }

  /** With more than four digits the reader takes the first four, which denote a smaller length. */
  lemma {:induction false} LongHexPrefix(n: nat)
    requires n >= 0x1_0000
    ensures |Hex(n)| > 4
    ensures HexNumber(Hex(n)[..4]).Some? && HexNumber(Hex(n)[..4]).value < 0x1_0000
    ensures Hex(n)[0] != 43
  {
    HexLength(n);
    HexNumberOfHex(n);
    if n / 16 < 0x1_0000 {
      Hex4Parses(n / 16);
      HexLength(n / 16);
      HexNumberOfHex(n / 16);
      FourDigits(n / 16);
      assert Hex(n)[..4] == Hex(n / 16);
    } else {
      LongHexPrefix(n / 16);
      assert Hex(n)[..4] == Hex(n / 16)[..4];
    }
  }

  lemma FourDigits(n: nat)
    requires 0x1000 <= n < 0x1_0000
    ensures |Hex(n)| == 4
  {
    HexLength(n);
    var a := n / 16;
    var b := a / 16;
    assert Hex(n) == Hex(a) + [HexDigit(n % 16)];
    assert Hex(a) == Hex(b) + [HexDigit(a % 16)];
    assert Hex(b) == Hex(b / 16) + [HexDigit(b % 16)];
  }

  /** What is read is exactly what stands there: a length in four digits, so many bytes, and these are a text. A
      stream that ends before, another length, and bytes that are no text are errors. */
  lemma ReadIsExact(s: Data, d: Data, rest: Data, utf8: Data -> bool)
    ensures Read(s, utf8) == Ok((d, rest)) <==>
              |s| >= 4 && ParseHex(s[..4]) == Some(|d|) && s[4..] == d + rest && utf8(d)
  {
    if |s| >= 4 && ParseHex(s[..4]) == Some(|d|) && s[4..] == d + rest {
      var n := |d|;
      Sequences.Parts(d, rest);
      assert s[4..4 + n] == s[4..][..n] && s[4 + n..] == s[4..][n..];
    }
    if Read(s, utf8) == Ok((d, rest)) {
      var n := |d|;
      assert s[4..] == s[4..4 + n] + s[4 + n..];
    }
  }

  /** A hexadecimal digit is one of these characters, and means its place. */
  lemma HexValueIsExact(c: byte, d: nat)
    requires d < 16
    ensures HexValue(c) == Some(d) <==>
              c as int == "0123456789abcdef"[d] as int || c as int == "0123456789ABCDEF"[d] as int
  {
  }

  predicate IsDigit(c: byte) { HexValue(c).Some? }

  function HexOr0(c: byte): nat { if IsDigit(c) then HexValue(c).value else 0 }

  lemma HexNumberNext(b: Data, c: byte)
    ensures HexNumber(b + [c])
         == if HexNumber(b).Some? && IsDigit(c) then Some(16 * HexNumber(b).value + HexOr0(c)) else None
  {
    assert (b + [c])[..|b|] == b;
  }

  lemma ThreeDigits(x: byte, y: byte, z: byte)
    ensures HexNumber([x, y, z])
         == if IsDigit(x) && IsDigit(y) && IsDigit(z) then Some(256 * HexOr0(x) + 16 * HexOr0(y) + HexOr0(z)) else None
  {
    HexNumberNext([], x);
    assert [] + [x] == [x];
    HexNumberNext([x], y);
    assert [x] + [y] == [x, y];
    HexNumberNext([x, y], z);
    assert [x, y] + [z] == [x, y, z];
  }

  /** A length is four digits, or a plus sign and three, the highest first. */
  lemma LengthIsExact(w: byte, x: byte, y: byte, z: byte)
    ensures var low := 256 * HexOr0(x) + 16 * HexOr0(y) + HexOr0(z);
            ParseHex([w, x, y, z])
            == if !(IsDigit(x) && IsDigit(y) && IsDigit(z)) then None
               else if w as int == '+' as int then Some(low)
               else if IsDigit(w) then Some(4096 * HexOr0(w) + low)
               else None
  {
    ThreeDigits(x, y, z);
    ThreeDigits(w, x, y);
    HexNumberNext([w, x, y], z);
    assert [w, x, y, z][1..] == [x, y, z] && [w, x, y] + [z] == [w, x, y, z];
  }

  /** The digits of a written length are hexadecimal digits in ASCII, the highest first. */
  lemma LengthIsSpelled(n: nat)
    requires n < 0x1_0000
    ensures var digits := "0123456789abcdef";
            Spells(Hex4(n), [digits[n / 4096], digits[n / 256 % 16], digits[n / 16 % 16], digits[n % 16]])
  {
    HexLength(n);
    DigitIsSpelled(n / 4096);
    DigitIsSpelled(n / 256 % 16);
    DigitIsSpelled(n / 16 % 16);
    DigitIsSpelled(n % 16);
    FourHex(n);
  }

  lemma DigitIsSpelled(d: nat)
    requires d < 16
    ensures HexDigit(d) as int == "0123456789abcdef"[d] as int
  {
  }

  lemma FourHex(n: nat)
    requires n < 0x1_0000
    ensures Hex4(n) == [HexDigit(n / 4096), HexDigit(n / 256 % 16), HexDigit(n / 16 % 16), HexDigit(n % 16)]
  {
    var a := n / 16;
    var b := a / 16;
    var c := b / 16;
    assert b == n / 256 && c == n / 4096;
    assert Hex(c) == [HexDigit(c)];
    assert Hex(b) == if b < 16 then [HexDigit(b)] else Hex(c) + [HexDigit(b % 16)];
    assert Hex(a) == if a < 16 then [HexDigit(a)] else Hex(b) + [HexDigit(a % 16)];
    assert Hex(n) == if n < 16 then [HexDigit(n)] else Hex(a) + [HexDigit(n % 16)];
    assert HexDigit(0) == 48;
  }

  /** A text is read back, and the rest of the stream is left alone, exactly if its length fits four
      digits. */
  lemma ReadWrite(d: Data, rest: Data, utf8: Data -> bool)
    requires utf8(d)
    ensures Read(Write(d) + rest, utf8) == Ok((d, rest)) <==> |d| < 0x1_0000
  {
    var s, n := Write(d) + rest, |d|;
    if n < 0x1_0000 {
      Hex4Parses(n);
      assert s[..4] == Hex4(n);
      assert s[4..4 + n] == d && s[4 + n..] == rest;
    } else {
      LongHexPrefix(n);
      assert s[..4] == Hex(n)[..4];
    }
  }

  function WriteMany(ds: seq<Data>): Data {
    if ds == [] then [] else Write(ds[0]) + WriteMany(ds[1..])
  }

  function ReadMany(s: Data, k: nat, utf8: Data -> bool): Result<(seq<Data>, Data)> {
    if k == 0 then Ok(([], s))
    else
      match Read(s, utf8)
      case Err(e) => Err(e)
      case Ok((d, rest)) =>
        match ReadMany(rest, k - 1, utf8)
        case Err(e) => Err(e)
        case Ok((ds, end)) => Ok(([d] + ds, end))
  }

  /** Any texts written one after the other are read back in order, and what follows is untouched. */
  lemma {:induction false} ReadWriteMany(ds: seq<Data>, rest: Data, utf8: Data -> bool)
    requires forall d :: d in ds ==> utf8(d) && |d| < 0x1_0000
    ensures ReadMany(WriteMany(ds) + rest, |ds|, utf8) == Ok((ds, rest))
  {
    if ds == [] {
      assert WriteMany(ds) + rest == rest;
    } else {
      ReadWriteMany(ds[1..], rest, utf8);
      ReadWrite(ds[0], WriteMany(ds[1..]) + rest, utf8);
      Sequences.Assoc(Write(ds[0]), WriteMany(ds[1..]), rest);
      Sequences.FirstAndRest(ds);
    }
  }
}
