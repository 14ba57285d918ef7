/** Bytes: big-endian numbers, UTF-8 text, and decimal text. */
module Bytes {
  import opened Wrappers
  import opened Decimal

  type Byte = x: int | 0 <= x < 256
  type Bytes = seq<Byte>

  const U32: nat := 0x1_0000_0000
  const U64: nat := 0x1_0000_0000_0000_0000

  // ---------------------------------------------------------------- big-endian numbers

  function Pow256(w: nat): (r: nat)
    ensures r > 0
  {
    if w == 0 then 1 else 256 * Pow256(w - 1)
  }

  /** The low `w` bytes of `n`, most significant first. */
  function ToBe(n: nat, w: nat): (b: Bytes)
    ensures |b| == w
  {
    if w == 0 then [] else ToBe(n / 256, w - 1) + [n % 256]
  }

  function FromBe(b: Bytes): nat {
    if b == [] then 0 else FromBe(b[..|b| - 1]) * 256 + b[|b| - 1]
  }

  lemma SplitMod(n: nat, m: nat)
    requires m > 0
    ensures n / 256 % m * 256 + n % 256 == n % (256 * m)
  {
    var q, r := n / 256 / m, n / 256 % m;
    assert n / 256 == m * q + r;
    var low := r * 256 + n % 256;
    assert n == 256 * (n / 256) + n % 256;
    assert 256 * (m * q) == (256 * m) * q;
    assert n == (256 * m) * q + low;
    assert low < 256 * m by {
      assert r <= m - 1;
    }
    Remainder(n, 256 * m, q, low);
  }

  lemma Remainder(n: nat, d: nat, q: nat, r: nat)
    requires d > 0 && r < d && n == d * q + r
    ensures n % d == r
  {
    var k := n / d - q;
    assert d * (n / d) == d * q + d * k;
    assert d * -k == -(d * k);
    if k != 0 {
      AtLeast(d, if k > 0 then k else -k);
    }
  }

  lemma {:induction false} AtLeast(d: nat, k: nat)
    requires k > 0
    ensures d * k >= d
  {
    if k > 1 {
      AtLeast(d, k - 1);
      assert d * k == d * (k - 1) + d;
    }
  }

  /** Writing keeps a number modulo its width, so exactly the numbers that fit come back. */
  lemma {:induction false} BeReads(n: nat, w: nat)
    ensures FromBe(ToBe(n, w)) == n % Pow256(w)
  {
    if w > 0 {
      BeReads(n / 256, w - 1);
      SplitMod(n, Pow256(w - 1));
      assert ToBe(n, w)[..w - 1] == ToBe(n / 256, w - 1);
    }
  }

  lemma {:induction false} BeWrites(b: Bytes)
    ensures FromBe(b) < Pow256(|b|)
    ensures ToBe(FromBe(b), |b|) == b
  {
    if b != [] {
      var front, last := b[..|b| - 1], b[|b| - 1];
      BeWrites(front);
      assert FromBe(b) / 256 == FromBe(front) && FromBe(b) % 256 == last;
      assert front + [last] == b;
    }
  }

  lemma Quotient(n: nat, d: nat, q: nat, r: nat)
    requires d > 0 && r < d && n == d * q + r
    ensures n / d == q
  {
    Remainder(n, d, q, r);
    var k := n / d - q;
    assert d * (n / d) == d * q + d * k;
  }

  lemma DividedTwice(n: nat, m: nat)
    requires m > 0
    ensures n / 256 / m == n / (256 * m)
  {
    var q, r := n / 256 / m, n / 256 % m;
    assert n / 256 == m * q + r;
    assert 256 * (m * q) == (256 * m) * q;
    var low := r * 256 + n % 256;
    assert low < 256 * m by {
      assert r <= m - 1;
    }
    Quotient(n, 256 * m, q, low);
  }

  /** The most significant byte stands first. */
  lemma {:induction false} BeDigits(n: nat, w: nat, i: nat)
    requires i < w
    ensures ToBe(n, w)[i] == n / Pow256(w - 1 - i) % 256
  {
    if i < w - 1 {
      BeDigits(n / 256, w - 1, i);
      DividedTwice(n, Pow256(w - 2 - i));
    }
  }

  lemma Widths()
    ensures Pow256(4) == U32 && Pow256(8) == U64
  {
    assert Pow256(1) == 256 && Pow256(2) == 65536 && Pow256(3) == 16777216 && Pow256(4) == U32;
    assert Pow256(5) == 256 * U32 && Pow256(6) == 65536 * U32 && Pow256(7) == 16777216 * U32;
  }

  lemma Be4(n: nat)
    ensures FromBe(ToBe(n, 4)) == n % U32
  {
    Widths();
    BeReads(n, 4);
  }

  lemma Be8(n: nat)
    requires n < U64
    ensures FromBe(ToBe(n, 8)) == n
  {
    Widths();
    BeReads(n, 8);
  }

  lemma Be4Writes(b: Bytes)
    requires |b| == 4
    ensures FromBe(b) < U32 && ToBe(FromBe(b), 4) == b
  {
    Widths();
    BeWrites(b);
  }

  lemma Be8Writes(b: Bytes)
    requires |b| == 8
    ensures FromBe(b) < U64 && ToBe(FromBe(b), 8) == b
  {
    Widths();
    BeWrites(b);
  }

  // ---------------------------------------------------------------- text

  predicate Continuation(b: Byte) {
    0x80 <= b < 0xC0
  }

  /** The length of the UTF-8 sequence `b` starts with (section 4 of RFC 3629), or 0 when it starts with none. */
  function CharLength(b: Bytes): (n: nat)
    ensures n <= |b|
  {
    if b == [] then 0
    else if b[0] < 0x80 then 1
    else if 0xC2 <= b[0] < 0xE0 && |b| >= 2 && Continuation(b[1]) then 2
    else if 0xE0 <= b[0] < 0xF0 && |b| >= 3 && Continuation(b[1]) && Continuation(b[2])
            && (b[0] == 0xE0 ==> b[1] >= 0xA0) && (b[0] == 0xED ==> b[1] < 0xA0) then 3
    else if 0xF0 <= b[0] < 0xF5 && |b| >= 4 && Continuation(b[1]) && Continuation(b[2]) && Continuation(b[3])
            && (b[0] == 0xF0 ==> b[1] >= 0x90) && (b[0] == 0xF4 ==> b[1] < 0x90) then 4
    else 0
  }

  predicate Utf8(b: Bytes) {
    b == [] || (CharLength(b) > 0 && Utf8(b[CharLength(b)..]))
  }

  type Text = b: Bytes | Utf8(b) witness []

  lemma {:induction false} AsciiIsUtf8(b: Bytes)
    requires forall i :: 0 <= i < |b| ==> b[i] < 0x80
    ensures Utf8(b)
  {
    if b != [] {
      AsciiIsUtf8(b[1..]);
    }
  }

  // ---------------------------------------------------------------- decimal text

  predicate Ascii(s: string) {
    forall i :: 0 <= i < |s| ==> s[i] < 0x80 as char
  }

  function Encode(s: string): Bytes
    requires Ascii(s)
  {
    seq(|s|, i requires 0 <= i < |s| => s[i] as int)
  }

  function Chars(b: Bytes): string {
    seq(|b|, i requires 0 <= i < |b| => b[i] as char)
  }

  function ShowBytes(n: nat): Text {
    ShowExact(n);
    AsciiIsUtf8(Encode(Show(n)));
    Encode(Show(n))
  }

  /** `parse::<u64>`: an optional plus, then digits that fit. */
  function ParseU64(b: Bytes): Option<nat> {
    var all := Chars(b);
    var s := if all != "" && all[0] == '+' then all[1..] else all;
    if s == "" || !AllDigits(s) || Value(s) >= U64 then None else Some(Value(s))
  }

  lemma ParseShown(n: nat)
    ensures ParseU64(ShowBytes(n)) == if n < U64 then Some(n) else None
    ensures n < U64 ==> |ShowBytes(n)| <= 20
  {
    ShowExact(n);
    assert Chars(ShowBytes(n)) == Show(n);
    ShowLength(n, 20);
    TenToTwenty();
  }

  lemma TenToTwenty()
    ensures U64 < Pow10(20)
  {
    assert Pow10(4) == 10 * Pow10(3) && Pow10(3) == 1000;
    assert Pow10(8) == 10000 * Pow10(4);
    assert Pow10(12) == 10000 * Pow10(8);
    assert Pow10(16) == 10000 * Pow10(12);
    assert Pow10(20) == 10000 * Pow10(16);
  }
}
