/** Delivery identifiers as the text the table stores, and why ordering the text orders the numbers. */
module DeliveryIds {
  import opened Text

  const BITS: nat := 0x1_0000_0000_0000_0000_0000_0000_0000_0000

  function HexDigit(n: nat): char
    requires n < 16
  {
    if n < 10 then '0' + n as char else 'a' + (n - 10) as char
  }

  /** `n` in exactly `width` lower-case hexadecimal digits. */
  function Hex(n: nat, width: nat): (s: string)
    ensures |s| == width
  {
    if width == 0 then "" else Hex(n / 16, width - 1) + [HexDigit(n % 16)]
  }

  function Pow16(k: nat): (p: nat)
    ensures p > 0
  {
    if k == 0 then 1 else 16 * Pow16(k - 1)
  }

  lemma DigitOrder(m: nat, n: nat)
    requires m < 16 && n < 16
    ensures HexDigit(m) < HexDigit(n) <==> m < n
    ensures HexDigit(m) == HexDigit(n) <==> m == n
  {
  }

  lemma {:induction false} HexOrder(m: nat, n: nat, width: nat)
    requires m < Pow16(width) && n < Pow16(width)
    ensures Before(Hex(m, width), Hex(n, width)) <==> m < n
    ensures Hex(m, width) == Hex(n, width) <==> m == n
    decreases width
  {
    if width == 0 {
    } else {
      var a, b := Hex(m / 16, width - 1), Hex(n / 16, width - 1);
      var x, y := HexDigit(m % 16), HexDigit(n % 16);
      HexOrder(m / 16, n / 16, width - 1);
      DigitOrder(m % 16, n % 16);
      BeforeByParts(a, [x], b, [y]);
      assert [x][1..] == "" && [y][1..] == "";
      assert (a + [x])[..width - 1] == a && (b + [y])[..width - 1] == b;
      assert (a + [x])[width - 1] == x && (b + [y])[width - 1] == y;
    }
  }

  /** Groups of 8, 4, 4, 4 and 12 characters with dashes between them. */
  function Dashed(h: string): string
    requires |h| == 32
  {
    h[..8] + ['-'] + (h[8..12] + ['-'] + (h[12..16] + ['-'] + (h[16..20] + ['-'] + h[20..])))
  }

  lemma CutOrder(a: string, b: string, k: nat)
    requires |a| == |b| && k <= |a|
    ensures Before(a, b) <==> Before(a[..k], b[..k]) || (a[..k] == b[..k] && Before(a[k..], b[k..]))
  {
    BeforeByParts(a[..k], a[k..], b[..k], b[k..]);
    assert a == a[..k] + a[k..] && b == b[..k] + b[k..];
  }

  /** One group cut off, with a dash in its place. */
  lemma GroupOrder(a: string, b: string, k: nat, rest: string, rest': string)
    requires |a| == |b| && k <= |a|
    requires Before(rest, rest') <==> Before(a[k..], b[k..])
    ensures Before(a[..k] + ['-'] + rest, b[..k] + ['-'] + rest') <==> Before(a, b)
  {
    CutOrder(a, b, k);
    BeforeByField(a[..k], rest, b[..k], rest', '-');
  }

  lemma DashesKeepOrder(a: string, b: string)
    requires |a| == |b| == 32
    ensures Before(Dashed(a), Dashed(b)) <==> Before(a, b)
  {
    var a4, b4 := a[16..20] + ['-'] + a[20..], b[16..20] + ['-'] + b[20..];
    assert a[16..][..4] == a[16..20] && a[16..][4..] == a[20..] && b[16..][..4] == b[16..20] && b[16..][4..] == b[20..];
    GroupOrder(a[16..], b[16..], 4, a[20..], b[20..]);
    var a3, b3 := a[12..16] + ['-'] + a4, b[12..16] + ['-'] + b4;
    assert a[12..][..4] == a[12..16] && a[12..][4..] == a[16..] && b[12..][..4] == b[12..16] && b[12..][4..] == b[16..];
    GroupOrder(a[12..], b[12..], 4, a4, b4);
    var a2, b2 := a[8..12] + ['-'] + a3, b[8..12] + ['-'] + b3;
    assert a[8..][..4] == a[8..12] && a[8..][4..] == a[12..] && b[8..][..4] == b[8..12] && b[8..][4..] == b[12..];
    GroupOrder(a[8..], b[8..], 4, a3, b3);
    GroupOrder(a, b, 8, a2, b2);
  }

  /** The hyphenated lower-case form of a 128-bit identifier. */
  function IdText(id: nat): string { Dashed(Hex(id, 32)) }

  /** Ordering stored identifiers as text is ordering them as numbers, so ties broken by identifier fall
      out alike. */
  lemma IdTextOrder(a: nat, b: nat)
    requires a < BITS && b < BITS
    ensures Before(IdText(a), IdText(b)) <==> a < b
  {
    assert Pow16(32) == BITS by { Powers(); }
    HexOrder(a, b, 32);
    DashesKeepOrder(Hex(a, 32), Hex(b, 32));
  }

  /** Every character but the four dashes is a lower-case hexadecimal digit. */
  lemma IdTextForm(id: nat)
    ensures |IdText(id)| == 36
    ensures forall i :: 0 <= i < 36 ==>
      if i in [8, 13, 18, 23] then IdText(id)[i] == '-' else IdText(id)[i] in "0123456789abcdef"
  {
    HexIsHex(id, 32);
  }

  lemma {:induction false} HexIsHex(n: nat, width: nat)
    ensures forall i :: 0 <= i < width ==> Hex(n, width)[i] in "0123456789abcdef"
    decreases width
  {
    if width == 0 {
    } else {
      HexIsHex(n / 16, width - 1);
      assert HexDigit(n % 16) == "0123456789abcdef"[n % 16];
      assert HexDigit(n % 16) in "0123456789abcdef";
    }
  }

  lemma Powers()
    ensures Pow16(32) == BITS
  {
    assert Pow16(4) == 0x1_0000;
    assert Pow16(8) == 0x1_0000_0000;
    assert Pow16(16) == 0x1_0000_0000_0000_0000;
    assert Pow16(24) == 0x1_0000_0000_0000_0000_0000_0000;
  }
}
