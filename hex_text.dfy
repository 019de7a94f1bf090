/**
 * Text helpers shared by the two colour utilities: removing the optional
 * leading '#', expanding the 3-digit short form, reading hex digits the way
 * `parseInt(s, 16)` does, and writing a number in decimal as a template
 * literal does.
 */
module HexText {
  import opened Results

  predicate IsHexDigit(c: char) {
    '0' <= c <= '9' || 'a' <= c <= 'f' || 'A' <= c <= 'F'
  }

  predicate AllHex(s: string) {
    forall i :: 0 <= i < |s| ==> IsHexDigit(s[i])
  }

  function DigitValue(c: char): (v: nat)
    requires IsHexDigit(c)
    ensures v < 16
    ensures ('0' <= c <= '9') == (v < 10)
  {
    if '0' <= c <= '9' then c as int - '0' as int
    else if 'a' <= c <= 'f' then c as int - 'a' as int + 10
    else c as int - 'A' as int + 10
  }

  function Pow16(n: nat): (p: nat)
    ensures p >= 1
  {
    if n == 0 then 1 else 16 * Pow16(n - 1)
  }

  /** The big-endian value of a string of hex digits. */
  function HexValue(s: string): (v: nat)
    requires AllHex(s)
    ensures v < Pow16(|s|)
    decreases |s|
  {
    if s == [] then 0
    else
      var init := s[..|s| - 1];
      assert AllHex(init) by {
        forall i | 0 <= i < |init| ensures IsHexDigit(init[i]) { assert init[i] == s[i]; }
      }
      var d := DigitValue(s[|s| - 1]);
      var w := HexValue(init);
      assert w * 16 + d < Pow16(|s|) by {
        assert w + 1 <= Pow16(|init|);
        assert (w + 1) * 16 <= Pow16(|init|) * 16;
      }
      w * 16 + d
  }

  /** Reading the digits of `a + b` is reading `a`, shifting by the length of `b`, and adding `b`. */
  lemma {:induction false} HexValueConcat(a: string, b: string)
    requires AllHex(a) && AllHex(b)
    ensures AllHex(a + b)
    ensures HexValue(a + b) == HexValue(a) * Pow16(|b|) + HexValue(b)
    decreases |b|
  {
    assert AllHex(a + b) by {
      forall i | 0 <= i < |a + b| ensures IsHexDigit((a + b)[i]) {
        if i < |a| { assert (a + b)[i] == a[i]; } else { assert (a + b)[i] == b[i - |a|]; }
      }
    }
    if b == [] {
      assert a + b == a;
    } else {
      var b' := b[..|b| - 1];
      var d := b[|b| - 1];
      assert AllHex(b') by {
        forall i | 0 <= i < |b'| ensures IsHexDigit(b'[i]) { assert b'[i] == b[i]; }
      }
      assert (a + b)[..|a + b| - 1] == a + b';
      assert (a + b)[|a + b| - 1] == d;
      HexValueConcat(a, b');
      var va, vb', p := HexValue(a), HexValue(b'), Pow16(|b'|);
      assert HexValue(a + b) == HexValue(a + b') * 16 + DigitValue(d);
      assert HexValue(b) == vb' * 16 + DigitValue(d) by { assert b[..|b| - 1] == b'; }
      assert Pow16(|b|) == p * 16;
      ShiftByDigit(va, p, vb', DigitValue(d));
    }
  }

  lemma ShiftByDigit(high: int, scale: int, low: int, digit: int)
    ensures (high * scale + low) * 16 + digit == high * (scale * 16) + (low * 16 + digit)
  {
  }

  /** A doubled digit reads as 17 times the digit: "00" is 0 and "FF" is 255. */
  lemma HexValueOfPair(c: char)
    requires IsHexDigit(c)
    ensures AllHex([c, c]) && HexValue([c, c]) == 17 * DigitValue(c)
  {
    assert [c, c][..1] == [c];
    assert [c][..0] == [];
  }

  /** Six digits read as three pairs: the high pair times 2^16, the middle pair times 2^8, and the low pair. */
  lemma HexValueOfSix(h: string)
    requires |h| == 6 && AllHex(h)
    ensures AllHex(h[0..2]) && AllHex(h[2..4]) && AllHex(h[4..6])
    ensures HexValue(h[0..2]) < 256 && HexValue(h[2..4]) < 256 && HexValue(h[4..6]) < 256
    ensures HexValue(h) == HexValue(h[0..2]) * 65536 + HexValue(h[2..4]) * 256 + HexValue(h[4..6])
  {
    var p0, p1, p2 := h[0..2], h[2..4], h[4..6];
    assert AllHex(p0) && AllHex(p1) && AllHex(p2) by {
      forall i | 0 <= i < 2 ensures IsHexDigit(p0[i]) && IsHexDigit(p1[i]) && IsHexDigit(p2[i]) {
        assert p0[i] == h[i] && p1[i] == h[2 + i] && p2[i] == h[4 + i];
      }
    }
    assert Pow16(2) == 256;
    assert Pow16(4) == 65536;
    assert h[2..] == p1 + p2;
    assert h == p0 + h[2..];
    HexValueConcat(p1, p2);
    HexValueConcat(p0, p1 + p2);
  }

  /** Six copies of a digit are three pairs [c, c]. */
  lemma PairsOfRepeated(c: char, h: string)
    requires h == [c, c, c, c, c, c]
    ensures h[0..2] == h[2..4] == h[4..6] == [c, c]
  {
  }

  /** Three digits expand to the three pairs of each digit written twice. */
  lemma ExpandShort(x: char, y: char, z: char)
    ensures var h := Expand([x, y, z]);
      |h| == 6 && h[0..2] == [x, x] && h[2..4] == [y, y] && h[4..6] == [z, z]
  {
    var s := [x, y, z];
    var h := Expand(s);
    assert h[0] == h[1] == x by { assert h[0] == s[0] && h[1] == s[0]; }
    assert h[2] == h[3] == y by { assert h[2] == s[1] && h[3] == s[1]; }
    assert h[4] == h[5] == z by { assert h[4] == s[2] && h[5] == s[2]; }
    assert h[0..2] == [x, x] by { assert h[0..2][0] == h[0] && h[0..2][1] == h[1]; }
    assert h[2..4] == [y, y] by { assert h[2..4][0] == h[2] && h[2..4][1] == h[3]; }
    assert h[4..6] == [z, z] by { assert h[4..6][0] == h[4] && h[4..6][1] == h[5]; }
  }

  /** How many leading characters of `s` are hex digits. */
  function HexRunLength(s: string): (n: nat)
    ensures n <= |s| && AllHex(s[..n])
    ensures n < |s| ==> !IsHexDigit(s[n])
  {
    if s == [] || !IsHexDigit(s[0]) then 0
    else
      var m := HexRunLength(s[1..]);
      var run := s[..1 + m];
      assert run == [s[0]] + s[1..][..m];
      assert AllHex(run) by {
        forall i | 0 <= i < 1 + m ensures IsHexDigit(run[i]) {
          if i > 0 { assert run[i] == s[1..][..m][i - 1]; }
        }
      }
      1 + m
  }

  /**
   * `parseInt(s, 16)` on strings without leading blanks, sign or "0x": the
   * value of the longest leading run of hex digits, and NaN (`None`) when
   * `s` does not start with a hex digit.
   */
  function ParseIntHex(s: string): (r: Option<nat>)
    ensures r.None? <==> (s == [] || !IsHexDigit(s[0]))
    ensures AllHex(s) && s != [] ==> r == Some(HexValue(s))
  {
    var n := HexRunLength(s);
    assert AllHex(s) ==> n == |s| && s[..n] == s;
    if n == 0 then None else Some(HexValue(s[..n]))
  }

  /** `hex.replace(/^#/, "")`, equally `if (hex.startsWith("#")) hex = hex.slice(1)`. */
  function StripHash(s: string): (r: string)
    ensures r == s <==> (s == [] || s[0] != '#')
    ensures r != s ==> s == ['#'] + r
  {
    if |s| > 0 && s[0] == '#' then s[1..] else s
  }

  /** `s.split("").map((char) => char + char).join("")`. */
  function Doubled(s: string): (r: string)
    ensures |r| == 2 * |s|
    ensures forall i :: 0 <= i < |r| ==> r[i] == s[i / 2]
  {
    if s == [] then []
    else
      var rest := Doubled(s[1..]);
      var r := [s[0], s[0]] + rest;
      assert forall i :: 2 <= i < |r| ==> r[i] == rest[i - 2] == s[1..][(i - 2) / 2] == s[i / 2];
      r
  }

  /** The 3-digit short form is expanded; any other text is kept as it is. */
  function Expand(s: string): (r: string)
    ensures |s| == 3 ==> |r| == 6 && forall i :: 0 <= i < 6 ==> r[i] == s[i / 2]
    ensures |s| != 3 ==> r == s
  {
    if |s| == 3 then Doubled(s) else s
  }

  /** The only error either colour utility reports: a length other than 3 or 6 once one '#' is removed. */
  predicate ValidLength(hex: string) {
    |StripHash(hex)| == 3 || |StripHash(hex)| == 6
  }

  lemma ExpandedIsHex(hex: string)
    requires ValidLength(hex) && AllHex(StripHash(hex))
    ensures |Expand(StripHash(hex))| == 6 && AllHex(Expand(StripHash(hex)))
  {
    var s := StripHash(hex);
    if |s| == 3 {
      var d := Doubled(s);
      forall i | 0 <= i < 6 ensures IsHexDigit(d[i]) { assert d[i] == s[i / 2]; }
    }
  }

  function DecimalDigit(d: nat): (c: char)
    requires d < 10
    ensures '0' <= c <= '9'
  {
    "0123456789"[d]
  }

  /** The decimal text JavaScript writes for a non-negative integer. */
  function DecimalText(n: nat): (r: string)
    ensures |r| >= 1
    ensures forall i :: 0 <= i < |r| ==> '0' <= r[i] <= '9'
    ensures (r[0] == '0') == (n == 0)
  {
    if n < 10 then [DecimalDigit(n)]
    else DecimalText(n / 10) + [DecimalDigit(n % 10)]
  }

  /** The value of a string of decimal digits. */
  function DecimalValue(s: string): nat
    requires forall i :: 0 <= i < |s| ==> '0' <= s[i] <= '9'
  {
    if s == [] then 0 else DecimalValue(s[..|s| - 1]) * 10 + (s[|s| - 1] as int - '0' as int)
  }

  /** Reading back the decimal text gives the number: the rendering loses nothing. */
  lemma {:induction false} DecimalRoundTrip(n: nat)
    ensures DecimalValue(DecimalText(n)) == n
  {
    var r := DecimalText(n);
    if n >= 10 {
      DecimalRoundTrip(n / 10);
      assert r[..|r| - 1] == DecimalText(n / 10);
    }
  }
}
