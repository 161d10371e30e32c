/** UTF-16 and UTF-8 encodings of strings of Unicode scalar values, and the order of encoded keys. */
module Utf {
  import opened Wrappers

  // UTF-16.

  predicate AreUnits(us: seq<int>) { forall i :: 0 <= i < |us| ==> 0 <= us[i] < 0x1_0000 }

  function Units(c: char): (us: seq<int>)
    ensures AreUnits(us)
  {
    var n := c as int;
    if n < 0x1_0000 then [n] else [0xD800 + (n - 0x1_0000) / 0x400, 0xDC00 + (n - 0x1_0000) % 0x400]
  }

  /** Section 3.4 of RFC 2781: a unit of its own, or a surrogate pair that carries what is beyond U+FFFF. */
  lemma UnitsExactly(c: char)
    ensures var us := Units(c);
            if |us| == 1 then us[0] == c as int
            else
              && |us| == 2 && 0xD800 <= us[0] <= 0xDBFF && 0xDC00 <= us[1] <= 0xDFFF
              && c as int == 0x1_0000 + (us[0] - 0xD800) * 0x400 + (us[1] - 0xDC00)
  {
  }

  function Utf16(s: string): (us: seq<int>)
    ensures AreUnits(us)
  {
    if s == [] then [] else Units(s[0]) + Utf16(s[1..])
  }

  /** Big-endian bytes. */
  function BigEndian(us: seq<int>): seq<int> {
    if us == [] then [] else [us[0] / 256, us[0] % 256] + BigEndian(us[1..])
  }

  /** `s.encode("utf-16-be")`. */
  function Utf16Bytes(s: string): seq<int> { BigEndian(Utf16(s)) }

  /** Lexicographic order. */
  predicate LexLess(a: seq<int>, b: seq<int>) {
    b != [] && (a == [] || a[0] < b[0] || (a[0] == b[0] && LexLess(a[1..], b[1..])))
  }

  /** Comparing big-endian bytes is comparing code units. */
  lemma {:induction false} BytesCompareAsUnits(a: seq<int>, b: seq<int>)
    requires AreUnits(a) && AreUnits(b)
    ensures LexLess(BigEndian(a), BigEndian(b)) <==> LexLess(a, b)
  {
    if a != [] && b != [] {
      BytesCompareAsUnits(a[1..], b[1..]);
      var x, y := BigEndian(a), BigEndian(b);
      assert x[1..][1..] == BigEndian(a[1..]) && y[1..][1..] == BigEndian(b[1..]);
      assert LexLess(x[1..], y[1..]) <==>
             a[0] % 256 < b[0] % 256 || (a[0] % 256 == b[0] % 256 && LexLess(a[1..], b[1..]));
      assert a[0] / 256 == b[0] / 256 ==> (a[0] < b[0] <==> a[0] % 256 < b[0] % 256);
    }
  }

  /** The order in which the printer sorts keys. */
  predicate KeyLess(a: string, b: string) { LexLess(Utf16Bytes(a), Utf16Bytes(b)) }

  /** The order that section 3.2.3 of RFC 8785 asks for. */
  lemma KeysCompareAsCodeUnits(a: string, b: string)
    ensures KeyLess(a, b) <==> LexLess(Utf16(a), Utf16(b))
  {
    BytesCompareAsUnits(Utf16(a), Utf16(b));
  }

  /** That order is not the order of code points: U+FF5E comes after U+1F600. */
  lemma NotCodePointOrder()
    ensures KeyLess("\U{1F600}", "\U{FF5E}") && '\U{FF5E}' < '\U{1F600}'
  {
    var a, b: string := "\U{1F600}", "\U{FF5E}";
    KeysCompareAsCodeUnits(a, b);
    assert Utf16(a)[0] == 0xD83D && Utf16(b)[0] == 0xFF5E;
  }

  lemma {:induction false} LexTotal(a: seq<int>, b: seq<int>)
    ensures LexLess(a, b) || a == b || LexLess(b, a)
  {
    if a != [] && b != [] && a[0] == b[0] {
      LexTotal(a[1..], b[1..]);
      assert a == [a[0]] + a[1..] && b == [b[0]] + b[1..];
    }
  }

  lemma {:induction false} LexAsymmetric(a: seq<int>, b: seq<int>)
    requires LexLess(a, b)
    ensures !LexLess(b, a)
  {
    if a != [] && a[0] == b[0] {
      LexAsymmetric(a[1..], b[1..]);
    }
  }

  lemma {:induction false} LexTransitive(a: seq<int>, b: seq<int>, c: seq<int>)
    requires LexLess(a, b) && LexLess(b, c)
    ensures LexLess(a, c)
  {
    if a != [] && a[0] == b[0] == c[0] {
      LexTransitive(a[1..], b[1..], c[1..]);
    }
  }

  lemma UnitsExist(s: string)
    ensures Utf16(s) == [] <==> s == []
  {
  }

  /** The units of a character are told apart from those of another, whatever follows them. */
  lemma UnitsDiffer(c: char, d: char, rest: seq<int>, others: seq<int>)
    requires Units(c) + rest == Units(d) + others
    ensures c == d && rest == others
  {
    var u, v := Units(c), Units(d);
    assert (u + rest)[0] == u[0] && (v + others)[0] == v[0];
    assert |u| == 2 <==> 0xD800 <= u[0] < 0xDC00;
    assert |v| == 2 <==> 0xD800 <= v[0] < 0xDC00;
    if |u| == 2 {
      assert (u + rest)[1] == u[1] && (v + others)[1] == v[1];
      var m, n := c as int - 0x1_0000, d as int - 0x1_0000;
      assert m / 0x400 == n / 0x400 && m % 0x400 == n % 0x400;
    }
    assert rest == (u + rest)[|u|..] && others == (v + others)[|v|..];
  }

  lemma {:induction false} Utf16Injective(a: string, b: string)
    requires Utf16(a) == Utf16(b)
    ensures a == b
  {
    hide Units;
    if a == [] || b == [] {
      UnitsExist(a);
      UnitsExist(b);
    } else {
      UnitsDiffer(a[0], b[0], Utf16(a[1..]), Utf16(b[1..]));
      Utf16Injective(a[1..], b[1..]);
      assert a == [a[0]] + a[1..] && b == [b[0]] + b[1..];
    }
  }

  lemma KeyOrder(a: string, b: string)
    ensures KeyLess(a, b) || a == b || KeyLess(b, a)
    ensures KeyLess(a, b) ==> !KeyLess(b, a) && a != b
  {
    KeysCompareAsCodeUnits(a, b);
    KeysCompareAsCodeUnits(b, a);
    LexTotal(Utf16(a), Utf16(b));
    if Utf16(a) == Utf16(b) {
      Utf16Injective(a, b);
    }
    if LexLess(Utf16(a), Utf16(b)) {
      LexAsymmetric(Utf16(a), Utf16(b));
    }
  }

  lemma KeyTransitive(a: string, b: string, c: string)
    requires KeyLess(a, b) && KeyLess(b, c)
    ensures KeyLess(a, c)
  {
    LexTransitive(Utf16Bytes(a), Utf16Bytes(b), Utf16Bytes(c));
  }

  // UTF-8.

  function Utf8Char(c: char): seq<int> {
    var n := c as int;
    if n < 0x80 then [n]
    else if n < 0x800 then [0xC0 + n / 0x40, 0x80 + n % 0x40]
    else if n < 0x1_0000 then [0xE0 + n / 0x1000, 0x80 + n / 0x40 % 0x40, 0x80 + n % 0x40]
    else [0xF0 + n / 0x4_0000, 0x80 + n / 0x1000 % 0x40, 0x80 + n / 0x40 % 0x40, 0x80 + n % 0x40]
  }

  /** `s.encode("utf-8")`. */
  function Utf8(s: string): seq<int> {
    if s == [] then [] else Utf8Char(s[0]) + Utf8(s[1..])
  }

  lemma {:induction false} Utf8Concat(a: string, b: string)
    ensures Utf8(a + b) == Utf8(a) + Utf8(b)
  {
    hide Utf8Char;
    if a == [] {
      assert a + b == b;
    } else {
      Utf8Concat(a[1..], b);
      assert (a + b)[0] == a[0] && (a + b)[1..] == a[1..] + b;
      Regroup(Utf8Char(a[0]), Utf8(a[1..]), Utf8(b));
    }
  }

  /** The length of the sequence that a first byte announces. */
  function Announced(b: int): nat { if b < 0x80 then 1 else if b < 0xE0 then 2 else if b < 0xF0 then 3 else 4 }

  function Scalar(bs: seq<int>): int
    requires 1 <= |bs| <= 4
  {
    if |bs| == 1 then bs[0]
    else if |bs| == 2 then (bs[0] - 0xC0) * 0x40 + (bs[1] - 0x80)
    else if |bs| == 3 then (bs[0] - 0xE0) * 0x1000 + (bs[1] - 0x80) * 0x40 + (bs[2] - 0x80)
    else (bs[0] - 0xF0) * 0x4_0000 + (bs[1] - 0x80) * 0x1000 + (bs[2] - 0x80) * 0x40 + (bs[3] - 0x80)
  }

  /** Section 3 of RFC 3629: as many bytes as the character needs, the first of which says how many. */
  lemma Utf8CharExactly(c: char)
    ensures var bs := Utf8Char(c);
            && |bs| == (if c <= '\U{7F}' then 1 else if c <= '\U{7FF}' then 2 else if c <= '\U{FFFF}' then 3 else 4)
            && |bs| == Announced(bs[0]) && Scalar(bs) == c as int
            && 0 <= bs[0] <= 0xF4 && forall i :: 0 < i < |bs| ==> 0x80 <= bs[i] <= 0xBF
  {
    var n := c as int;
    assert n == n / 0x40 * 0x40 + n % 0x40;
    assert n / 0x40 == n / 0x1000 * 0x40 + n / 0x40 % 0x40;
    assert n / 0x1000 == n / 0x4_0000 * 0x40 + n / 0x1000 % 0x40;
  }

  /** The bytes of a character are told apart from those of another, whatever follows them. */
  lemma BytesDiffer(c: char, d: char, rest: seq<int>, others: seq<int>)
    requires Utf8Char(c) + rest == Utf8Char(d) + others
    ensures c == d && rest == others
  {
    hide Scalar, Utf8Char;
    Utf8CharExactly(c);
    Utf8CharExactly(d);
    var u, v := Utf8Char(c), Utf8Char(d);
    assert (u + rest)[0] == u[0] && (v + others)[0] == v[0];
    assert u == (u + rest)[..|u|] && v == (v + others)[..|v|];
    assert rest == (u + rest)[|u|..] && others == (v + others)[|v|..];
  }

  lemma BytesExist(s: string)
    ensures Utf8(s) == [] <==> s == []
  {
  }

  /** Encoded text determines the text. */
  lemma {:induction false} Utf8Injective(a: string, b: string)
    requires Utf8(a) == Utf8(b)
    ensures a == b
  {
    hide Utf8Char;
    if a == [] || b == [] {
      BytesExist(a);
      BytesExist(b);
    } else {
      BytesDiffer(a[0], b[0], Utf8(a[1..]), Utf8(b[1..]));
      Utf8Injective(a[1..], b[1..]);
      assert a == [a[0]] + a[1..] && b == [b[0]] + b[1..];
    }
  }
}
