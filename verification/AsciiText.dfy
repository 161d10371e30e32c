/** Canonical text restricted to ASCII: every character beyond it, and U+007F, is written as escaped UTF-16 units. */
module AsciiText {
  import opened CanonicalJson
  import opened Decimal
  import opened JsonReader
  import opened JsonRoundTrip
  import opened TextFormats
  import opened Utf
  import opened Wrappers

  // Escaping.

  function Hex4(u: int): (digits: string)
    requires 0 <= u < 0x1_0000
    ensures |digits| == 4
  {
    [HexDigit(u / 0x1000), HexDigit(u / 0x100 % 16), HexDigit(u / 16 % 16), HexDigit(u % 16)]
  }

  function UnitText(u: int): (text: string)
    requires 0 <= u < 0x1_0000
    ensures |text| == 6
  {
    "\\u" + Hex4(u)
  }

  function ToAsciiChar(c: char): string {
    var us := Units(c);
    if c as int < 0x7f then [c]
    else if |us| == 1 then UnitText(us[0])
    else UnitText(us[0]) + UnitText(us[1])
  }

  /** What `ensure_ascii` does to printed text. */
  function ToAscii(s: string): string {
    if s == "" then "" else ToAsciiChar(s[0]) + ToAscii(s[1..])
  }

  // Reading it.

  function UnitOf(s: string): (u: Option<int>)
    ensures u.Some? ==> |s| >= 6
  {
    if |s| < 6 || !("\\u" <= s) then None
    else
      match (HexValue(s[2]), HexValue(s[3]), HexValue(s[4]), HexValue(s[5]))
      case (Some(a), Some(b), Some(c), Some(d)) => Some(0x1000 * a + 0x100 * b + 0x10 * c + d)
      case _ => None
  }

  predicate IsHigh(u: int) { 0xD800 <= u < 0xDC00 }

  predicate IsLow(u: int) { 0xDC00 <= u < 0xE000 }

  /** Where an escape that `ensure_ascii` made stands: the character it stands for, and the escape's length. */
  function Escaped(s: string): (r: Option<(char, nat)>)
    ensures r.Some? ==> 0 < r.value.1 <= |s|
  {
    match UnitOf(s)
    case None => None
    case Some(u) =>
      if u < 0x7f || u >= 0x1_0000 || IsLow(u) then None
      else if !IsHigh(u) then Some((u as char, 6))
      else match UnitOf(s[6..])
        case None => None
        case Some(v) =>
          if IsLow(v) then Some(((0x1_0000 + (u - 0xD800) * 0x400 + (v - 0xDC00)) as char, 12)) else None
  }

  /** How long the next piece of printed text is: a character, or an escape. */
  function PieceLength(s: string): nat {
    if s == "" || s[0] != '\\' then 1 else if |s| >= 2 && s[1] != 'u' then 2 else 6
  }

  function FromAscii(s: string): string
    decreases |s|
  {
    if s == "" then ""
    else if Escaped(s).Some? then [Escaped(s).value.0] + FromAscii(s[Escaped(s).value.1..])
    else
      var n := PieceLength(s);
      if n > |s| then s else s[..n] + FromAscii(s[n..])
  }

  lemma HexReads(d: int)
    requires 0 <= d < 16
    ensures HexValue(HexDigit(d)) == Some(d)
  {
  }

  lemma UnitReads(u: int, rest: string)
    requires 0 <= u < 0x1_0000
    ensures UnitOf(UnitText(u) + rest) == Some(u)
  {
    hide HexDigit, HexValue;
    var s, a, b, c, d := UnitText(u) + rest, u / 0x1000, u / 0x100 % 16, u / 16 % 16, u % 16;
    HexReads(a);
    HexReads(b);
    HexReads(c);
    HexReads(d);
    assert s == "\\u" + [HexDigit(a), HexDigit(b), HexDigit(c), HexDigit(d)] + rest;
    assert s[2] == HexDigit(a) && s[3] == HexDigit(b) && s[4] == HexDigit(c) && s[5] == HexDigit(d);
    Digits(u);
  }

  lemma Digits(u: int)
    requires 0 <= u
    ensures u == 0x1000 * (u / 0x1000) + 0x100 * (u / 0x100 % 16) + 0x10 * (u / 16 % 16) + u % 16
  {
    assert u / 16 == u / 0x100 * 16 + u / 16 % 16;
    assert u / 0x100 == u / 0x1000 * 16 + u / 0x100 % 16;
  }

  /** The text is an escape of the unit in lower case. */
  predicate IsEscapeOf(text: string, u: int) {
    && |text| == 6 && UnitOf(text) == Some(u)
    && forall i :: 2 <= i < 6 ==> '0' <= text[i] <= '9' || 'a' <= text[i] <= 'f'
  }

  lemma HexIsLower(d: int)
    requires 0 <= d < 16
    ensures '0' <= HexDigit(d) <= '9' || 'a' <= HexDigit(d) <= 'f'
  {
  }

  lemma UnitExactly(u: int)
    requires 0 <= u < 0x1_0000
    ensures IsEscapeOf(UnitText(u), u)
  {
    hide HexDigit, HexValue, Units;
    var a, b, c, d := u / 0x1000, u / 0x100 % 16, u / 16 % 16, u % 16;
    HexIsLower(a);
    HexIsLower(b);
    HexIsLower(c);
    HexIsLower(d);
    UnitReads(u, "");
    assert UnitText(u) + "" == UnitText(u);
  }

  /** Just the characters before U+007F stay; everything else is escaped, beyond U+FFFF as a surrogate pair. */
  lemma AsciiExactly(c: char)
    ensures var text := ToAsciiChar(c);
            if c <= '~' then text == [c]
            else if c <= '\U{FFFF}' then IsEscapeOf(text, c as int)
            else
              && |text| == 12
              && exists high, low :: 0xD800 <= high <= 0xDBFF && 0xDC00 <= low <= 0xDFFF &&
                   c as int == 0x1_0000 + (high - 0xD800) * 0x400 + (low - 0xDC00) &&
                   IsEscapeOf(text[..6], high) && IsEscapeOf(text[6..], low)
  {
    hide IsEscapeOf, UnitText;
    var us := Units(c);
    UnitExactly(us[0]);
    UnitsExactly(c);
    if |us| == 2 {
      UnitExactly(us[1]);
      var text := ToAsciiChar(c);
      assert text[..6] == UnitText(us[0]) && text[6..] == UnitText(us[1]);
    }
  }

  lemma AsciiCharReads(c: char, rest: string)
    requires c as int >= 0x7f
    ensures Escaped(ToAsciiChar(c) + rest) == Some((c, |ToAsciiChar(c)|))
  {
    hide UnitOf, UnitText;
    var us := Units(c);
    if |us| == 1 {
      UnitReads(us[0], rest);
    } else {
      var s := UnitText(us[0]) + UnitText(us[1]) + rest;
      UnitReads(us[0], UnitText(us[1]) + rest);
      UnitReads(us[1], rest);
      assert s == UnitText(us[0]) + (UnitText(us[1]) + rest) && s[6..] == UnitText(us[1]) + rest;
      var n := c as int - 0x1_0000;
      assert n == n / 0x400 * 0x400 + n % 0x400;
    }
  }

  // Printed text, piece by piece.

  predicate IsPiece(k: string) {
    && |k| == PieceLength(k)
    && (|k| > 1 ==> forall i :: 0 <= i < |k| ==> k[i] as int < 0x7f)
    && (|k| == 6 ==> UnitOf(k).Some? && UnitOf(k).value < 0x20)
  }

  predicate IsPieces(s: string)
    decreases |s|
  {
    var n := PieceLength(s);
    s == "" || (n <= |s| && IsPiece(s[..n]) && IsPieces(s[n..]))
  }

  lemma {:induction false} ToAsciiConcat(a: string, b: string)
    ensures ToAscii(a + b) == ToAscii(a) + ToAscii(b)
  {
    hide ToAsciiChar;
    if a == "" {
      assert a + b == b;
    } else {
      ToAsciiConcat(a[1..], b);
      assert (a + b)[0] == a[0] && (a + b)[1..] == a[1..] + b;
      Regroup(ToAsciiChar(a[0]), ToAscii(a[1..]), ToAscii(b));
    }
  }

  lemma {:induction false} AsciiStays(k: string)
    requires forall i :: 0 <= i < |k| ==> k[i] as int < 0x7f
    ensures ToAscii(k) == k
  {
    if k != "" {
      AsciiStays(k[1..]);
    }
  }

  lemma PieceReads(k: string, rest: string)
    requires IsPiece(k)
    ensures FromAscii(ToAscii(k) + rest) == k + FromAscii(rest)
  {
    hide ToAsciiChar;
    var s := ToAscii(k) + rest;
    if |k| == 1 && k[0] as int >= 0x7f {
      AsciiCharReads(k[0], rest);
      assert ToAscii(k) == ToAsciiChar(k[0]) + "" == ToAsciiChar(k[0]);
      assert s[|ToAsciiChar(k[0])|..] == rest;
    } else {
      AsciiStays(k);
      assert s[..|k|] == k && s[|k|..] == rest;
      PieceStays(k, rest);
    }
  }

  lemma PieceStays(k: string, rest: string)
    requires IsPiece(k) && (|k| == 1 ==> k[0] as int < 0x7f)
    ensures Escaped(k + rest) == None && PieceLength(k + rest) == |k|
  {
    var s := k + rest;
    assert s[0] == k[0] && (|k| > 1 ==> s[1] == k[1]);
    if |k| == 6 {
      assert forall i :: 0 <= i < 6 ==> s[i] == k[i];
    }
  }

  /** What `ensure_ascii` writes can be read back. */
  lemma {:induction false} AsciiReadsBack(s: string)
    requires IsPieces(s)
    ensures FromAscii(ToAscii(s)) == s
    decreases |s|
  {
    hide FromAscii, ToAscii, IsPiece;
    if s == "" {
      NothingReads();
    } else {
      var n := PieceLength(s);
      AsciiReadsBack(s[n..]);
      assert s == s[..n] + s[n..];
      ToAsciiConcat(s[..n], s[n..]);
      PieceReads(s[..n], ToAscii(s[n..]));
    }
  }

  lemma NothingReads()
    ensures FromAscii(ToAscii("")) == ""
  {
  }

  lemma {:induction false} PiecesConcat(a: string, b: string)
    requires IsPieces(a) && IsPieces(b)
    ensures IsPieces(a + b)
    decreases |a|
  {
    hide IsPiece;
    if a == "" {
      assert a + b == b;
    } else {
      var n := PieceLength(a);
      PiecesConcat(a[n..], b);
      assert (a + b)[..n] == a[..n] && (a + b)[n..] == a[n..] + b;
      assert (a + b)[0] == a[0] && (n > 1 ==> (a + b)[1] == a[1]);
    }
  }

  lemma {:induction false} PlainIsPieces(s: string)
    requires '\\' !in s
    ensures IsPieces(s)
    decreases |s|
  {
    if s != "" {
      PlainIsPieces(s[1..]);
      assert s[..1] == [s[0]] && s[0] in s;
    }
  }

  lemma PieceIsPieces(k: string)
    requires IsPiece(k)
    ensures IsPieces(k)
  {
    assert k[..|k|] == k && k[|k|..] == "";
  }

  lemma EscapeCharIsPiece(c: char)
    ensures IsPiece(EscapeChar(c))
  {
    var k, n := EscapeChar(c), c as int;
    if n < 0x20 && |k| == 6 {
      assert n / 0x1000 == n / 0x100 % 16 == 0 && n / 16 % 16 == n / 16;
      assert k == UnitText(n);
      UnitReads(n, "");
      assert UnitText(n) + "" == UnitText(n);
    }
  }

  lemma {:induction false} StringIsPieces(t: string)
    ensures IsPieces(Escape(t))
  {
    hide EscapeChar, IsPieces, IsPiece;
    if t == "" {
      PlainIsPieces("");
    } else {
      EscapeCharIsPiece(t[0]);
      PieceIsPieces(EscapeChar(t[0]));
      StringIsPieces(t[1..]);
      PiecesConcat(EscapeChar(t[0]), Escape(t[1..]));
    }
  }

  lemma QuotedIsPieces(t: string)
    ensures IsPieces(JcsString(t))
  {
    hide IsPieces, Escape;
    PlainIsPieces("\"");
    StringIsPieces(t);
    PiecesConcat("\"", Escape(t));
    PiecesConcat("\"" + Escape(t), "\"");
  }

  lemma IntIsPieces(n: int)
    ensures IsPieces(OfInt(n))
  {
    hide IsPieces;
    var digits := OfNat(if n < 0 then -n else n);
    assert forall i :: 0 <= i < |digits| ==> IsDigit(digits[i]);
    PlainIsPieces(OfInt(n));
  }

  lemma {:induction false} PrintedIsPieces(v: Value)
    ensures IsPieces(Jcs(v))
    decreases v, 1
  {
    hide IsPieces, JcsString, OfInt, JcsItems, JcsMembers, SortedKeys;
    match v
    case Null => PlainIsPieces("null");
    case Bool(b) => PlainIsPieces(if b then "true" else "false");
    case Int(n) => IntIsPieces(n);
    case Str(t) => QuotedIsPieces(t);
    case List(items) =>
      PlainIsPieces("[");
      PlainIsPieces("]");
      ItemsArePieces(items);
      PiecesConcat("[", JcsItems(items));
      PiecesConcat("[" + JcsItems(items), "]");
    case Dict(fields) =>
      var members := JcsMembers(v, SortedKeys(fields.Keys));
      PlainIsPieces("{");
      PlainIsPieces("}");
      MembersArePieces(v, SortedKeys(fields.Keys));
      PiecesConcat("{", members);
      PiecesConcat("{" + members, "}");
  }

  lemma {:induction false} ItemsArePieces(items: seq<Value>)
    ensures IsPieces(JcsItems(items))
    decreases items, |items|
  {
    hide IsPieces, Jcs;
    if items == [] {
      PlainIsPieces("");
    } else {
      PrintedIsPieces(items[0]);
      if |items| > 1 {
        PlainIsPieces(",");
        ItemsArePieces(items[1..]);
        PiecesConcat(Jcs(items[0]), ",");
        PiecesConcat(Jcs(items[0]) + ",", JcsItems(items[1..]));
      }
    }
  }

  lemma {:induction false} MembersArePieces(v: Value, ks: seq<string>)
    requires v.Dict? && forall i :: 0 <= i < |ks| ==> ks[i] in v.fields
    ensures IsPieces(JcsMembers(v, ks))
    decreases v, 0, |ks|
  {
    hide IsPieces, Jcs, JcsString;
    if ks == [] {
      PlainIsPieces("");
    } else {
      var member := JcsString(ks[0]) + ":" + Jcs(v.fields[ks[0]]);
      QuotedIsPieces(ks[0]);
      PlainIsPieces(":");
      PrintedIsPieces(v.fields[ks[0]]);
      PiecesConcat(JcsString(ks[0]), ":");
      PiecesConcat(JcsString(ks[0]) + ":", Jcs(v.fields[ks[0]]));
      if |ks| > 1 {
        PlainIsPieces(",");
        MembersArePieces(v, ks[1..]);
        PiecesConcat(member, ",");
        PiecesConcat(member + ",", JcsMembers(v, ks[1..]));
      }
    }
  }

  // Canonical bytes.

  /** `canonical_json` of the coordination protocol, on objects whose keys are ASCII. */
  function CanonicalBytes(v: Value): seq<int> { Ascii(ToAscii(Jcs(v))) }

  lemma {:induction false} CodesDetermineText(a: string, b: string)
    requires Ascii(a) == Ascii(b)
    ensures a == b
  {
    if a == "" || b == "" {
      assert |Ascii(a)| == 0 && (a != "" ==> |Ascii(a)| > 0) && (b != "" ==> |Ascii(b)| > 0);
    } else {
      assert Ascii(a)[1..] == Ascii(a[1..]) && Ascii(b)[1..] == Ascii(b[1..]);
      CodesDetermineText(a[1..], b[1..]);
      assert a == [a[0]] + a[1..] && b == [b[0]] + b[1..] && Ascii(a)[0] == Ascii(b)[0];
    }
  }

  /** Canonical bytes are equal exactly for equal values. */
  lemma CanonicalBytesDetermineValue(a: Value, b: Value)
    ensures CanonicalBytes(a) == CanonicalBytes(b) <==> a == b
  {
    hide Jcs, ToAscii, FromAscii, Ascii, IsPieces;
    if CanonicalBytes(a) == CanonicalBytes(b) {
      CodesDetermineText(ToAscii(Jcs(a)), ToAscii(Jcs(b)));
      PrintedIsPieces(a);
      PrintedIsPieces(b);
      AsciiReadsBack(Jcs(a));
      AsciiReadsBack(Jcs(b));
      TextDeterminesValue(a, b);
    }
  }
}
