/** The reader inverts the printer, so printed text and printed bytes determine the value. */
module JsonRoundTrip {
  import opened CanonicalJson
  import opened Decimal
  import opened JsonReader
  import opened Sorting
  import opened TextFormats
  import opened Utf
  import opened Wrappers

  // Strings.

  lemma HexDigitReads(d: int)
    requires 0 <= d < 16
    ensures HexValue(HexDigit(d)) == Some(d)
  {
  }

  lemma CharReads(c: char, rest: string)
    ensures ReadChar(EscapeChar(c) + rest) == Some((c, rest))
    ensures EscapeChar(c)[0] != '"'
  {
    var s := EscapeChar(c) + rest;
    if |EscapeChar(c)| == 6 {
      var n := c as int;
      HexDigitReads(n / 16);
      HexDigitReads(n % 16);
      assert s[1] == 'u';
      var hex := s[2..6];
      assert hex[0] == '0' && hex[1] == '0' && hex[2] == HexDigit(n / 16) && hex[3] == HexDigit(n % 16);
      assert HexChar(hex) == Some(c);
      assert s[6..] == rest;
    } else if |EscapeChar(c)| == 2 {
      assert s[2..] == rest;
    } else {
      assert s[1..] == rest;
    }
  }

  lemma {:induction false} CharsRead(t: string, rest: string)
    ensures ReadChars(Escape(t) + "\"" + rest) == Some((t, rest))
  {
    hide EscapeChar, ReadChar;
    var s := Escape(t) + "\"" + rest;
    if t == "" {
      assert s[1..] == rest;
    } else {
      var others := Escape(t[1..]) + "\"" + rest;
      assert s == EscapeChar(t[0]) + others;
      CharReads(t[0], others);
      CharsRead(t[1..], rest);
      assert t == [t[0]] + t[1..];
    }
  }

  lemma StringReads(t: string, rest: string)
    ensures var s := JcsString(t) + rest; s[0] == '"' && ReadChars(s[1..]) == Some((t, rest))
  {
    hide Escape, ReadChars;
    CharsRead(t, rest);
    assert (JcsString(t) + rest)[1..] == Escape(t) + "\"" + rest;
  }

  // Numbers.

  predicate NoDigit(rest: string) { rest == "" || !IsDigit(rest[0]) }

  lemma {:induction false} RunOfDigits(a: string, rest: string)
    requires AllDigits(a) && NoDigit(rest)
    ensures DigitRun(a + rest) == |a|
  {
    if a == "" {
      assert a + rest == rest;
    } else {
      RunOfDigits(a[1..], rest);
      assert (a + rest)[1..] == a[1..] + rest;
    }
  }

  lemma NatReads(n: nat, rest: string)
    requires n == 0 || NoDigit(rest)
    ensures ReadNat(OfNat(n) + rest) == Some((n, rest))
  {
    var a := OfNat(n);
    ToNatOfNat(n);
    if n == 0 {
      assert (a + rest)[1..] == rest;
    } else {
      RunOfDigits(a, rest);
      assert (a + rest)[..|a|] == a && (a + rest)[|a|..] == rest;
    }
  }

  lemma IntReads(n: int, rest: string)
    requires n == 0 || NoDigit(rest)
    ensures ReadInt(OfInt(n) + rest) == Some((n, rest))
  {
    hide OfNat, ReadNat;
    if n < 0 {
      NatReads(-n, rest);
      assert (OfInt(n) + rest)[1..] == OfNat(-n) + rest;
    } else {
      NatReads(n, rest);
    }
  }

  lemma {:induction false} RunGoesOn(a: string, rest: string)
    requires AllDigits(a) && !NoDigit(rest)
    ensures DigitRun(a + rest) > |a|
  {
    if a == "" {
      assert a + rest == rest;
    } else {
      RunGoesOn(a[1..], rest);
      assert (a + rest)[1..] == a[1..] + rest;
    }
  }

  /** A digit right after a positive integer is read as part of it. */
  lemma NatReadsOn(n: nat, rest: string)
    requires n > 0 && !NoDigit(rest)
    ensures var r := ReadNat(OfNat(n) + rest); r.Some? ==> |r.value.1| < |rest|
  {
    ToNatOfNat(n);
    RunGoesOn(OfNat(n), rest);
  }

  lemma IntReadsOn(n: int, rest: string)
    requires n != 0 && !NoDigit(rest)
    ensures ReadInt(OfInt(n) + rest) != Some((n, rest))
  {
    hide OfNat, ReadNat;
    NatReadsOn(if n < 0 then -n else n, rest);
    if n < 0 {
      assert (OfInt(n) + rest)[1..] == OfNat(-n) + rest;
    }
  }

  // Values.

  /** What may follow the text of a value: anything, save a digit after a non-zero integer. */
  predicate Ends(v: Value, rest: string) {
    v.Int? && v.n != 0 ==> NoDigit(rest)
  }

  lemma FirstOfInt(n: int)
    ensures OfInt(n) != "" && (OfInt(n)[0] == '-' || IsDigit(OfInt(n)[0]))
  {
  }

  /** No value starts with a closing bracket. */
  lemma FirstOfValue(v: Value)
    ensures Jcs(v) != "" && Jcs(v)[0] != ']'
  {
    hide OfInt, Escape, JcsItems, JcsMembers;
    if v.Int? {
      FirstOfInt(v.n);
    }
  }

  lemma IntValueReads(n: int, rest: string)
    ensures var r := ReadInt(OfInt(n) + rest);
            ReadValue(OfInt(n) + rest) == if r.Some? then Some((Int(r.value.0), r.value.1)) else None
  {
    hide OfInt, ReadInt;
    FirstOfInt(n);
  }

  lemma LiteralReads(v: Value, rest: string)
    requires v.Null? || v.Bool?
    ensures ReadValue(Jcs(v) + rest) == Some((v, rest))
  {
    var word := Jcs(v);
    var s := word + rest;
    assert word <= s && s[|word|..] == rest;
    if v.Null? {
      assert word == "null";
    } else if v.b {
      assert word == "true";
    } else {
      assert word == "false";
    }
  }

  lemma StringValueReads(t: string, rest: string)
    ensures ReadValue(JcsString(t) + rest) == Some((Str(t), rest))
  {
    hide Escape, ReadChars;
    StringReads(t, rest);
  }

  lemma ListReads(items: seq<Value>, body: string, rest: string)
    requires body != "" && body[0] != ']'
    requires ReadItems(body + "]" + rest) == Some((items, rest))
    ensures ReadValue("[" + body + "]" + rest) == Some((List(items), rest))
  {
    hide ReadItems;
    assert ("[" + body + "]" + rest)[1..] == body + "]" + rest;
  }

  lemma DictReads(fields: map<string, Value>, body: string, rest: string)
    requires body != "" && body[0] != '}'
    requires ReadMembers(body + "}" + rest) == Some((fields, rest))
    ensures ReadValue("{" + body + "}" + rest) == Some((Dict(fields), rest))
  {
    hide ReadMembers;
    assert ("{" + body + "}" + rest)[1..] == body + "}" + rest;
  }

  lemma EmptyReads(rest: string)
    ensures ReadValue("[]" + rest) == Some((List([]), rest))
    ensures ReadValue("{}" + rest) == Some((Dict(map[]), rest))
  {
    assert ("[]" + rest)[2..] == rest == ("{}" + rest)[2..];
  }

  lemma ItemsStart(items: seq<Value>)
    requires items != []
    ensures JcsItems(items) != "" && JcsItems(items)[0] != ']'
  {
    hide Jcs;
    FirstOfValue(items[0]);
  }

  lemma MembersStart(v: Value, ks: seq<string>)
    requires v.Dict? && ks != [] && forall i :: 0 <= i < |ks| ==> ks[i] in v.fields
    ensures JcsMembers(v, ks) != "" && JcsMembers(v, ks)[0] != '}'
  {
    hide Jcs, Escape;
  }

  /** The fields of some of the keys. */
  function Restrict(fields: map<string, Value>, ks: seq<string>): map<string, Value> {
    map k | k in fields && k in ks :: fields[k]
  }

  lemma {:induction false} ValueReads(v: Value, rest: string)
    requires Ends(v, rest)
    ensures ReadValue(Jcs(v) + rest) == Some((v, rest))
    decreases v, 1
  {
    hide ReadValue, JcsString, JcsItems, JcsMembers, ReadItems, ReadMembers, OfInt, ReadInt;
    match v
    case Null => LiteralReads(v, rest);
    case Bool(b) => LiteralReads(v, rest);
    case Int(n) =>
      IntReads(n, rest);
      IntValueReads(n, rest);
    case Str(t) => StringValueReads(t, rest);
    case List(items) =>
      if items == [] {
        NothingPrints(v);
        EmptyReads(rest);
      } else {
        ItemsRead(items, rest);
        ItemsStart(items);
        ListReads(items, JcsItems(items), rest);
      }
    case Dict(fields) =>
      if fields == map[] {
        NothingPrints(v);
        EmptyReads(rest);
      } else {
        FieldsRead(v, rest);
      }
  }

  lemma AllKeys(v: Value)
    requires v.Dict? && v.fields != map[]
    ensures var ks := SortedKeys(v.fields.Keys);
            ks != [] && Distinct(ks) && Restrict(v.fields, ks) == v.fields &&
            Jcs(v) == "{" + JcsMembers(v, ks) + "}"
  {
    hide SortedKeys, LexLess, JcsMembers;
    var ks := SortedKeys(v.fields.Keys);
    var k :| k in v.fields;
    assert k in ks;
    KeysAscend(v.fields.Keys, ks);
  }

  lemma FieldsRead(v: Value, rest: string)
    requires v.Dict? && v.fields != map[]
    ensures ReadValue(Jcs(v) + rest) == Some((v, rest))
    decreases v, 0, 1
  {
    hide ReadValue, Jcs, JcsMembers, ReadMembers, SortedKeys, Restrict;
    var ks := SortedKeys(v.fields.Keys);
    AllKeys(v);
    MembersRead(v, ks, rest);
    MembersStart(v, ks);
    DictReads(v.fields, JcsMembers(v, ks), rest);
  }

  lemma NothingPrints(v: Value)
    ensures v == List([]) ==> Jcs(v) == "[]"
    ensures v == Dict(map[]) ==> Jcs(v) == "{}"
  {
  }

  lemma {:induction false} ItemsRead(items: seq<Value>, rest: string)
    requires items != []
    ensures ReadItems(JcsItems(items) + "]" + rest) == Some((items, rest))
    decreases items, |items|
  {
    hide ReadValue, Jcs;
    var s := JcsItems(items) + "]" + rest;
    assert items == [items[0]] + items[1..];
    if |items| == 1 {
      assert items == [items[0]];
      ValueReads(items[0], "]" + rest);
      assert s == Jcs(items[0]) + ("]" + rest);
      assert ("]" + rest)[1..] == rest;
    } else {
      var tail := JcsItems(items[1..]) + "]" + rest;
      ItemsRead(items[1..], rest);
      ValueReads(items[0], "," + tail);
      assert s == Jcs(items[0]) + ("," + tail);
      assert ("," + tail)[1..] == tail;
    }
  }

  lemma MemberReads(k: string, v: Value, rest: string)
    requires ReadValue(Jcs(v) + rest) == Some((v, rest))
    ensures ReadMember(JcsString(k) + ":" + Jcs(v) + rest) == Some(((k, v), rest))
  {
    hide ReadValue, Jcs, JcsString, ReadChars;
    var tail := ":" + Jcs(v) + rest;
    StringReads(k, tail);
    assert JcsString(k) + ":" + Jcs(v) + rest == JcsString(k) + tail;
    assert tail[1..] == Jcs(v) + rest;
  }

  lemma RestrictStep(fields: map<string, Value>, ks: seq<string>)
    requires ks != [] && ks[0] in fields && Distinct(ks)
    ensures Restrict(fields, ks) == map[ks[0] := fields[ks[0]]] + Restrict(fields, ks[1..])
    ensures |ks| == 1 ==> Restrict(fields, ks) == map[ks[0] := fields[ks[0]]]
  {
    assert ks == [ks[0]] + ks[1..];
  }

  lemma {:induction false} MembersRead(v: Value, ks: seq<string>, rest: string)
    requires v.Dict? && ks != [] && (forall i :: 0 <= i < |ks| ==> ks[i] in v.fields)
    requires Distinct(ks)
    ensures ReadMembers(JcsMembers(v, ks) + "}" + rest) == Some((Restrict(v.fields, ks), rest))
    decreases v, 0, 0, |ks|
  {
    hide ReadValue, ReadMember, Jcs, JcsString, Restrict;
    var s := JcsMembers(v, ks) + "}" + rest;
    var k, field := ks[0], v.fields[ks[0]];
    if |ks| == 1 {
      ValueReads(field, "}" + rest);
      MemberReads(k, field, "}" + rest);
      assert s == JcsString(k) + ":" + Jcs(field) + ("}" + rest);
      assert ("}" + rest)[1..] == rest;
      RestrictStep(v.fields, ks);
    } else {
      var tail := JcsMembers(v, ks[1..]) + "}" + rest;
      MembersRead(v, ks[1..], rest);
      ValueReads(field, "," + tail);
      MemberReads(k, field, "," + tail);
      assert s == JcsString(k) + ":" + Jcs(field) + ("," + tail);
      assert ("," + tail)[1..] == tail;
      RestrictStep(v.fields, ks);
    }
  }

  // What the printer promises.

  /** Reading back a printed value, whatever follows it, except a digit glued to an integer. */
  lemma RoundTripExactly(v: Value, rest: string)
    ensures ReadValue(Jcs(v) + rest) == Some((v, rest)) <==> Ends(v, rest)
  {
    hide ReadValue, Jcs, OfInt;
    if Ends(v, rest) {
      ValueReads(v, rest);
    } else {
      IntReadsOn(v.n, rest);
      IntValueReads(v.n, rest);
      assert Jcs(v) == OfInt(v.n) by {
        PrintsInt(v.n);
      }
    }
  }

  lemma PrintsInt(n: int)
    ensures Jcs(Int(n)) == OfInt(n)
  {
  }

  /** The round trip of `RoundTripExactly` is not unconditional: 5 followed by "3" reads as 53. */
  lemma GluedDigits()
    ensures ReadValue(Jcs(Int(5)) + "3") == Some((Int(53), ""))
  {
    assert OfNat(5) == "5" && OfNat(53) == OfNat(5) + "3" == "53";
    IntReads(53, "");
    assert OfInt(53) + "" == OfInt(53) == Jcs(Int(5)) + "3";
    IntValueReads(53, "");
  }

  /** The printer's own check before it writes a file never fails. */
  lemma WriteCheckHolds(v: Value)
    ensures Load(Jcs(v)) == Some(v)
  {
    hide ReadValue, Jcs;
    ValueReads(v, "");
    assert Jcs(v) + "" == Jcs(v);
  }

  /** No value's text goes on from another's, save between integers. */
  lemma TextDeterminesValue(a: Value, b: Value)
    ensures Jcs(a) == Jcs(b) <==> a == b
    ensures Jcs(a) < Jcs(b) ==> a.Int? && a.n != 0
  {
    hide ReadValue, Jcs;
    WriteCheckHolds(a);
    WriteCheckHolds(b);
    if Jcs(a) < Jcs(b) {
      var rest := Jcs(b)[|Jcs(a)|..];
      assert Jcs(b) == Jcs(a) + rest;
      RoundTripExactly(a, rest);
    }
  }

  // Bytes.

  /** `text.encode("ascii")`. */
  function Ascii(text: string): seq<int> {
    if text == "" then [] else [text[0] as int] + Ascii(text[1..])
  }

  function JcsBytes(v: Value): seq<int>
    decreases v, 1
  {
    match v
    case Null => Ascii("null")
    case Bool(b) => if b then Ascii("true") else Ascii("false")
    case Int(n) => Ascii(OfInt(n))
    case Str(s) => Utf8(JcsString(s))
    case List(items) => Ascii("[") + ItemBytes(items) + Ascii("]")
    case Dict(fields) => Ascii("{") + MemberBytes(v, SortedKeys(fields.Keys)) + Ascii("}")
  }

  function ItemBytes(items: seq<Value>): seq<int>
    decreases items, |items|
  {
    if items == [] then []
    else if |items| == 1 then JcsBytes(items[0])
    else JcsBytes(items[0]) + Ascii(",") + ItemBytes(items[1..])
  }

  function MemberBytes(v: Value, ks: seq<string>): seq<int>
    requires v.Dict? && forall i :: 0 <= i < |ks| ==> ks[i] in v.fields
    decreases v, 0, |ks|
  {
    if ks == [] then []
    else
      var member := Utf8(JcsString(ks[0])) + Ascii(":") + JcsBytes(v.fields[ks[0]]);
      if |ks| == 1 then member else member + Ascii(",") + MemberBytes(v, ks[1..])
  }

  lemma {:induction false} AsciiIsUtf8(text: string)
    requires forall i :: 0 <= i < |text| ==> text[i] as int < 0x80
    ensures Ascii(text) == Utf8(text)
  {
    if text != "" {
      AsciiIsUtf8(text[1..]);
    }
  }

  lemma IntIsAscii(n: int)
    ensures Ascii(OfInt(n)) == Utf8(OfInt(n))
  {
    AsciiIsUtf8(OfInt(n));
  }

  lemma Utf8Concat3(a: string, b: string, c: string)
    ensures Utf8(a + b + c) == Utf8(a) + Utf8(b) + Utf8(c)
  {
    Utf8Concat(a + b, c);
    Utf8Concat(a, b);
  }

  lemma PunctuationIsAscii()
    ensures Ascii("[") == Utf8("[") && Ascii("]") == Utf8("]") && Ascii("{") == Utf8("{") && Ascii("}") == Utf8("}")
    ensures Ascii(",") == Utf8(",") && Ascii(":") == Utf8(":")
    ensures Ascii("null") == Utf8("null") && Ascii("true") == Utf8("true") && Ascii("false") == Utf8("false")
  {
    AsciiIsUtf8("[");
    AsciiIsUtf8("]");
    AsciiIsUtf8("{");
    AsciiIsUtf8("}");
    AsciiIsUtf8(",");
    AsciiIsUtf8(":");
    AsciiIsUtf8("null");
    AsciiIsUtf8("true");
    AsciiIsUtf8("false");
  }

  /** The bytes that the printer assembles are the UTF-8 encoding of the canonical text. */
  lemma {:induction false} BytesAreText(v: Value)
    ensures JcsBytes(v) == Utf8(Jcs(v))
    decreases v, 1
  {
    hide Ascii, Utf8, JcsString, SortedKeys, OfInt;
    PunctuationIsAscii();
    match v
    case Null =>
    case Bool(b) =>
    case Int(n) => IntIsAscii(n);
    case Str(s) =>
    case List(items) =>
      ItemBytesAreText(items);
      Utf8Concat3("[", JcsItems(items), "]");
    case Dict(fields) =>
      var ks := SortedKeys(fields.Keys);
      MemberBytesAreText(v, ks);
      Utf8Concat3("{", JcsMembers(v, ks), "}");
  }

  lemma {:induction false} ItemBytesAreText(items: seq<Value>)
    ensures ItemBytes(items) == Utf8(JcsItems(items))
    decreases items, |items|
  {
    hide Ascii, Jcs, JcsBytes;
    PunctuationIsAscii();
    if items != [] {
      BytesAreText(items[0]);
      ItemBytesAreText(items[1..]);
      Utf8Concat3(Jcs(items[0]), ",", JcsItems(items[1..]));
    }
  }

  lemma {:induction false} MemberBytesAreText(v: Value, ks: seq<string>)
    requires v.Dict? && forall i :: 0 <= i < |ks| ==> ks[i] in v.fields
    ensures MemberBytes(v, ks) == Utf8(JcsMembers(v, ks))
    decreases v, 0, |ks|
  {
    hide Ascii, Jcs, JcsBytes, JcsString;
    PunctuationIsAscii();
    if ks != [] {
      var k, field := ks[0], v.fields[ks[0]];
      BytesAreText(field);
      MemberBytesAreText(v, ks[1..]);
      Utf8Concat3(JcsString(k), ":", Jcs(field));
      Utf8Concat3(JcsString(k) + ":" + Jcs(field), ",", JcsMembers(v, ks[1..]));
    }
  }

  /** Identifiers hash the bytes, so equal bytes mean equal values. */
  lemma BytesDetermineValue(a: Value, b: Value)
    ensures JcsBytes(a) == JcsBytes(b) <==> a == b
  {
    hide Jcs, JcsBytes;
    BytesAreText(a);
    BytesAreText(b);
    if JcsBytes(a) == JcsBytes(b) {
      Utf8Injective(Jcs(a), Jcs(b));
      TextDeterminesValue(a, b);
    }
  }
}
