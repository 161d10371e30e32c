/**
 * The hand-written canonical JSON printer over the restricted value model. Text is a string of
 * Unicode scalar values; `JcsBytes` is the printer's own byte form, and `BytesAreText` ties the two.
 */
module CanonicalJson {
  import Decimal
  import opened Sorting
  import opened Utf

  /** A dictionary is the map it denotes; `KeysAscend` covers the order of insertion. */
  datatype Value =
    | Null
    | Bool(b: bool)
    | Int(n: int)
    | Str(s: string)
    | List(items: seq<Value>)
    | Dict(fields: map<string, Value>)

  // Strings.

  function HexDigit(d: int): (c: char)
    requires 0 <= d < 16
  {
    if d < 10 then ('0' as int + d) as char else ('a' as int + d - 10) as char
  }

  function EscapeChar(c: char): string {
    if c == '"' then "\\\""
    else if c == '\\' then "\\\\"
    else if c == '\U{8}' then "\\b"
    else if c == '\U{c}' then "\\f"
    else if c == '\n' then "\\n"
    else if c == '\r' then "\\r"
    else if c == '\t' then "\\t"
    else if c as int < 0x20 then "\\u00" + [HexDigit(c as int / 16), HexDigit(c as int % 16)]
    else [c]
  }

  function Escape(s: string): string {
    if s == "" then "" else EscapeChar(s[0]) + Escape(s[1..])
  }

  function JcsString(s: string): string { "\"" + Escape(s) + "\"" }

  function Join(pieces: seq<string>): string {
    if pieces == [] then "" else Join(pieces[..|pieces| - 1]) + pieces[|pieces| - 1]
  }

  lemma {:induction false} EscapeAppend(s: string, c: char)
    ensures Escape(s + [c]) == Escape(s) + EscapeChar(c)
  {
    hide EscapeChar;
    if s == "" {
      assert Escape([c]) == EscapeChar(c) + Escape([]);
    } else {
      EscapeAppend(s[1..], c);
      assert (s + [c])[1..] == s[1..] + [c];
    }
  }

  /** The printer's loop over the characters, one output piece a step. */
  method PrintString(s: string) returns (text: string)
    ensures text == JcsString(s)
  {
    hide EscapeChar;
    var out := ["\""];
    for i := 0 to |s|
      invariant Join(out) == "\"" + Escape(s[..i])
    {
      EscapeAppend(s[..i], s[i]);
      assert s[..i] + [s[i]] == s[..i + 1];
      var esc := EscapeChar(s[i]);
      assert (out + [esc])[..|out|] == out;
      out := out + [esc];
    }
    assert s[..|s|] == s;
    assert (out + ["\""])[..|out|] == out;
    out := out + ["\""];
    text := Join(out);
  }

  // Key order.

  lemma KeysAreOrdered()
    ensures IsOrder(KeyLess)
  {
    hide KeyLess;
    forall a, b ensures (KeyLess(a, b) || a == b || KeyLess(b, a)) && (KeyLess(a, b) ==> !KeyLess(b, a) && a != b) {
      KeyOrder(a, b);
    }
    forall a, b, c | KeyLess(a, b) && KeyLess(b, c) ensures KeyLess(a, c) {
      KeyTransitive(a, b, c);
    }
  }

  /** The keys in the printer's order. */
  function SortedKeys(ks: set<string>): (sorted: seq<string>)
    ensures forall k :: k in sorted <==> k in ks
  {
    KeysAreOrdered();
    Sorted(KeyLess, ks)
  }

  /** Keys come out in strictly ascending code-unit order, whatever order they were inserted in. */
  lemma KeysAscend(ks: set<string>, listing: seq<string>)
    ensures forall i, j :: 0 <= i < j < |SortedKeys(ks)| ==> LexLess(Utf16(SortedKeys(ks)[i]), Utf16(SortedKeys(ks)[j]))
    ensures Distinct(SortedKeys(ks))
    ensures Distinct(listing) && (forall k :: k in listing <==> k in ks) ==>
        SortListing(KeyLess, listing) == SortedKeys(ks)
  {
    hide KeyLess, LexLess;
    KeysAreOrdered();
    SortedAscends(KeyLess, ks);
    var sorted := SortedKeys(ks);
    forall i, j | 0 <= i < j < |sorted| ensures LexLess(Utf16(sorted[i]), Utf16(sorted[j])) {
      KeysCompareAsCodeUnits(sorted[i], sorted[j]);
    }
    if Distinct(listing) && forall k :: k in listing <==> k in ks {
      AnyOrderSortsAlike(KeyLess, listing, ks);
    }
  }

  // The printer.

  function Jcs(v: Value): string
    decreases v, 0
  {
    match v
    case Null => "null"
    case Bool(b) => if b then "true" else "false"
    case Int(n) => Decimal.OfInt(n)
    case Str(s) => JcsString(s)
    case List(items) => "[" + JcsItems(items) + "]"
    case Dict(fields) => "{" + JcsMembers(v, SortedKeys(fields.Keys)) + "}"
  }

  function JcsItems(items: seq<Value>): string
    decreases items, |items|
  {
    if items == [] then ""
    else if |items| == 1 then Jcs(items[0])
    else Jcs(items[0]) + "," + JcsItems(items[1..])
  }

  function JcsMembers(v: Value, ks: seq<string>): string
    requires v.Dict? && forall i :: 0 <= i < |ks| ==> ks[i] in v.fields
    decreases v, 0, |ks|
  {
    if ks == [] then ""
    else if |ks| == 1 then JcsString(ks[0]) + ":" + Jcs(v.fields[ks[0]])
    else JcsString(ks[0]) + ":" + Jcs(v.fields[ks[0]]) + "," + JcsMembers(v, ks[1..])
  }
}
