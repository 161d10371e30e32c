/**
 * The text of a configuration: how keys, values and lines are spelled, and the reader of that spelling. The reader
 * refuses a raw delete character in a string, as TOML does, though the printer writes it.
 */
module ConfigText {
  import opened CanonicalJson
  import opened ConfigTables
  import opened Decimal
  import opened JsonReader
  import opened JsonRoundTrip
  import opened Wrappers

  const DELETE := '\U{7f}'

  // Strings: `json.dumps(text, ensure_ascii=False)`.

  predicate IsClean(t: string) { DELETE !in t }

  function ReadTomlChar(s: string): (r: Reading<char>)
    ensures r.Some? ==> |r.value.1| < |s|
  {
    if (s != "" && s[0] == DELETE) || "\\/" <= s then None else ReadChar(s)
  }

  function ReadString(s: string): (r: Reading<string>)
    ensures r.Some? ==> |r.value.1| < |s|
    decreases |s|
  {
    if s != "" && s[0] == '"' then Some(("", s[1..]))
    else match ReadTomlChar(s)
      case None => None
      case Some(first) => match ReadString(first.1)
        case None => None
        case Some(others) => Some(([first.0] + others.0, others.1))
  }

  /** A quoted string, from its opening quote. */
  function ReadQuoted(s: string): (r: Reading<string>)
    ensures r.Some? ==> |r.value.1| < |s|
  {
    if s == "" || s[0] != '"' then None else ReadString(s[1..])
  }

  lemma TomlCharReads(c: char, rest: string)
    ensures ReadTomlChar(EscapeChar(c) + rest) == if c == DELETE then None else Some((c, rest))
    ensures EscapeChar(c) != "" && EscapeChar(c)[0] != '"'
  {
    hide ReadChar;
    CharReads(c, rest);
    var s := EscapeChar(c) + rest;
    assert s[0] == EscapeChar(c)[0] && (|EscapeChar(c)| > 1 ==> s[1] == EscapeChar(c)[1]);
  }

  lemma EscapedCharReads(digits: string, rest: string, c: char)
    requires |digits| == 4 && HexChar(digits) == Some(c)
    ensures ReadTomlChar("\\u" + digits + rest) == Some((c, rest))
  {
    var s := "\\u" + digits + rest;
    assert s[0] == '\\' && s[1] == 'u' && s[2..6] == digits && s[6..] == rest;
  }

  lemma {:induction false} StringReadsBack(t: string, rest: string)
    ensures ReadString(Escape(t) + "\"" + rest) == if IsClean(t) then Some((t, rest)) else None
  {
    hide EscapeChar, ReadTomlChar;
    var s := Escape(t) + "\"" + rest;
    if t == "" {
      assert s[1..] == rest;
    } else {
      var others := Escape(t[1..]) + "\"" + rest;
      assert s == EscapeChar(t[0]) + others;
      TomlCharReads(t[0], others);
      StringReadsBack(t[1..], rest);
      assert t == [t[0]] + t[1..];
    }
  }

  lemma QuotedReadsBack(t: string, rest: string)
    ensures JcsString(t) + rest != "" && (JcsString(t) + rest)[0] == '"'
    ensures ReadQuoted(JcsString(t) + rest) == if IsClean(t) then Some((t, rest)) else None
  {
    hide Escape, ReadString, IsClean;
    StringReadsBack(t, rest);
    assert (JcsString(t) + rest)[1..] == Escape(t) + "\"" + rest;
  }

  // Values: `toml_value`.

  function AtomText(v: Atom): string
    decreases v
  {
    match v
    case Text(t) => JcsString(t)
    case Number(n) => OfInt(n)
    case Flag(b) => if b then "true" else "false"
    case Plain(form) => form
    case Array(items) => "[" + ItemsText(items) + "]"
    case Inline(pairs) => "{ " + PairsText(pairs) + " }"
  }

  function ItemsText(items: seq<Atom>): string
    decreases items
  {
    if items == [] then ""
    else if |items| == 1 then AtomText(items[0])
    else AtomText(items[0]) + ", " + ItemsText(items[1..])
  }

  function PairText(p: Pair): string
    decreases p
  {
    JcsString(p.key) + " = " + AtomText(p.value)
  }

  function PairsText(pairs: seq<Pair>): string
    decreases pairs
  {
    if pairs == [] then ""
    else if |pairs| == 1 then PairText(pairs[0])
    else PairText(pairs[0]) + ", " + PairsText(pairs[1..])
  }

  /** The floats that are not finite are spelled so. */
  predicate IsNonfinite(form: string) { form in ["inf", "-inf", "nan"] }

  /** The most digits that Python writes a number with. */
  const MAX_DIGITS := 4300

  predicate IsShort(n: int) { |OfNat(if n < 0 then -n else n)| <= MAX_DIGITS }

  /** No float in the value is infinite or no number, and no integer too long to be written. */
  predicate IsPrintableAtom(v: Atom)
    decreases v
  {
    match v
    case Number(n) => IsShort(n)
    case Plain(form) => !IsNonfinite(form)
    case Array(items) => forall i :: 0 <= i < |items| ==> IsPrintableAtom(items[i])
    case Inline(pairs) => forall i :: 0 <= i < |pairs| ==> IsPrintableAtom(pairs[i].value)
    case _ => true
  }

  function Between(before: string, text: Option<string>, after: string): Option<string> {
    if text.None? then None else Some(before + text.value + after)
  }

  /** `toml_value`, which raises on values that it cannot write. */
  function TomlValue(v: Atom): Option<string>
    decreases v
  {
    match v
    case Text(t) => Some(JcsString(t))
    case Flag(b) => Some(if b then "true" else "false")
    case Number(n) => if IsShort(n) then Some(OfInt(n)) else None
    case Plain(form) => if IsNonfinite(form) then None else Some(form)
    case Array(items) => Between("[", TomlItems(items), "]")
    case Inline(pairs) => Between("{ ", TomlPairs(pairs), " }")
  }

  function TomlItems(items: seq<Atom>): Option<string>
    decreases items
  {
    if items == [] then Some("")
    else match TomlValue(items[0])
      case None => None
      case Some(text) => match TomlItems(items[1..])
        case None => None
        case Some(others) => Some(if |items| == 1 then text else text + ", " + others)
  }

  function TomlPairs(pairs: seq<Pair>): Option<string>
    decreases pairs
  {
    if pairs == [] then Some("")
    else match TomlValue(pairs[0].value)
      case None => None
      case Some(text) => match TomlPairs(pairs[1..])
        case None => None
        case Some(others) =>
          var first := JcsString(pairs[0].key) + " = " + text;
          Some(if |pairs| == 1 then first else first + ", " + others)
  }

  lemma {:induction false} TomlValueIs(v: Atom)
    ensures TomlValue(v) == if IsPrintableAtom(v) then Some(AtomText(v)) else None
    decreases v
  {
    hide JcsString, OfInt, IsShort, IsNonfinite;
    match v
    case Array(items) => TomlItemsAre(items);
    case Inline(pairs) => TomlPairsAre(pairs);
    case _ =>
  }

  lemma {:induction false} TomlItemsAre(items: seq<Atom>)
    ensures TomlItems(items) ==
            if forall i :: 0 <= i < |items| ==> IsPrintableAtom(items[i]) then Some(ItemsText(items)) else None
    decreases items
  {
    hide IsPrintableAtom, TomlValue, AtomText;
    if items != [] {
      TomlValueIs(items[0]);
      TomlItemsAre(items[1..]);
      assert items == [items[0]] + items[1..];
    }
  }

  lemma {:induction false} TomlPairsAre(pairs: seq<Pair>)
    ensures TomlPairs(pairs) ==
            if forall i :: 0 <= i < |pairs| ==> IsPrintableAtom(pairs[i].value) then Some(PairsText(pairs)) else None
    decreases pairs
  {
    hide IsPrintableAtom, TomlValue, AtomText, JcsString;
    if pairs != [] {
      TomlValueIs(pairs[0].value);
      TomlPairsAre(pairs[1..]);
      assert pairs == [pairs[0]] + pairs[1..];
    }
  }

  predicate IsCleanAtom(v: Atom)
    decreases v
  {
    match v
    case Text(t) => IsClean(t)
    case Array(items) => forall i :: 0 <= i < |items| ==> IsCleanAtom(items[i])
    case Inline(pairs) => forall i :: 0 <= i < |pairs| ==> IsClean(pairs[i].key) && IsCleanAtom(pairs[i].value)
    case _ => true
  }

  // Reading values.

  function TokenLength(s: string): (n: nat)
    ensures n <= |s| && (forall i :: 0 <= i < n ==> IsTokenChar(s[i]))
    ensures n < |s| ==> !IsTokenChar(s[n])
  {
    if s == "" || !IsTokenChar(s[0]) then 0 else 1 + TokenLength(s[1..])
  }

  function IntegerOf(t: string): int
    requires IsInteger(t)
  {
    if "-" <= t then 0 - ToNat(t[1..]) else ToNat(t)
  }

  function TokenValue(t: string): Atom
    requires IsToken(t)
  {
    if t == "true" then Flag(true)
    else if t == "false" then Flag(false)
    else if IsInteger(t) then Number(IntegerOf(t))
    else Plain(t)
  }

  function ReadAtom(s: string): (r: Reading<Atom>)
    ensures r.Some? ==> |r.value.1| < |s|
    decreases |s|, 0
  {
    if s == "" then None
    else if s[0] == '"' then
      match ReadQuoted(s)
      case None => None
      case Some(t) => Some((Text(t.0), t.1))
    else if "[]" <= s then Some((Array([]), s[2..]))
    else if s[0] == '[' then
      match ReadItemList(s[1..])
      case None => None
      case Some(items) => Some((Array(items.0), items.1))
    else if "{  }" <= s then Some((Inline([]), s[4..]))
    else if "{ " <= s then
      match ReadPairList(s[2..])
      case None => None
      case Some(pairs) => Some((Inline(pairs.0), pairs.1))
    else
      var n := TokenLength(s);
      if n == 0 then None else Some((TokenValue(s[..n]), s[n..]))
  }

  function ReadItemList(s: string): (r: Reading<seq<Atom>>)
    ensures r.Some? ==> |r.value.1| < |s|
    decreases |s|, 1
  {
    match ReadAtom(s)
    case None => None
    case Some(item) =>
      if "]" <= item.1 then Some(([item.0], item.1[1..]))
      else if ", " <= item.1 then
        match ReadItemList(item.1[2..])
        case None => None
        case Some(others) => Some(([item.0] + others.0, others.1))
      else None
  }

  /** A quoted key, ` = ` and a value. */
  function ReadPair(s: string): (r: Reading<Pair>)
    ensures r.Some? ==> |r.value.1| < |s|
    decreases |s|, 1
  {
    match ReadQuoted(s)
    case None => None
    case Some(key) =>
      if !(" = " <= key.1) then None
      else match ReadAtom(key.1[3..])
        case None => None
        case Some(v) => Some((Pair(key.0, v.0), v.1))
  }

  function ReadPairList(s: string): (r: Reading<seq<Pair>>)
    ensures r.Some? ==> |r.value.1| < |s|
    decreases |s|, 2
  {
    match ReadPair(s)
    case None => None
    case Some(p) =>
      if " }" <= p.1 then Some(([p.0], p.1[2..]))
      else if ", " <= p.1 then
        match ReadPairList(p.1[2..])
        case None => None
        case Some(others) => Some(([p.0] + others.0, others.1))
      else None
  }

  // Values read back.

  /** What may follow a value: nothing that would lengthen an unquoted one. */
  predicate Ends(rest: string) { rest == "" || !IsTokenChar(rest[0]) }

  lemma IntegerIsToken(n: int)
    ensures IsToken(OfInt(n)) && IsInteger(OfInt(n)) && IntegerOf(OfInt(n)) == n
    ensures OfInt(n) != "true" && OfInt(n) != "false"
  {
    if n < 0 {
      ToNatOfNat(-n);
      assert OfInt(n)[1..] == OfNat(-n);
      assert OfNat(-n)[0] != '0' && "0"[0] == '0';
    } else {
      ToNatOfNat(n);
    }
    forall i | 0 <= i < |OfInt(n)| ensures IsTokenChar(OfInt(n)[i]) {
      if n < 0 && i > 0 {
        assert OfInt(n)[i] == OfNat(-n)[i - 1];
      }
    }
  }

  lemma TokenIsRead(v: Atom)
    requires v.Number? || v.Flag? || v.Plain?
    ensures IsToken(AtomText(v)) && TokenValue(AtomText(v)) == v
  {
    if v.Number? {
      IntegerIsToken(v.n);
    }
  }

  lemma {:induction false} TokenStops(t: string, rest: string)
    requires (forall i :: 0 <= i < |t| ==> IsTokenChar(t[i])) && Ends(rest)
    ensures TokenLength(t + rest) == |t|
  {
    if t == "" {
      assert t + rest == rest;
    } else {
      TokenStops(t[1..], rest);
      assert (t + rest)[1..] == t[1..] + rest;
    }
  }

  lemma PlainReads(v: Atom, rest: string)
    requires (v.Number? || v.Flag? || v.Plain?) && Ends(rest)
    ensures ReadAtom(AtomText(v) + rest) == Some((v, rest))
  {
    hide TokenValue, AtomText, IsInteger;
    TokenIsRead(v);
    var t := AtomText(v);
    TokenStops(t, rest);
    var s := t + rest;
    assert s[0] == t[0] && IsTokenChar(s[0]);
    assert s[..|t|] == t && s[|t|..] == rest;
  }

  lemma TextReads(t: string, rest: string)
    ensures ReadAtom(JcsString(t) + rest) == if IsClean(t) then Some((Text(t), rest)) else None
  {
    hide Escape, ReadQuoted, IsClean;
    QuotedReadsBack(t, rest);
  }

  lemma ArrayReads(body: string, items: Reading<seq<Atom>>, rest: string)
    requires body != "" && body[0] != ']' && ReadItemList(body + "]" + rest) == items
    ensures ReadAtom("[" + body + "]" + rest) ==
            if items.None? then None else Some((Array(items.value.0), items.value.1))
  {
    hide ReadItemList;
    var s := "[" + body + "]" + rest;
    assert s[0] == '[' && s[1] == body[0] && s[1..] == body + "]" + rest;
  }

  lemma InlineReads(body: string, pairs: Reading<seq<Pair>>, rest: string)
    requires body != "" && body[0] != ' ' && ReadPairList(body + " }" + rest) == pairs
    ensures ReadAtom("{ " + body + " }" + rest) ==
            if pairs.None? then None else Some((Inline(pairs.value.0), pairs.value.1))
  {
    hide ReadPairList;
    var s := "{ " + body + " }" + rest;
    assert s[0] == '{' && s[1] == ' ' && s[2] == body[0] && s[2..] == body + " }" + rest;
    assert "{ " <= s;
  }

  lemma NothingReads(rest: string)
    ensures ReadAtom("[" + "" + "]" + rest) == Some((Array([]), rest))
    ensures ReadAtom("{ " + "" + " }" + rest) == Some((Inline([]), rest))
  {
    var a, b := "[" + "" + "]" + rest, "{ " + "" + " }" + rest;
    assert "[]" <= a && a[2..] == rest;
    assert "{  }" <= b && b[4..] == rest && b[0] == '{';
  }

  lemma AtomStarts(v: Atom)
    ensures AtomText(v) != "" && AtomText(v)[0] !in "], "
  {
    hide Escape, ItemsText, PairsText, TokenValue, IsInteger, OfInt;
    if v.Number? || v.Flag? || v.Plain? {
      TokenIsRead(v);
      assert IsTokenChar(AtomText(v)[0]);
    }
  }

  lemma ItemsStart(items: seq<Atom>)
    requires items != []
    ensures ItemsText(items) != "" && ItemsText(items)[0] != ']'
  {
    hide AtomText;
    AtomStarts(items[0]);
  }

  lemma PairsStart(pairs: seq<Pair>)
    requires pairs != []
    ensures PairsText(pairs) != "" && PairsText(pairs)[0] != ' '
  {
    hide AtomText, Escape;
    assert PairText(pairs[0])[0] == '"';
  }

  /** A value reads back exactly if none of its strings holds a raw delete character; otherwise it does not read. */
  lemma {:induction false} AtomReads(v: Atom, rest: string)
    requires Ends(rest)
    ensures ReadAtom(AtomText(v) + rest) == if IsCleanAtom(v) then Some((v, rest)) else None
    decreases v
  {
    hide ReadAtom, ItemsText, PairsText, ReadItemList, ReadPairList, IsClean, JcsString;
    match v
    case Text(t) => TextReads(t, rest);
    case Array(items) =>
      if items == [] {
        NothingReads(rest);
        NoText();
      } else {
        ItemsRead(items, rest);
        ItemsStart(items);
        ArrayReads(ItemsText(items), ReadItemList(ItemsText(items) + "]" + rest), rest);
      }
    case Inline(pairs) =>
      if pairs == [] {
        NothingReads(rest);
        NoText();
      } else {
        PairsRead(pairs, rest);
        PairsStart(pairs);
        InlineReads(PairsText(pairs), ReadPairList(PairsText(pairs) + " }" + rest), rest);
      }
    case _ => PlainReads(v, rest);
  }

  lemma NoText()
    ensures ItemsText([]) == "" && PairsText([]) == ""
  {
  }

  lemma LastItemReads(text: string, v: Option<Atom>, rest: string)
    requires ReadAtom(text + ("]" + rest)) == if v.Some? then Some((v.value, "]" + rest)) else None
    ensures ReadItemList(text + "]" + rest) == if v.Some? then Some(([v.value], rest)) else None
  {
    hide ReadAtom;
    assert text + "]" + rest == text + ("]" + rest);
    assert ("]" + rest)[1..] == rest;
  }

  lemma NextItemReads(text: string, v: Option<Atom>, tail: string, others: Reading<seq<Atom>>)
    requires ReadAtom(text + (", " + tail)) == if v.Some? then Some((v.value, ", " + tail)) else None
    requires ReadItemList(tail) == others
    ensures ReadItemList(text + ", " + tail) ==
            if v.None? || others.None? then None else Some(([v.value] + others.value.0, others.value.1))
  {
    hide ReadAtom;
    assert text + ", " + tail == text + (", " + tail);
    assert (", " + tail)[2..] == tail && (", " + tail)[0] == ',' && ", " <= ", " + tail;
  }

  lemma {:induction false} ItemsRead(items: seq<Atom>, rest: string)
    requires items != []
    ensures ReadItemList(ItemsText(items) + "]" + rest) ==
            if forall i :: 0 <= i < |items| ==> IsCleanAtom(items[i]) then Some((items, rest)) else None
    decreases items
  {
    hide ReadAtom, ReadItemList, AtomText, IsCleanAtom;
    var text, v := AtomText(items[0]), if IsCleanAtom(items[0]) then Some(items[0]) else None;
    if |items| == 1 {
      assert items == [items[0]];
      AtomReads(items[0], "]" + rest);
      LastItemReads(text, v, rest);
    } else {
      var tail := ItemsText(items[1..]) + "]" + rest;
      ItemsRead(items[1..], rest);
      AtomReads(items[0], ", " + tail);
      NextItemReads(text, v, tail, ReadItemList(tail));
      assert ItemsText(items) + "]" + rest == text + ", " + tail;
      assert items == [items[0]] + items[1..];
      assert forall i :: 0 <= i < |items| - 1 ==> items[1..][i] == items[i + 1];
    }
  }

  predicate IsCleanPair(p: Pair) { IsClean(p.key) && IsCleanAtom(p.value) }

  lemma {:induction false} PairReads(p: Pair, rest: string)
    requires Ends(rest)
    ensures ReadPair(PairText(p) + rest) == if IsCleanPair(p) then Some((p, rest)) else None
    decreases p
  {
    hide ReadAtom, AtomText, IsCleanAtom, ReadQuoted, JcsString, IsClean;
    var tail := " = " + AtomText(p.value) + rest;
    QuotedReadsBack(p.key, tail);
    AtomReads(p.value, rest);
    assert PairText(p) + rest == JcsString(p.key) + tail;
    assert " = " <= tail && tail[3..] == AtomText(p.value) + rest;
  }

  lemma LastPairReads(text: string, p: Option<Pair>, rest: string)
    requires ReadPair(text + (" }" + rest)) == if p.Some? then Some((p.value, " }" + rest)) else None
    ensures ReadPairList(text + " }" + rest) == if p.Some? then Some(([p.value], rest)) else None
  {
    hide ReadPair;
    assert text + " }" + rest == text + (" }" + rest);
    assert " }" <= " }" + rest && (" }" + rest)[2..] == rest;
  }

  lemma NextPairReads(text: string, p: Option<Pair>, tail: string, others: Reading<seq<Pair>>)
    requires ReadPair(text + (", " + tail)) == if p.Some? then Some((p.value, ", " + tail)) else None
    requires ReadPairList(tail) == others
    ensures ReadPairList(text + ", " + tail) ==
            if p.None? || others.None? then None else Some(([p.value] + others.value.0, others.value.1))
  {
    hide ReadPair;
    assert text + ", " + tail == text + (", " + tail);
    assert (", " + tail)[2..] == tail && (", " + tail)[0] == ',' && ", " <= ", " + tail;
  }

  lemma {:induction false} PairsRead(pairs: seq<Pair>, rest: string)
    requires pairs != []
    ensures ReadPairList(PairsText(pairs) + " }" + rest) ==
            if forall i :: 0 <= i < |pairs| ==> IsClean(pairs[i].key) && IsCleanAtom(pairs[i].value)
            then Some((pairs, rest)) else None
    decreases pairs
  {
    hide ReadPair, ReadPairList, PairText, IsCleanAtom, IsClean;
    var text, p := PairText(pairs[0]), if IsCleanPair(pairs[0]) then Some(pairs[0]) else None;
    if |pairs| == 1 {
      assert pairs == [pairs[0]];
      PairReads(pairs[0], " }" + rest);
      LastPairReads(text, p, rest);
    } else {
      var tail := PairsText(pairs[1..]) + " }" + rest;
      PairsRead(pairs[1..], rest);
      PairReads(pairs[0], ", " + tail);
      NextPairReads(text, p, tail, ReadPairList(tail));
      assert PairsText(pairs) + " }" + rest == text + ", " + tail;
      assert pairs == [pairs[0]] + pairs[1..];
      assert forall i :: 0 <= i < |pairs| - 1 ==> pairs[1..][i] == pairs[i + 1];
    }
  }

  /** What `toml_value` writes reads back, before whatever cannot lengthen it, exactly if none of its strings holds a
      raw delete character. */
  lemma TomlValueReads(v: Atom, rest: string)
    requires Ends(rest)
    ensures TomlValue(v).Some? <==> IsPrintableAtom(v)
    ensures TomlValue(v).Some? ==>
              ReadAtom(TomlValue(v).value + rest) == if IsCleanAtom(v) then Some((v, rest)) else None
  {
    hide ReadAtom, AtomText, TomlValue, IsPrintableAtom, IsCleanAtom;
    TomlValueIs(v);
    AtomReads(v, rest);
  }

  /** Texts and flags are always written; refused are numbers of more than 4300 digits, floats that are not finite, and
      lists and inline tables with something refused in them. */
  lemma RefusedExactly(text: string, b: bool, n: int, form: PlainText, items: seq<Atom>, pairs: seq<Pair>)
    ensures TomlValue(Text(text)) != None && TomlValue(Flag(b)) != None
    ensures TomlValue(Number(n)) == None <==> |OfNat(if n < 0 then -n else n)| > 4300
    ensures TomlValue(Plain(form)) == None <==> form == "inf" || form == "-inf" || form == "nan"
    ensures TomlValue(Array(items)) == None <==> exists i :: 0 <= i < |items| && TomlValue(items[i]) == None
    ensures TomlValue(Inline(pairs)) == None <==> exists i :: 0 <= i < |pairs| && TomlValue(pairs[i].value) == None
  {
    hide TomlValue;
    TomlValueIs(Text(text));
    TomlValueIs(Flag(b));
    TomlValueIs(Number(n));
    TomlValueIs(Plain(form));
    TomlValueIs(Array(items));
    TomlValueIs(Inline(pairs));
    forall v: Atom ensures TomlValue(v) == None <==> !IsPrintableAtom(v) {
      TomlValueIs(v);
    }
  }

  /** Numbers of more than 4300 digits exist; TOML writes such a number in hexadecimal, which is read at any length. */
  lemma LongNumberIsRefused()
    ensures exists n :: TomlValue(Number(n)) == None
  {
    var t := seq(4301, i => if i == 0 then '1' else '0');
    OfNatToNat(t);
    assert TomlValue(Number(ToNat(t))) == None;
  }

  // Lines.

  function PathText(path: seq<string>): string {
    if path == [] then ""
    else if |path| == 1 then JcsString(path[0])
    else JcsString(path[0]) + "." + PathText(path[1..])
  }

  function LineText(line: Line): string {
    match line
    case Blank => ""
    case Header(path) => "[" + PathText(path) + "]"
    case KeyValue(key, atom) => JcsString(key) + " = " + AtomText(atom)
  }

  predicate IsCleanLine(line: Line) {
    match line
    case Blank => true
    case Header(path) => forall i :: 0 <= i < |path| ==> IsClean(path[i])
    case KeyValue(key, atom) => IsClean(key) && IsCleanAtom(atom)
  }

  /** Quoted keys joined by dots, up to the closing bracket, which is read too. */
  function ReadPath(s: string): (r: Reading<seq<string>>)
    ensures r.Some? ==> |r.value.1| < |s|
    decreases |s|
  {
    match ReadQuoted(s)
    case None => None
    case Some(key) =>
      if "]" <= key.1 then Some(([key.0], key.1[1..]))
      else if "." <= key.1 then
        match ReadPath(key.1[1..])
        case None => None
        case Some(others) => Some(([key.0] + others.0, others.1))
      else None
  }

  function ReadLine(s: string): Option<Line> {
    if s == "" then Some(Blank)
    else if s[0] == '[' then
      match ReadPath(s[1..])
      case None => None
      case Some(path) => if path.1 == "" then Some(Header(path.0)) else None
    else
      match ReadPair(s)
      case None => None
      case Some(p) => if p.1 == "" then Some(KeyValue(p.0.key, p.0.value)) else None
  }

  lemma LastKeyReads(text: string, k: Option<string>, rest: string)
    requires ReadQuoted(text + ("]" + rest)) == if k.Some? then Some((k.value, "]" + rest)) else None
    ensures ReadPath(text + "]" + rest) == if k.Some? then Some(([k.value], rest)) else None
  {
    hide ReadQuoted;
    assert text + "]" + rest == text + ("]" + rest);
    assert ("]" + rest)[1..] == rest;
  }

  lemma NextKeyReads(text: string, k: Option<string>, tail: string, others: Reading<seq<string>>)
    requires ReadQuoted(text + ("." + tail)) == if k.Some? then Some((k.value, "." + tail)) else None
    requires ReadPath(tail) == others
    ensures ReadPath(text + "." + tail) ==
            if k.None? || others.None? then None else Some(([k.value] + others.value.0, others.value.1))
  {
    hide ReadQuoted;
    assert text + "." + tail == text + ("." + tail);
    assert ("." + tail)[1..] == tail && ("." + tail)[0] == '.';
  }

  lemma {:induction false} PathReads(path: seq<string>, rest: string)
    requires path != []
    ensures ReadPath(PathText(path) + "]" + rest) ==
            if forall i :: 0 <= i < |path| ==> IsClean(path[i]) then Some((path, rest)) else None
    decreases path
  {
    hide JcsString, ReadQuoted, ReadPath, IsClean;
    var text, k := JcsString(path[0]), if IsClean(path[0]) then Some(path[0]) else None;
    if |path| == 1 {
      assert path == [path[0]];
      QuotedReadsBack(path[0], "]" + rest);
      LastKeyReads(text, k, rest);
    } else {
      var tail := PathText(path[1..]) + "]" + rest;
      PathReads(path[1..], rest);
      QuotedReadsBack(path[0], "." + tail);
      NextKeyReads(text, k, tail, ReadPath(tail));
      assert PathText(path) + "]" + rest == text + "." + tail;
      assert path == [path[0]] + path[1..];
      assert forall i :: 0 <= i < |path| - 1 ==> path[1..][i] == path[i + 1];
    }
  }

  /** A line reads back exactly if it holds no raw delete character; otherwise it does not read. */
  lemma LineReads(line: Line)
    requires line.Header? ==> line.path != []
    ensures ReadLine(LineText(line)) == if IsCleanLine(line) then Some(line) else None
  {
    hide PathText, ReadPath, ReadPair, AtomText, Escape, IsClean, IsCleanAtom;
    match line
    case Blank =>
    case Header(path) =>
      PathReads(path, "");
      assert LineText(line)[1..] == PathText(path) + "]" + "";
    case KeyValue(key, atom) =>
      PairReads(Pair(key, atom), "");
      assert LineText(line) == PairText(Pair(key, atom)) + "";
  }

  // Documents.

  /** `"\n".join(texts)`. */
  function JoinLines(texts: seq<string>): string {
    if texts == [] then ""
    else if |texts| == 1 then texts[0]
    else texts[0] + "\n" + JoinLines(texts[1..])
  }

  function LineTexts(lines: seq<Line>): (texts: seq<string>)
    ensures |texts| == |lines| && forall i :: 0 <= i < |lines| ==> texts[i] == LineText(lines[i])
  {
    seq(|lines|, i requires 0 <= i < |lines| => LineText(lines[i]))
  }

  /** The text that `config_bytes` encodes. */
  function DocumentText(lines: seq<Line>): string { JoinLines(LineTexts(lines)) + "\n" }

  /** The texts of the lines of a document, each ended by a line feed. */
  function SplitLines(s: string): Option<seq<string>>
    decreases |s|
  {
    if s == "" then Some([])
    else if s[0] == '\n' then
      match SplitLines(s[1..])
      case None => None
      case Some(others) => Some([""] + others)
    else
      match SplitLines(s[1..])
      case None => None
      case Some(others) => if others == [] then None else Some([[s[0]] + others[0]] + others[1..])
  }

  function ReadLines(texts: seq<string>): Option<seq<Line>> {
    if texts == [] then Some([])
    else match ReadLine(texts[0])
      case None => None
      case Some(line) => match ReadLines(texts[1..])
        case None => None
        case Some(others) => Some([line] + others)
  }

  function ReadDocument(s: string): Option<Row> {
    match SplitLines(s)
    case None => None
    case Some(texts) => match ReadLines(texts)
      case None => None
      case Some(lines) => Read(lines)
  }

  predicate IsOneLine(t: string) { '\n' !in t }

  lemma {:induction false} LineSplits(t: string, others: string)
    requires IsOneLine(t)
    ensures SplitLines(t + "\n" + others) ==
            match SplitLines(others) case None => None case Some(texts) => Some([t] + texts)
    decreases |t|
  {
    var s := t + "\n" + others;
    if t == "" {
      assert s[1..] == others;
    } else {
      LineSplits(t[1..], others);
      assert s[0] == t[0] && s[1..] == t[1..] + "\n" + others;
      assert t == [t[0]] + t[1..] && t[0] in t;
    }
  }

  lemma {:induction false} JoinedSplit(texts: seq<string>)
    requires texts != [] && forall i :: 0 <= i < |texts| ==> IsOneLine(texts[i])
    ensures SplitLines(JoinLines(texts) + "\n") == Some(texts)
    decreases |texts|
  {
    hide IsOneLine;
    if |texts| == 1 {
      LineSplits(texts[0], "");
      assert texts[0] + "\n" + "" == JoinLines(texts) + "\n";
      assert [texts[0]] + [] == texts && SplitLines("") == Some([]);
    } else {
      JoinedSplit(texts[1..]);
      LineSplits(texts[0], JoinLines(texts[1..]) + "\n");
      assert texts[0] + "\n" + (JoinLines(texts[1..]) + "\n") == JoinLines(texts) + "\n";
      assert [texts[0]] + texts[1..] == texts;
    }
  }

  lemma {:induction false} EscapedIsOneLine(t: string)
    ensures IsOneLine(Escape(t))
  {
    if t != "" {
      EscapedIsOneLine(t[1..]);
      assert forall i :: 0 <= i < |EscapeChar(t[0])| ==> EscapeChar(t[0])[i] != '\n';
      OneLineConcat(EscapeChar(t[0]), Escape(t[1..]));
    }
  }

  lemma OneLineConcat(a: string, b: string)
    requires IsOneLine(a) && IsOneLine(b)
    ensures IsOneLine(a + b)
  {
  }

  lemma QuotedIsOneLine(t: string)
    ensures IsOneLine(JcsString(t))
  {
    EscapedIsOneLine(t);
  }

  lemma {:induction false} AtomIsOneLine(v: Atom)
    ensures IsOneLine(AtomText(v))
    decreases v
  {
    hide Escape, TokenValue, IsInteger, ItemsText, PairsText;
    match v
    case Text(t) => QuotedIsOneLine(t);
    case Array(items) => ItemsAreOneLine(items);
    case Inline(pairs) => PairsAreOneLine(pairs);
    case _ =>
      TokenIsRead(v);
      assert forall i :: 0 <= i < |AtomText(v)| ==> IsTokenChar(AtomText(v)[i]);
  }

  lemma {:induction false} ItemsAreOneLine(items: seq<Atom>)
    ensures IsOneLine(ItemsText(items))
    decreases items
  {
    hide AtomText;
    if items != [] {
      AtomIsOneLine(items[0]);
      ItemsAreOneLine(items[1..]);
    }
  }

  lemma {:induction false} PairIsOneLine(p: Pair)
    ensures IsOneLine(PairText(p))
    decreases p
  {
    hide AtomText, JcsString;
    QuotedIsOneLine(p.key);
    AtomIsOneLine(p.value);
  }

  lemma {:induction false} PairsAreOneLine(pairs: seq<Pair>)
    ensures IsOneLine(PairsText(pairs))
    decreases pairs
  {
    hide PairText;
    if pairs != [] {
      PairIsOneLine(pairs[0]);
      PairsAreOneLine(pairs[1..]);
    }
  }

  lemma {:induction false} PathIsOneLine(path: seq<string>)
    ensures IsOneLine(PathText(path))
  {
    hide JcsString;
    if path != [] {
      QuotedIsOneLine(path[0]);
      PathIsOneLine(path[1..]);
    }
  }

  lemma LineIsOneLine(line: Line)
    ensures IsOneLine(LineText(line))
  {
    hide PathText, AtomText, JcsString;
    match line
    case Blank =>
    case Header(path) => PathIsOneLine(path);
    case KeyValue(key, atom) =>
      QuotedIsOneLine(key);
      AtomIsOneLine(atom);
  }

  predicate AreCleanLines(lines: seq<Line>) { forall i :: 0 <= i < |lines| ==> IsCleanLine(lines[i]) }

  predicate HaveHeaders(lines: seq<Line>) {
    forall i :: 0 <= i < |lines| ==> lines[i].Header? ==> lines[i].path != []
  }

  lemma {:induction false} LinesRead(lines: seq<Line>)
    requires HaveHeaders(lines)
    ensures ReadLines(LineTexts(lines)) == if AreCleanLines(lines) then Some(lines) else None
    decreases lines
  {
    hide LineText, ReadLine, IsCleanLine;
    if lines != [] {
      LineReads(lines[0]);
      LinesRead(lines[1..]);
      assert LineTexts(lines)[1..] == LineTexts(lines[1..]);
      assert lines == [lines[0]] + lines[1..];
      assert forall i :: 0 <= i < |lines| - 1 ==> lines[1..][i] == lines[i + 1];
    }
  }

  /** A document reads back as its lines exactly if they hold no raw delete character; otherwise it does not read. */
  lemma DocumentReads(lines: seq<Line>)
    requires HaveHeaders(lines)
    ensures ReadDocument(DocumentText(lines)) == if AreCleanLines(lines) then Read(lines) else None
  {
    hide LineText, ReadLine, IsCleanLine, Read, SplitLines;
    if lines == [] {
      EmptyDocument();
    } else {
      forall i | 0 <= i < |lines| ensures IsOneLine(LineTexts(lines)[i]) {
        LineIsOneLine(lines[i]);
      }
      JoinedSplit(LineTexts(lines));
      LinesRead(lines);
    }
  }

  lemma EmptyDocument()
    ensures ReadDocument(DocumentText([])) == Read([])
  {
    LineSplits("", "");
    assert "" + "\n" + "" == DocumentText([]);
    var none: string, first: seq<string> := "", [""];
    assert first + [] == first && [Blank] + [] == [Blank];
    assert SplitLines("") == Some([]) && SplitLines(DocumentText([])) == Some(first);
    assert first[1..] == [] && first[0] == none && ReadLine(none) == Some(Blank);
    assert ReadLines([]) == Some([]) && ReadLines(first) == Some([Blank]);
    assert [Blank][1..] == [] && Run(State([], []), []) == Some(State([], []));
    assert Run(State([], []), [Blank]) == Some(State([], []));
  }
}
