/** What makes the printed text canonical: among all the texts that a JSON reader takes for the same string, it is the
    shortest, and the only one of that length whose hexadecimal digits are lower case. */
module JsonCanonical {
  import opened CanonicalJson
  import opened JsonReader
  import opened JsonRoundTrip
  import opened TextFormats
  import opened Wrappers

  /** No hexadecimal digit in upper case. */
  predicate IsLower(t: string) { forall i :: 0 <= i < |t| ==> !('A' <= t[i] <= 'F') }

  lemma HexDetermines(a: char, b: char)
    requires HexValue(a).Some? && HexValue(a) == HexValue(b) && !('A' <= a <= 'F') && !('A' <= b <= 'F')
    ensures a == b
  {
  }

  lemma DigitsDetermine(a: int, b: int, c: int, d: int, a': int, b': int, c': int, d': int)
    requires 0 <= a < 16 && 0 <= b < 16 && 0 <= c < 16 && 0 <= d < 16
    requires 0 <= a' < 16 && 0 <= b' < 16 && 0 <= c' < 16 && 0 <= d' < 16
    requires 0x1000 * a + 0x100 * b + 0x10 * c + d == 0x1000 * a' + 0x100 * b' + 0x10 * c' + d'
    ensures a == a' && b == b' && c == c' && d == d'
  {
  }

  lemma HexBounds(s: string)
    requires |s| == 4 && HexChar(s).Some?
    ensures forall i :: 0 <= i < 4 ==> HexValue(s[i]).Some? && 0 <= HexValue(s[i]).value < 16
    ensures HexChar(s).value as int == 0x1000 * HexValue(s[0]).value + 0x100 * HexValue(s[1]).value +
                                       0x10 * HexValue(s[2]).value + HexValue(s[3]).value
  {
  }

  lemma HexCharDetermines(s: string, t: string)
    requires |s| == |t| == 4 && HexChar(s).Some? && HexChar(s) == HexChar(t) && IsLower(s) && IsLower(t)
    ensures s == t
  {
    hide HexValue, HexChar;
    HexBounds(s);
    HexBounds(t);
    DigitsDetermine(HexValue(s[0]).value, HexValue(s[1]).value, HexValue(s[2]).value, HexValue(s[3]).value,
                    HexValue(t[0]).value, HexValue(t[1]).value, HexValue(t[2]).value, HexValue(t[3]).value);
    forall i | 0 <= i < 4 ensures s[i] == t[i] {
      HexDetermines(s[i], t[i]);
    }
  }

  /** A character cannot be written shorter than it is printed, and not otherwise at that length, except in upper
      case. */
  lemma CharIsShortest(c: char, t: string, rest: string)
    requires ReadChar(t + rest) == Some((c, rest))
    ensures |EscapeChar(c)| <= |t|
    ensures |EscapeChar(c)| == |t| && (|t| == 6 ==> IsLower(t[2..])) ==> t == EscapeChar(c)
  {
    hide HexChar;
    var s := t + rest;
    assert |s| - |rest| == |t|;
    if |t| == 1 {
      assert s[0] == t[0];
    } else if |t| == 2 {
      assert s[0] == t[0] && s[1] == t[1];
    } else {
      assert s[0] == t[0] && s[1] == t[1] && s[2..6] == t[2..6] && t[2..6] == t[2..];
      if |EscapeChar(c)| == 6 && IsLower(t[2..]) {
        PrintedHex(c);
        HexCharDetermines(t[2..], EscapeChar(c)[2..]);
        assert t == t[..2] + t[2..] && EscapeChar(c) == EscapeChar(c)[..2] + EscapeChar(c)[2..];
      }
    }
  }

  lemma PrintedHex(c: char)
    requires |EscapeChar(c)| == 6
    ensures var e := EscapeChar(c); e[..2] == "\\u" && HexChar(e[2..]) == Some(c) && IsLower(e[2..])
  {
    CharReads(c, "");
    var e := EscapeChar(c);
    assert e + "" == e && e[2..6] == e[2..];
  }

  /** How much of the text its first character takes. */
  function Taken(t: string): (n: nat)
    requires ReadChar(t).Some?
    ensures 0 < n <= |t|
  {
    |t| - |ReadChar(t).value.1|
  }

  /** The escapes of a text that is read as a string have lower-case digits. */
  predicate HasLowerEscapes(t: string)
    decreases |t|
  {
    t == "" || (ReadChar(t).Some? && (Taken(t) == 6 ==> IsLower(t[2..6])) && HasLowerEscapes(t[Taken(t)..]))
  }

  lemma TakenIsPrefix(s: string)
    requires ReadChar(s).Some?
    ensures s == s[..Taken(s)] + ReadChar(s).value.1
    ensures Taken(s) in {1, 2, 6}
  {
  }

  lemma CharsEnd(s: string)
    requires ReadChars(s).Some?
    ensures var rest := ReadChars(s).value.1; |rest| < |s| && s[|s| - |rest| - 1..] == "\"" + rest
    decreases |s|
  {
    hide ReadChar;
    if s[0] != '"' {
      TakenIsPrefix(s);
      CharsEnd(ReadChar(s).value.1);
    }
  }

  /** Reading a piece takes it whatever follows. */
  lemma PieceAlone(piece: string, rest: string, other: string, c: char)
    requires ReadChar(piece + rest) == Some((c, rest))
    ensures ReadChar(piece + other) == Some((c, other))
  {
    hide HexChar, ShortEscape;
    var s, o := piece + rest, piece + other;
    assert |s| - |rest| == |piece| && s[..|piece|] == piece == o[..|piece|];
    assert o[|piece|..] == other;
    assert forall i :: 0 <= i < |piece| ==> s[i] == piece[i] == o[i];
    if |piece| == 6 {
      assert s[2..6] == piece[2..6] == o[2..6];
    }
  }

  /** A text that reads back as a string, split after its first character. */
  lemma FirstPiece(text: string, t: string, rest: string) returns (piece: string, more: string)
    requires t != "" && ReadChars(t + "\"" + rest) == Some((text, rest))
    ensures t == piece + more && |piece| in {1, 2, 6} && text != ""
    ensures ReadChar(piece + (more + "\"" + rest)) == Some((text[0], more + "\"" + rest))
    ensures ReadChars(more + "\"" + rest) == Some((text[1..], rest))
  {
    hide ReadChar, ReadChars, Taken;
    var s := t + "\"" + rest;
    var after, n := GoesOn(s, text, rest);
    CharsEnd(after);
    piece, more := t[..n], t[n..];
    assert s == t + ("\"" + rest) && s[..n] == piece && s[n..] == more + "\"" + rest;
    assert s == piece + (more + "\"" + rest);
  }

  /** A text that is longer than the closing quote goes on with a character. */
  lemma GoesOn(s: string, text: string, rest: string) returns (after: string, n: nat)
    requires ReadChars(s) == Some((text, rest)) && |s| > |rest| + 1
    ensures text != "" && ReadChar(s) == Some((text[0], after)) && ReadChars(after) == Some((text[1..], rest))
    ensures n in {1, 2, 6} && n <= |s| && after == s[n..] && n + |rest| < |s|
  {
    hide ReadChar;
    after := ReadChar(s).value.1;
    n := Taken(s);
    TakenIsPrefix(s);
    assert s[n..] == after;
  }

  /** No text that reads back as the string is shorter than the printed one, and the printed one is the only text of its
      length whose escapes have lower-case digits. */
  lemma {:induction false} StringIsShortest(text: string, t: string, rest: string)
    requires ReadChars(t + "\"" + rest) == Some((text, rest))
    ensures |Escape(text)| <= |t|
    ensures |Escape(text)| == |t| && HasLowerEscapes(t) ==> t == Escape(text)
    decreases |t|
  {
    hide ReadChar, ReadChars, EscapeChar;
    if t == "" {
      EmptyReads(rest);
    } else {
      var piece, more := FirstPiece(text, t, rest);
      var after := more + "\"" + rest;
      CharIsShortest(text[0], piece, after);
      StringIsShortest(text[1..], more, rest);
      PieceAlone(piece, after, more, text[0]);
      assert t[|piece|..] == more;
      assert |piece| == 6 ==> piece[2..] == t[2..6];
    }
  }

  lemma EmptyReads(rest: string)
    ensures ReadChars("" + "\"" + rest) == Some(("", rest))
  {
    var s := "" + "\"" + rest;
    assert s[0] == '"' && s[1..] == rest;
  }
}
