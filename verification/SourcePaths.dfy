/** Relative paths, as components and as the text the export plan records. */
module SourcePaths {
  /** A name a directory can hold. */
  predicate IsName(n: string) { n != "" && n != "." && n != ".." && '/' !in n && '\0' !in n }

  predicate IsPath(parts: seq<string>) { parts != [] && forall i :: 0 <= i < |parts| ==> IsName(parts[i]) }

  /** `as_posix()`. */
  function Text(parts: seq<string>): string
    requires parts != []
  {
    if |parts| == 1 then parts[0] else parts[0] + "/" + Text(parts[1..])
  }

  /** `text.split("/")`. */
  function Split(text: string): (parts: seq<string>)
    ensures parts != []
  {
    if text == "" then [""]
    else
      var rest := Split(text[1..]);
      if text[0] == '/' then [""] + rest else [[text[0]] + rest[0]] + rest[1..]
  }

  /** `safe_name` accepts the text. */
  predicate IsSafe(text: string) {
    text != "" && '\\' !in text && '\0' !in text && ':' !in text &&
    forall i :: 0 <= i < |Split(text)| ==> Split(text)[i] !in ["", ".", ".."]
  }

  /** The text is the path or lies below it. */
  predicate Under(text: string, path: string) { text == path || path + "/" <= text }

  lemma UnderTransitive(a: string, b: string, c: string)
    requires Under(a, b) && Under(b, c)
    ensures Under(a, c)
  {
  }

  /** Two paths that both hold a third are comparable. */
  lemma UnderComparable(text: string, p: string, q: string)
    requires Under(text, p) && Under(text, q)
    ensures Under(p, q) || Under(q, p)
  {
    var a, b := p + "/", q + "/";
    if text != p && text != q {
      if |p| < |q| {
        assert a == text[..|a|] == q[..|a|];
      } else if |q| < |p| {
        assert b == text[..|b|] == p[..|b|];
      } else {
        assert a == text[..|a|] == text[..|b|] == b;
        assert p == a[..|p|] && q == b[..|q|];
      }
    }
  }

  lemma {:induction false} TextConcat(a: seq<string>, b: seq<string>)
    requires a != [] && b != []
    ensures Text(a + b) == Text(a) + "/" + Text(b)
  {
    if |a| == 1 {
      assert (a + b)[1..] == b;
    } else {
      TextConcat(a[1..], b);
      assert (a + b)[1..] == a[1..] + b;
      assert a[0] + "/" + (Text(a[1..]) + "/" + Text(b)) == Text(a) + "/" + Text(b);
    }
  }

  /** Extending a path goes below it. */
  lemma PrefixHolds(a: seq<string>, b: seq<string>)
    requires a != [] && a <= b
    ensures Under(Text(b), Text(a))
    ensures a != b ==> Text(a) + "/" <= Text(b)
  {
    if a != b {
      assert b == a + b[|a|..];
      TextConcat(a, b[|a|..]);
    }
  }

  /** Components that hold no slash can be recovered. */
  lemma {:induction false} SplitText(parts: seq<string>)
    requires parts != [] && forall i :: 0 <= i < |parts| ==> '/' !in parts[i]
    ensures Split(Text(parts)) == parts
    decreases |parts|, |parts[0]|
  {
    var head := parts[0];
    if head == "" {
      if |parts| > 1 {
        SplitText(parts[1..]);
        assert Text(parts)[1..] == Text(parts[1..]);
        assert parts == [""] + parts[1..];
      }
    } else {
      assert head[0] in head;
      var shorter := [head[1..]] + parts[1..];
      assert shorter[1..] == parts[1..];
      SplitText(shorter);
      assert Text(parts)[1..] == Text(shorter);
      assert Text(parts)[0] == head[0];
      assert head == [head[0]] + head[1..];
      assert parts == [head] + parts[1..];
    }
  }

  lemma TextInjective(a: seq<string>, b: seq<string>)
    requires IsPath(a) && IsPath(b) && Text(a) == Text(b)
    ensures a == b
  {
    SplitText(a);
    SplitText(b);
  }
}
