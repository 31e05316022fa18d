/** String operations of the Go library that the model needs, on strings with one `char`
    per Unicode code point, and the laws about them. */
module Text {

  datatype Option<+T> = None | Some(value: T)

  // ----- Splitting and joining -----

  /** strings.Split for a one-character separator. */
  function Split(s: string, sep: char): (parts: seq<string>)
    ensures |parts| >= 1
    ensures forall p | p in parts :: sep !in p
  {
    if s == "" then [""]
    else
      var rest := Split(s[1..], sep);
      if s[0] == sep then [""] + rest
      else [[s[0]] + rest[0]] + rest[1..]
  }

  /** strings.Join for a one-character separator. */
  function Join(parts: seq<string>, sep: char): string {
    if |parts| == 0 then ""
    else if |parts| == 1 then parts[0]
    else parts[0] + [sep] + Join(parts[1..], sep)
  }

  lemma {:induction false} JoinSplit(s: string, sep: char)
    ensures Join(Split(s, sep), sep) == s
  {
    if s != "" {
      var rest := Split(s[1..], sep);
      JoinSplit(s[1..], sep);
      var parts := Split(s, sep);
      if s[0] == sep {
        assert parts[1..] == rest;
        assert s == [sep] + s[1..];
      } else {
        assert parts[1..] == rest[1..];
        assert s == [s[0]] + s[1..];
        assert Join(rest, sep) == s[1..];
        if |rest| == 1 {
          assert Join(parts, sep) == parts[0];
        } else {
          assert Join(parts, sep) == ([s[0]] + rest[0]) + [sep] + Join(rest[1..], sep);
          assert Join(rest, sep) == rest[0] + [sep] + Join(rest[1..], sep);
        }
      }
    }
  }

  lemma {:induction false} SplitFree(s: string, sep: char)
    requires sep !in s
    ensures Split(s, sep) == [s]
  {
    if s != "" {
      SplitFree(s[1..], sep);
      assert s == [s[0]] + s[1..];
    }
  }

  /** A separator cuts the split in two. */
  lemma {:induction false} SplitAt(a: string, sep: char, b: string)
    requires sep !in a
    ensures Split(a + [sep] + b, sep) == [a] + Split(b, sep)
  {
    var s := a + [sep] + b;
    if a == "" {
      assert s[1..] == b;
    } else {
      SplitAt(a[1..], sep, b);
      assert s[1..] == a[1..] + [sep] + b;
      assert a == [a[0]] + a[1..];
    }
  }

  /** A part added behind a separator is one more part. */
  lemma {:induction false} SplitSnoc(a: string, sep: char, e: string)
    requires sep !in e
    ensures Split(a + [sep] + e, sep) == Split(a, sep) + [e]
  {
    var s := a + [sep] + e;
    if a == "" {
      SplitAt("", sep, e);
      SplitFree(e, sep);
      assert s == "" + [sep] + e;
    } else {
      assert s[1..] == a[1..] + [sep] + e;
      SplitSnoc(a[1..], sep, e);
    }
  }

  /** From `i` to `j` is a whole part of a text: separators or its ends stand around it, and none is inside. */
  ghost predicate PartOf(s: string, sep: char, i: int, j: int) {
    && 0 <= i <= j <= |s| && sep !in s[i..j]
    && (i == 0 || s[i - 1] == sep) && (j == |s| || s[j] == sep)
  }

  /** Splitting gives exactly the parts between separators. */
  lemma {:induction false} SplitIff(s: string, sep: char, p: string)
    ensures p in Split(s, sep) <==> exists i, j :: PartOf(s, sep, i, j) && s[i..j] == p
  {
    hide IndexOf, Split;
    var k := IndexOf(s, sep);
    var a := s[..k];
    assert PartOf(s, sep, 0, k) && s[0..k] == a;
    if k == |s| {
      assert s == a;
      SplitFree(s, sep);
      forall i, j | PartOf(s, sep, i, j)
        ensures s[i..j] == s
      {
        NoneInside(s, sep, 0, |s|);
      }
    } else {
      var b := s[k + 1..];
      assert s == a + [sep] + b;
      SplitAt(a, sep, b);
      SplitIff(b, sep, p);
      if i, j :| PartOf(b, sep, i, j) && b[i..j] == p {
        assert s[k + 1 + i..k + 1 + j] == b[i..j];
        assert i > 0 ==> s[k + i] == b[i - 1];
        assert PartOf(s, sep, k + 1 + i, k + 1 + j);
      }
      if i, j :| PartOf(s, sep, i, j) && s[i..j] == p {
        LaterPart(s, sep, k, i, j);
      }
    }
  }

  lemma NoneInside(s: string, c: char, i: int, j: int)
    requires 0 <= i <= j <= |s| && c !in s[i..j]
    ensures forall k | i <= k < j :: s[k] != c
  {
    assert forall k | i <= k < j :: s[k] == s[i..j][k - i];
  }

  /** A part of a text is the first one, or a part of what follows the first separator. */
  lemma LaterPart(s: string, sep: char, k: nat, i: int, j: int)
    requires k < |s| && s[k] == sep && sep !in s[..k] && PartOf(s, sep, i, j)
    ensures (i == 0 && j == k) || (i > k && PartOf(s[k + 1..], sep, i - k - 1, j - k - 1) && s[k + 1..][i - k - 1..j - k - 1] == s[i..j])
  {
    NoneInside(s, sep, 0, k);
    NoneInside(s, sep, i, j);
    if i > k {
      assert s[k + 1..][i - k - 1..j - k - 1] == s[i..j];
    }
  }

  // ----- Prefixes, suffixes, cutting -----

  predicate HasPrefix(s: string, p: string) {
    |p| <= |s| && s[..|p|] == p
  }

  predicate HasSuffix(s: string, p: string) {
    |p| <= |s| && s[|s| - |p|..] == p
  }

  function TrimPrefix(s: string, p: string): string {
    if HasPrefix(s, p) then s[|p|..] else s
  }

  /** Position of the first occurrence of `c`, or |s|. */
  function IndexOf(s: string, c: char): (i: nat)
    ensures i <= |s|
    ensures c !in s[..(i)]
    ensures i < |s| ==> s[i] == c
    ensures i == |s| <==> c !in s
  {
    if s == "" then 0
    else if s[0] == c then 0
    else
      var j := IndexOf(s[1..], c);
      assert s[..1 + j] == [s[0]] + s[1..][..j];
      assert s == [s[0]] + s[1..];
      1 + j
  }

  lemma {:induction false} IndexOfAt(a: string, c: char, b: string)
    requires c !in a
    ensures IndexOf(a + [c] + b, c) == |a|
  {
    if a != "" {
      assert (a + [c] + b)[1..] == a[1..] + [c] + b;
      IndexOfAt(a[1..], c, b);
    }
  }

  // ----- White space -----

  /** unicode.IsSpace. */
  predicate IsSpace(c: char) {
    c in {'\t', '\n', '\U{0B}', '\U{0C}', '\r', ' ', '\U{85}', '\U{A0}', '\U{1680}', '\U{2028}', '\U{2029}',
          '\U{202F}', '\U{205F}', '\U{3000}'} || '\U{2000}' <= c <= '\U{200A}'
  }

  function TrimLeft(s: string): (t: string)
    ensures t == "" || !IsSpace(t[0])
    ensures exists k :: 0 <= k <= |s| && t == s[k..]
  {
    if s != "" && IsSpace(s[0]) then
      var t := TrimLeft(s[1..]);
      var k :| 0 <= k <= |s[1..]| && t == s[1..][k..];
      assert t == s[k + 1..];
      t
    else
      assert s == s[0..];
      s
  }

  function TrimRight(s: string): (t: string)
    ensures t == "" || !IsSpace(t[|t| - 1])
    ensures t <= s
  {
    if s != "" && IsSpace(s[|s| - 1]) then TrimRight(s[..|s| - 1]) else s
  }

  /** strings.TrimSpace. */
  function TrimSpace(s: string): (t: string)
    ensures Trimmed(t)
    ensures forall c | c in t :: c in s
  {
    TrimRight(TrimLeft(s))
  }

  predicate Trimmed(s: string) {
    s == "" || (!IsSpace(s[0]) && !IsSpace(s[|s| - 1]))
  }

  lemma TrimSpaceId(s: string)
    requires Trimmed(s)
    ensures TrimSpace(s) == s
  {
  }

  lemma {:induction false} TrimLeftPadded(w: string, s: string)
    requires forall c | c in w :: IsSpace(c)
    ensures TrimLeft(w + s) == TrimLeft(s)
  {
    if w == "" {
      assert w + s == s;
    } else {
      assert w[0] in w;
      assert (w + s)[1..] == w[1..] + s;
      TrimLeftPadded(w[1..], s);
    }
  }

  /** White space by its code points. */
  lemma SpaceIs(c: char)
    ensures IsSpace(c) <==> (var n := c as int;
                             9 <= n <= 13 || 8192 <= n <= 8202
                             || n in {32, 133, 160, 5760, 8232, 8233, 8239, 8287, 12288})
  {
  }

  lemma {:induction false} TrimRightPadded(s: string, w: string)
    requires forall c | c in w :: IsSpace(c)
    ensures TrimRight(s + w) == TrimRight(s)
  {
    hide IsSpace;
    if w == "" {
      assert s + w == s;
    } else {
      var k := |w| - 1;
      assert w[k] in w;
      assert (s + w)[..|s| + k] == s + w[..k];
      TrimRightPadded(s, w[..k]);
    }
  }

  /** Trimming takes off the white space around a text, and nothing else. */
  lemma TrimIs(before: string, t: string, after: string)
    requires (forall c | c in before :: IsSpace(c)) && Trimmed(t) && forall c | c in after :: IsSpace(c)
    ensures TrimSpace(before + t + after) == t
  {
    hide IsSpace;
    assert before + t + after == before + (t + after);
    TrimLeftPadded(before, t + after);
    if t == "" {
      assert after + "" == after && t + after == after;
      TrimLeftPadded(after, "");
    } else {
      assert (t + after)[0] == t[0];
      assert TrimLeft(t + after) == t + after;
      TrimRightPadded(t, after);
    }
  }

  // ----- Octets -----

  /** Octets of a text in UTF-8. */
  function OctetLength(s: string): nat {
    if s == "" then 0 else Width(s[0]) + OctetLength(s[1..])
  }

  function Width(c: char): nat {
    if c < '\U{80}' then 1 else if c < '\U{800}' then 2 else if c < '\U{10000}' then 3 else 4
  }

  lemma {:induction false} OctetLengthAppend(a: string, b: string)
    ensures OctetLength(a + b) == OctetLength(a) + OctetLength(b)
  {
    if a == "" {
      assert a + b == b;
    } else {
      OctetLengthAppend(a[1..], b);
      assert (a + b)[1..] == a[1..] + b;
    }
  }

  // ----- Case folding -----

  function LowerChar(c: char): char {
    if 'A' <= c <= 'Z' then (c as int + 32) as char else c
  }

  /** strings.ToLower on ASCII letters. */
  function ToLower(s: string): (t: string)
    ensures |t| == |s|
  {
    seq(|s|, i requires 0 <= i < |s| => LowerChar(s[i]))
  }

  /** The representative of a character under strings.EqualFold, exact where one side is ASCII:
      besides the letters, U+017F folds with s and U+212A with k. */
  function FoldChar(c: char): char {
    if 'A' <= c <= 'Z' then (c as int + 32) as char
    else if c == '\U{17F}' then 's'
    else if c == '\U{212A}' then 'k'
    else c
  }

  function Fold(s: string): (t: string)
    ensures |t| == |s|
  {
    seq(|s|, i requires 0 <= i < |s| => FoldChar(s[i]))
  }

  predicate EqualFold(s: string, t: string) {
    Fold(s) == Fold(t)
  }

  const UPPER := "ABCDEFGHIJKLMNOPQRSTUVWXYZ"
  const LOWER := "abcdefghijklmnopqrstuvwxyz"

  /** Letters lose their case, and fold with the other case; no other ASCII character changes. */
  lemma CaseIs(i: nat, c: char)
    requires i < 26 && (c as int < 65 || 90 < c as int < 128)
    ensures LowerChar(UPPER[i]) == LOWER[i] && LowerChar(c) == c
    ensures FoldChar(UPPER[i]) == LOWER[i] && FoldChar(c) == c
  {
    assert forall k | 0 <= k < 26 :: UPPER[k] as int == 65 + k && LOWER[k] as int == 97 + k;
  }

  /** Texts are alike when they are character by character, and lower case is taken likewise. */
  lemma AlikeIff(s: string, t: string)
    ensures EqualFold(s, t) <==> |s| == |t| && forall i | 0 <= i < |s| :: FoldChar(s[i]) == FoldChar(t[i])
    ensures forall i | 0 <= i < |s| :: ToLower(s)[i] == LowerChar(s[i])
  {
    if EqualFold(s, t) {
      assert |s| == |Fold(s)| == |Fold(t)| == |t|;
      assert forall i | 0 <= i < |s| :: Fold(s)[i] == FoldChar(s[i]) && Fold(t)[i] == FoldChar(t[i]);
    }
  }
}
