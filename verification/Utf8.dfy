/** Repair of article text for storage: the UTF-8 encoding of RFC 3629, the program's decoder,
    and the clean-up that turns any octets into valid text without NUL. */
module Utf8 {
  import opened Octets
  import Text

  type Scalar = r: int | 0 <= r < 0xD800 || 0xE000 <= r <= 0x10FFFF

  const RUNE_ERROR: Scalar := 0xFFFD

  // ----- Encoding (section 3 of RFC 3629) -----

  function Encode(r: Scalar): (b: seq<Octet>)
    ensures 1 <= |b| <= 4
  {
    if r <= 0x7F then [r]
    else if r <= 0x7FF then [0xC0 + r / 64, 0x80 + r % 64]
    else if r <= 0xFFFF then [0xE0 + r / 4096, 0x80 + r / 64 % 64, 0x80 + r % 64]
    else [0xF0 + r / 262144, 0x80 + r / 4096 % 64, 0x80 + r / 64 % 64, 0x80 + r % 64]
  }

  function EncodeAll(rs: seq<Scalar>): seq<Octet> {
    if rs == [] then [] else Encode(rs[0]) + EncodeAll(rs[1..])
  }

  // ----- Decoding, as the program's library does it -----

  predicate Continues(s: seq<Octet>, i: nat, lo: Octet, hi: Octet) {
    i < |s| && lo <= s[i] <= hi
  }

  /** The six payload bits of a continuation octet. */
  function Payload(s: seq<Octet>, i: nat): int
    requires i < |s|
  {
    var octet: int := s[i];
    octet - 0x80
  }

  /** The first code point and its length; (RUNE_ERROR, 1) where no well-formed sequence starts. */
  function DecodeRune(s: seq<Octet>): (d: (Scalar, nat))
    requires s != []
    ensures 1 <= d.1 <= |s|
  {
    var c: int := s[0];
    if c < 0x80 then (c, 1)
    else if 0xC2 <= c <= 0xDF && Continues(s, 1, 0x80, 0xBF) then
      ((c - 0xC0) * 64 + Payload(s, 1), 2)
    else if 0xE0 <= c <= 0xEF
         && Continues(s, 1, if c == 0xE0 then 0xA0 else 0x80, if c == 0xED then 0x9F else 0xBF)
         && Continues(s, 2, 0x80, 0xBF) then
      ((c - 0xE0) * 4096 + Payload(s, 1) * 64 + Payload(s, 2), 3)
    else if 0xF0 <= c <= 0xF4
         && Continues(s, 1, if c == 0xF0 then 0x90 else 0x80, if c == 0xF4 then 0x8F else 0xBF)
         && Continues(s, 2, 0x80, 0xBF) && Continues(s, 3, 0x80, 0xBF) then
      ((c - 0xF0) * 262144 + Payload(s, 1) * 4096 + Payload(s, 2) * 64 + Payload(s, 3), 4)
    else (RUNE_ERROR, 1)
  }

  predicate Broken(s: seq<Octet>)
    requires s != []
  {
    DecodeRune(s) == (RUNE_ERROR, 1)
  }

  /** utf8.ValidString. */
  predicate ValidString(s: seq<Octet>)
    decreases |s|
  {
    s == [] || (!Broken(s) && ValidString(s[DecodeRune(s).1..]))
  }

  // ----- The decoder inverts the encoding -----

  lemma Digits(r: int)
    requires 0 <= r
    ensures r / 4096 == r / 64 / 64 && r / 262144 == r / 64 / 64 / 64
    ensures r == r / 4096 * 4096 + r / 64 % 64 * 64 + r % 64
    ensures r == r / 262144 * 262144 + r / 4096 % 64 * 4096 + r / 64 % 64 * 64 + r % 64
  {
  }

  lemma DecodeTriple(a: int, b: int, c: int, rest: seq<Octet>)
    requires 0 <= a < 16 && 0 <= b < 64 && 0 <= c < 64
    requires a == 0 ==> b >= 32
    requires a == 13 ==> b < 32
    ensures DecodeRune([0xE0 + a, 0x80 + b, 0x80 + c] + rest) == (a * 4096 + b * 64 + c, 3)
  {
  }

  lemma DecodeQuadruple(a: int, b: int, c: int, d: int, rest: seq<Octet>)
    requires 0 <= a <= 4 && 0 <= b < 64 && 0 <= c < 64 && 0 <= d < 64
    requires a == 0 ==> b >= 16
    requires a == 4 ==> b < 16
    ensures DecodeRune([0xF0 + a, 0x80 + b, 0x80 + c, 0x80 + d] + rest) == (a * 262144 + b * 4096 + c * 64 + d, 4)
  {
  }

  lemma DecodeEncode(r: Scalar, rest: seq<Octet>)
    ensures DecodeRune(Encode(r) + rest) == (r, |Encode(r)|)
    ensures !Broken(Encode(r) + rest)
  {
    Digits(r);
    if r <= 0x7FF {
    } else if r <= 0xFFFF {
      DecodeTriple(r / 4096, r / 64 % 64, r % 64, rest);
    } else {
      DecodeQuadruple(r / 262144, r / 4096 % 64, r / 64 % 64, r % 64, rest);
    }
  }

  lemma EncodeTriple(a: int, b: int, c: int)
    requires 0 <= a < 16 && 0 <= b < 64 && 0 <= c < 64
    requires a == 0 ==> b >= 32
    requires a == 13 ==> b < 32
    ensures Encode(a * 4096 + b * 64 + c) == [0xE0 + a, 0x80 + b, 0x80 + c]
  {
    var r := a * 4096 + b * 64 + c;
    assert r / 64 == a * 64 + b;
    Digits(r);
  }

  lemma EncodeQuadruple(a: int, b: int, c: int, d: int)
    requires 0 <= a <= 4 && 0 <= b < 64 && 0 <= c < 64 && 0 <= d < 64
    requires a == 0 ==> b >= 16
    requires a == 4 ==> b < 16
    ensures Encode(a * 262144 + b * 4096 + c * 64 + d) == [0xF0 + a, 0x80 + b, 0x80 + c, 0x80 + d]
  {
    var r := a * 262144 + b * 4096 + c * 64 + d;
    assert r / 64 == a * 4096 + b * 64 + c;
    assert r / 64 / 64 == a * 64 + b;
    Digits(r);
  }

  lemma EncodeDecode(s: seq<Octet>)
    requires s != [] && !Broken(s)
    ensures Encode(DecodeRune(s).0) == s[..DecodeRune(s).1]
  {
    var c: int := s[0];
    var (r, n) := DecodeRune(s);
    if n == 3 {
      hide Encode;
      EncodeTriple(c - 0xE0, Payload(s, 1), Payload(s, 2));
    } else if n == 4 {
      hide Encode;
      EncodeQuadruple(c - 0xF0, Payload(s, 1), Payload(s, 2), Payload(s, 3));
    }
  }

  lemma {:induction false} EncodeAllAppend(a: seq<Scalar>, b: seq<Scalar>)
    ensures EncodeAll(a + b) == EncodeAll(a) + EncodeAll(b)
  {
    hide Encode;
    if a == [] {
      assert a + b == b;
    } else {
      EncodeAllAppend(a[1..], b);
      assert (a + b)[1..] == a[1..] + b;
      assert (a + b)[0] == a[0];
    }
  }

  lemma {:induction false} EncodeAllValid(rs: seq<Scalar>)
    ensures ValidString(EncodeAll(rs))
  {
    if rs != [] {
      EncodeAllValid(rs[1..]);
      DecodeEncode(rs[0], EncodeAll(rs[1..]));
      assert EncodeAll(rs)[|Encode(rs[0])|..] == EncodeAll(rs[1..]);
    }
  }

  lemma {:induction false} ValidDecodes(s: seq<Octet>) returns (rs: seq<Scalar>)
    requires ValidString(s)
    ensures s == EncodeAll(rs)
    decreases |s|
  {
    if s == [] {
      rs := [];
    } else {
      var (r, n) := DecodeRune(s);
      var tail := ValidDecodes(s[n..]);
      EncodeDecode(s);
      rs := [r] + tail;
      assert rs[1..] == tail;
    }
  }

  /** Valid text is exactly the encodings of code point sequences. */
  lemma ValidIffEncoding(s: seq<Octet>)
    ensures ValidString(s) <==> exists rs: seq<Scalar> :: s == EncodeAll(rs)
  {
    if ValidString(s) {
      var rs := ValidDecodes(s);
    }
    if rs: seq<Scalar> :| s == EncodeAll(rs) {
      EncodeAllValid(rs);
    }
  }

  lemma {:induction false} EncodeAllNul(rs: seq<Scalar>)
    ensures 0 in EncodeAll(rs) <==> 0 in rs
  {
    if rs != [] {
      EncodeAllNul(rs[1..]);
      assert rs == [rs[0]] + rs[1..];
      assert 0 in Encode(rs[0]) <==> rs[0] == 0;
    }
  }

  // ----- Repair -----

  /** Control characters that repair removes: all below space but tab, line feed and carriage return. */
  predicate Dropped(c: int) {
    c < 0x20 && c != 9 && c != 10 && c != 13
  }

  /** The text of the kept characters. */
  function Kept(rs: seq<Scalar>): (ks: seq<Scalar>)
    ensures forall k | k in ks :: !Dropped(k)
  {
    if rs == [] then []
    else if Dropped(rs[0]) then Kept(rs[1..])
    else [rs[0]] + Kept(rs[1..])
  }

  /** The characters read from broken text: an octet that starts no character is ISO-8859-1. */
  function Repaired(s: seq<Octet>): (rs: seq<Scalar>)
    ensures forall r | r in rs :: !Dropped(r)
    decreases |s|
  {
    if s == [] then []
    else if Dropped(s[0]) then Repaired(s[1..])
    else if !Broken(s) then [DecodeRune(s).0] + Repaired(s[DecodeRune(s).1..])
    else [s[0]] + Repaired(s[1..])
  }

  function Sanitized(s: seq<Octet>): seq<Octet> {
    if ValidString(s) && 0 !in s then s else EncodeAll(Repaired(s))
  }

  /** The program's repair loop. */
  method SanitizeUTF8(s: seq<Octet>) returns (t: seq<Octet>)
    ensures t == Sanitized(s)
    ensures ValidString(t) && 0 !in t
    ensures ValidString(s) && 0 !in s ==> t == s
  {
    hide Encode, EncodeAll, Repaired, ValidString;
    SanitizedIsClean(s);
    if ValidString(s) && 0 !in s {
      return s;
    }
    var out: seq<Octet> := [];
    var i := 0;
    EmittedEnds(s, []);
    while i < |s|
      invariant i <= |s|
      invariant Emitted(s, i, out)
    {
      var c := s[i];
      EmittedStep(s, i, out);
      if c == 0 || (c < 0x20 && c != 9 && c != 10 && c != 13) {
        i := i + 1;
        continue;
      }
      var (r, size) := DecodeRune(s[i..]);
      if r != RUNE_ERROR || size > 1 {
        out := out + Encode(r);
        i := i + size;
      } else {
        out := out + Encode(c);
        i := i + 1;
      }
    }
    EmittedEnds(s, out);
    t := out;
  }

  /** The character that repair reads at a kept octet, and the octets it takes. */
  function Repair(s: seq<Octet>): (d: (Scalar, nat))
    requires s != []
    ensures 1 <= d.1 <= |s|
  {
    if Broken(s) then (s[0], 1) else DecodeRune(s)
  }

  /** `out` is the repair of the first `i` octets. */
  ghost predicate Emitted(s: seq<Octet>, i: nat, out: seq<Octet>)
    requires i <= |s|
  {
    out + EncodeAll(Repaired(s[i..])) == EncodeAll(Repaired(s))
  }

  lemma EmittedStep(s: seq<Octet>, i: nat, out: seq<Octet>)
    requires i < |s| && Emitted(s, i, out)
    ensures Dropped(s[i]) ==> Emitted(s, i + 1, out)
    ensures !Dropped(s[i]) ==> Emitted(s, i + Repair(s[i..]).1, out + Encode(Repair(s[i..]).0))
  {
    hide Encode, DecodeRune;
    var rest := s[i..];
    assert rest[0] == s[i];
    if Dropped(s[i]) {
      assert rest[1..] == s[i + 1..];
    } else {
      var (r, n) := Repair(rest);
      var tail := Repaired(rest[n..]);
      assert rest[n..] == s[i + n..];
      assert Repaired(rest) == [r] + tail;
      assert ([r] + tail)[1..] == tail;
      assert out + (Encode(r) + EncodeAll(tail)) == (out + Encode(r)) + EncodeAll(tail);
    }
  }

  lemma EmittedEnds(s: seq<Octet>, out: seq<Octet>)
    ensures Emitted(s, 0, [])
    ensures Emitted(s, |s|, out) ==> out == EncodeAll(Repaired(s))
  {
    assert s[0..] == s;
  }

  lemma SanitizedIsClean(s: seq<Octet>)
    ensures ValidString(Sanitized(s)) && 0 !in Sanitized(s)
  {
    EncodeAllValid(Repaired(s));
    EncodeAllNul(Repaired(s));
  }

  /** Repairing twice is repairing once. */
  lemma SanitizedIdempotent(s: seq<Octet>)
    ensures Sanitized(Sanitized(s)) == Sanitized(s)
  {
    SanitizedIsClean(s);
  }

  lemma RepairedHead(r: Scalar, tail: seq<Octet>)
    ensures Repaired(Encode(r) + tail) == (if Dropped(r) then [] else [r]) + Repaired(tail)
  {
    hide Encode, DecodeRune;
    var s := Encode(r) + tail;
    DecodeEncode(r, tail);
    EncodeDropped(r);
    assert s[0] == Encode(r)[0];
    assert s[|Encode(r)|..] == tail;
  }

  /** Well-formed text in front of anything keeps its characters, minus the dropped ones. */
  lemma {:induction false} RepairedAppend(rs: seq<Scalar>, rest: seq<Octet>)
    ensures Repaired(EncodeAll(rs) + rest) == Kept(rs) + Repaired(rest)
  {
    hide Encode, Repaired;
    if rs == [] {
      assert EncodeAll(rs) + rest == rest;
      assert Kept(rs) + Repaired(rest) == Repaired(rest);
    } else {
      var tail := EncodeAll(rs[1..]) + rest;
      assert EncodeAll(rs) + rest == Encode(rs[0]) + tail;
      RepairedAppend(rs[1..], rest);
      RepairedHead(rs[0], tail);
    }
  }

  lemma EncodeDropped(r: Scalar)
    ensures Dropped(Encode(r)[0]) <==> Dropped(r)
    ensures Dropped(r) ==> |Encode(r)| == 1
  {
  }

  /** Valid text that contains NUL loses exactly its dropped control characters. */
  lemma SanitizedValidText(rs: seq<Scalar>)
    requires 0 in rs
    ensures Sanitized(EncodeAll(rs)) == EncodeAll(Kept(rs))
  {
    EncodeAllNul(rs);
    RepairedAppend(rs, []);
    assert EncodeAll(rs) + [] == EncodeAll(rs);
    assert Kept(rs) + [] == Kept(rs);
  }

  /** In broken text, an octet where no character starts becomes the character with its number. */
  lemma SanitizedStray(before: seq<Scalar>, c: Octet, rest: seq<Octet>)
    requires Broken([c] + rest)
    ensures Sanitized(EncodeAll(before) + ([c] + rest))
         == EncodeAll(Kept(before)) + Encode(c) + EncodeAll(Repaired(rest))
  {
    var s := EncodeAll(before) + ([c] + rest);
    InvalidInside(before, [c] + rest);
    RepairedAppend(before, [c] + rest);
    assert ([c] + rest)[1..] == rest;
    var tail := [c as Scalar] + Repaired(rest);
    assert Repaired([c] + rest) == tail;
    EncodeAllAppend(Kept(before), tail);
    assert tail[1..] == Repaired(rest);
  }

  lemma {:induction false} InvalidInside(before: seq<Scalar>, rest: seq<Octet>)
    requires rest != [] && Broken(rest)
    ensures !ValidString(EncodeAll(before) + rest)
  {
    var s := EncodeAll(before) + rest;
    if before == [] {
      assert s == rest;
    } else {
      var tail := EncodeAll(before[1..]) + rest;
      assert s == Encode(before[0]) + tail;
      DecodeEncode(before[0], tail);
      assert s[|Encode(before[0])|..] == tail;
      InvalidInside(before[1..], rest);
    }
  }

  // ----- The tables of section 3 of RFC 3629 and of the repair -----

  /** Every octet but the first is one of the 64 that continue a character. */
  predicate Tail(b: seq<Octet>) {
    forall i | 1 <= i < |b| :: 0x80 <= b[i] < 0xC0
  }

  function Bits(b: Octet): int {
    b as int - 0x80
  }

  /** The octets of a code point: the first tells how many there are, and they hold its bits. */
  lemma EncodeIs(r: Scalar)
    ensures var b := Encode(r);
            && (|b| == 1 ==> r == b[0] && r < 0x80)
            && (|b| == 2 ==> 0x80 <= r < 0x800 && 0xC2 <= b[0] < 0xE0 && Tail(b) && r == (b[0] as int - 0xC0) * 64 + Bits(b[1]))
            && (|b| == 3 ==> (0x800 <= r < 0x10000 && 0xE0 <= b[0] < 0xF0 && Tail(b)
                              && r == ((b[0] as int - 0xE0) * 64 + Bits(b[1])) * 64 + Bits(b[2])))
            && (|b| == 4 ==> (0x10000 <= r && 0xF0 <= b[0] < 0xF5 && Tail(b)
                              && r == (((b[0] as int - 0xF0) * 64 + Bits(b[1])) * 64 + Bits(b[2])) * 64 + Bits(b[3])))
  {
    Digits(r);
  }

  /** A text counts as many octets as its encoding has. */
  lemma WidthIs(c: char)
    ensures Text.Width(c) == |Encode(c as int)|
  {
  }

  lemma {:induction false} KeptAppend(a: seq<Scalar>, b: seq<Scalar>)
    ensures Kept(a + b) == Kept(a) + Kept(b)
  {
    if a == [] {
      assert a + b == b;
    } else {
      KeptAppend(a[1..], b);
      assert (a + b)[1..] == a[1..] + b;
    }
  }

  /** Of valid text with a NUL, a character below the space goes, but for tab, line feed and carriage return;
      every other character stays where it was. */
  lemma ControlGoes(before: seq<Scalar>, c: Scalar, after: seq<Scalar>)
    requires 0 in before || 0 == c || 0 in after
    ensures Sanitized(EncodeAll(before + [c] + after)) ==
            EncodeAll(Kept(before) + (if c < 32 && c != 9 && c != 10 && c != 13 then [] else [c]) + Kept(after))
  {
    var rs := before + [c] + after;
    assert 0 in rs by {
      assert c in rs;
    }
    KeptOne(c);
    hide Sanitized, EncodeAll, Kept;
    SanitizedValidText(rs);
    KeptAppend(before + [c], after);
    KeptAppend(before, [c]);
  }

  lemma KeptOne(c: Scalar)
    ensures Kept([c]) == if c < 32 && c != 9 && c != 10 && c != 13 then [] else [c]
  {
    assert [c][1..] == [];
  }

  /** A text without control characters but tab, line feed and carriage return. */
  ghost predicate Clean(rs: seq<Scalar>) {
    forall i | 0 <= i < |rs| :: rs[i] >= 32 || rs[i] == 9 || rs[i] == 10 || rs[i] == 13
  }

  lemma {:induction false} KeptAll(rs: seq<Scalar>)
    requires Clean(rs)
    ensures Kept(rs) == rs
  {
    if rs != [] {
      assert forall i | 0 <= i < |rs| - 1 :: rs[1..][i] == rs[i + 1];
      KeptAll(rs[1..]);
      assert rs == [rs[0]] + rs[1..];
    }
  }

  /** A NUL in a text without other control characters is all that goes. */
  lemma NulGoes(before: seq<Scalar>, after: seq<Scalar>)
    requires Clean(before) && Clean(after)
    ensures Sanitized(EncodeAll(before + [0] + after)) == EncodeAll(before + after)
  {
    KeptAll(before);
    KeptAll(after);
    hide *;
    ControlGoes(before, 0, after);
    assert before + [] == before;
  }
}
