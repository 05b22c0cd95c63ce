/** Breaking messages into lines without cutting a character in two (utils.go), and the rings of
    lines the terminal UI shows (serverui.go). Text is bytes in UTF-8 (RFC 3629). */
module Text {
  import opened Wire
  import opened Arithmetic

  // ---------------------------------------------------------------- UTF-8

  predicate Tail(b: byte) {
    0x80 <= b <= 0xBF
  }

  /** utf8.RuneStart */
  predicate RuneStart(b: byte) {
    !Tail(b)
  }

  predicate ThreeStart(a: byte, b: byte) {
    || (a == 0xE0 && 0xA0 <= b <= 0xBF)
    || (0xE1 <= a <= 0xEC && Tail(b))
    || (a == 0xED && 0x80 <= b <= 0x9F)
    || (0xEE <= a <= 0xEF && Tail(b))
  }

  predicate FourStart(a: byte, b: byte) {
    || (a == 0xF0 && 0x90 <= b <= 0xBF)
    || (0xF1 <= a <= 0xF3 && Tail(b))
    || (a == 0xF4 && 0x80 <= b <= 0x8F)
  }

  /** The length of the character a byte sequence begins with, or 0 (section 4 of RFC 3629). */
  function CharWidth(s: seq<byte>): (w: nat)
    ensures w <= 4 && w <= |s|
  {
    if |s| >= 1 && s[0] <= 0x7F then 1
    else if |s| >= 2 && 0xC2 <= s[0] <= 0xDF && Tail(s[1]) then 2
    else if |s| >= 3 && ThreeStart(s[0], s[1]) && Tail(s[2]) then 3
    else if |s| >= 4 && FourStart(s[0], s[1]) && Tail(s[2]) && Tail(s[3]) then 4
    else 0
  }

  predicate ValidUtf8(s: seq<byte>) {
    |s| == 0 || (CharWidth(s) > 0 && ValidUtf8(s[CharWidth(s)..]))
  }

  /** A Unicode character: any code point but the surrogates. */
  predicate Scalar(c: nat) {
    c <= 0xD7FF || 0xE000 <= c <= 0x10FFFF
  }

  /** Its encoding (section 3 of RFC 3629). */
  function EncodeChar(c: nat): (s: seq<byte>)
    requires Scalar(c)
    ensures |s| > 0
  {
    if c <= 0x7F then [c]
    else if c <= 0x7FF then [0xC0 + c / 0x40, 0x80 + c % 0x40]
    else if c <= 0xFFFF then [0xE0 + c / 0x1000, 0x80 + c / 0x40 % 0x40, 0x80 + c % 0x40]
    else [0xF0 + c / 0x4_0000, 0x80 + c / 0x1000 % 0x40, 0x80 + c / 0x40 % 0x40, 0x80 + c % 0x40]
  }

  lemma ThreeStarts(c: nat)
    requires Scalar(c) && 0x7FF < c <= 0xFFFF
    ensures ThreeStart(0xE0 + c / 0x1000, 0x80 + c / 0x40 % 0x40)
  {
  }

  lemma FourStarts(c: nat)
    requires Scalar(c) && 0xFFFF < c
    ensures FourStart(0xF0 + c / 0x4_0000, 0x80 + c / 0x1000 % 0x40)
  {
  }

  lemma EncodedAlone(c: nat)
    requires Scalar(c)
    ensures CharWidth(EncodeChar(c)) == |EncodeChar(c)|
  {
    if 0x7FF < c <= 0xFFFF {
      ThreeStarts(c);
    } else if 0xFFFF < c {
      FourStarts(c);
    }
    hide Scalar, ThreeStart, FourStart;
  }

  lemma CharMore(s: seq<byte>, rest: seq<byte>)
    requires CharWidth(s) > 0
    ensures CharWidth(s + rest) == CharWidth(s)
  {
    hide Tail, ThreeStart, FourStart;
  }

  lemma EncodedIsChar(c: nat, rest: seq<byte>)
    requires Scalar(c)
    ensures CharWidth(EncodeChar(c) + rest) == |EncodeChar(c)|
  {
    hide EncodeChar, CharWidth;
    EncodedAlone(c);
    CharMore(EncodeChar(c), rest);
  }

  /** A number by its digits to the base 64. */
  function FromDigits(a: nat, b: nat, d: nat, e: nat): nat {
    0x4_0000 * a + 0x1000 * b + 0x40 * d + e
  }

  lemma Digits(a: nat, b: nat, d: nat, e: nat)
    requires b < 0x40 && d < 0x40 && e < 0x40
    ensures var c := FromDigits(a, b, d, e);
            && c / 0x4_0000 == a && c / 0x1000 == 0x40 * a + b && c / 0x1000 % 0x40 == b
            && c / 0x40 == 0x1000 * a + 0x40 * b + d && c / 0x40 % 0x40 == d && c % 0x40 == e
  {
  }

  lemma OneByte(a: byte)
    requires a <= 0x7F
    ensures Scalar(a) && EncodeChar(a) == [a]
  {
  }

  lemma TwoBytes(a: byte, b: byte)
    requires 0xC2 <= a <= 0xDF && Tail(b)
    ensures var c := FromDigits(0, 0, a - 0xC0, b - 0x80); Scalar(c) && EncodeChar(c) == [a, b]
  {
    Digits(0, 0, a - 0xC0, b - 0x80);
  }

  lemma ThreeBytes(a: byte, b: byte, d: byte)
    requires ThreeStart(a, b) && Tail(d)
    ensures var c := FromDigits(0, a - 0xE0, b - 0x80, d - 0x80); Scalar(c) && EncodeChar(c) == [a, b, d]
  {
    Digits(0, a - 0xE0, b - 0x80, d - 0x80);
  }

  lemma FourBytes(a: byte, b: byte, d: byte, e: byte)
    requires FourStart(a, b) && Tail(d) && Tail(e)
    ensures var c := FromDigits(a - 0xF0, b - 0x80, d - 0x80, e - 0x80); Scalar(c) && EncodeChar(c) == [a, b, d, e]
  {
    Digits(a - 0xF0, b - 0x80, d - 0x80, e - 0x80);
  }

  lemma CharIsEncoded(s: seq<byte>) returns (c: nat)
    requires CharWidth(s) > 0
    ensures Scalar(c) && EncodeChar(c) == s[..CharWidth(s)]
  {
    hide FromDigits, EncodeChar, Scalar;
    var w := CharWidth(s);
    if w == 1 {
      OneByte(s[0]);
      c := s[0];
    } else if w == 2 {
      TwoBytes(s[0], s[1]);
      c := FromDigits(0, 0, s[0] - 0xC0, s[1] - 0x80);
    } else if w == 3 {
      ThreeBytes(s[0], s[1], s[2]);
      c := FromDigits(0, s[0] - 0xE0, s[1] - 0x80, s[2] - 0x80);
    } else {
      FourBytes(s[0], s[1], s[2], s[3]);
      c := FromDigits(s[0] - 0xF0, s[1] - 0x80, s[2] - 0x80, s[3] - 0x80);
    }
  }

  function EncodeText(cs: seq<nat>): seq<byte>
    requires forall i :: 0 <= i < |cs| ==> Scalar(cs[i])
  {
    if |cs| == 0 then [] else EncodeChar(cs[0]) + EncodeText(cs[1..])
  }

  ghost predicate Encodes(cs: seq<nat>, s: seq<byte>) {
    (forall i :: 0 <= i < |cs| ==> Scalar(cs[i])) && EncodeText(cs) == s
  }

  lemma {:induction false} EncodedIsValid(cs: seq<nat>, s: seq<byte>)
    requires Encodes(cs, s)
    ensures ValidUtf8(s)
  {
    hide EncodeChar, CharWidth;
    if |cs| > 0 {
      EncodedIsChar(cs[0], EncodeText(cs[1..]));
      EncodedIsValid(cs[1..], EncodeText(cs[1..]));
      assert s[|EncodeChar(cs[0])|..] == EncodeText(cs[1..]);
    }
  }

  lemma {:induction false} ValidIsEncoded(s: seq<byte>) returns (cs: seq<nat>)
    requires ValidUtf8(s)
    ensures Encodes(cs, s)
    decreases |s|
  {
    hide EncodeChar, CharWidth, Scalar;
    cs := [];
    if |s| > 0 {
      var c := CharIsEncoded(s);
      var rest := ValidIsEncoded(s[CharWidth(s)..]);
      cs := [c] + rest;
      assert cs[1..] == rest && s == EncodeChar(c) + s[CharWidth(s)..];
    }
  }

  /** Valid text is exactly what encodes some characters. */
  lemma ValidIff(s: seq<byte>)
    ensures ValidUtf8(s) <==> exists cs :: Encodes(cs, s)
  {
    hide ValidUtf8, Encodes;
    if ValidUtf8(s) {
      var cs := ValidIsEncoded(s);
    } else {
      forall cs | Encodes(cs, s)
        ensures false
      {
        EncodedIsValid(cs, s);
      }
    }
  }

  /** Only the first byte of a character is a start byte. */
  lemma CharShape(s: seq<byte>)
    requires CharWidth(s) > 0
    ensures RuneStart(s[0])
    ensures forall i :: 0 < i < CharWidth(s) ==> !RuneStart(s[i])
  {
  }

  /** Whether a sequence begins with a character depends on that character's bytes alone. */
  lemma CharPrefix(s: seq<byte>, i: nat)
    requires 0 < CharWidth(s) <= i <= |s|
    ensures CharWidth(s[..i]) == CharWidth(s)
  {
  }

  /** Cutting valid text at a start byte gives two valid texts. */
  lemma {:induction false} CutAtStart(s: seq<byte>, i: nat)
    requires ValidUtf8(s) && i < |s| && RuneStart(s[i])
    ensures ValidUtf8(s[..i]) && ValidUtf8(s[i..])
    decreases |s|
  {
    hide CharWidth, RuneStart;
    if i == 0 {
      assert s[0..] == s;
    } else {
      var w := CharWidth(s);
      CharShape(s);
      CharPrefix(s, i);
      CutAtStart(s[w..], i - w);
      assert s[w..][..i - w] == s[..i][w..] && s[w..][i - w..] == s[i..];
    }
  }

  // ---------------------------------------------------------------- units

  /** How many bytes at the beginning are not start bytes. */
  function TailRun(s: seq<byte>): (n: nat)
    ensures n <= |s|
  {
    if |s| == 0 || RuneStart(s[0]) then 0 else 1 + TailRun(s[1..])
  }

  /** What the line breaker does not cut, in any bytes whatever: the first byte and what follows it up to
      the next start byte. In valid text that is a character. */
  function UnitLen(s: seq<byte>): (n: nat)
    ensures |s| > 0 ==> 1 <= n <= |s|
  {
    if |s| == 0 then 0 else 1 + TailRun(s[1..])
  }

  lemma {:induction false} TailRunShape(s: seq<byte>)
    ensures TailRun(s) < |s| ==> RuneStart(s[TailRun(s)])
    ensures forall i :: 0 <= i < TailRun(s) ==> !RuneStart(s[i])
  {
    if |s| > 0 && !RuneStart(s[0]) {
      TailRunShape(s[1..]);
      forall i | 0 <= i < TailRun(s)
        ensures !RuneStart(s[i])
      {
        assert i > 0 ==> s[i] == s[1..][i - 1];
      }
    }
  }

  lemma UnitShape(s: seq<byte>)
    requires |s| > 0
    ensures UnitLen(s) < |s| ==> RuneStart(s[UnitLen(s)])
    ensures forall i :: 0 < i < UnitLen(s) ==> !RuneStart(s[i])
  {
    TailRunShape(s[1..]);
    forall i | 0 < i < UnitLen(s)
      ensures !RuneStart(s[i])
    {
      assert s[i] == s[1..][i - 1];
    }
  }

  /** The shape determines the length. */
  lemma UnitIs(s: seq<byte>, w: nat)
    requires 0 < w <= |s| && (w < |s| ==> RuneStart(s[w]))
    requires forall i :: 0 < i < w ==> !RuneStart(s[i])
    ensures UnitLen(s) == w
  {
    UnitShape(s);
    hide UnitLen;
  }

  lemma UnitOfValid(s: seq<byte>)
    requires ValidUtf8(s) && |s| > 0
    ensures UnitLen(s) == CharWidth(s) <= 4
  {
    var w := CharWidth(s);
    CharShape(s);
    if w < |s| {
      CharShape(s[w..]);
    }
    hide CharWidth, RuneStart;
    UnitIs(s, w);
  }

  lemma UnitPrefix(s: seq<byte>, i: nat)
    requires 0 < i < |s| && RuneStart(s[i])
    ensures UnitLen(s) <= i && UnitLen(s[..i]) == UnitLen(s)
  {
    UnitShape(s);
    hide UnitLen;
    UnitIs(s[..i], UnitLen(s));
  }

  /** No unit is longer than `m` bytes. */
  predicate Narrow(s: seq<byte>, m: nat)
    decreases |s|
  {
    |s| == 0 || (UnitLen(s) <= m && Narrow(s[UnitLen(s)..], m))
  }

  lemma {:induction false} NarrowParts(s: seq<byte>, i: nat, m: nat)
    requires i < |s| && RuneStart(s[i])
    ensures Narrow(s, m) <==> Narrow(s[..i], m) && Narrow(s[i..], m)
    decreases |s|
  {
    if i == 0 {
      assert s[0..] == s;
    } else {
      var w := UnitLen(s);
      UnitPrefix(s, i);
      hide UnitLen, RuneStart;
      if w < i {
        NarrowParts(s[w..], i - w, m);
        assert s[w..][..i - w] == s[..i][w..] && s[w..][i - w..] == s[i..];
      } else {
        assert s[..i][w..] == [];
      }
    }
  }

  lemma {:induction false} ShortIsNarrow(t: seq<byte>, m: nat)
    requires |t| <= m
    ensures Narrow(t, m)
    decreases |t|
  {
    if |t| > 0 {
      ShortIsNarrow(t[UnitLen(t)..], m);
    }
  }

  /** Lines of four bytes are wide enough for any valid text. */
  lemma {:induction false} FourIsEnough(t: seq<byte>, m: nat)
    requires ValidUtf8(t) && m >= 4
    ensures Narrow(t, m)
    decreases |t|
  {
    if |t| > 0 {
      UnitOfValid(t);
      FourIsEnough(t[CharWidth(t)..], m);
    }
  }

  // ---------------------------------------------------------------- where lines are broken

  /** The last start byte at or before `i`, or the beginning. */
  function LastStart(s: seq<byte>, i: nat): (j: nat)
    requires i < |s|
    ensures j <= i
  {
    if i == 0 || RuneStart(s[i]) then i else LastStart(s, i - 1)
  }

  /** It begins the unit that position belongs to. */
  lemma {:induction false} LastStartBegins(s: seq<byte>, i: nat)
    requires i < |s|
    ensures var j := LastStart(s, i); (j == 0 || RuneStart(s[j])) && i - j < UnitLen(s[j..])
  {
    hide UnitLen, RuneStart;
    if i > 0 && !RuneStart(s[i]) {
      LastStartBegins(s, i - 1);
      var j := LastStart(s, i - 1);
      UnitShape(s[j..]);
      assert s[j..][i - j] == s[i];
    }
  }

  lemma {:induction false} LastStartIsLast(s: seq<byte>, i: nat, k: nat)
    requires k <= i < |s| && (k == 0 || RuneStart(s[k]))
    ensures k <= LastStart(s, i)
  {
    if i > k && !RuneStart(s[i]) {
      LastStartIsLast(s, i - 1, k);
    }
  }

  /** What is left of `t` once a line of at most `m` bytes has been taken off it. */
  function Rest(t: seq<byte>, m: nat): seq<byte>
    requires m < |t|
  {
    t[LastStart(t, m)..]
  }

  /** The line ends before a unit that does not fit any more; it is empty exactly if the first does not. */
  lemma CutFacts(t: seq<byte>, m: nat)
    requires m < |t|
    ensures var j := LastStart(t, m);
            && j <= m < j + UnitLen(t[j..])
            && (j > 0 <==> UnitLen(t) <= m) && (j > 0 ==> RuneStart(t[j]))
            && (Narrow(t, m) <==> Narrow(t[j..], m)) && (Narrow(t, m) ==> j > 0)
  {
    var j := LastStart(t, m);
    LastStartBegins(t, m);
    if j > 0 {
      UnitPrefix(t, j);
      NarrowParts(t, j, m);
      ShortIsNarrow(t[..j], m);
    } else {
      assert t[0..] == t;
    }
  }

  /** In valid text both parts are valid, and the line misses at most 3 bytes. */
  lemma CutOfValid(t: seq<byte>, m: nat)
    requires ValidUtf8(t) && m < |t|
    ensures var j := LastStart(t, m); ValidUtf8(t[..j]) && ValidUtf8(t[j..]) && m - 3 <= j
  {
    var j := LastStart(t, m);
    LastStartBegins(t, m);
    if j > 0 {
      CutAtStart(t, j);
    } else {
      assert t[0..] == t;
    }
    UnitOfValid(t[j..]);
  }

  /** What is left after `k` turns of the loop, which ends when at most `m` bytes are. Where no line can be
      taken off, all of `t` is left. */
  function AfterCuts(t: seq<byte>, m: nat, k: nat): seq<byte> {
    if k == 0 || |t| <= m then t else AfterCuts(Rest(t, m), m, k - 1)
  }

  lemma {:induction false} HangsOnWide(t: seq<byte>, m: nat, k: nat)
    requires !Narrow(t, m)
    ensures |AfterCuts(t, m, k)| > m
  {
    hide Narrow;
    if |t| <= m {
      ShortIsNarrow(t, m);
    } else if k > 0 {
      CutFacts(t, m);
      HangsOnWide(Rest(t, m), m, k - 1);
    }
  }

  lemma {:induction false} EndsOnNarrow(t: seq<byte>, m: nat) returns (k: nat)
    requires Narrow(t, m)
    ensures |AfterCuts(t, m, k)| <= m
    decreases |t|
  {
    hide Narrow, UnitLen, LastStart;
    k := 0;
    if |t| > m {
      CutFacts(t, m);
      var n := EndsOnNarrow(Rest(t, m), m);
      k := n + 1;
    }
  }

  /** On any bytes whatever, the loop ends exactly if no unit is longer than a line. */
  lemma EndsIff(t: seq<byte>, m: nat)
    ensures (exists k :: |AfterCuts(t, m, k)| <= m) <==> Narrow(t, m)
  {
    if Narrow(t, m) {
      var k := EndsOnNarrow(t, m);
    } else {
      forall k
        ensures |AfterCuts(t, m, k)| > m
      {
        HangsOnWide(t, m, k);
      }
    }
  }

  /** A text the loop never gets through: one letter of two bytes, and lines of one. */
  lemma WideLetterHangs(k: nat)
    ensures var e: seq<byte> := [0xC3, 0xA9]; ValidUtf8(e) && |AfterCuts(e, 1, k)| > 1
  {
    var e: seq<byte> := [0xC3, 0xA9];
    assert CharWidth(e) == 2 && e[2..] == [];
    UnitOfValid(e);
    HangsOnWide(e, 1, k);
  }

  // ---------------------------------------------------------------- lines

  function Join(lines: seq<seq<byte>>): seq<byte> {
    if |lines| == 0 then [] else Join(lines[..|lines| - 1]) + lines[|lines| - 1]
  }

  lemma JoinMore(lines: seq<seq<byte>>, line: seq<byte>)
    ensures Join(lines + [line]) == Join(lines) + line
  {
    assert (lines + [line])[..|lines|] == lines;
  }

  lemma {:induction false} JoinSplit(lines: seq<seq<byte>>)
    requires |lines| > 0
    ensures Join(lines) == lines[0] + Join(lines[1..])
  {
    var n := |lines| - 1;
    if n > 0 {
      JoinSplit(lines[..n]);
      assert lines[..n][1..] == lines[1..][..n - 1];
      assert lines[0] + (Join(lines[1..][..n - 1]) + lines[n]) == lines[0] + Join(lines[1..][..n - 1]) + lines[n];
    } else {
      assert lines[..0] == [] && lines[1..] == [];
    }
  }

  /** A line after the first begins with a start byte. */
  ghost predicate Follows(line: seq<byte>) {
    |line| > 0 && RuneStart(line[0])
  }

  ghost predicate Pieces(lines: seq<seq<byte>>, m: nat) {
    && (forall k :: 0 <= k < |lines| ==> |lines[k]| <= m)
    && (forall k :: 1 <= k < |lines| ==> Follows(lines[k]))
  }

  /** Lines of at most `m` bytes that make up a text, cut at start bytes only. */
  ghost predicate Breaking(lines: seq<seq<byte>>, s: seq<byte>, m: nat) {
    |lines| > 0 && Join(lines) == s && Pieces(lines, m)
  }

  /** How many lines the loop makes. */
  function LineCount(t: seq<byte>, m: nat): (n: nat)
    requires Narrow(t, m)
    ensures n >= 1
    decreases |t|
  {
    if |t| <= m then 1
    else
      CutFacts(t, m);
      1 + LineCount(Rest(t, m), m)
  }

  lemma OneMoreLine(t: seq<byte>, m: nat)
    requires Narrow(t, m) && m < |t|
    ensures Narrow(Rest(t, m), m) && LineCount(t, m) == 1 + LineCount(Rest(t, m), m)
  {
    CutFacts(t, m);
  }

  lemma OneLine(t: seq<byte>, m: nat)
    requires |t| <= m
    ensures Narrow(t, m) && LineCount(t, m) == 1
  {
    ShortIsNarrow(t, m);
  }

  lemma Drop(t: seq<byte>, i: nat, j: nat)
    requires i <= j < |t|
    ensures t[i..][j - i..] == t[j..] && t[i..][j - i] == t[j]
  {
  }

  /** Where a later text, or what its first line leaves of it, lies in what the first line leaves of the
      whole. */
  lemma LaterStart(t: seq<byte>, i: nat, m: nat) returns (k: nat)
    requires i < |t| && m < |t[i..]| && RuneStart(t[i]) && Narrow(t[i..], m)
    ensures k < |Rest(t, m)| && RuneStart(Rest(t, m)[k])
    ensures Rest(t, m)[k..] == if i >= LastStart(t, m) then t[i..] else Rest(t[i..], m)
  {
    hide Narrow, UnitLen, LastStart;
    var u := t[i..];
    var j, j' := LastStart(t, m), LastStart(u, m);
    CutFacts(u, m);
    if i >= j {
      Drop(t, j, i);
      k := i - j;
    } else {
      CutFacts(t, m);
      Drop(t, i, j);
      LastStartIsLast(u, m, j - i);
      Drop(t, i, i + j');
      Drop(t, j, i + j');
      k := i + j' - j;
    }
  }

  /** What is left after any cut needs no more lines than the whole. */
  lemma {:induction false} FewerLinesLater(t: seq<byte>, i: nat, m: nat)
    requires Narrow(t, m) && i < |t| && RuneStart(t[i])
    ensures Narrow(t[i..], m) && LineCount(t[i..], m) <= LineCount(t, m)
    decreases |t|
  {
    hide Narrow, RuneStart, UnitLen, LineCount, LastStart;
    NarrowParts(t, i, m);
    var u := t[i..];
    if |u| <= m {
      OneLine(u, m);
    } else {
      OneMoreLine(t, m);
      OneMoreLine(u, m);
      CutFacts(t, m);
      var k := LaterStart(t, i, m);
      FewerLinesLater(Rest(t, m), k, m);
    }
  }

  /** Taking a shorter line first costs no more than that line. */
  lemma OneLineMore(t: seq<byte>, i: nat, m: nat)
    requires Narrow(t, m) && i < |t| && i <= m && RuneStart(t[i])
    ensures Narrow(t[i..], m) && LineCount(t, m) <= 1 + LineCount(t[i..], m)
  {
    hide Narrow, RuneStart, UnitLen, LineCount, LastStart;
    NarrowParts(t, i, m);
    if |t| <= m {
      OneLine(t, m);
    } else {
      OneMoreLine(t, m);
      CutFacts(t, m);
      LastStartIsLast(t, m, i);
      var j := LastStart(t, m);
      Drop(t, i, j);
      FewerLinesLater(t[i..], j - i, m);
    }
  }

  /** Nobody breaks a text into fewer lines than the loop. */
  lemma {:induction false} FewestLines(lines: seq<seq<byte>>, t: seq<byte>, m: nat)
    requires Breaking(lines, t, m)
    ensures Narrow(t, m) && LineCount(t, m) <= |lines|
    decreases |lines|
  {
    JoinSplit(lines);
    var rest := Join(lines[1..]);
    if |lines| == 1 {
      assert t == lines[0];
      ShortIsNarrow(t, m);
    } else {
      JoinSplit(lines[1..]);
      FewestLines(lines[1..], rest, m);
      var i := |lines[0]|;
      assert t[..i] == lines[0] && t[i..] == rest && t[i] == rest[0] == lines[1][0];
      ShortIsNarrow(t[..i], m);
      NarrowParts(t, i, m);
      OneLineMore(t, i, m);
    }
  }

  /** A line that is not empty, and could not have taken one unit more of what follows. */
  ghost predicate FullLine(line: seq<byte>, next: seq<byte>, m: nat) {
    0 < |line| && |line| + UnitLen(next) > m
  }

  function Following(lines: seq<seq<byte>>, next: seq<byte>, k: nat): seq<byte> {
    if k + 1 < |lines| then lines[k + 1] else next
  }

  /** All lines are full; `next` follows the last. */
  ghost predicate Full(lines: seq<seq<byte>>, next: seq<byte>, m: nat) {
    forall k :: 0 <= k < |lines| ==> FullLine(lines[k], Following(lines, next, k), m)
  }

  ghost predicate AllValid(lines: seq<seq<byte>>) {
    forall k :: 0 <= k < |lines| ==> ValidUtf8(lines[k])
  }

  /** What the loop makes of a text: all lines but the last are full, and valid text gives valid lines. */
  ghost predicate Broken(lines: seq<seq<byte>>, s: seq<byte>, m: nat) {
    && Breaking(lines, s, m)
    && Full(lines[..|lines| - 1], lines[|lines| - 1], m)
    && (ValidUtf8(s) ==> AllValid(lines))
  }

  /** In valid text a full line misses at most three bytes. */
  lemma NearlyFull(lines: seq<seq<byte>>, s: seq<byte>, m: nat, k: nat)
    requires Broken(lines, s, m) && ValidUtf8(s) && k < |lines| - 1
    ensures |lines[k]| >= m - 3
  {
    var init := lines[..|lines| - 1];
    assert init[k] == lines[k];
    assert FullLine(init[k], Following(init, lines[|lines| - 1], k), m);
    UnitOfValid(lines[k + 1]);
  }

  lemma NextLine(lines: seq<seq<byte>>, t: seq<byte>, m: nat)
    requires m < |t| && LastStart(t, m) > 0 && (|lines| > 0 ==> Follows(t))
    requires Pieces(lines, m) && Full(lines, t, m)
    ensures var j := LastStart(t, m); var more := lines + [t[..j]];
            Pieces(more, m) && Full(more, Rest(t, m), m) && Follows(Rest(t, m))
  {
    CutFacts(t, m);
    var j := LastStart(t, m);
    UnitPrefix(t, j);
    hide UnitLen, RuneStart;
    var more := lines + [t[..j]];
    forall k | 0 <= k < |more|
      ensures FullLine(more[k], Following(more, Rest(t, m), k), m)
    {
      if k < |lines| {
        assert FullLine(lines[k], Following(lines, t, k), m);
      }
    }
  }

  lemma NextValid(lines: seq<seq<byte>>, t: seq<byte>, m: nat)
    requires m < |t| && ValidUtf8(t) && AllValid(lines)
    ensures ValidUtf8(Rest(t, m)) && AllValid(lines + [t[..LastStart(t, m)]])
  {
    CutOfValid(t, m);
  }

  lemma LastLine(lines: seq<seq<byte>>, t: seq<byte>, m: nat)
    requires |t| <= m && (|lines| > 0 ==> Follows(t))
    requires Pieces(lines, m) && Full(lines, t, m)
    ensures var more := lines + [t]; Pieces(more, m) && Full(more[..|lines|], more[|lines|], m)
  {
    assert (lines + [t])[..|lines|] == lines;
  }

  lemma Slices(s: seq<byte>, l: nat, r: nat)
    requires l <= r <= |s|
    ensures s[l..][..r - l] == s[l..r] && s[l..][r - l..] == s[r..] && s[..l] + s[l..r] == s[..r]
  {
  }

  /** Where the loop stands: the lines made of the first `l` bytes. */
  ghost predicate Sofar(splits: seq<seq<byte>>, s: seq<byte>, l: nat, m: nat)
    requires l <= |s|
  {
    && Join(splits) == s[..l] && Pieces(splits, m) && Full(splits, s[l..], m)
    && (|splits| > 0 ==> Follows(s[l..])) && (l > 0 ==> |splits| > 0)
    && (Narrow(s, m) <==> Narrow(s[l..], m))
    && (Narrow(s, m) ==> LineCount(s, m) == |splits| + LineCount(s[l..], m))
    && (ValidUtf8(s) ==> ValidUtf8(s[l..]) && AllValid(splits))
  }

  lemma SofarBegins(s: seq<byte>, m: nat)
    ensures Sofar([], s, 0, m)
  {
    assert s[0..] == s;
  }

  lemma SofarNext(splits: seq<seq<byte>>, s: seq<byte>, l: nat, m: nat)
    requires l + m < |s| && Sofar(splits, s, l, m) && LastStart(s[l..], m) > 0
    ensures var r := l + LastStart(s[l..], m); Sofar(splits + [s[l..r]], s, r, m)
  {
    hide Narrow, ValidUtf8, Pieces, Full, Join, Follows, AllValid, LastStart, UnitLen, LineCount, RuneStart;
    var t := s[l..];
    var r := l + LastStart(t, m);
    Slices(s, l, r);
    CutFacts(t, m);
    NextLine(splits, t, m);
    JoinMore(splits, t[..r - l]);
    if Narrow(s, m) {
      OneMoreLine(t, m);
    }
    if ValidUtf8(s) {
      NextValid(splits, t, m);
    }
  }

  lemma ValidMore(lines: seq<seq<byte>>, t: seq<byte>)
    ensures AllValid(lines) && ValidUtf8(t) ==> AllValid(lines + [t])
  {
    hide ValidUtf8;
  }

  lemma SofarEnds(splits: seq<seq<byte>>, s: seq<byte>, l: nat, m: nat)
    requires l <= |s| <= l + m && Sofar(splits, s, l, m)
    ensures Narrow(s, m) && Broken(splits + [s[l..]], s, m) && |splits| + 1 == LineCount(s, m)
  {
    hide Narrow, Pieces, Full, Join, Follows, AllValid, ValidUtf8, LineCount;
    var t := s[l..];
    OneLine(t, m);
    LastLine(splits, t, m);
    JoinMore(splits, t);
    ValidMore(splits, t);
    assert s[..l] + t == s;
  }

  /** There is no start byte to go back to from `m`. */
  ghost predicate NoStart(s: seq<byte>, m: nat) {
    m < |s| && forall i :: 0 <= i <= m ==> !RuneStart(s[i])
  }

  /** The inner loop: back from `l + m` to a start byte, or off the front. */
  method StepBack(s: seq<byte>, l: nat, m: nat) returns (r: int)
    requires l + m < |s| && (l > 0 ==> RuneStart(s[l]))
    ensures r <= l ==> LastStart(s[l..], m) == 0
    ensures r > l ==> LastStart(s[l..], m) == r - l
    ensures r == -1 <==> NoStart(s, l + m)
  {
    r := l + m;
    ghost var t := s[l..];
    while r >= 0 && !RuneStart(s[r])
      invariant -1 <= r <= l + m && (l > 0 ==> r >= l)
      invariant LastStart(t, m) == if r < l then 0 else LastStart(t, r - l)
      invariant forall i :: r < i <= l + m ==> !RuneStart(s[i])
    {
      assert r >= l ==> t[r - l] == s[r];
      r := r - 1;
    }
    assert r >= l ==> t[r - l] == s[r];
  }

  lemma StartsHere(splits: seq<seq<byte>>, s: seq<byte>, l: nat, m: nat)
    requires l < |s| && Sofar(splits, s, l, m)
    ensures l > 0 ==> RuneStart(s[l])
    ensures Narrow(s, m) <==> Narrow(s[l..], m)
  {
  }

  lemma NoStartSooner(s: seq<byte>, l: nat, m: nat)
    requires NoStart(s, l + m)
    ensures NoStart(s, m)
  {
  }

  /** How breaking ends: with the lines, never, or with an index off the front of the text. */
  datatype Ending = Ended | Never | OffTheFront

  /** Breaks any bytes into lines, as few as can be. */
  method SplitString(longString: seq<byte>, maxLen: nat) returns (ending: Ending, splits: seq<seq<byte>>)
    ensures ending.Ended? <==> Narrow(longString, maxLen)
    ensures ending.OffTheFront? <==> NoStart(longString, maxLen)
    ensures ending.Ended? ==> Broken(splits, longString, maxLen) && |splits| == LineCount(longString, maxLen)
  {
    hide Sofar, Narrow, Broken, UnitLen, LineCount, LastStart, RuneStart;
    splits := [];
    SofarBegins(longString, maxLen);
    var l: nat, r: int := 0, maxLen;
    while r < |longString|
      invariant 0 <= l <= |longString| && r == l + maxLen
      invariant Sofar(splits, longString, l, maxLen)
      invariant l > 0 ==> !NoStart(longString, maxLen)
      decreases |longString| - l
    {
      ghost var t := longString[l..];
      StartsHere(splits, longString, l, maxLen);
      CutFacts(t, maxLen);
      r := StepBack(longString, l, maxLen);
      if r == -1 {
        NoStartSooner(longString, l, maxLen);
        return OffTheFront, [];
      }
      if r <= l {
        return Never, [];
      }
      SofarNext(splits, longString, l, maxLen);
      splits := splits + [longString[l..r]];
      l, r := r, r + maxLen;
    }
    SofarEnds(splits, longString, l, maxLen);
    ending := Ended;
    splits := splits + [longString[l..]];
  }

  // ---------------------------------------------------------------- how many lines a text takes

  /** The text can be broken into at most `n` lines, in whatever way. */
  ghost predicate Breakable(s: seq<byte>, m: nat, n: nat) {
    exists lines :: Breaking(lines, s, m) && |lines| <= n
  }

  lemma BreakableIff(s: seq<byte>, m: nat, n: nat, lines: seq<seq<byte>>)
    requires Narrow(s, m) ==> Breaking(lines, s, m) && |lines| == LineCount(s, m)
    ensures Breakable(s, m, n) <==> Narrow(s, m) && LineCount(s, m) <= n
  {
    forall other | Breaking(other, s, m) && |other| <= n
      ensures Narrow(s, m) && LineCount(s, m) <= n
    {
      FewestLines(other, s, m);
    }
  }

  lemma {:induction false} JoinAtMost(lines: seq<seq<byte>>, m: nat)
    requires forall k :: 0 <= k < |lines| ==> |lines[k]| <= m
    ensures |Join(lines)| <= |lines| * m
  {
    if |lines| > 0 {
      JoinAtMost(lines[..|lines| - 1], m);
      MulNext(|lines| - 1, m);
    }
  }

  lemma {:induction false} JoinAtLeast(lines: seq<seq<byte>>, m: nat)
    requires forall k :: 0 <= k < |lines| ==> |lines[k]| >= m
    ensures |Join(lines)| >= |lines| * m
  {
    if |lines| > 0 {
      JoinAtLeast(lines[..|lines| - 1], m);
      MulNext(|lines| - 1, m);
    }
  }

  /** A text longer than `n` lines of `m` bytes takes more of them. */
  lemma TooLong(s: seq<byte>, m: nat, n: nat)
    requires |s| > n * m
    ensures !Breakable(s, m, n)
  {
    forall lines | Breaking(lines, s, m)
      ensures |lines| > n
    {
      JoinAtMost(lines, m);
      if |lines| <= n {
        MulLe(|lines|, n, m);
      }
    }
  }

  /** Valid text shorter than `n` lines that each miss three bytes. */
  predicate Short(s: seq<byte>, m: nat, n: nat) {
    ValidUtf8(s) && m >= 4 && |s| < n * (m - 3)
  }

  lemma BrokenJoins(lines: seq<seq<byte>>, s: seq<byte>, m: nat)
    requires Broken(lines, s, m)
    ensures |lines| > 0 && s == Join(lines[..|lines| - 1]) + lines[|lines| - 1]
  {
  }

  lemma FullLinesLength(lines: seq<seq<byte>>, s: seq<byte>, m: nat)
    requires Broken(lines, s, m) && ValidUtf8(s) && m >= 4
    ensures |s| >= (|lines| - 1) * (m - 3)
  {
    hide Broken, Join, ValidUtf8;
    var last := |lines| - 1;
    BrokenJoins(lines, s, m);
    var init := lines[..last];
    forall k | 0 <= k < last
      ensures |init[k]| >= m - 3
    {
      NearlyFull(lines, s, m, k);
    }
    JoinAtLeast(init, m - 3);
  }

  /** It takes no more than those. */
  lemma ShortEnough(lines: seq<seq<byte>>, s: seq<byte>, m: nat, n: nat)
    requires Short(s, m, n) && (Narrow(s, m) ==> Broken(lines, s, m))
    ensures Narrow(s, m) && |lines| <= n
  {
    hide Broken, Narrow, ValidUtf8;
    FourIsEnough(s, m);
    FullLinesLength(lines, s, m);
    if |lines| > n {
      MulLe(n, |lines| - 1, m - 3);
    }
  }

  // ---------------------------------------------------------------- the rings

  /** What printing a message comes to: it is shown, an index out of range panics, of the ring or of the
      message, or the line breaker does not return. */
  datatype Printed = Shown | OutOfRange | NeverReturns

  /** The lines on show, and all the lines there ever were, blank ones to begin with. */
  class MessageRing {
    const width: nat
    var ring: seq<seq<byte>>
    ghost var history: seq<seq<byte>>

    ghost predicate Valid()
      reads this
    {
      |ring| <= |history| && ring == history[|history| - |ring|..]
    }

    constructor (size: nat, width: nat)
      ensures Valid() && |ring| == size && this.width == width
      ensures history == ring && forall k :: 0 <= k < size ==> ring[k] == []
    {
      this.width := width;
      ring := seq(size, _ => []);
      history := seq(size, _ => []);
    }

    /** What the line breaker returns decides whether a text fits. */
    lemma Decides(ending: Ending, lines: seq<seq<byte>>, s: seq<byte>, m: nat, n: nat)
      requires ending.Ended? <==> Narrow(s, m)
      requires ending.Ended? ==> Broken(lines, s, m) && |lines| == LineCount(s, m)
      ensures Breakable(s, m, n) <==> ending.Ended? && |lines| <= n
      ensures Short(s, m, n) ==> ending.Ended? && |lines| <= n
    {
      hide Narrow, LineCount, Breakable, Short;
      BreakableIff(s, m, n, lines);
      if Short(s, m, n) {
        ShortEnough(lines, s, m, n);
      }
    }

    lemma Slide(history: seq<seq<byte>>, n: nat, more: seq<seq<byte>>)
      requires |more| <= n <= |history|
      ensures var after := history + more;
              history[|history| - n..][|more|..] + more == after[|after| - n..]
    {
    }

    /** The ring holds the last lines of the history, still as many as before. A message is shown exactly if
        there is any way to break it into no more lines than the ring has; of any bytes whatever. */
    method PrintMsg(s: seq<byte>) returns (ghost lines: seq<seq<byte>>, outcome: Printed)
      requires Valid()
      modifies this
      ensures Valid() && |ring| == old(|ring|)
      ensures outcome.Shown? <==> Breakable(s, width, |ring|)
      ensures outcome.NeverReturns? <==> !Narrow(s, width) && !NoStart(s, width)
      ensures Short(s, width, |ring|) ==> outcome.Shown?
      ensures outcome.Shown? ==> Broken(lines, s, width) && history == old(history) + lines
      ensures !outcome.Shown? ==> history == old(history)
    {
      hide Narrow, Broken, LineCount, Short, NoStart, Breakable;
      var ending, ss := SplitString(s, width);
      lines := ss;
      Decides(ending, ss, s, width, |ring|);
      if ending.Never? {
        return lines, NeverReturns;
      }
      if ending.OffTheFront? || |ss| > |ring| {
        return lines, OutOfRange;
      }
      Slide(history, |ring|, ss);
      ring := ring[|ss|..];
      ring := ring + ss;
      history := history + ss;
      outcome := Shown;
    }
  }

  /** The rings of the terminal UI, or null for a terminal that is too small: seven lines each, wide enough
      that printing valid text always returns. */
  method InitServerTui(w: nat, h: nat) returns (msg: MessageRing?, err: MessageRing?)
    ensures msg == null <==> h < 40 || w < 80
    ensures err == null <==> h < 40 || w < 80
    ensures msg != null && err != null ==>
              && msg != err && msg.Valid() && err.Valid() && |msg.ring| == |err.ring| == 7
              && msg.width >= 41 && err.width >= 38 && msg.width + err.width == w - 1
              && 3 <= msg.width - err.width <= 4
    ensures msg != null && err != null ==>
              forall s :: ValidUtf8(s) ==> Narrow(s, msg.width) && Narrow(s, err.width)
  {
    if h < 40 || w < 80 {
      return null, null;
    }
    var botScnH := 8;
    var msgW := (w + 1) / 2 + 1;
    var errW := w - msgW - 1;
    msg := new MessageRing(botScnH - 1, msgW);
    err := new MessageRing(botScnH - 1, errW);
    forall s | ValidUtf8(s)
      ensures Narrow(s, msgW) && Narrow(s, errW)
    {
      FourIsEnough(s, msgW);
      FourIsEnough(s, errW);
    }
  }

  /** Plain text of `n` letters. */
  function Letters(n: nat): seq<byte> {
    seq(n, _ => 0x61)
  }

  lemma {:induction false} LettersAreValid(n: nat)
    ensures ValidUtf8(Letters(n))
  {
    if n > 0 {
      LettersAreValid(n - 1);
      assert Letters(n)[1..] == Letters(n - 1);
    }
  }

  /** A message that panics on every terminal: the ring of any size and width is sliced out of range by one
      letter more than it holds. */
  lemma RingOverflows(size: nat, width: nat)
    requires width >= 4
    ensures var s := Letters(size * width + 1);
            ValidUtf8(s) && Narrow(s, width) && !Breakable(s, width, size)
  {
    LettersAreValid(size * width + 1);
    FourIsEnough(Letters(size * width + 1), width);
    TooLong(Letters(size * width + 1), width, size);
  }
}
