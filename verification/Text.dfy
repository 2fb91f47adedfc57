/**
 Text as the debate code sees it: Go's strings.TrimSpace, PostgreSQL's btrim with an
 explicit character set, and the byte length of a string.
 */
module Text {

  /** The code points with Unicode's White_Space property, which strings.TrimSpace removes. */
  predicate IsSpace(c: char) {
    var n := c as int;
    || IsSqlSpace(c)
    || n == 0x85 || n == 0xA0 || n == 0x1680
    || 0x2000 <= n <= 0x200A
    || n == 0x2028 || n == 0x2029 || n == 0x202F || n == 0x205F || n == 0x3000
  }

  /** The six characters in the btrim set: space, \t, \n, \r, \f and \v. */
  predicate IsSqlSpace(c: char) {
    c as int == 32 || 9 <= c as int <= 13
  }

  function TrimLeft(s: string, p: char -> bool): (r: string) {
    if |s| > 0 && p(s[0]) then TrimLeft(s[1..], p) else s
  }

  function TrimRight(s: string, p: char -> bool): (r: string) {
    if |s| > 0 && p(s[|s| - 1]) then TrimRight(s[..|s| - 1], p) else s
  }

  function Trim(s: string, p: char -> bool): (r: string) {
    TrimRight(TrimLeft(s, p), p)
  }

  function TrimSpace(s: string): (r: string) {
    Trim(s, IsSpace)
  }

  /** Nothing but characters satisfying p. */
  ghost predicate All(s: string, p: char -> bool) {
    forall i :: 0 <= i < |s| ==> p(s[i])
  }

  ghost predicate Blank(s: string) {
    All(s, IsSpace)
  }

  lemma OneMore(s: string, k: nat, p: char -> bool)
    requires k < |s| && p(s[0]) && All(s[1..][..k], p)
    ensures s[1..][k..] == s[k + 1..] && All(s[..k + 1], p)
  {
    assert s[..k + 1] == [s[0]] + s[1..][..k];
  }

  lemma {:induction false} TrimLeftSplits(s: string, p: char -> bool)
    ensures exists k :: 0 <= k <= |s| && TrimLeft(s, p) == s[k..] && All(s[..k], p)
    ensures TrimLeft(s, p) != [] ==> !p(TrimLeft(s, p)[0])
  {
    if |s| > 0 && p(s[0]) {
      var t := s[1..];
      TrimLeftSplits(t, p);
      var k :| 0 <= k <= |t| && TrimLeft(t, p) == t[k..] && All(t[..k], p);
      OneMore(s, k, p);
    } else {
      assert s[0..] == s && All(s[..0], p);
    }
  }

  lemma {:induction false} TrimRightSplits(s: string, p: char -> bool)
    ensures exists k :: 0 <= k <= |s| && TrimRight(s, p) == s[..k] && All(s[k..], p)
    ensures var r := TrimRight(s, p); r != [] ==> !p(r[|r| - 1]) && r[0] == s[0]
  {
    if |s| > 0 && p(s[|s| - 1]) {
      var t := s[..|s| - 1];
      TrimRightSplits(t, p);
      var k :| 0 <= k <= |t| && TrimRight(t, p) == t[..k] && All(t[k..], p);
      assert t[..k] == s[..k];
      var tail := s[k..];
      forall i | 0 <= i < |tail| ensures p(tail[i]) {
        if i < |tail| - 1 { assert tail[i] == t[k..][i]; }
      }
    } else {
      assert s[..|s|] == s && All(s[|s|..], p);
    }
  }

  /** What trimming leaves: a middle slice with p-characters only around it. */
  ghost predicate IsTrimOf(r: string, s: string, p: char -> bool) {
    && (exists i, j :: 0 <= i <= j <= |s| && r == s[i..j] && All(s[..i], p) && All(s[j..], p))
    && (r != [] ==> !p(r[0]) && !p(r[|r| - 1]))
  }

  lemma MiddleSlice(s: string, i: nat, k: nat, p: char -> bool)
    requires i + k <= |s| && All(s[..i], p) && All(s[i..][k..], p)
    requires var r := s[i..][..k]; r != [] ==> !p(r[0]) && !p(r[|r| - 1])
    ensures IsTrimOf(s[i..][..k], s, p)
  {
    assert s[i..][..k] == s[i..i + k];
    assert s[i..][k..] == s[i + k..];
  }

  lemma TrimIsTrim(s: string, p: char -> bool)
    ensures IsTrimOf(Trim(s, p), s, p)
  {
    var l := TrimLeft(s, p);
    TrimLeftSplits(s, p);
    TrimRightSplits(l, p);
    var i :| 0 <= i <= |s| && l == s[i..] && All(s[..i], p);
    var k :| 0 <= k <= |l| && TrimRight(l, p) == l[..k] && All(l[k..], p);
    MiddleSlice(s, i, k, p);
  }

  /** Trimming empties a string exactly when the string holds nothing else. */
  lemma TrimEmptyIffAll(s: string, p: char -> bool)
    ensures Trim(s, p) == [] <==> All(s, p)
  {
    TrimIsTrim(s, p);
    var r := Trim(s, p);
    var i, j :| 0 <= i <= j <= |s| && r == s[i..j] && All(s[..i], p) && All(s[j..], p);
    if r == [] {
      assert i == j;
      forall n | 0 <= n < |s| ensures p(s[n]) {
        if n < i { assert s[..i][n] == s[n]; } else { assert s[j..][n - j] == s[n]; }
      }
    } else {
      assert s[i] == r[0];
    }
  }

  lemma BlankIffTrimsAway(s: string)
    ensures TrimSpace(s) == [] <==> Blank(s)
  {
    TrimEmptyIffAll(s, IsSpace);
  }

  /** A string with no space at either end is left alone; in particular trimming is idempotent. */
  lemma TrimFixpoint(s: string, p: char -> bool)
    requires s != [] ==> !p(s[0]) && !p(s[|s| - 1])
    ensures Trim(s, p) == s
  {
  }

  lemma TrimIdempotent(s: string)
    ensures TrimSpace(TrimSpace(s)) == TrimSpace(s)
  {
    TrimIsTrim(s, IsSpace);
    TrimFixpoint(TrimSpace(s), IsSpace);
  }

  /** Go's len on a string: its UTF-8 byte count. */
  function ByteLen(s: string): nat {
    if s == [] then 0 else ByteLen(s[..|s| - 1]) + CharBytes(s[|s| - 1])
  }

  function CharBytes(c: char): nat {
    if c as int < 0x80 then 1 else if c as int < 0x800 then 2 else if c as int < 0x1_0000 then 3 else 4
  }

  /** The UTF-8 encoding of a code point, section 3 of RFC 3629. */
  function Utf8Char(c: char): seq<int> {
    var n := c as int;
    if n < 0x80 then [n]
    else if n < 0x800 then [0xC0 + n / 64, 0x80 + n % 64]
    else if n < 0x1_0000 then [0xE0 + n / 64 / 64, 0x80 + n / 64 % 64, 0x80 + n % 64]
    else [0xF0 + n / 64 / 64 / 64, 0x80 + n / 64 / 64 % 64, 0x80 + n / 64 % 64, 0x80 + n % 64]
  }

  function Utf8(s: string): seq<int> {
    if s == [] then [] else Utf8(s[..|s| - 1]) + Utf8Char(s[|s| - 1])
  }

  /** The code point that a sequence of one to four bytes encodes. */
  function CodePoint(b: seq<int>): int
    requires 1 <= |b| <= 4
  {
    if |b| == 1 then b[0]
    else if |b| == 2 then (b[0] - 0xC0) * 64 + (b[1] - 0x80)
    else if |b| == 3 then ((b[0] - 0xE0) * 64 + (b[1] - 0x80)) * 64 + (b[2] - 0x80)
    else (((b[0] - 0xF0) * 64 + (b[1] - 0x80)) * 64 + (b[2] - 0x80)) * 64 + (b[3] - 0x80)
  }

  /** The encoding decodes to the character, and the character is counted with its bytes. */
  lemma Utf8CharDecodes(c: char)
    ensures |Utf8Char(c)| == CharBytes(c) <= 4 && CodePoint(Utf8Char(c)) == c as int
    ensures forall i :: 0 <= i < |Utf8Char(c)| ==> 0 <= Utf8Char(c)[i] < 0x100
    ensures forall i :: 1 <= i < |Utf8Char(c)| ==> 0x80 <= Utf8Char(c)[i] < 0xC0
  {
  }

  lemma {:induction false} ByteLenCountsUtf8(s: string)
    ensures ByteLen(s) == |Utf8(s)|
  {
    if s != [] {
      ByteLenCountsUtf8(s[..|s| - 1]);
      Utf8CharDecodes(s[|s| - 1]);
    }
  }

  // ----- trimming around -----

  lemma {:induction false} TrimLeftDrops(a: string, y: string, p: char -> bool)
    requires All(a, p)
    ensures TrimLeft(a + y, p) == TrimLeft(y, p)
  {
    if a == [] {
      assert a + y == y;
    } else {
      TrimLeftDrops(a[1..], y, p);
      assert (a + y)[1..] == a[1..] + y;
    }
  }

  lemma {:induction false} TrimRightDrops(y: string, c: string, p: char -> bool)
    requires All(c, p)
    ensures TrimRight(y + c, p) == TrimRight(y, p)
  {
    if c == [] {
      assert y + c == y;
    } else {
      TrimRightDrops(y, c[..|c| - 1], p);
      assert (y + c)[..|y + c| - 1] == y + c[..|c| - 1];
    }
  }

  /** Whatever p-characters stand around a text that neither starts nor ends with one, trimming finds
      the text. */
  lemma TrimAround(a: string, x: string, c: string, p: char -> bool)
    requires All(a, p) && All(c, p) && x != "" && !p(x[0]) && !p(x[|x| - 1])
    ensures Trim(a + x + c, p) == x
  {
    assert a + x + c == a + (x + c);
    TrimLeftDrops(a, x + c, p);
    TrimRightDrops(x, c, p);
  }
}
