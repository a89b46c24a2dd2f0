/**
 * The string functions of PHP that the checker relies on: implode, strpos,
 * substr with a negative start, trim, strtolower, the decimal rendering of an
 * integer, empty() on a string, and urlencode.
 */
module Text {

  /** PHP's empty() on a string: true for "" and for "0". */
  predicate Empty(s: string) {
    s == "" || s == "0"
  }

  // ---------------------------------------------------------------------------
  // implode and its inverse

  /** PHP's implode(sep, pieces). */
  function Join(pieces: seq<string>, sep: string): string
    decreases |pieces|
  {
    if |pieces| == 0 then ""
    else if |pieces| == 1 then pieces[0]
    else pieces[0] + sep + Join(pieces[1..], sep)
  }

  /** The position of the first `c` at or after `i`, or |s| when there is none (strpos). */
  function IndexOf(s: string, c: char, i: nat): (k: nat)
    requires i <= |s|
    ensures i <= k <= |s|
    ensures forall j :: i <= j < k ==> s[j] != c
    ensures k < |s| ==> s[k] == c
    decreases |s| - i
  {
    if i == |s| || s[i] == c then i else IndexOf(s, c, i + 1)
  }

  /** In a word free of `c` followed by `c`, the first `c` is the one after the word. */
  lemma IndexOfAfterWord(w: string, c: char, rest: string, i: nat)
    requires i <= |w| && c !in w
    ensures IndexOf(w + [c] + rest, c, i) == |w|
  {
    var s := w + [c] + rest;
    assert s[|w|] == c;
  }

  /** Splitting at every occurrence of `c`; the inverse of joining with [c]. */
  function Split(s: string, c: char): (r: seq<string>)
    ensures |r| > 0
    decreases |s|
  {
    if s == [] then [""]
    else
      var rest := Split(s[1..], c);
      if s[0] == c then [""] + rest else [[s[0]] + rest[0]] + rest[1..]
  }

  lemma {:induction false} SplitFree(p: string, c: char)
    requires c !in p
    ensures Split(p, c) == [p]
    decreases |p|
  {
    if p != [] {
      SplitFree(p[1..], c);
      assert [p[0]] + p[1..] == p;
    }
  }

  lemma {:induction false} SplitAfterPiece(p: string, c: char, rest: string)
    requires c !in p
    ensures Split(p + [c] + rest, c) == [p] + Split(rest, c)
    decreases |p|
  {
    if p == [] {
      assert p + [c] + rest == [c] + rest;
      assert ([c] + rest)[1..] == rest;
    } else {
      var s := p + [c] + rest;
      assert s[0] == p[0];
      assert s[1..] == p[1..] + [c] + rest;
      SplitAfterPiece(p[1..], c, rest);
      assert [p[0]] + p[1..] == p;
    }
  }

  /** Five pieces joined, written out. */
  lemma JoinFive(a: string, b: string, c: string, d: string, e: string, sep: string)
    ensures Join([a, b, c, d, e], sep) == a + sep + b + sep + c + sep + d + sep + e
  {
    var ps := [a, b, c, d, e];
    assert ps[1..] == [b, c, d, e];
    assert ps[1..][1..] == [c, d, e];
    assert ps[1..][1..][1..] == [d, e];
    assert ps[1..][1..][1..][1..] == [e];
    assert Join([d, e], sep) == d + sep + e;
    assert Join([c, d, e], sep) == c + sep + (d + sep + e);
    assert Join([b, c, d, e], sep) == b + sep + (c + sep + (d + sep + e));
  }

  /** Joining with a one-character separator and splitting at it gives the pieces back. */
  lemma {:induction false} SplitJoin(pieces: seq<string>, c: char)
    requires |pieces| > 0
    requires forall i :: 0 <= i < |pieces| ==> c !in pieces[i]
    ensures Split(Join(pieces, [c]), c) == pieces
    decreases |pieces|
  {
    if |pieces| == 1 {
      SplitFree(pieces[0], c);
    } else {
      SplitJoin(pieces[1..], c);
      SplitAfterPiece(pieces[0], c, Join(pieces[1..], [c]));
      assert [pieces[0]] + pieces[1..] == pieces;
    }
  }

  /** A character occurs in a joined string exactly when it occurs in a piece or in a separator that is used. */
  lemma {:induction false} JoinHasChar(pieces: seq<string>, sep: string, c: char)
    ensures c in Join(pieces, sep) <==>
              (exists i :: 0 <= i < |pieces| && c in pieces[i]) || (|pieces| > 1 && c in sep)
    decreases |pieces|
  {
    if |pieces| > 1 {
      JoinHasChar(pieces[1..], sep, c);
      var j := Join(pieces[1..], sep);
      assert Join(pieces, sep) == pieces[0] + sep + j;
      assert c in Join(pieces, sep) <==> c in pieces[0] || c in sep || c in j;
      if c in j && !(|pieces[1..]| > 1 && c in sep) {
        var i :| 0 <= i < |pieces[1..]| && c in pieces[1..][i];
        assert c in pieces[i + 1];
      }
      if exists i :: 0 <= i < |pieces| && c in pieces[i] {
        var i :| 0 <= i < |pieces| && c in pieces[i];
        if i > 0 {
          assert c in pieces[1..][i - 1];
        }
      }
    }
  }

  // ---------------------------------------------------------------------------
  // strpos and substr

  /** strpos(s, sub) !== false: `sub` occurs somewhere in `s`. */
  predicate Contains(s: string, sub: string)
    decreases |s|
  {
    |sub| <= |s| && (s[..|sub|] == sub || Contains(s[1..], sub))
  }

  /** `sub` occurs in `s` starting at position i. */
  predicate OccursAt(s: string, sub: string, i: int) {
    0 <= i <= |s| - |sub| && s[i..i + |sub|] == sub
  }

  lemma {:induction false} ContainsIff(s: string, sub: string)
    ensures Contains(s, sub) <==> exists i :: OccursAt(s, sub, i)
    decreases |s|
  {
    if |sub| <= |s| && s[..|sub|] == sub {
      assert OccursAt(s, sub, 0);
    } else if |sub| <= |s| && |s| > 0 {
      ContainsIff(s[1..], sub);
      if exists i :: OccursAt(s, sub, i) {
        var i :| OccursAt(s, sub, i);
        assert i > 0;
        assert s[1..][i - 1..i - 1 + |sub|] == sub;
        assert OccursAt(s[1..], sub, i - 1);
      }
      if exists i :: OccursAt(s[1..], sub, i) {
        var i :| OccursAt(s[1..], sub, i);
        assert s[i + 1..i + 1 + |sub|] == sub;
        assert OccursAt(s, sub, i + 1);
      }
    }
  }

  /** substr(s, -n) for n > 0: the last n characters, or all of `s` when it is shorter. */
  function Tail(s: string, n: nat): string {
    if n >= |s| then s else s[|s| - n..]
  }

  /** The test `suffix == substr(s, -strlen(suffix))` that checkError applies to the effective URL. */
  predicate HasTail(s: string, suffix: string) {
    suffix == Tail(s, |suffix|)
  }

  lemma HasTailIsSuffix(s: string, suffix: string)
    requires suffix != ""
    ensures HasTail(s, suffix) <==> |suffix| <= |s| && s[|s| - |suffix|..] == suffix
  {
  }

  // ---------------------------------------------------------------------------
  // trim and strtolower

  /** The characters PHP's trim() strips by default: space, tab, newline, carriage return, NUL and vertical tab. */
  predicate IsTrimChar(c: char) {
    c == ' ' || c == '\t' || c == '\n' || c == '\r' || c == 0 as char || c == 11 as char
  }

  predicate IsBlank(s: string) {
    forall i :: 0 <= i < |s| ==> IsTrimChar(s[i])
  }

  function TrimStart(s: string): string
    decreases |s|
  {
    if s != [] && IsTrimChar(s[0]) then TrimStart(s[1..]) else s
  }

  function TrimEnd(s: string): string
    decreases |s|
  {
    if s != [] && IsTrimChar(s[|s| - 1]) then TrimEnd(s[..|s| - 1]) else s
  }

  /** PHP's trim(s). */
  function Trim(s: string): string {
    TrimEnd(TrimStart(s))
  }

  /** ltrim removes a blank prefix and leaves a suffix that does not start with a blank. */
  lemma {:induction false} TrimStartShape(s: string)
    ensures var r := TrimStart(s);
      |r| <= |s| && r == s[|s| - |r|..] && IsBlank(s[..|s| - |r|]) && (r == [] || !IsTrimChar(r[0]))
    decreases |s|
  {
    if s != [] && IsTrimChar(s[0]) {
      var r := TrimStart(s[1..]);
      TrimStartShape(s[1..]);
      var k := |s| - |r|;
      assert r == s[k..];
      forall i | 0 <= i < k ensures IsTrimChar(s[..k][i]) {
        if i > 0 {
          assert s[..k][i] == s[1..][..k - 1][i - 1];
        }
      }
    }
  }

  /** rtrim removes a blank suffix and leaves a prefix that does not end with a blank. */
  lemma {:induction false} TrimEndShape(s: string)
    ensures var r := TrimEnd(s);
      |r| <= |s| && r == s[..|r|] && IsBlank(s[|r|..]) && (r == [] || !IsTrimChar(r[|r| - 1]))
    decreases |s|
  {
    if s != [] && IsTrimChar(s[|s| - 1]) {
      var r := TrimEnd(s[..|s| - 1]);
      TrimEndShape(s[..|s| - 1]);
      assert r == s[..|r|];
      forall j | 0 <= j < |s| - |r| ensures IsTrimChar(s[|r|..][j]) {
        if j < |s| - 1 - |r| {
          assert s[|r|..][j] == s[..|s| - 1][|r|..][j];
        }
      }
    }
  }

  /** trim removes blank characters from both ends and nothing else, so that neither end of its result is blank. */
  lemma TrimShape(s: string)
    ensures var r := Trim(s);
      exists k :: 0 <= k <= |s| - |r| && s[k..k + |r|] == r && IsBlank(s[..k]) && IsBlank(s[k + |r|..])
    ensures var r := Trim(s);
      r == [] || (!IsTrimChar(r[0]) && !IsTrimChar(r[|r| - 1]))
  {
    var t := TrimStart(s);
    var r := TrimEnd(t);
    TrimStartShape(s);
    TrimEndShape(t);
    NestedSlices(s, t, r);
    if r != [] {
      assert r[0] == t[0];
    }
  }

  /** A prefix r of a suffix t of s, with blanks cut off on both sides. */
  lemma NestedSlices(s: string, t: string, r: string)
    requires |t| <= |s| && t == s[|s| - |t|..] && IsBlank(s[..|s| - |t|])
    requires |r| <= |t| && r == t[..|r|] && IsBlank(t[|r|..])
    ensures exists k :: 0 <= k <= |s| - |r| && s[k..k + |r|] == r && IsBlank(s[..k]) && IsBlank(s[k + |r|..])
  {
    var k := |s| - |t|;
    assert s[k..k + |r|] == t[..|r|];
    assert s[k + |r|..] == t[|r|..];
    assert 0 <= k <= |s| - |r| && s[k..k + |r|] == r && IsBlank(s[..k]) && IsBlank(s[k + |r|..]);
  }

  /** Trimming twice is trimming once. */
  lemma TrimIdempotent(s: string)
    ensures Trim(Trim(s)) == Trim(s)
  {
    TrimShape(s);
  }

  function LowerChar(c: char): char {
    if 'A' <= c <= 'Z' then (c as int + 32) as char else c
  }

  /** PHP's strtolower: ASCII upper-case letters become lower-case, every other character stays. */
  function ToLower(s: string): (r: string)
    ensures |r| == |s|
    ensures forall i :: 0 <= i < |s| ==> r[i] == LowerChar(s[i])
    decreases |s|
  {
    if s == [] then [] else [LowerChar(s[0])] + ToLower(s[1..])
  }

  lemma ToLowerIdempotent(s: string)
    ensures ToLower(ToLower(s)) == ToLower(s)
    ensures forall i :: 0 <= i < |s| ==> !('A' <= ToLower(s)[i] <= 'Z')
  {
    var r := ToLower(s);
    forall i | 0 <= i < |r| ensures LowerChar(r[i]) == r[i] && !('A' <= r[i] <= 'Z') {
      assert r[i] == LowerChar(s[i]);
    }
    assert ToLower(r) == r;
  }

  // ---------------------------------------------------------------------------
  // Decimal rendering of integers, as PHP's string conversion writes them

  predicate IsDigit(c: char) {
    '0' <= c <= '9'
  }

  predicate IsDigits(s: string) {
    forall i :: 0 <= i < |s| ==> IsDigit(s[i])
  }

  function DigitChar(d: nat): char
    requires d < 10
  {
    ('0' as int + d) as char
  }

  /** The decimal digits of `n`, without leading zeros. */
  function NatToText(n: nat): (r: string)
    ensures r != [] && IsDigits(r)
    ensures |r| > 1 ==> r[0] != '0'
    decreases n
  {
    if n < 10 then [DigitChar(n)] else NatToText(n / 10) + [DigitChar(n % 10)]
  }

  /** The integer `n`, in decimal, with a leading '-' when it is negative. */
  function IntToText(n: int): string {
    if n < 0 then "-" + NatToText(-n) else NatToText(n)
  }

  /** The value of a string of decimal digits: the reading that undoes NatToText. */
  function DigitsValue(s: string): nat
    requires IsDigits(s)
    decreases |s|
  {
    if s == [] then 0 else DigitsValue(s[..|s| - 1]) * 10 + (s[|s| - 1] as int - '0' as int)
  }

  lemma {:induction false} NatToTextRoundTrip(n: nat)
    ensures DigitsValue(NatToText(n)) == n
    decreases n
  {
    if n >= 10 {
      NatToTextRoundTrip(n / 10);
      var t := NatToText(n / 10) + [DigitChar(n % 10)];
      assert t[..|t| - 1] == NatToText(n / 10);
    }
  }

  /** Distinct numbers have distinct renderings. */
  lemma NatToTextInjective(a: nat, b: nat)
    ensures NatToText(a) == NatToText(b) ==> a == b
  {
    NatToTextRoundTrip(a);
    NatToTextRoundTrip(b);
  }

  /** No rendered integer contains a character other than a digit or '-'. */
  lemma IntToTextChars(n: int, c: char)
    requires c in IntToText(n)
    ensures IsDigit(c) || c == '-'
  {
    var t := IntToText(n);
    var i :| 0 <= i < |t| && t[i] == c;
    if n < 0 && i > 0 {
      assert t[i] == NatToText(-n)[i - 1];
    }
  }

  // ---------------------------------------------------------------------------
  // urlencode and urldecode

  predicate IsAlnum(c: char) {
    IsDigit(c) || 'a' <= c <= 'z' || 'A' <= c <= 'Z'
  }

  function HexDigit(d: nat): char
    requires d < 16
  {
    if d < 10 then DigitChar(d) else ('A' as int + d - 10) as char
  }

  predicate IsHexDigit(c: char) {
    IsDigit(c) || 'A' <= c <= 'F' || 'a' <= c <= 'f'
  }

  function HexValue(c: char): (v: nat)
    requires IsHexDigit(c)
    ensures v < 16
  {
    if IsDigit(c) then c as int - '0' as int
    else if 'A' <= c <= 'F' then c as int - 'A' as int + 10
    else c as int - 'a' as int + 10
  }

  /**
   * urlencode of one character: letters, digits and "-_." stay, a space becomes '+',
   * every other byte becomes '%' and two upper-case hex digits. PHP strings are
   * byte strings, so characters above 255 never reach it; they pass through here.
   */
  function EncodeChar(c: char): string {
    if IsAlnum(c) || c == '-' || c == '_' || c == '.' then [c]
    else if c == ' ' then "+"
    else if c as int < 256 then ['%', HexDigit(c as int / 16), HexDigit(c as int % 16)]
    else [c]
  }

  /** PHP's urlencode. */
  function UrlEncode(s: string): string
    decreases |s|
  {
    if s == [] then "" else EncodeChar(s[0]) + UrlEncode(s[1..])
  }

  /** PHP's urldecode: '+' is a space and '%' with two hex digits is the byte they spell. */
  function UrlDecode(s: string): string
    decreases |s|
  {
    if s == [] then ""
    else if s[0] == '+' then " " + UrlDecode(s[1..])
    else if s[0] == '%' && |s| >= 3 && IsHexDigit(s[1]) && IsHexDigit(s[2]) then
      [(HexValue(s[1]) * 16 + HexValue(s[2])) as char] + UrlDecode(s[3..])
    else [s[0]] + UrlDecode(s[1..])
  }

  lemma HexRoundTrip(d: nat)
    requires d < 16
    ensures IsHexDigit(HexDigit(d)) && HexValue(HexDigit(d)) == d
  {
  }

  lemma DecodeAfterChar(c: char, rest: string)
    ensures UrlDecode(EncodeChar(c) + rest) == [c] + UrlDecode(rest)
  {
    var e := EncodeChar(c) + rest;
    if IsAlnum(c) || c == '-' || c == '_' || c == '.' || c as int >= 256 {
      assert e[1..] == rest;
    } else if c == ' ' {
      assert e[1..] == rest;
    } else {
      var hi, lo := c as int / 16, c as int % 16;
      HexRoundTrip(hi);
      HexRoundTrip(lo);
      assert e[0] == '%' && e[1] == HexDigit(hi) && e[2] == HexDigit(lo);
      assert e[3..] == rest;
      assert (HexValue(e[1]) * 16 + HexValue(e[2])) as char == c;
    }
  }

  /** urldecode undoes urlencode. */
  lemma {:induction false} UrlRoundTrip(s: string)
    ensures UrlDecode(UrlEncode(s)) == s
    decreases |s|
  {
    if s != [] {
      UrlRoundTrip(s[1..]);
      DecodeAfterChar(s[0], UrlEncode(s[1..]));
      assert [s[0]] + s[1..] == s;
    }
  }

  /** An encoded value never contains the form separators '&' and '=', so it cannot break out of its field. */
  lemma {:induction false} UrlEncodeHasNoSeparators(s: string)
    ensures '&' !in UrlEncode(s) && '=' !in UrlEncode(s)
    decreases |s|
  {
    if s != [] {
      UrlEncodeHasNoSeparators(s[1..]);
      var c := s[0];
      if !(IsAlnum(c) || c == '-' || c == '_' || c == '.' || c == ' ') && c as int < 256 {
        HexRoundTrip(c as int / 16);
        HexRoundTrip(c as int % 16);
      }
    }
  }
}
