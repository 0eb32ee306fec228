/** String helpers with the meaning the bot's Python code gives them, restricted to ASCII:
    `str.strip`, `str.lower`, `str.startswith`, the substring test `a in b`, `str.isdigit`,
    `int(...)` on a digit string, `str(n)` for a natural number and `re.split(r'[,\n]', ...)`. */
module Text {

  /** Python's `str.isspace` restricted to the ASCII range. */
  predicate IsSpace(c: char) {
    c == ' ' || c == '\t' || c == '\n' || c == '\r' || c == '\U{0B}' || c == '\U{0C}'
    || ('\U{1C}' <= c <= '\U{1F}')
  }

  predicate IsDigit(c: char) {
    '0' <= c <= '9'
  }

  /** `str.isdigit()`: non-empty and every character a digit. */
  predicate IsDigits(s: string) {
    |s| > 0 && forall i :: 0 <= i < |s| ==> IsDigit(s[i])
  }

  /** `str.rstrip()` */
  function TrimRight(s: string): (r: string)
    ensures |r| <= |s| && r == s[..|r|]
    ensures forall i :: |r| <= i < |s| ==> IsSpace(s[i])
    ensures r == [] || !IsSpace(r[|r| - 1])
  {
    if |s| > 0 && IsSpace(s[|s| - 1]) then TrimRight(s[..|s| - 1]) else s
  }

  /** Every character of the text is white space. */
  ghost predicate AllSpace(t: string) {
    |t| == 0 || (IsSpace(t[0]) && AllSpace(t[1..]))
  }

  /** `AllSpace` is the character-by-character test. */
  lemma {:induction false} AllSpaceChars(t: string)
    requires forall k :: 0 <= k < |t| ==> IsSpace(t[k])
    ensures AllSpace(t)
  {
    if |t| > 0 {
      AllSpaceChars(t[1..]);
    }
  }

  /** The length of the white space the text starts with, which `str.lstrip()` removes. */
  function LeadingSpaces(s: string): (n: nat)
    ensures n <= |s| && AllSpace(s[..n]) && (n == |s| || !IsSpace(s[n]))
  {
    if |s| > 0 && IsSpace(s[0]) then
      var m := LeadingSpaces(s[1..]);
      assert s[..m + 1][1..] == s[1..][..m];
      m + 1
    else 0
  }

  /** `str.strip()`: the longest slice without leading or trailing white space. The result
      is the text after its leading white space, up to where only white space is left. */
  function Strip(s: string): (r: string)
    ensures r == [] || (!IsSpace(r[0]) && !IsSpace(r[|r| - 1]))
    ensures var i := LeadingSpaces(s);
      i + |r| <= |s| && r == s[i..i + |r|] && AllSpace(s[i + |r|..])
  {
    var i := LeadingSpaces(s);
    var t := TrimRight(s[i..]);
    StripTail(s, i, t);
    s[i..i + |t|]
  }

  /** The right strip t of the text after its leading white space (at i) is the slice
      s[i..i + |t|], starts and ends with no white space, and leaves only white space
      after it. */
  lemma StripTail(s: string, i: nat, t: string)
    requires i <= |s| && (i == |s| || !IsSpace(s[i]))
    requires |t| <= |s| - i && t == s[i..][..|t|] && (t == [] || !IsSpace(t[|t| - 1]))
    requires forall k :: |t| <= k < |s| - i ==> IsSpace(s[i..][k])
    ensures s[i..i + |t|] == t
    ensures t == [] || !IsSpace(t[0])
    ensures AllSpace(s[i + |t|..])
  {
    assert s[i..i + |t|] == s[i..][..|t|];
    var after := s[i + |t|..];
    forall k | 0 <= k < |after|
      ensures IsSpace(after[k])
    {
      assert after[k] == s[i..][|t| + k];
    }
    AllSpaceChars(after);
    if t != [] {
      assert t[0] == s[i];
    }
  }

  /** A string with no white space at either end is its own strip. */
  lemma StripNoop(s: string)
    requires s == [] || (!IsSpace(s[0]) && !IsSpace(s[|s| - 1]))
    ensures Strip(s) == s
  {
    assert LeadingSpaces(s) == 0;
    assert s[0..] == s;
  }

  /** Leading white space is counted on top of the text's own. */
  lemma {:induction false} LeadingSpacesAppend(sp: string, s: string)
    requires forall i :: 0 <= i < |sp| ==> IsSpace(sp[i])
    ensures LeadingSpaces(sp + s) == |sp| + LeadingSpaces(s)
  {
    if |sp| > 0 {
      assert (sp + s)[0] == sp[0];
      assert (sp + s)[1..] == sp[1..] + s;
      LeadingSpacesAppend(sp[1..], s);
    } else {
      assert sp + s == s;
    }
  }

  /** Leading white space does not change the strip. */
  lemma StripLeadingSpace(sp: string, s: string)
    requires forall i :: 0 <= i < |sp| ==> IsSpace(sp[i])
    ensures Strip(sp + s) == Strip(s)
  {
    LeadingSpacesAppend(sp, s);
    DropAfterPrefix(sp, s, LeadingSpaces(s));
    StripIsTrim(sp + s);
    StripIsTrim(s);
  }

  /** Dropping a prefix and then i more characters leaves what dropping i leaves. */
  lemma DropAfterPrefix(sp: string, s: string, i: nat)
    requires i <= |s|
    ensures (sp + s)[|sp| + i..] == s[i..]
  {
  }

  /** The strip is the right strip of what follows the leading white space. */
  lemma StripIsTrim(s: string)
    ensures Strip(s) == TrimRight(s[LeadingSpaces(s)..])
  {
    var i := LeadingSpaces(s);
    StripTail(s, i, TrimRight(s[i..]));
  }

  function LowerChar(c: char): (r: char)
  {
    if 'A' <= c <= 'Z' then (c as int + 32) as char else c
  }

  /** `str.lower()` on its ASCII part; every other character is kept. */
  function Lower(s: string): (r: string)
    ensures |r| == |s|
    ensures forall i :: 0 <= i < |s| ==> r[i] == LowerChar(s[i])
  {
    seq(|s|, i requires 0 <= i < |s| => LowerChar(s[i]))
  }

  /** `s.startswith(p)` */
  predicate StartsWith(s: string, p: string) {
    |p| <= |s| && s[..|p|] == p
  }

  /** `needle` occurs in `hay` starting at position i. */
  ghost predicate OccursAt(hay: string, needle: string, i: int) {
    0 <= i && i + |needle| <= |hay| && hay[i..i + |needle|] == needle
  }

  /** Python's `needle in hay` for strings. */
  function Contains(hay: string, needle: string): (r: bool)
    ensures r <==> exists i :: OccursAt(hay, needle, i)
  {
    if |needle| > |hay| then false
    else if hay[..|needle|] == needle then (assert OccursAt(hay, needle, 0); true)
    else
      var rest := Contains(hay[1..], needle);
      assert rest ==> exists i :: OccursAt(hay, needle, i) by {
        if rest {
          var j :| OccursAt(hay[1..], needle, j);
          assert hay[1..][j..j + |needle|] == hay[j + 1..j + 1 + |needle|];
          assert OccursAt(hay, needle, j + 1);
        }
      }
      assert (exists i :: OccursAt(hay, needle, i)) ==> rest by {
        if exists i :: OccursAt(hay, needle, i) {
          var j :| OccursAt(hay, needle, j);
          assert j != 0;
          assert hay[1..][j - 1..j - 1 + |needle|] == hay[j..j + |needle|];
          assert OccursAt(hay[1..], needle, j - 1);
        }
      }
      rest
  }

  function DigitValue(c: char): (d: nat)
    requires IsDigit(c)
    ensures d < 10
  {
    c as int - '0' as int
  }

  function DigitChar(d: nat): (c: char)
    requires d < 10
    ensures IsDigit(c) && DigitValue(c) == d
  {
    (d + '0' as int) as char
  }

  /** `int(s)` for a string of decimal digits (read from the right). */
  function DigitsValue(s: string): nat
    requires forall i :: 0 <= i < |s| ==> IsDigit(s[i])
  {
    if |s| == 0 then 0 else DigitsValue(s[..|s| - 1]) * 10 + DigitValue(s[|s| - 1])
  }

  /** `str(n)` for a natural number: its decimal digits without leading zeros. */
  function NatToString(n: nat): (s: string)
    ensures IsDigits(s)
    ensures |s| > 1 ==> s[0] != '0'
  {
    if n < 10 then [DigitChar(n)] else NatToString(n / 10) + [DigitChar(n % 10)]
  }

  /** `str(i)` for an integer. */
  function IntToString(i: int): (s: string)
  {
    if i >= 0 then NatToString(i) else "-" + NatToString(-i)
  }

  /** Reading back what `str(n)` wrote gives n. */
  lemma {:induction false} NatToStringRoundTrip(n: nat)
    ensures DigitsValue(NatToString(n)) == n
  {
    if n >= 10 {
      var s := NatToString(n);
      assert s[..|s| - 1] == NatToString(n / 10);
      NatToStringRoundTrip(n / 10);
    }
  }

  /** A four-digit number is written with exactly four digits. */
  lemma FourDigits(n: nat)
    requires 1000 <= n <= 9999
    ensures |NatToString(n)| == 4
  {
    assert |NatToString(n / 1000)| == 1;
    assert |NatToString(n / 100)| == 2;
    assert |NatToString(n / 10)| == 3;
  }

  predicate IsSplitSep(c: char) {
    c == ',' || c == '\n'
  }

  /** `re.split(r'[,\n]', s)`: the pieces between separators, empty pieces included. */
  function SplitSep(s: string): (r: seq<string>)
    ensures |r| >= 1
    ensures forall k, i :: 0 <= k < |r| && 0 <= i < |r[k]| ==> !IsSplitSep(r[k][i])
  {
    if |s| == 0 then [""]
    else if IsSplitSep(s[0]) then [""] + SplitSep(s[1..])
    else
      var rest := SplitSep(s[1..]);
      [[s[0]] + rest[0]] + rest[1..]
  }

  /** The separator characters of s, in order. */
  function Separators(s: string): (r: string)
  {
    if |s| == 0 then []
    else if IsSplitSep(s[0]) then [s[0]] + Separators(s[1..])
    else Separators(s[1..])
  }

  /** Pieces glued back together with the given separators between them. */
  function JoinWith(pieces: seq<string>, seps: string): string
    requires |pieces| == |seps| + 1
  {
    if |pieces| == 1 then pieces[0]
    else pieces[0] + [seps[0]] + JoinWith(pieces[1..], seps[1..])
  }

  /** Splitting loses nothing: there is one more piece than separators, and gluing the
      pieces back with the separators that were removed gives the original text. */
  lemma {:induction false} SplitJoin(s: string)
    ensures |SplitSep(s)| == |Separators(s)| + 1
    ensures JoinWith(SplitSep(s), Separators(s)) == s
  {
    if |s| > 0 {
      SplitJoin(s[1..]);
      var rest := SplitSep(s[1..]);
      var seps := Separators(s[1..]);
      if IsSplitSep(s[0]) {
        assert SplitSep(s)[1..] == rest;
        assert [s[0]] + s[1..] == s;
      } else {
        var r := SplitSep(s);
        assert r[0] == [s[0]] + rest[0];
        if |rest| == 1 {
          assert s == [s[0]] + s[1..];
        } else {
          assert r[1..] == rest[1..];
          assert JoinWith(rest, seps) == rest[0] + [seps[0]] + JoinWith(rest[1..], seps[1..]);
          assert s == [s[0]] + s[1..];
        }
      }
    }
  }

  /** `s.split(c)` for a one-character separator: the pieces between separators. */
  function SplitOn(s: string, c: char): (r: seq<string>)
    ensures |r| >= 1
  {
    if |s| == 0 then [""]
    else if s[0] == c then [""] + SplitOn(s[1..], c)
    else
      var rest := SplitOn(s[1..], c);
      [[s[0]] + rest[0]] + rest[1..]
  }

  /** Text without the separator is a single piece. */
  lemma {:induction false} SplitOnNone(s: string, c: char)
    requires forall i :: 0 <= i < |s| ==> s[i] != c
    ensures SplitOn(s, c) == [s]
  {
    if |s| > 0 {
      SplitOnNone(s[1..], c);
      assert [s[0]] + s[1..] == s;
    }
  }

  /** The first separator ends the first piece. */
  lemma {:induction false} SplitOnFirst(a: string, c: char, b: string)
    requires forall i :: 0 <= i < |a| ==> a[i] != c
    ensures SplitOn(a + [c] + b, c) == [a] + SplitOn(b, c)
  {
    var s := a + [c] + b;
    if |a| == 0 {
      assert s == [c] + b;
      assert s[1..] == b;
    } else {
      assert s[0] == a[0];
      assert s[1..] == a[1..] + [c] + b;
      SplitOnFirst(a[1..], c, b);
      assert [a[0]] + a[1..] == a;
    }
  }
}
