/** Reading a shopping message: the text is split into lines at commas and newlines, each
    line is read as an optional `remove` keyword, an item identifier, a quantity marker
    (`x`, `X` or `*`) and a quantity, and each instruction whose identifier names a menu
    item is applied to the cart in order. */
module Shopping {
  import opened Wrappers
  import opened Text
  import opened Catalog
  import opened CartLedger

  /** One parsed line: whether it removes, the identifier as typed, and the quantity. */
  datatype Instruction = Instruction(isRemoval: bool, ident: string, qty: nat)

  predicate IsMark(c: char) {
    c == 'x' || c == 'X' || c == '*'
  }

  /** The first position at or after i that is not white space (`\s*`, greedy). */
  function SkipSpace(s: string, i: nat): (k: nat)
    requires i <= |s|
    ensures i <= k <= |s|
    ensures forall j :: i <= j < k ==> IsSpace(s[j])
    ensures k == |s| || !IsSpace(s[k])
    decreases |s| - i
  {
    if i < |s| && IsSpace(s[i]) then SkipSpace(s, i + 1) else i
  }

  /** The end of the run of digits starting at i (`\d+`, greedy). */
  function SkipDigits(s: string, i: nat): (k: nat)
    requires i <= |s|
    ensures i <= k <= |s|
    ensures forall j :: i <= j < k ==> IsDigit(s[j])
    ensures k == |s| || !IsDigit(s[k])
    decreases |s| - i
  {
    if i < |s| && IsDigit(s[i]) then SkipDigits(s, i + 1) else i
  }

  /** Digits appended to any text are read as one run to the end. */
  lemma DigitsAfter(p: string, d: string)
    requires IsDigits(d)
    ensures SkipDigits(p + d, |p|) == |p + d| && (p + d)[|p|..] == d
  {
    var s := p + d;
    assert forall j :: |p| <= j < |s| ==> s[j] == d[j - |p|];
    DigitsRun(s, |p|);
  }

  /** A suffix made only of digits is read to its end. */
  lemma {:induction false} DigitsRun(s: string, i: nat)
    requires i <= |s| && forall j :: i <= j < |s| ==> IsDigit(s[j])
    ensures SkipDigits(s, i) == |s|
    decreases |s| - i
  {
    if i < |s| {
      DigitsRun(s, i + 1);
    }
  }

  /** The pattern `(.+?)\s*[xX*]\s*(\d+)` matches with a first group of the L leading
      characters of the line: after them come optional white space, a quantity marker,
      optional white space and at least one digit. */
  predicate MatchAt(s: string, L: nat) {
    && 1 <= L <= |s|
    && var k := SkipSpace(s, L);
    && k < |s| && IsMark(s[k])
    && var m := SkipSpace(s, k + 1);
    && m < |s| && IsDigit(s[m])
  }

  /** The second group of the match at L: the whole run of digits after the marker. */
  function QtyText(s: string, L: nat): (d: string)
    requires MatchAt(s, L)
    ensures IsDigits(d)
    ensures var m := SkipSpace(s, SkipSpace(s, L) + 1);
      && m + |d| <= |s| && d == s[m..m + |d|]
      && (m + |d| == |s| || !IsDigit(s[m + |d|]))
  {
    var m := SkipSpace(s, SkipSpace(s, L) + 1);
    s[m..SkipDigits(s, m)]
  }

  /** The lazy first group tries the lengths from, from + 1, ... in turn and stops at the
      first one after which the rest of the pattern matches. */
  function FirstMatch(s: string, from: nat): (r: Option<nat>)
    requires 1 <= from
    ensures r.Some? ==> from <= r.value && MatchAt(s, r.value)
    ensures r.Some? ==> forall L :: from <= L < r.value ==> !MatchAt(s, L)
    ensures r.None? ==> forall L :: from <= L ==> !MatchAt(s, L)
    decreases |s| + 1 - from
  {
    if from > |s| then None
    else if MatchAt(s, from) then Some(from)
    else FirstMatch(s, from + 1)
  }

  /** The stripped line, and whether it began with the `remove` keyword (in any case); when
      it did, the six letters are cut off and the rest is stripped again. */
  function Clean(line: string): (r: (bool, string))
    ensures r.0 <==> StartsWith(Lower(Strip(line)), "remove")
    ensures r.1 == [] || (!IsSpace(r.1[0]) && !IsSpace(r.1[|r.1| - 1]))
    ensures r.0 ==> |r.1| + 6 <= |Strip(line)|
    ensures !r.0 ==> r.1 == Strip(line)
  {
    var clean := Strip(line);
    if StartsWith(Lower(clean), "remove") then
      assert |Lower(clean)| == |clean|;
      var rest := Strip(clean[6..]);
      assert |rest| <= |clean| - 6;
      (true, rest)
    else (false, clean)
  }

  /** The match of a cleaned line, as the stripped first group and the quantity. */
  function ParseBody(clean: string): (r: Option<(string, nat)>)
    ensures r.Some? ==> |r.value.0| < |clean|
    ensures r.Some? ==> r.value.0 == [] || (!IsSpace(r.value.0[0]) && !IsSpace(r.value.0[|r.value.0| - 1]))
  {
    match FirstMatch(clean, 1)
    case None => None
    case Some(L) => Some((Strip(clean[..L]), DigitsValue(QtyText(clean, L))))
  }

  /** The lazy group makes the match unique: a cleaned line is read exactly when the pattern
      matches after some leading part of it, and then the identifier is the shortest such
      part, stripped, and the quantity is the digit run after the marker. */
  lemma ParseBodyMeaning(clean: string)
    ensures ParseBody(clean).Some? <==> exists L: nat :: MatchAt(clean, L)
    ensures ParseBody(clean).Some? ==>
      exists L: nat :: (MatchAt(clean, L)
        && (forall L': nat :: 1 <= L' < L ==> !MatchAt(clean, L'))
        && ParseBody(clean).value == (Strip(clean[..L]), DigitsValue(QtyText(clean, L))))
  {
  }

  /** One line of a shopping message read as an instruction. The search is anchored at the
      start of the cleaned line: a line holds no newline, so `.` matches every character
      and a match found further along extends to one that starts at the first character.
      A line that does not match is no instruction. */
  function ParseLine(line: string): (r: Option<Instruction>)
    ensures r.Some? ==> (r.value.isRemoval <==> StartsWith(Lower(Strip(line)), "remove"))
    ensures r.Some? ==> |r.value.ident| < |Strip(line)|
  {
    var (isRemoval, clean) := Clean(line);
    match ParseBody(clean)
    case None => None
    case Some(p) => Some(Instruction(isRemoval, p.0, p.1))
  }

  /** The canonical way to write an instruction, as the bot's help text shows it. */
  function Render(isRemoval: bool, ident: string, qty: nat): string {
    (if isRemoval then "remove " else "") + ident + " x " + NatToString(qty)
  }

  /** An identifier that reads back as itself: non-empty, with no white space at either end,
      no line separator, and no quantity marker followed by digits inside it (a name such
      as "Mixed Fruit Bowl" contains an `x`, which is harmless). */
  ghost predicate PlainIdent(ident: string) {
    && |ident| > 0 && !IsSpace(ident[0]) && !IsSpace(ident[|ident| - 1])
    && (forall i :: 0 <= i < |ident| ==> !IsSplitSep(ident[i]))
    && (forall L :: 1 <= L < |ident| ==> !MatchAt(ident, L))
  }

  /** The space skip inside a prefix that does not end in white space is unaffected by what
      follows the prefix. */
  lemma {:induction false} SkipSpaceExtend(a: string, b: string, i: nat)
    requires i <= |a| && SkipSpace(a, i) < |a|
    ensures SkipSpace(a + b, i) == SkipSpace(a, i)
    decreases |a| - i
  {
    assert (a + b)[i] == a[i];
    if IsSpace(a[i]) {
      SkipSpaceExtend(a, b, i + 1);
    }
  }

  /** The leading part of a rendered instruction cannot complete the pattern early. */
  lemma NoEarlyMatch(ident: string, tail: string, L: nat)
    requires PlainIdent(ident) && 1 <= L < |ident|
    requires |tail| >= 2 && tail[0] == ' ' && tail[1] == 'x'
    ensures !MatchAt(ident + tail, L)
  {
    var s := ident + tail;
    SkipSpaceExtend(ident, tail, L);
    var k := SkipSpace(ident, L);
    assert s[k] == ident[k];
    if IsMark(ident[k]) {
      if k + 1 < |ident| {
        SkipSpaceExtend(ident, tail, k + 1);
        var m := SkipSpace(ident, k + 1);
        assert s[m] == ident[m];
        assert !MatchAt(ident, L);
      } else {
        assert s[k + 1] == ' ' && s[k + 2] == 'x';
        assert SkipSpace(s, k + 2) == k + 2;
        assert SkipSpace(s, k + 1) == k + 2;
      }
    }
  }

  /** No length shorter than the identifier completes the pattern. */
  lemma NoEarlyMatches(ident: string, d: string)
    requires PlainIdent(ident)
    ensures forall L :: 1 <= L < |ident| ==> !MatchAt(ident + " x " + d, L)
  {
    var t := " x " + d;
    assert ident + " x " + d == ident + t;
    forall L | 1 <= L < |ident| ensures !MatchAt(ident + t, L) {
      NoEarlyMatch(ident, t, L);
    }
  }

  /** The quantity text read back from a rendered instruction. */
  lemma RenderedBody(ident: string, n: nat)
    requires PlainIdent(ident)
    ensures ParseBody(ident + " x " + NatToString(n)) == Some((ident, n))
  {
    var d := NatToString(n);
    var s := ident + " x " + d;
    var L := |ident|;
    RenderedMatch(ident, d);
    NatToStringRoundTrip(n);
    assert s[..L] == ident;
    StripNoop(ident);
  }

  /** In `ident x digits` the pattern first matches after the whole identifier, and its
      second group is the digits. */
  lemma RenderedMatch(ident: string, d: string)
    requires PlainIdent(ident) && IsDigits(d)
    ensures FirstMatch(ident + " x " + d, 1) == Some(|ident|)
    ensures QtyText(ident + " x " + d, |ident|) == d
  {
    var s := ident + " x " + d;
    RenderedMatchAt(ident, d);
    NoEarlyMatches(ident, d);
    FirstMatchAt(s, 1, |ident|);
    RenderedDigits(ident, d);
  }

  /** The search from `from` stops at the first length that matches. */
  lemma FirstMatchAt(s: string, from: nat, L: nat)
    requires 1 <= from <= L && MatchAt(s, L)
    requires forall L' :: from <= L' < L ==> !MatchAt(s, L')
    ensures FirstMatch(s, from) == Some(L)
  {
  }

  /** The pattern matches after the identifier, with the digits starting three further on. */
  lemma RenderedMatchAt(ident: string, d: string)
    requires |ident| > 0 && IsDigits(d)
    ensures MatchAt(ident + " x " + d, |ident|)
    ensures SkipSpace(ident + " x " + d, SkipSpace(ident + " x " + d, |ident|) + 1) == |ident| + 3
  {
    var s := ident + " x " + d;
    var L := |ident|;
    assert s[L] == ' ' && s[L + 1] == 'x' && s[L + 2] == ' ' && s[L + 3] == d[0];
    assert SkipSpace(s, L + 1) == L + 1;
    assert SkipSpace(s, L) == L + 1;
    assert SkipSpace(s, L + 3) == L + 3;
    assert SkipSpace(s, L + 2) == L + 3;
  }

  /** The digit run after the marker is the whole of `d`. */
  lemma RenderedDigits(ident: string, d: string)
    requires |ident| > 0 && IsDigits(d)
    ensures MatchAt(ident + " x " + d, |ident|)
    ensures QtyText(ident + " x " + d, |ident|) == d
  {
    var s := ident + " x " + d;
    var L := |ident|;
    RenderedMatchAt(ident, d);
    DigitsAfter(ident + " x ", d);
    assert |ident + " x "| == L + 3;
    assert s[L + 3..SkipDigits(s, L + 3)] == d;
  }


  /** A line that starts with the keyword, written in any case, loses it and the white space
      after it. */
  lemma CleanRemoval(kw: string, body: string)
    requires Lower(kw) == "remove"
    requires |body| > 0 && !IsSpace(body[0]) && !IsSpace(body[|body| - 1])
    ensures Clean(kw + " " + body) == (true, body)
  {
    var line := kw + " " + body;
    assert line[0] == kw[0] && line[|line| - 1] == body[|body| - 1];
    assert !IsSpace(kw[0]) by { assert LowerChar(kw[0]) == 'r'; }
    StripNoop(line);
    assert Lower(line)[..6] == Lower(kw);
    assert line[6..] == " " + body;
    StripLeadingSpace(" ", body);
    StripNoop(body);
  }

  /** Two readings put together: the cleaned line and the match in it. */
  lemma ParseLineOf(line: string, isRemoval: bool, body: string, ident: string, n: nat)
    requires Clean(line) == (isRemoval, body)
    requires ParseBody(body) == Some((ident, n))
    ensures ParseLine(line) == Some(Instruction(isRemoval, ident, n))
  {
  }

  /** A line that does not start with the keyword is only stripped. */
  lemma CleanPlain(ident: string, body: string)
    requires |ident| > 0 && !IsSpace(ident[0]) && !StartsWith(Lower(ident), "remove")
    requires |body| > |ident| && body[..|ident|] == ident && body[|ident|] == ' '
    requires !IsSpace(body[|body| - 1])
    ensures Clean(body) == (false, body)
  {
    assert body[0] == ident[0];
    StripNoop(body);
    assert !StartsWith(Lower(body), "remove") by {
      if |ident| >= 6 {
        assert Lower(ident)[..6] == Lower(body)[..6];
      } else {
        assert Lower(body)[|ident|] == ' ';
      }
    }
    var r := Clean(body);
    assert !r.0;
    assert r.1 == body;
  }

  /** A removal reads back the same whatever the case of its keyword. */
  lemma ParseRemoval(line: string, kw: string, ident: string, n: nat)
    requires Lower(kw) == "remove" && PlainIdent(ident)
    requires line == kw + " " + (ident + " x " + NatToString(n))
    ensures ParseLine(line) == Some(Instruction(true, ident, n))
  {
    RenderedBody(ident, n);
    RemovalLineClean(kw, ident, n);
    ParseLineOf(line, true, ident + " x " + NatToString(n), ident, n);
  }

  /** The keyword and the space are cleaned off a rendered removal. */
  lemma RemovalLineClean(kw: string, ident: string, n: nat)
    requires Lower(kw) == "remove" && PlainIdent(ident)
    ensures Clean(kw + " " + (ident + " x " + NatToString(n))) == (true, ident + " x " + NatToString(n))
  {
    var d := NatToString(n);
    var body := ident + " x " + d;
    assert body[0] == ident[0] && body[|body| - 1] == d[|d| - 1];
    CleanRemoval(kw, body);
  }

  /** An addition reads back as itself. */
  lemma ParseAddition(line: string, ident: string, n: nat)
    requires PlainIdent(ident) && !StartsWith(Lower(ident), "remove")
    requires line == ident + " x " + NatToString(n)
    ensures ParseLine(line) == Some(Instruction(false, ident, n))
  {
    var d := NatToString(n);
    var body := ident + " x " + d;
    assert body[|body| - 1] == d[|d| - 1];
    assert body[..|ident|] == ident;
    RenderedBody(ident, n);
    CleanPlain(ident, body);
    ParseLineOf(line, false, body, ident, n);
  }

  /** Reading back a rendered instruction gives the instruction: the `remove` keyword, the
      identifier and the quantity all survive. An added item's name must not itself start
      with "remove", or it would read as a removal. */
  lemma ParseRender(isRemoval: bool, ident: string, n: nat)
    requires PlainIdent(ident)
    requires !isRemoval ==> !StartsWith(Lower(ident), "remove")
    ensures ParseLine(Render(isRemoval, ident, n)) == Some(Instruction(isRemoval, ident, n))
  {
    var line := Render(isRemoval, ident, n);
    if isRemoval {
      assert Lower("remove") == "remove";
      assert line == "remove" + " " + (ident + " x " + NatToString(n));
      ParseRemoval(line, "remove", ident, n);
    } else {
      ParseAddition(line, ident, n);
    }
  }

  /** `2x4`: item 2, quantity 4. */
  lemma ParseCompactExample()
    ensures ParseLine("2x4") == Some(Instruction(false, "2", 4))
  {
    CompactClean("2x4");
    CompactBody("2x4");
    ParseLineOf("2x4", false, "2x4", "2", 4);
  }

  lemma CompactClean(s: string)
    requires s == "2x4"
    ensures Clean(s) == (false, s)
  {
    assert !IsSpace(s[0]) && !IsSpace(s[|s| - 1]);
    StripNoop(s);
    assert |Lower(s)| < 6;
  }

  lemma CompactBody(s: string)
    requires s == "2x4"
    ensures ParseBody(s) == Some(("2", 4))
  {
    assert SkipSpace(s, 1) == 1 && SkipSpace(s, 2) == 2 && SkipDigits(s, 2) == 3;
    assert FirstMatch(s, 1) == Some(1);
    assert QtyText(s, 1) == "4";
    assert DigitsValue("4") == 4;
    assert s[..1] == "2";
    StripNoop("2");
  }

  /** `REMOVE 1 x 2`: the keyword is recognised in upper case too. */
  lemma ParseRemoveExample()
    ensures ParseLine("REMOVE 1 x 2") == Some(Instruction(true, "1", 2))
  {
    assert Lower("REMOVE") == "remove";
    assert PlainIdent("1");
    assert NatToString(2) == "2";
    assert "REMOVE 1 x 2" == "REMOVE" + " " + ("1" + " x " + NatToString(2));
    ParseRemoval("REMOVE 1 x 2", "REMOVE", "1", 2);
  }

  /** A line without a quantity marker and digits after it is not an instruction. */
  lemma ParseNoQuantityExample(s: string)
    requires s == "Protein Bowl"
    ensures ParseLine(s) == None
  {
    assert !IsSpace(s[0]) && !IsSpace(s[|s| - 1]);
    StripNoop(s);
    assert !StartsWith(Lower(s), "remove") by { assert Lower(s)[0] == 'p'; }
    assert Clean(s) == (false, s);
    assert forall j :: 0 <= j < |s| ==> !IsMark(s[j]);
    assert FirstMatch(s, 1) == None;
  }

  /** One line's effect: an unreadable line changes nothing and says nothing, an identifier
      that names no item is reported as not found, and a resolved item is applied. */
  function Step(menu: Menu, c: Cart, line: string): (r: (Cart, seq<Notice>))
    ensures |r.1| <= 1
    ensures r.1 == [] ==> r.0 == c
    ensures ParseLine(line).None? ==> r == (c, [])
    ensures ParseLine(line).Some? && Resolve(menu, ParseLine(line).value.ident).None? ==>
      r == (c, [NotFound(ParseLine(line).value.ident)])
  {
    match ParseLine(line)
    case None => (c, [])
    case Some(ins) =>
      match Resolve(menu, ins.ident)
      case None => (c, [NotFound(ins.ident)])
      case Some(name) => Apply(c, ins.isRemoval, name, ins.qty)
  }

  /** The lines applied in order, with all their notices. */
  function ApplyLines(menu: Menu, c: Cart, lines: seq<string>): (r: (Cart, seq<Notice>))
    ensures |r.1| <= |lines|
    ensures r.1 == [] ==> r.0 == c
  {
    if |lines| == 0 then (c, [])
    else
      var before := ApplyLines(menu, c, lines[..|lines| - 1]);
      var after := Step(menu, before.0, lines[|lines| - 1]);
      (after.0, before.1 + after.1)
  }

  /** A step keeps the cart well formed. */
  lemma StepKeepsValid(menu: Menu, c: Cart, line: string)
    requires Valid(c)
    ensures Valid(Step(menu, c, line).0)
  {
    match ParseLine(line)
    case None =>
    case Some(ins) =>
      match Resolve(menu, ins.ident)
      case None =>
      case Some(name) => ApplyKeepsValid(c, ins.isRemoval, name, ins.qty);
  }

  /** A step only ever adds items of the menu. */
  lemma StepFromMenu(menu: Menu, c: Cart, line: string)
    requires FromMenu(c, menu)
    ensures FromMenu(Step(menu, c, line).0, menu)
  {
    match ParseLine(line)
    case None =>
    case Some(ins) =>
      match Resolve(menu, ins.ident)
      case None =>
      case Some(name) => ApplyFromMenu(c, menu, ins.isRemoval, name, ins.qty);
  }

  /** However many lines a message holds, the cart never has a name twice and never holds a
      quantity of zero or less. */
  lemma {:induction false} ApplyLinesKeepsValid(menu: Menu, c: Cart, lines: seq<string>)
    requires Valid(c)
    ensures Valid(ApplyLines(menu, c, lines).0)
  {
    if |lines| > 0 {
      ApplyLinesKeepsValid(menu, c, lines[..|lines| - 1]);
      StepKeepsValid(menu, ApplyLines(menu, c, lines[..|lines| - 1]).0, lines[|lines| - 1]);
    }
  }

  /** However many lines a message holds, the cart only holds items of the menu. */
  lemma {:induction false} ApplyLinesFromMenu(menu: Menu, c: Cart, lines: seq<string>)
    requires FromMenu(c, menu)
    ensures FromMenu(ApplyLines(menu, c, lines).0, menu)
  {
    if |lines| > 0 {
      ApplyLinesFromMenu(menu, c, lines[..|lines| - 1]);
      StepFromMenu(menu, ApplyLines(menu, c, lines[..|lines| - 1]).0, lines[|lines| - 1]);
    }
  }

  /** A message none of whose lines reads as an instruction leaves the cart as it was and
      produces no notice, which is when the bot answers that the format was not
      recognised. */
  lemma {:induction false} UnreadableLines(menu: Menu, c: Cart, lines: seq<string>)
    requires forall i :: 0 <= i < |lines| ==> ParseLine(lines[i]).None?
    ensures ApplyLines(menu, c, lines) == (c, [])
  {
    if |lines| > 0 {
      var init := lines[..|lines| - 1];
      assert forall i :: 0 <= i < |init| ==> init[i] == lines[i];
      UnreadableLines(menu, c, init);
      var before := ApplyLines(menu, c, init);
      var after := Step(menu, c, lines[|lines| - 1]);
      assert after == (c, []);
      assert before == (c, []);
      assert before.1 + after.1 == [];
      assert ApplyLines(menu, c, lines) == (after.0, before.1 + after.1);
    }
  }

  /** One more line is one more step. */
  lemma ApplyLinesSnoc(menu: Menu, cart: Cart, lines: seq<string>, i: nat)
    requires i < |lines|
    ensures var before := ApplyLines(menu, cart, lines[..i]);
      var step := Step(menu, before.0, lines[i]);
      ApplyLines(menu, cart, lines[..i + 1]) == (step.0, before.1 + step.1)
  {
    assert lines[..i + 1][..i] == lines[..i];
  }

  /** The `for line in order_lines` loop of the shopping handler: each line in turn updates
      the cart in place and appends its notices. */
  method ApplyMessage(menu: Menu, cart: Cart, lines: seq<string>) returns (c: Cart, notices: seq<Notice>)
    ensures (c, notices) == ApplyLines(menu, cart, lines)
  {
    c, notices := cart, [];
    var i := 0;
    while i < |lines|
      invariant 0 <= i <= |lines|
      invariant (c, notices) == ApplyLines(menu, cart, lines[..i])
    {
      ApplyLinesSnoc(menu, cart, lines, i);
      var step := Step(menu, c, lines[i]);
      c, notices := step.0, notices + step.1;
      i := i + 1;
    }
    assert lines[..i] == lines;
  }
}
