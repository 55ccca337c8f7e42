/** What the text of a chunk says, line by line and character by character. */
module ChunkText {
  import opened Chunker

  /** The lines of a text: cut at every newline. */
  function Cut(text: string): (lines: seq<string>)
    ensures lines != []
  {
    if text == "" then [""]
    else
      var rest := Cut(text[1..]);
      if text[0] == '\n' then [""] + rest else [[text[0]] + rest[0]] + rest[1..]
  }

  /** Lines as `splitlines` yields them. */
  ghost predicate Lines(lines: seq<string>) {
    forall line <- lines :: '\n' !in line
  }

  // ---------------------------------------------------------------------
  // Joining and cutting
  // ---------------------------------------------------------------------

  lemma {:induction false} CutLine(line: string)
    requires '\n' !in line
    ensures Cut(line) == [line]
  {
    if line != "" {
      CutLine(line[1..]);
      assert line == [line[0]] + line[1..];
    }
  }

  lemma CutFirst(c: char, text: string)
    ensures Cut([c] + text) == if c == '\n' then [""] + Cut(text) else [[c] + Cut(text)[0]] + Cut(text)[1..]
  {
    assert ([c] + text)[1..] == text;
  }

  lemma {:induction false} CutConcat(a: string, b: string)
    ensures Cut(a + "\n" + b) == Cut(a) + Cut(b)
  {
    if a == "" {
      assert a + "\n" + b == ['\n'] + b;
      CutFirst('\n', b);
      assert Cut(a) == [""];
    } else {
      var c, rest := a[0], a[1..];
      CutConcat(rest, b);
      assert a == [c] + rest && a + "\n" + b == [c] + (rest + "\n" + b);
      CutFirst(c, rest);
      CutFirst(c, rest + "\n" + b);
      hide Cut;
      FirstStays(Cut(rest), Cut(b), c);
    }
  }

  lemma FirstStays(a: seq<string>, b: seq<string>, c: char)
    requires a != []
    ensures [""] + (a + b) == [""] + a + b
    ensures [[c] + (a + b)[0]] + (a + b)[1..] == [[c] + a[0]] + a[1..] + b
  {
  }

  lemma {:induction false} JoinedConcat(a: seq<string>, b: seq<string>)
    requires a != [] && b != []
    ensures Joined(a + b) == Joined(a) + "\n" + Joined(b)
  {
    var init, last := b[..|b| - 1], b[|b| - 1];
    assert (a + b)[..|a + b| - 1] == a + init;
    if init == [] {
      assert a + init == a;
    } else {
      JoinedConcat(a, init);
      assert Joined(a) + "\n" + Joined(init) + "\n" + last == Joined(a) + "\n" + (Joined(init) + "\n" + last);
    }
  }

  /** Cutting the joined text gives the lines back. */
  lemma {:induction false} CutJoined(lines: seq<string>)
    requires lines != [] && Lines(lines)
    ensures Cut(Joined(lines)) == lines
  {
    var init, last := lines[..|lines| - 1], lines[|lines| - 1];
    CutLine(last);
    if init != [] {
      CutJoined(init);
      CutConcat(Joined(init), last);
      assert lines == init + [last];
    }
  }

  // ---------------------------------------------------------------------
  // Stripping
  // ---------------------------------------------------------------------

  /** A text that holds something other than space. */
  ghost predicate Solid(text: string, space: char -> bool) {
    exists c <- text :: !space(c)
  }

  lemma {:induction false} StripLeftConcat(a: string, b: string, space: char -> bool)
    requires Solid(a, space)
    ensures StripLeft(a + b, space) == StripLeft(a, space) + b
  {
    if space(a[0]) {
      assert a == [a[0]] + a[1..] && (a + b)[1..] == a[1..] + b;
      StripLeftConcat(a[1..], b, space);
    }
  }

  lemma {:induction false} StripRightConcat(a: string, b: string, space: char -> bool)
    requires Solid(b, space)
    ensures StripRight(a + b, space) == a + StripRight(b, space)
  {
    var last := b[|b| - 1];
    assert (a + b)[|a + b| - 1] == last;
    if space(last) {
      assert b == b[..|b| - 1] + [last] && (a + b)[..|a + b| - 1] == a + b[..|b| - 1];
      StripRightConcat(a, b[..|b| - 1], space);
    }
  }

  /** Of a text whose two ends hold something, stripping touches only the ends. */
  lemma StripEnds(a: string, middle: string, b: string, space: char -> bool)
    requires Solid(a, space) && Solid(b, space)
    ensures Strip(a + middle + b, space) == StripLeft(a, space) + middle + StripRight(b, space)
  {
    hide Solid, StripLeft, StripRight;
    assert a + middle + b == a + (middle + b);
    StripLeftConcat(a, middle + b, space);
    assert StripLeft(a, space) + (middle + b) == StripLeft(a, space) + middle + b;
    StripRightConcat(StripLeft(a, space) + middle, b, space);
  }

  lemma JoinedHolds(lines: seq<string>, i: nat, space: char -> bool)
    requires i < |lines| && !Blank(lines[i], space)
    ensures Solid(Joined(lines), space)
  {
    BlankExactly(lines[i], space);
    var c :| c in lines[i] && !space(c);
    JoinedHasLine(lines, i, c);
  }

  lemma {:induction false} JoinedHasLine(lines: seq<string>, i: nat, c: char)
    requires i < |lines| && c in lines[i]
    ensures c in Joined(lines)
  {
    if |lines| > 1 && i < |lines| - 1 {
      JoinedHasLine(lines[..|lines| - 1], i, c);
    }
  }

  // ---------------------------------------------------------------------
  // The text of a chunk
  // ---------------------------------------------------------------------

  /** Lines joined between two texts come back when the whole is cut. */
  lemma CutBetween(head: string, inner: seq<string>, tail: string)
    requires inner != [] && Lines(inner)
    ensures Cut(head + ("\n" + Joined(inner) + "\n") + tail) == Cut(head) + inner + Cut(tail)
  {
    hide Joined, Cut;
    var text := Joined(inner);
    assert head + ("\n" + text + "\n") + tail == head + "\n" + (text + "\n" + tail);
    CutConcat(head, text + "\n" + tail);
    CutConcat(text, tail);
    CutJoined(inner);
    assert Cut(head) + (inner + Cut(tail)) == Cut(head) + inner + Cut(tail);
  }

  lemma StripBetween(a: string, inner: seq<string>, b: string, space: char -> bool)
    requires Solid(a, space) && Solid(b, space) && inner != [] && Lines(inner)
    ensures Cut(Strip(a + ("\n" + Joined(inner) + "\n") + b, space)) ==
            Cut(StripLeft(a, space)) + inner + Cut(StripRight(b, space))
  {
    hide *;
    StripEnds(a, "\n" + Joined(inner) + "\n", b, space);
    CutBetween(StripLeft(a, space), inner, StripRight(b, space));
  }

  /** A text has these lines, one after the other, among its own. */
  ghost predicate Shows(text: string, lines: seq<string>) {
    exists k: nat :: StandsAt(Cut(text), k, lines)
  }

  ghost predicate StandsAt(cut: seq<string>, k: nat, lines: seq<string>) {
    k + |lines| <= |cut| && cut[k..k + |lines|] == lines
  }

  lemma Standing(before: seq<string>, lines: seq<string>, after: seq<string>)
    ensures StandsAt(before + lines + after, |before|, lines)
  {
  }

  lemma JoinedThree(first: seq<string>, inner: seq<string>, last: seq<string>)
    requires first != [] && inner != [] && last != []
    ensures Joined(first + inner + last) == Joined(first) + ("\n" + Joined(inner) + "\n") + Joined(last)
  {
    hide Joined;
    assert first + inner + last == first + (inner + last);
    JoinedConcat(first, inner + last);
    JoinedConcat(inner, last);
    assert Joined(first) + ("\n" + Joined(inner) + "\n") + Joined(last) ==
           Joined(first) + "\n" + (Joined(inner) + "\n" + Joined(last));
  }

  /** What stands between two nonblank lines of a buffer stands in its text unchanged. */
  lemma InnerLines(before: seq<string>, open: string, inner: seq<string>, close: string, after: seq<string>,
                   space: char -> bool)
    requires Lines(inner) && !Blank(open, space) && !Blank(close, space)
    ensures Shows(Strip(Joined((before + [open]) + inner + ([close] + after)), space), inner)
  {
    var first, last := before + [open], [close] + after;
    assert first[|before|] == open && last[0] == close;
    JoinedHolds(first, |before|, space);
    JoinedHolds(last, 0, space);
    assert inner == [] ==> StandsAt(Cut(Strip(Joined(first + inner + last), space)), 0, inner);
    hide Strip, StripLeft, StripRight, Joined, Blank, Cut, Solid, Lines;
    if inner != [] {
      JoinedThree(first, inner, last);
      StripBetween(Joined(first), inner, Joined(last), space);
      Standing(Cut(StripLeft(Joined(first), space)), inner, Cut(StripRight(Joined(last), space)));
    }
  }

  lemma StripParts(text: string, space: char -> bool)
    ensures forall c <- StripLeft(text, space) :: c in text
    ensures forall c <- StripRight(text, space) :: c in text
  {
    if text != "" && space(text[0]) {
      StripParts(text[1..], space);
    }
    if text != "" && space(text[|text| - 1]) {
      StripParts(text[..|text| - 1], space);
    }
  }

  /** What is left of the first and the last line. */
  lemma EndLines(first: string, last: string, space: char -> bool)
    requires !Blank(first, space) && !Blank(last, space) && '\n' !in first && '\n' !in last
    ensures Solid(first, space) && Solid(last, space)
    ensures Cut(StripLeft(first, space)) == [StripLeft(first, space)]
    ensures Cut(StripRight(last, space)) == [StripRight(last, space)]
  {
    BlankExactly(first, space);
    BlankExactly(last, space);
    StripParts(first, space);
    StripParts(last, space);
    CutLine(StripLeft(first, space));
    CutLine(StripRight(last, space));
  }

  /** The text of a buffer that ends with a nonblank line: its lines, without the space around them all. */
  lemma TextIsItsLines(first: string, inner: seq<string>, last: string, space: char -> bool)
    requires Lines([first] + inner + [last]) && !Blank(first, space) && !Blank(last, space)
    ensures Cut(Strip(Joined([first] + inner + [last]), space)) ==
            [StripLeft(first, space)] + inner + [StripRight(last, space)]
  {
    LinesEnds(first, inner, last);
    EndLines(first, last, space);
    assert Joined([first]) == first && Joined([last]) == last;
    hide *;
    if inner == [] {
      assert [first] + inner + [last] == [first] + [last];
      JoinedConcat([first], [last]);
      StripEnds(first, "\n", last, space);
      CutConcat(StripLeft(first, space), StripRight(last, space));
    } else {
      JoinedThree([first], inner, [last]);
      StripBetween(first, inner, last, space);
    }
  }

  /** A buffer of one line becomes that line, stripped. */
  lemma TextOfOneLine(line: string, space: char -> bool)
    ensures Strip(Joined([line]), space) == Strip(line, space)
  {
  }

  /** The inside of a fenced block stands in the text of one chunk, line by line. */
  lemma FencedBlockIsInOneText(lines: seq<string>, i: nat, j: nat, locator: string, space: char -> bool)
    requires Lines(lines) && i < j < |lines| && Fence(lines[i], space) && Fence(lines[j], space)
    requires forall t | i < t <= j :: Run(lines[..t], space).inCode
    ensures exists g :: 0 <= g < |Emitted(Groups(lines, space), locator, space)|
                        && Shows(Emitted(Groups(lines, space), locator, space)[g].text, lines[i + 1..j])
  {
    FenceIsNotBlank(lines[i], space);
    FenceIsNotBlank(lines[j], space);
    hide Run, Groups, Emitted, Fence, Blank, Strip, Joined, Cut, Shows, Lines;
    var g, start := FencedBlockIsInOneChunk(lines, i, j, space);
    LinesPart(lines, i + 1, j);
    var before, after := BlockParts(Groups(lines, space)[g], start, lines, i, j);
    InnerLines(before, lines[i], lines[i + 1..j], lines[j], after, space);
    NoBufferIsDropped(lines, locator, space);
  }

  lemma BlockParts(group: seq<string>, start: nat, lines: seq<string>, i: nat, j: nat)
    returns (before: seq<string>, after: seq<string>)
    requires i < j < |lines| && start + (j + 1 - i) <= |group| && group[start..start + (j + 1 - i)] == lines[i..j + 1]
    ensures group == (before + [lines[i]]) + lines[i + 1..j] + ([lines[j]] + after)
  {
    before, after := group[..start], group[start + (j + 1 - i)..];
    ThreeParts(group, start, start + (j + 1 - i));
    assert lines[i..j + 1] == [lines[i]] + lines[i + 1..j] + [lines[j]];
    Regrouped(before, [lines[i]], lines[i + 1..j], [lines[j]], after);
  }

  lemma Regrouped<T>(a: seq<T>, b: seq<T>, c: seq<T>, d: seq<T>, e: seq<T>)
    ensures a + (b + c + d) + e == (a + b) + c + (d + e)
  {
  }

  lemma LinesPart(lines: seq<string>, lo: nat, hi: nat)
    requires lo <= hi <= |lines| && Lines(lines)
    ensures Lines(lines[lo..hi])
  {
  }

  lemma LinesEnds(first: string, inner: seq<string>, last: string)
    requires Lines([first] + inner + [last])
    ensures '\n' !in first && '\n' !in last && Lines(inner)
  {
    var lines := [first] + inner + [last];
    assert first in lines && last in lines;
    forall line <- inner ensures line in lines {
    }
  }

  lemma ThreeParts<T>(s: seq<T>, a: nat, b: nat)
    requires a <= b <= |s|
    ensures s == s[..a] + s[a..b] + s[b..]
  {
  }

  // ---------------------------------------------------------------------
  // Fences and chunk numbers
  // ---------------------------------------------------------------------

  lemma {:induction false} StripLeftExactly(text: string, space: char -> bool) returns (k: nat)
    ensures k <= |text| && StripLeft(text, space) == text[k..]
    ensures (forall i | 0 <= i < k :: space(text[i])) && (k < |text| ==> !space(text[k]))
  {
    k := 0;
    if text != "" && space(text[0]) {
      k := StripLeftExactly(text[1..], space);
      k := k + 1;
    }
  }

  lemma {:induction false} StripRightExactly(text: string, space: char -> bool) returns (k: nat)
    ensures k <= |text| && StripRight(text, space) == text[..k]
    ensures (forall i | k <= i < |text| :: space(text[i])) && (k > 0 ==> !space(text[k - 1]))
  {
    k := |text|;
    if text != "" && space(text[|text| - 1]) {
      k := StripRightExactly(text[..|text| - 1], space);
      assert text[..|text| - 1][..k] == text[..k];
    }
  }

  /** Stripping takes away space at both ends, all of it, and nothing else. */
  lemma StripExactly(text: string, space: char -> bool) returns (lo: nat, hi: nat)
    ensures lo <= hi <= |text| && Strip(text, space) == text[lo..hi]
    ensures forall i | 0 <= i < lo || hi <= i < |text| :: space(text[i])
    ensures lo < hi ==> !space(text[lo]) && !space(text[hi - 1])
  {
    lo := StripLeftExactly(text, space);
    var k := StripRightExactly(text[lo..], space);
    hi := lo + k;
    assert text[lo..][..k] == text[lo..hi];
    forall i | hi <= i < |text| ensures space(text[i]) {
      assert text[lo..][i - lo] == text[i];
    }
    if k > 0 {
      assert text[lo..][k - 1] == text[hi - 1];
    }
  }

  /** Nothing but space, then three backticks. */
  predicate BackticksAt(line: string, k: nat, space: char -> bool) {
    k + 3 <= |line| && line[k..k + 3] == "```" && forall i | 0 <= i < k :: space(line[i])
  }

  /** A line is a fence exactly when three backticks come first in it, apart from space. */
  lemma FenceExactly(line: string, space: char -> bool)
    requires !space('`')
    ensures Fence(line, space) <==>
            exists k: nat :: BackticksAt(line, k, space)
  {
    var k := StripLeftExactly(line, space);
    var rest := line[k..];
    StripRightPrefix(rest, space);
    if Fence(line, space) {
      assert line[k..k + 3] == rest[..3];
      assert BackticksAt(line, k, space);
    }
    if m: nat :| BackticksAt(line, m, space) {
      assert line[m] == line[m..m + 3][0] && line[m + 2] == line[m..m + 3][2];
      assert m == k;
      assert rest[..3] == "```" && rest[2] == '`';
      StripRightReaches(rest, 2, space);
    }
  }

  lemma {:induction false} StripRightPrefix(text: string, space: char -> bool)
    ensures StripRight(text, space) <= text
  {
    if text != "" && space(text[|text| - 1]) {
      StripRightPrefix(text[..|text| - 1], space);
    }
  }

  lemma {:induction false} StripRightReaches(text: string, i: nat, space: char -> bool)
    requires i < |text| && !space(text[i])
    ensures |StripRight(text, space)| > i && StripRight(text, space) <= text
  {
    if space(text[|text| - 1]) {
      StripRightReaches(text[..|text| - 1], i, space);
    }
  }

  /** The number that a text of decimal digits stands for. */
  function NumberOf(digits: string): int {
    if digits == "" then 0
    else NumberOf(digits[..|digits| - 1]) * 10 + (digits[|digits| - 1] as int - '0' as int)
  }

  /** A chunk's number is written in decimal digits, without leading zeros. */
  lemma {:induction false} DecimalExactly(n: nat)
    ensures NumberOf(Decimal(n)) == n && Decimal(n) != ""
    ensures forall c <- Decimal(n) :: '0' <= c <= '9'
    ensures n > 0 ==> Decimal(n)[0] != '0'
  {
    if n >= 10 {
      DecimalExactly(n / 10);
      assert Decimal(n)[..|Decimal(n)| - 1] == Decimal(n / 10);
    } else {
      assert Decimal(n)[..0] == "" && NumberOf("") == 0;
    }
  }
}
