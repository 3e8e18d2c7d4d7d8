/**
  Strings of decimal digits, and the few string operations the settings code is built from.
 */
module Text {

  // ------------------------------------------------------------------ decimals

  predicate IsDigit(c: char) {
    '0' <= c <= '9'
  }

  predicate AllDigits(s: string) {
    forall i :: 0 <= i < |s| ==> IsDigit(s[i])
  }

  function DigitChar(d: nat): (c: char)
    requires d < 10
    ensures IsDigit(c) && DigitValue(c) == d
  {
    "0123456789"[d]
  }

  function DigitValue(c: char): (d: nat)
    requires IsDigit(c)
    ensures d < 10
  {
    (c as int - '0' as int)
  }

  /** The decimal representation without leading zeros. */
  function Decimal(n: nat): (s: string)
    ensures s != [] && AllDigits(s)
  {
    if n < 10 then [DigitChar(n)] else Decimal(n / 10) + [DigitChar(n % 10)]
  }

  /** The number that a string of digits stands for. */
  function DecimalValue(s: string): nat
    requires AllDigits(s)
  {
    if s == [] then 0 else 10 * DecimalValue(s[..|s| - 1]) + DigitValue(s[|s| - 1])
  }

  lemma {:induction false} ValueOfDecimal(n: nat)
    ensures DecimalValue(Decimal(n)) == n
  {
    if n < 10 {
      assert [DigitChar(n)][..0] == [];
    } else {
      ValueOfDecimal(n / 10);
      var s := Decimal(n);
      assert s[..|s| - 1] == Decimal(n / 10);
    }
  }

  /** Signed printing, as a format string prints an integer. */
  function Signed(i: int): (s: string)
    ensures s != []
  {
    if i < 0 then "-" + Decimal(-i) else Decimal(i)
  }

  // ------------------------------------------------------------------ lower case

  function LowerChar(c: char): char {
    if 'A' <= c <= 'Z' then (c as int + 32) as char else c
  }

  function Lower(s: string): (r: string)
    ensures |r| == |s| && forall i :: 0 <= i < |s| ==> r[i] == LowerChar(s[i])
  {
    seq(|s|, i requires 0 <= i < |s| => LowerChar(s[i]))
  }

  /** The 26 capitals turn into the letters 32 places further on, and nothing else changes. */
  lemma LowerLetters(c: char)
    ensures 65 <= c as int <= 90 ==> LowerChar(c) as int == c as int + 32 && 97 <= LowerChar(c) as int <= 122
    ensures !(65 <= c as int <= 90) ==> LowerChar(c) == c
  {
  }

  // ------------------------------------------------------------------ searching

  /** The position of the last occurrence of `c`, or -1. */
  function LastIndexOf(s: string, c: char): (i: int)
    ensures -1 <= i < |s|
    ensures i >= 0 ==> s[i] == c
    ensures forall j :: i < j < |s| ==> s[j] != c
  {
    if s == [] then -1
    else if s[|s| - 1] == c then |s| - 1
    else LastIndexOf(s[..|s| - 1], c)
  }

  /** The position of the first occurrence of `c` from `start` on, or -1. */
  function IndexOf(s: string, c: char, start: nat): (i: int)
    requires start <= |s|
    ensures i == -1 || start <= i < |s|
    ensures i >= 0 ==> s[i] == c && forall j :: start <= j < i ==> s[j] != c
    ensures i == -1 ==> forall j :: start <= j < |s| ==> s[j] != c
    decreases |s| - start
  {
    if start == |s| then -1
    else if s[start] == c then start
    else IndexOf(s, c, start + 1)
  }

  /** What stands before the first space. */
  function FirstWord(names: string): string {
    var space := IndexOf(names, ' ', 0);
    if space == -1 then names else names[..space]
  }

  lemma FirstWordIs(word: string, rest: string)
    requires ' ' !in word
    ensures FirstWord(word) == word && FirstWord((word + " ") + rest) == word
  {
    var names := (word + " ") + rest;
    assert names[|word|] == ' ' && forall i :: 0 <= i < |word| ==> names[i] == word[i];
    assert names[..|word|] == word;
  }

  lemma {:induction false} LastIndexOfSeparator(a: string, c: char, b: string)
    requires c !in b
    ensures LastIndexOf(a + [c] + b, c) == |a|
  {
    var s := a + [c] + b;
    if b == [] {
      assert s == a + [c];
    } else {
      var n := |b| - 1;
      assert s[|s| - 1] == b[n];
      assert s[..|s| - 1] == a + [c] + b[..n];
      LastIndexOfSeparator(a, c, b[..n]);
    }
  }

  // ------------------------------------------------------------------ whitespace

  /** Space, tab, line feed, vertical tab, form feed, carriage return and the four separators. */
  predicate IsSpace(c: char) {
    c == ' ' || '\t' <= c <= '\r' || (28 as char) <= c <= (31 as char)
  }

  function StripLeft(s: string): string
  {
    if s != [] && IsSpace(s[0]) then StripLeft(s[1..]) else s
  }

  function StripRight(s: string): string
  {
    if s != [] && IsSpace(s[|s| - 1]) then StripRight(s[..|s| - 1]) else s
  }

  function Strip(s: string): string {
    StripRight(StripLeft(s))
  }

  lemma StripNothing(s: string)
    requires s != [] ==> !IsSpace(s[0]) && !IsSpace(s[|s| - 1])
    ensures Strip(s) == s
  {
  }

  // ------------------------------------------------------------------ words

  /** The length of the word a string starts with. */
  function WordEnd(s: string): (n: nat)
    ensures n <= |s|
    ensures forall i :: 0 <= i < n ==> !IsSpace(s[i])
    ensures n < |s| ==> IsSpace(s[n])
  {
    if s == [] || IsSpace(s[0]) then 0 else 1 + WordEnd(s[1..])
  }

  /** The words of a string, as splitting at runs of whitespace gives them. */
  function Words(s: string): seq<string>
    decreases |s|
  {
    if s == [] then []
    else if IsSpace(s[0]) then Words(s[1..])
    else [s[..WordEnd(s)]] + Words(s[WordEnd(s)..])
  }

  /** A word: not empty and without whitespace. */
  ghost predicate IsWord(w: string) {
    w != [] && forall i :: 0 <= i < |w| ==> !IsSpace(w[i])
  }

  lemma {:induction false} WordEndOfWord(w: string, rest: string)
    requires forall i :: 0 <= i < |w| ==> !IsSpace(w[i])
    requires rest == [] || IsSpace(rest[0])
    ensures WordEnd(w + rest) == |w|
  {
    if w != [] {
      WordEndOfWord(w[1..], rest);
      assert (w + rest)[1..] == w[1..] + rest;
    } else {
      assert w + rest == rest;
    }
  }

  lemma WordsOfWord(w: string, rest: string)
    requires IsWord(w) && (rest == [] || IsSpace(rest[0]))
    ensures Words(w + rest) == [w] + Words(rest)
  {
    WordEndOfWord(w, rest);
    assert (w + rest)[..|w|] == w && (w + rest)[|w|..] == rest;
  }

  /** Every word with a space in front of it. */
  function Joined(ws: seq<string>): string {
    if ws == [] then "" else Joined(ws[..|ws| - 1]) + " " + ws[|ws| - 1]
  }

  lemma SpaceIsSpace()
    ensures IsSpace(' ')
  {
  }

  lemma WordsSkipSpace(s: string)
    ensures Words(" " + s) == Words(s)
  {
    assert (" " + s)[1..] == s;
  }

  lemma JoinAssociates(a: string, b: string, c: string, d: string)
    ensures a + b + c + d == a + (b + (c + d))
  {
  }

  lemma JoinedLast(ws: seq<string>, rest: string)
    requires ws != []
    ensures Joined(ws) + rest == Joined(ws[..|ws| - 1]) + (" " + (ws[|ws| - 1] + rest))
  {
    JoinAssociates(Joined(ws[..|ws| - 1]), " ", ws[|ws| - 1], rest);
  }

  lemma {:induction false} WordsOfStart(ws: seq<string>, rest: string)
    requires forall i :: 0 <= i < |ws| ==> IsWord(ws[i])
    requires rest == [] || IsSpace(rest[0])
    ensures Words(Joined(ws) + rest) == ws + Words(rest)
  {
    hide Words, IsWord, IsSpace;
    if ws == [] {
      assert Joined(ws) + rest == rest;
      assert ws + Words(rest) == Words(rest);
    } else {
      var last := |ws| - 1;
      var more := " " + (ws[last] + rest);
      JoinedLast(ws, rest);
      SpaceIsSpace();
      WordsOfStart(ws[..last], more);
      WordsSkipSpace(ws[last] + rest);
      WordsOfWord(ws[last], rest);
      assert ws + Words(rest) == ws[..last] + ([ws[last]] + Words(rest));
    }
  }

  /** A list of words is recovered from the string that joins them, stripped of its first space. */
  lemma WordsOfJoined(ws: seq<string>)
    requires forall i :: 0 <= i < |ws| ==> IsWord(ws[i])
    ensures Words(Strip(Joined(ws))) == ws
  {
    var s := Joined(ws);
    WordsOfStart(ws, "");
    assert s + "" == s;
    if ws != [] {
      JoinedStartsWithSpace(ws);
      var w := ws[|ws| - 1];
      assert s[|s| - 1] == w[|w| - 1] by { assert s == Joined(ws[..|ws| - 1]) + " " + w; }
      assert StripLeft(s) == s[1..] by { assert !IsSpace(s[1..][0]); }
      assert s[1..][|s| - 2] == s[|s| - 1];
    }
  }

  lemma {:induction false} JoinedStartsWithSpace(ws: seq<string>)
    requires ws != [] && forall i :: 0 <= i < |ws| ==> IsWord(ws[i])
    ensures |Joined(ws)| > 1 && Joined(ws)[0] == ' ' && !IsSpace(Joined(ws)[1])
  {
    var last := |ws| - 1;
    if last > 0 {
      JoinedStartsWithSpace(ws[..last]);
    } else {
      assert Joined(ws[..last]) == "";
    }
  }
}
