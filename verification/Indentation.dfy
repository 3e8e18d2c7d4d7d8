/**
  The README indentation normalizer: the nested loops that walk over admonition blocks and tab
  sections, and the one-pass automaton with three states that they amount to.
 */
module Indentation {
  import opened Text

  const MARGIN: string := "    "

  /** Whether what is left after the leading white space opens a new section. */
  predicate IsTerminator(line: string) {
    var head := StripLeft(line);
    "=== " <= head || "## " <= head || "### " <= head || "!!! " <= head
  }

  predicate OpensAdmonition(line: string) {
    "!!! " <= StripLeft(line)
  }

  predicate OpensTab(line: string) {
    "=== " <= StripLeft(line)
  }

  predicate IsEmpty(line: string) {
    Strip(line) == ""
  }

  function Indent(line: string): string {
    if MARGIN <= line then line else MARGIN + StripLeft(line)
  }

  // -------------------------------------------------------------- the automaton

  datatype Mode = Outside | Admonition | Tab

  /** The mode after a line. */
  function After(mode: Mode, line: string): Mode {
    if IsTerminator(line) then
      if OpensAdmonition(line) then Admonition else if OpensTab(line) then Tab else Outside
    else if mode == Admonition && IsEmpty(line) then Outside
    else mode
  }

  /** What becomes of a line that is met in a given mode. */
  function Emit(mode: Mode, line: string): string {
    if mode == Outside || IsTerminator(line) || IsEmpty(line) then line else Indent(line)
  }

  /** The mode in which line `n` is met. */
  function ModeAt(lines: seq<string>, n: nat): Mode
    requires n <= |lines|
  {
    if n == 0 then Outside else After(ModeAt(lines, n - 1), lines[n - 1])
  }

  function Normalized(lines: seq<string>): (r: seq<string>)
    ensures |r| == |lines|
  {
    seq(|lines|, i requires 0 <= i < |lines| => Emit(ModeAt(lines, i), lines[i]))
  }

  lemma {:induction false} StripLeftStartsWithText(s: string)
    ensures StripLeft(s) != [] ==> !IsSpace(StripLeft(s)[0])
  {
    if s != [] && IsSpace(s[0]) { StripLeftStartsWithText(s[1..]); }
  }

  lemma {:induction false} StripRightKeepsText(s: string)
    requires s != [] && !IsSpace(s[0])
    ensures StripRight(s) != []
  {
    if IsSpace(s[|s| - 1]) { StripRightKeepsText(s[..|s| - 1]); }
  }

  lemma EmptyOpensNothing(line: string)
    requires IsEmpty(line)
    ensures !IsTerminator(line)
  {
    StripLeftStartsWithText(line);
    if StripLeft(line) != [] { StripRightKeepsText(StripLeft(line)); }
  }

  // ------------------------------------------------------------------ the loops

  method WithMargin(line: string) returns (r: string)
    ensures r == Indent(line)
  {
    r := line;
    if !(MARGIN <= line) {
      r := MARGIN + StripLeft(line);
    }
  }

  /** The first `i` lines have been written out. */
  ghost predicate WrittenUpTo(lines: seq<string>, out: seq<string>, i: int) {
    0 <= i <= |lines| && |out| == i && forall k {:trigger out[k]} :: 0 <= k < i ==> out[k] == Emit(ModeAt(lines, k),
        lines[k])
  }

  /** The loop over the content of an admonition: it ends after a blank line or before a section opener. */
  method CopyAdmonition(lines: seq<string>, start: nat, before: seq<string>) returns (i: nat, out: seq<string>)
    requires WrittenUpTo(lines, before, start) && ModeAt(lines, start) == Admonition
    ensures start <= i && WrittenUpTo(lines, out, i)
    ensures i < |lines| ==> ModeAt(lines, i) == Outside || IsTerminator(lines[i])
  {
    hide StripLeft, Strip, Indent;
    i, out := start, before;
    while i < |lines|
      invariant start <= i && WrittenUpTo(lines, out, i) && ModeAt(lines, i) == Admonition
    {
      var content := lines[i];
      if IsEmpty(content) {
        EmptyOpensNothing(content);
        out := out + [content];
        i := i + 1;
        break;
      }
      if IsTerminator(content) {
        break;
      }
      content := WithMargin(content);
      out := out + [content];
      i := i + 1;
    }
  }

  /** The loop over the content of a tab section: it ends before a section opener. */
  method CopyTab(lines: seq<string>, start: nat, before: seq<string>) returns (i: nat, out: seq<string>)
    requires WrittenUpTo(lines, before, start) && ModeAt(lines, start) == Tab
    ensures start <= i && WrittenUpTo(lines, out, i)
    ensures i < |lines| ==> IsTerminator(lines[i])
  {
    hide StripLeft, Strip, Indent;
    i, out := start, before;
    while i < |lines|
      invariant start <= i && WrittenUpTo(lines, out, i) && ModeAt(lines, i) == Tab
    {
      var content := lines[i];
      if IsTerminator(content) {
        break;
      }
      if IsEmpty(content) {
        out := out + [content];
        i := i + 1;
        continue;
      }
      content := WithMargin(content);
      out := out + [content];
      i := i + 1;
    }
  }

  method NormalizeIndentation(lines: seq<string>) returns (out: seq<string>)
    ensures out == Normalized(lines)
  {
    out := [];
    var i := 0;
    while i < |lines|
      invariant WrittenUpTo(lines, out, i)
      invariant i < |lines| ==> ModeAt(lines, i) == Outside || IsTerminator(lines[i])
    {
      var line := lines[i];
      out := out + [line];
      i := i + 1;
      if OpensAdmonition(line) {
        i, out := CopyAdmonition(lines, i, out);
      } else if OpensTab(line) {
        i, out := CopyTab(lines, i, out);
      }
    }
  }

  // ---------------------------------------------------------------- the results

  lemma {:induction false} StripLeftTwice(s: string)
    ensures StripLeft(StripLeft(s)) == StripLeft(s)
  {
    if s != [] && IsSpace(s[0]) { StripLeftTwice(s[1..]); }
  }

  lemma StripMargin(s: string)
    ensures StripLeft(MARGIN + s) == StripLeft(s)
  {
    assert (MARGIN + s)[1..] == "   " + s && ("   " + s)[1..] == "  " + s && ("  " + s)[1..] == " " + s && (" " + s)[1..] == s;
    assert StripLeft(" " + s) == StripLeft(s);
    assert StripLeft("  " + s) == StripLeft(" " + s);
    assert StripLeft("   " + s) == StripLeft("  " + s);
  }

  lemma IndentKeepsText(line: string)
    ensures StripLeft(Indent(line)) == StripLeft(line)
  {
    StripMargin(StripLeft(line));
    StripLeftTwice(line);
  }

  /** A line keeps its text, hence its role, whatever becomes of its indentation. */
  lemma EmitKeepsText(mode: Mode, line: string)
    ensures StripLeft(Emit(mode, line)) == StripLeft(line)
    ensures After(mode, Emit(mode, line)) == After(mode, line)
    ensures Emit(mode, Emit(mode, line)) == Emit(mode, line)
  {
    IndentKeepsText(line);
  }

  /** The number of lines and the text of each line without its leading white space never change. */
  lemma NormalizingKeepsText(lines: seq<string>)
    ensures |Normalized(lines)| == |lines|
    ensures forall i :: 0 <= i < |lines| ==> StripLeft(Normalized(lines)[i]) == StripLeft(lines[i])
  {
    forall i | 0 <= i < |lines| ensures StripLeft(Normalized(lines)[i]) == StripLeft(lines[i]) {
      EmitKeepsText(ModeAt(lines, i), lines[i]);
    }
  }

  lemma {:induction false} NormalizingKeepsModes(lines: seq<string>, out: seq<string>, n: nat)
    requires |out| == |lines| && n <= |lines|
    requires forall i {:trigger out[i]} :: 0 <= i < |lines| ==> out[i] == Emit(ModeAt(lines, i), lines[i])
    ensures ModeAt(out, n) == ModeAt(lines, n)
  {
    if n > 0 {
      NormalizingKeepsModes(lines, out, n - 1);
      EmitKeepsText(ModeAt(lines, n - 1), lines[n - 1]);
      assert out[n - 1] == Emit(ModeAt(lines, n - 1), lines[n - 1]);
    }
  }

  /** Normalizing twice is normalizing once. */
  lemma NormalizingIsIdempotent(lines: seq<string>)
    ensures Normalized(Normalized(lines)) == Normalized(lines)
  {
    var once := Normalized(lines);
    forall i | 0 <= i < |lines| ensures Normalized(once)[i] == once[i] {
      NormalizingKeepsModes(lines, once, i);
      EmitKeepsText(ModeAt(lines, i), lines[i]);
    }
  }

  /** A line of text, not a section opener, inside an admonition or a tab section. */
  predicate IsContent(lines: seq<string>, i: nat)
    requires i < |lines|
  {
    ModeAt(lines, i) != Outside && !IsTerminator(lines[i]) && !IsEmpty(lines[i])
  }

  lemma IndentStartsWithMargin(line: string)
    ensures MARGIN <= Indent(line) && (Indent(line) == line <==> MARGIN <= line)
  {
  }

  /** A document is left alone exactly when all its section content already has its four spaces. */
  lemma LeftAloneIffIndented(lines: seq<string>)
    ensures Normalized(lines) == lines <==> forall i :: 0 <= i < |lines| && IsContent(lines, i) ==> MARGIN <= lines[i]
  {
    forall i | 0 <= i < |lines|
      ensures Normalized(lines)[i] == lines[i] <==> (IsContent(lines, i) ==> MARGIN <= lines[i])
    {
      IndentStartsWithMargin(lines[i]);
    }
  }

  // ------------------------------------------------------------------ the description of tab sections

  /** No section opener from `a` up to `b`. */
  ghost predicate NoOpener(lines: seq<string>, a: nat, b: nat)
    requires b <= |lines|
  {
    forall k :: a <= k < b ==> !IsTerminator(lines[k])
  }

  ghost predicate HasBlank(lines: seq<string>, a: nat, b: nat)
    requires b <= |lines|
  {
    exists k :: a <= k < b && IsEmpty(lines[k])
  }

  /** The mode of a line is told by the last opener before it and a blank line after that one. */
  lemma {:induction false} ModeSinceOpener(lines: seq<string>, o: nat, i: nat)
    requires o < i <= |lines| && IsTerminator(lines[o]) && NoOpener(lines, o + 1, i)
    ensures ModeAt(lines, i)
            == if OpensAdmonition(lines[o]) then (if HasBlank(lines, o + 1, i) then Outside else Admonition)
               else if OpensTab(lines[o]) then Tab
               else Outside
  {
    hide IsTerminator, OpensAdmonition, OpensTab, IsEmpty;
    if o + 1 < i {
      var last := i - 1;
      ModeSinceOpener(lines, o, last);
      if k :| o + 1 <= k < i && IsEmpty(lines[k]) {
        assert k == last || HasBlank(lines, o + 1, last);
      }
    }
  }

  lemma {:induction false} LastOpener(lines: seq<string>, h: nat, i: nat) returns (o: nat)
    requires h < i <= |lines| && IsTerminator(lines[h])
    ensures h <= o < i && IsTerminator(lines[o]) && NoOpener(lines, o + 1, i)
  {
    hide IsTerminator;
    var last := i - 1;
    if IsTerminator(lines[last]) {
      o := last;
    } else {
      o := LastOpener(lines, h, last);
    }
  }

  /** Line `h` opens a tab section, and no further tab header and no heading comes before line `i`. */
  ghost predicate InTabSection(lines: seq<string>, h: nat, i: nat)
    requires i <= |lines|
  {
    && h < i && OpensTab(lines[h])
    && forall k :: h < k < i && IsTerminator(lines[k]) ==> OpensAdmonition(lines[k])
  }

  /** Line `o` is an admonition header and the last opener before line `i`, with a blank line in between. */
  ghost predicate ClosedAdmonition(lines: seq<string>, o: nat, i: nat)
    requires i <= |lines|
  {
    o < i && OpensAdmonition(lines[o]) && NoOpener(lines, o + 1, i) && HasBlank(lines, o + 1, i)
  }

  /**
    The description promises a margin for every line of text of a tab section.  The code forgets
    the section for exactly those lines whose last opener is an admonition that a blank line has
    closed; such a line gets no margin, all other lines of the section get theirs.
   */
  lemma TabSectionForgottenIff(lines: seq<string>, h: nat, i: nat)
    requires i < |lines| && InTabSection(lines, h, i) && !IsTerminator(lines[i]) && !IsEmpty(lines[i])
    ensures ModeAt(lines, i) == Outside <==> exists o: nat :: h < o && ClosedAdmonition(lines, o, i)
    ensures MARGIN <= Normalized(lines)[i]
            <==> MARGIN <= lines[i] || !exists o: nat :: h < o && ClosedAdmonition(lines, o, i)
  {
    OpenersAreTerminators(lines[h]);
    var last := LastOpener(lines, h, i);
    ModeSinceOpener(lines, last, i);
    hide IsTerminator, OpensTab, IsEmpty, ModeAt, OpensAdmonition, Indent;
    TabIsNoAdmonition(lines[h]);
    forall o: nat | h < o && ClosedAdmonition(lines, o, i) ensures o == last {
      OpenersAreTerminators(lines[o]);
    }
    if h < last { assert OpensAdmonition(lines[last]); }
    assert (exists o: nat :: h < o && ClosedAdmonition(lines, o, i)) <==> h < last && ClosedAdmonition(lines, last, i);
    IndentStartsWithMargin(lines[i]);
  }

  lemma OpenersAreTerminators(line: string)
    ensures OpensTab(line) || OpensAdmonition(line) ==> IsTerminator(line)
  {
  }

  lemma TabIsNoAdmonition(line: string)
    ensures !(OpensTab(line) && OpensAdmonition(line))
  {
    var head := StripLeft(line);
    if OpensTab(line) { assert head[0] == '='; }
    if OpensAdmonition(line) { assert head[0] == '!'; }
  }

  /** So an admonition inside a tab section does end the section for whatever follows its blank line. */
  lemma AdmonitionEndsTab(lines: seq<string>, h: nat, o: nat, i: nat)
    requires i < |lines| && InTabSection(lines, h, i) && !IsTerminator(lines[i]) && !IsEmpty(lines[i])
    requires h < o && ClosedAdmonition(lines, o, i)
    ensures Normalized(lines)[i] == lines[i]
  {
    TabSectionForgottenIff(lines, h, i);
  }

  // ------------------------------------------------------------------ line by line

  /** A tab header, a heading of the second or third level, or an admonition, however far it is indented. */
  predicate IsOpener(line: string) {
    var head := StripLeft(line);
    "=== " <= head || "## " <= head || "### " <= head || "!!! " <= head
  }

  predicate IsBlank(line: string) {
    forall c :: c in line ==> IsSpace(c)
  }

  lemma {:induction false} BlankIff(line: string)
    ensures IsEmpty(line) <==> IsBlank(line)
  {
    if line != [] {
      BlankIff(line[1..]);
      assert line == [line[0]] + line[1..];
      if !IsSpace(line[0]) {
        StripRightKeepsText(line);
        assert line[0] in line;
      }
    }
  }

  /**
    What becomes of each line, told by the last opener before it: content of a tab section, and of
    an admonition up to its first blank line, gets a margin of four spaces if it has none; openers,
    blank lines, what follows a heading and what no opener comes before stay as they are.
   */
  lemma LineBecomes(lines: seq<string>, o: int, i: nat)
    requires -1 <= o < i < |lines| && (o >= 0 ==> IsOpener(lines[o]))
    requires forall k :: o < k < i ==> !IsOpener(lines[k])
    ensures var open := o >= 0 && ("=== " <= StripLeft(lines[o])
                                   || ("!!! " <= StripLeft(lines[o]) && forall k :: o < k < i ==> !IsBlank(lines[k])));
            var margin := open && !IsOpener(lines[i]) && !IsBlank(lines[i]);
            Normalized(lines)[i] == if margin && !("    " <= lines[i]) then "    " + StripLeft(lines[i]) else lines[i]
  {
    hide StripLeft, IsEmpty, IsBlank, ModeAt;
    BlankIff(lines[i]);
    if o >= 0 {
      ModeSinceOpener(lines, o, i);
      TabIsNoAdmonition(lines[o]);
      forall k | o < k < i ensures IsEmpty(lines[k]) <==> IsBlank(lines[k]) { BlankIff(lines[k]); }
    } else {
      NoOpenerYet(lines, i);
    }
  }

  lemma {:induction false} NoOpenerYet(lines: seq<string>, i: nat)
    requires i <= |lines| && forall k :: 0 <= k < i ==> !IsTerminator(lines[k])
    ensures ModeAt(lines, i) == Outside
  {
    hide IsTerminator, IsEmpty;
    if i > 0 { NoOpenerYet(lines, i - 1); }
  }
}
